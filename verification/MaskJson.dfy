/** The JSON leaf masker (mask/gen_fixed.go:128-161). */
module MaskJson {
  import opened Common
  import opened Json
  import opened Words
  import opened Draws
  import opened SortedText
  import opened NumberGenerators
  import opened TextGenerators

  const LEAF_CHARS := 24

  /** strings.ContainsAny(text, ".eE"). */
  predicate Fractional(text: string) {
    exists i :: 0 <= i < |text| && (text[i] == '.' || text[i] == 'e' || text[i] == 'E')
  }

  /** The same key sets, array lengths and leaf kinds; an integer and a fraction are two kinds. */
  predicate SameShape(a: Json, b: Json)
    decreases a
  {
    match a
    case JNull => b.JNull?
    case JBool(_) => b.JBool?
    case JNumber(t) => b.JNumber? && Fractional(t) == Fractional(b.text)
    case JString(_) => b.JString?
    case JArray(items) =>
      b.JArray? && |items| == |b.items| && forall i :: 0 <= i < |items| ==> SameShape(items[i], b.items[i])
    case JObject(fields) =>
      b.JObject? && fields.Keys == b.fields.Keys && forall k :: k in fields ==> SameShape(fields[k], b.fields[k])
  }

  // ---------- what the walk returns ----------

  function MaskedNumber(text: string, ds: seq<nat>): Drawn<Json> {
    if Fractional(text) then
      var whole := Digits(3, false, ds);
      var part := Digits(2, true, whole.rest);
      Drawn(JNumber(whole.value + "." + part.value), part.rest)
    else
      var n := Intn(ds, 6);
      var whole := Digits(1 + n.value, false, n.rest);
      Drawn(JNumber(whole.value), whole.rest)
  }

  ghost function Masked(w: WordList, v: Json, ds: seq<nat>): Drawn<Json>
    decreases v
  {
    match v
    case JNull => Drawn(JNull, ds)
    case JBool(_) => var d := Intn(ds, 2); Drawn(JBool(d.value == 1), d.rest)
    case JNumber(text) => MaskedNumber(text, ds)
    case JString(_) =>
      var n := Intn(ds, LEAF_CHARS);
      var f := Filler(w, 1 + n.value, n.rest);
      Drawn(JString(f.value), f.rest)
    case JArray(items) =>
      var d := MaskedItems(w, v, 0, items, ds);
      Drawn(JArray(d.value), d.rest)
    case JObject(fields) =>
      var d := MaskedFields(w, v, InOrder(fields.Keys), fields, ds);
      Drawn(JObject(d.value), d.rest)
  }

  /** The items from i on overwritten in place. */
  ghost function MaskedItems(w: WordList, v: Json, i: nat, now: seq<Json>, ds: seq<nat>): Drawn<seq<Json>>
    requires v.JArray? && i <= |v.items| == |now|
    decreases v, |v.items| - i
  {
    if i == |v.items| then Drawn(now, ds)
    else
      var d := Masked(w, v.items[i], ds);
      MaskedItems(w, v, i + 1, now[i := d.value], d.rest)
  }

  /** The fields of these keys overwritten in place, in that order. */
  ghost function MaskedFields(w: WordList, v: Json, keys: seq<string>, now: map<string, Json>, ds: seq<nat>)
    : Drawn<map<string, Json>>
    requires v.JObject? && forall k :: k in keys ==> k in v.fields
    decreases v, |keys|
  {
    if keys == [] then Drawn(now, ds)
    else
      var d := Masked(w, v.fields[keys[0]], ds);
      MaskedFields(w, v, keys[1..], now[keys[0] := d.value], d.rest)
  }

  // ---------- the walk ----------

  /** maskJSON: arrays in index order, objects in sorted key order, each value overwritten. */
  method MaskJSON(w: WordList, tape: Tape, v: Json) returns (out: Json)
    modifies tape
    ensures Drawn(out, tape.left) == Masked(w, v, old(tape.left))
    decreases v, 1
  {
    hide Filler, MaskedNumber, Valid, InOrder;
    match v
    case JNull =>
      return JNull;
    case JBool(_) =>
      var b := tape.NextIntn(2);
      return JBool(b == 1);
    case JNumber(text) =>
      out := MaskNumber(tape, text);
    case JString(_) =>
      var n := tape.NextIntn(LEAF_CHARS);
      var s := FillerFrom(w, tape, 1 + n);
      return JString(s);
    case JArray(items) =>
      var now := MaskItems(w, tape, v);
      return JArray(now);
    case JObject(fields) =>
      var now := MaskFields(w, tape, v);
      return JObject(now);
  }

  method MaskItems(w: WordList, tape: Tape, v: Json) returns (now: seq<Json>)
    requires v.JArray?
    modifies tape
    ensures Drawn(now, tape.left) == MaskedItems(w, v, 0, v.items, old(tape.left))
    decreases v, 0
  {
    hide Valid, Masked;
    ghost var start := tape.left;
    now := v.items;
    for i := 0 to |v.items|
      invariant |now| == |v.items|
      invariant MaskedItems(w, v, i, now, tape.left) == MaskedItems(w, v, 0, v.items, start)
    {
      var item := MaskJSON(w, tape, v.items[i]);
      now := now[i := item];
    }
  }

  method MaskFields(w: WordList, tape: Tape, v: Json) returns (now: map<string, Json>)
    requires v.JObject?
    modifies tape
    ensures Drawn(now, tape.left) == MaskedFields(w, v, InOrder(v.fields.Keys), v.fields, old(tape.left))
    decreases v, 0
  {
    hide Valid, Masked, InOrder, Ordered;
    ghost var start := tape.left;
    var keys := SortedElements(v.fields.Keys);
    assert forall k :: k in keys ==> k in Elements(keys);
    assert keys[0..] == keys;
    now := v.fields;
    for i := 0 to |keys|
      invariant MaskedFields(w, v, keys[i..], now, tape.left) == MaskedFields(w, v, keys, v.fields, start)
    {
      assert keys[i..][1..] == keys[i + 1..] && keys[i] in Elements(keys);
      var field := MaskJSON(w, tape, v.fields[keys[i]]);
      now := now[keys[i] := field];
    }
  }

  method MaskNumber(tape: Tape, text: string) returns (out: Json)
    modifies tape
    ensures Drawn(out, tape.left) == MaskedNumber(text, old(tape.left))
  {
    if Fractional(text) {
      var whole := tape.NextDigits(3, false);
      var part := tape.NextDigits(2, true);
      return JNumber(whole + "." + part);
    }
    var n := tape.NextIntn(6);
    var whole := tape.NextDigits(1 + n, false);
    return JNumber(whole);
  }

  // ---------- the shape is kept ----------

  lemma NumberKeepsItsKind(text: string, ds: seq<nat>)
    ensures SameShape(JNumber(text), MaskedNumber(text, ds).value)
  {
    hide AllDigits;
    if Fractional(text) {
      assert MaskedNumber(text, ds).value.text[3] == '.';
    } else {
      var n := Intn(ds, 6);
      DigitsAreDigits(1 + n.value, false, n.rest);
      DigitsAreWhole(Digits(1 + n.value, false, n.rest).value);
    }
  }

  lemma DigitsAreWhole(s: DigitString)
    ensures !Fractional(s)
  {
  }

  /** The masked document has the original's key sets, array lengths and leaf kinds. */
  lemma {:induction false} ShapeIsKept(w: WordList, v: Json, ds: seq<nat>)
    ensures SameShape(v, Masked(w, v, ds).value)
    decreases v
  {
    match v
    case JNumber(text) =>
      NumberKeepsItsKind(text, ds);
    case JArray(items) =>
      ItemsKeepShape(w, v, 0, items, ds);
    case JObject(fields) =>
      var keys := InOrder(fields.Keys);
      assert forall k :: k in keys <==> k in Elements(keys);
      FieldsKeepShape(w, v, keys, fields, ds);
    case _ =>
  }

  lemma {:induction false} ItemsKeepShape(w: WordList, v: Json, i: nat, now: seq<Json>, ds: seq<nat>)
    requires v.JArray? && i <= |v.items| == |now|
    ensures var r := MaskedItems(w, v, i, now, ds).value;
      && |r| == |v.items|
      && (forall j :: 0 <= j < i ==> r[j] == now[j])
      && (forall j :: i <= j < |r| ==> SameShape(v.items[j], r[j]))
    decreases v, |v.items| - i
  {
    hide SameShape;
    if i < |v.items| {
      var d := Masked(w, v.items[i], ds);
      ShapeIsKept(w, v.items[i], ds);
      ItemsKeepShape(w, v, i + 1, now[i := d.value], d.rest);
    }
  }

  lemma {:induction false} FieldsKeepShape(w: WordList, v: Json, keys: seq<string>, now: map<string, Json>, ds: seq<nat>)
    requires v.JObject? && Ordered(keys) && now.Keys == v.fields.Keys
    requires forall k :: k in keys ==> k in v.fields
    ensures var r := MaskedFields(w, v, keys, now, ds).value;
      && r.Keys == v.fields.Keys
      && (forall k :: k in r && k !in keys ==> r[k] == now[k])
      && (forall k :: k in keys ==> SameShape(v.fields[k], r[k]))
    decreases v, |keys|
  {
    hide SameShape;
    if keys != [] {
      var d := Masked(w, v.fields[keys[0]], ds);
      ShapeIsKept(w, v.fields[keys[0]], ds);
      FieldsKeepShape(w, v, keys[1..], now[keys[0] := d.value], d.rest);
      FirstIsNotLater(keys);
      assert forall k :: k in keys <==> k == keys[0] || k in keys[1..];
    }
  }

  lemma FirstIsNotLater(keys: seq<string>)
    requires Ordered(keys) && keys != []
    ensures keys[0] !in keys[1..]
  {
    FirstIsAlone(keys);
    assert forall k :: k in keys[1..] ==> k in Elements(keys[1..]);
  }

  // ---------- and nothing else is told ----------

  /** Two documents of one shape mask to the same document, and leave the stream alike. */
  lemma {:induction false} OnlyTheShapeIsRead(w: WordList, a: Json, b: Json, ds: seq<nat>)
    requires SameShape(a, b)
    ensures Masked(w, a, ds) == Masked(w, b, ds)
    decreases a
  {
    match a
    case JArray(items) =>
      ItemsReadShape(w, a, b, 0, items, b.items, ds);
    case JObject(fields) =>
      var keys := InOrder(fields.Keys);
      assert forall k :: k in keys <==> k in Elements(keys);
      FieldsReadShape(w, a, b, keys, fields, b.fields, ds);
    case _ =>
  }

  lemma {:induction false} ItemsReadShape(w: WordList, a: Json, b: Json, i: nat, now: seq<Json>, theirs: seq<Json>, ds: seq<nat>)
    requires a.JArray? && SameShape(a, b) && i <= |a.items| == |now| == |theirs|
    requires forall j :: 0 <= j < i ==> now[j] == theirs[j]
    ensures MaskedItems(w, a, i, now, ds) == MaskedItems(w, b, i, theirs, ds)
    decreases a, |a.items| - i
  {
    if i < |a.items| {
      OnlyTheShapeIsRead(w, a.items[i], b.items[i], ds);
      var d := Masked(w, a.items[i], ds);
      ItemsReadShape(w, a, b, i + 1, now[i := d.value], theirs[i := d.value], d.rest);
    } else {
      assert now == theirs;
    }
  }

  lemma {:induction false} FieldsReadShape(w: WordList, a: Json, b: Json, keys: seq<string>,
                                           now: map<string, Json>, theirs: map<string, Json>, ds: seq<nat>)
    requires a.JObject? && SameShape(a, b) && now.Keys == theirs.Keys
    requires forall k :: k in keys ==> k in a.fields
    requires forall k :: k in now && k !in keys ==> now[k] == theirs[k]
    ensures MaskedFields(w, a, keys, now, ds) == MaskedFields(w, b, keys, theirs, ds)
    decreases a, |keys|
  {
    if keys != [] {
      OnlyTheShapeIsRead(w, a.fields[keys[0]], b.fields[keys[0]], ds);
      var d := Masked(w, a.fields[keys[0]], ds);
      FieldsReadShape(w, a, b, keys[1..], now[keys[0] := d.value], theirs[keys[0] := d.value], d.rest);
    } else {
      assert now == theirs;
    }
  }
}
