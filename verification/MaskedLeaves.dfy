/** What the leaf masker puts in a leaf's place, path by path (mask/gen_fixed.go:128-161). */
module MaskedLeaves {
  import opened Common
  import opened Json
  import opened Words
  import opened Draws
  import opened Lexicon
  import opened SortedText
  import opened NumberGenerators
  import opened OutputShapes
  import opened TextGenerators
  import opened TextShapes
  import opened MaskJson

  ghost predicate IsMaskOf(w: WordList, v: Json, out: Json) {
    exists ds :: Masked(w, v, ds).value == out
  }

  lemma {:induction false} ItemsAreMasks(w: WordList, v: Json, i: nat, now: seq<Json>, ds: seq<nat>)
    requires v.JArray? && i <= |v.items| == |now|
    ensures var r := MaskedItems(w, v, i, now, ds).value;
      && |r| == |v.items|
      && (forall j :: 0 <= j < i ==> r[j] == now[j])
      && (forall j :: i <= j < |r| ==> IsMaskOf(w, v.items[j], r[j]))
    decreases |v.items| - i
  {
    hide Masked;
    if i < |v.items| {
      var d := Masked(w, v.items[i], ds);
      assert IsMaskOf(w, v.items[i], d.value);
      hide IsMaskOf;
      ItemsAreMasks(w, v, i + 1, now[i := d.value], d.rest);
    }
  }

  lemma {:induction false} FieldsAreMasks(w: WordList, v: Json, keys: seq<string>, now: map<string, Json>, ds: seq<nat>)
    requires v.JObject? && Ordered(keys) && now.Keys == v.fields.Keys
    requires forall k :: k in keys ==> k in v.fields
    ensures var r := MaskedFields(w, v, keys, now, ds).value;
      && r.Keys == v.fields.Keys
      && (forall k :: k in r && k !in keys ==> r[k] == now[k])
      && (forall k :: k in keys ==> IsMaskOf(w, v.fields[k], r[k]))
    decreases |keys|
  {
    hide Masked;
    if keys != [] {
      var d := Masked(w, v.fields[keys[0]], ds);
      assert IsMaskOf(w, v.fields[keys[0]], d.value);
      hide IsMaskOf;
      FieldsAreMasks(w, v, keys[1..], now[keys[0] := d.value], d.rest);
      FirstIsNotLater(keys);
      assert forall k :: k in keys <==> k == keys[0] || k in keys[1..];
    }
  }

  /** Every child of a document is masked, at its own place. */
  lemma ChildrenAreMasked(w: WordList, v: Json, out: Json, s: Step)
    requires IsMaskOf(w, v, out)
    ensures Child(v, s).Some? <==> Child(out, s).Some?
    ensures Child(v, s).Some? ==> IsMaskOf(w, Child(v, s).value, Child(out, s).value)
  {
    var ds :| Masked(w, v, ds).value == out;
    match v
    case JArray(items) =>
      ItemsAreMasks(w, v, 0, items, ds);
    case JObject(fields) =>
      var keys := InOrder(fields.Keys);
      assert forall k :: k in keys <==> k in Elements(keys);
      FieldsAreMasks(w, v, keys, fields, ds);
    case JNumber(text) =>
      hide IsMaskOf;
    case _ =>
  }

  /** What may stand in a leaf's place. */
  ghost predicate IsMaskedLeaf(w: WordList, leaf: Json, out: Json) {
    match leaf
    case JNull => out.JNull?
    case JBool(_) => out.JBool?
    case JNumber(t) => out.JNumber? && if Fractional(t) then IsFraction(out.text) else IsWhole(out.text)
    case JString(_) => out.JString? && 1 <= |out.s| <= 24 && IsFilling(w.words, out.s)
    case _ => true
  }

  /** Up to six digits, the first no zero. */
  predicate IsWhole(t: string) {
    1 <= |t| <= 6 && Among(t, "0123456789") && t[0] != '0'
  }

  /** Three digits, the first no zero, a point and two digits. */
  predicate IsFraction(t: string) {
    |t| == 6 && t[0] != '0' && t[3] == '.' && Among(t[..3], "0123456789") && Among(t[4..], "0123456789")
  }

  lemma NumberIsMasked(w: WordList, text: string, ds: seq<nat>)
    ensures IsMaskedLeaf(w, JNumber(text), MaskedNumber(text, ds).value)
  {
    hide AllDigits, Among, Fractional;
    if Fractional(text) {
      var whole := Digits(3, false, ds);
      var part := Digits(2, true, whole.rest);
      LeadingDigit(3, ds);
      DigitsAreAmong(whole.value);
      DigitsAreDigits(2, true, whole.rest);
      DigitsAreAmong(part.value);
      var t := whole.value + "." + part.value;
      assert t[..3] == whole.value && t[4..] == part.value && t[3] == '.' && t[0] == whole.value[0];
    } else {
      var n := Intn(ds, 6);
      LeadingDigit(1 + n.value, n.rest);
      DigitsAreAmong(Digits(1 + n.value, false, n.rest).value);
    }
  }

  /** Wherever a path leads to a leaf, the masked document has a leaf there of the same kind,
      and it is drawn: listed words, a short number, a boolean, or null for null. */
  lemma {:induction false} EveryLeafIsDrawn(w: WordList, v: Json, out: Json, path: seq<Step>)
    requires Listed(w) && IsMaskOf(w, v, out)
    ensures Follow(v, path).Some? <==> Follow(out, path).Some?
    ensures Follow(v, path).Some? ==> IsMaskedLeaf(w, Follow(v, path).value, Follow(out, path).value)
    decreases path
  {
    if path == [] {
      var ds :| Masked(w, v, ds).value == out;
      LeafIsMasked(w, v, ds);
    } else {
      hide IsMaskOf, IsMaskedLeaf, Listed;
      ChildrenAreMasked(w, v, out, path[0]);
      if Child(v, path[0]).Some? {
        EveryLeafIsDrawn(w, Child(v, path[0]).value, Child(out, path[0]).value, path[1..]);
      }
    }
  }

  lemma LeafIsMasked(w: WordList, v: Json, ds: seq<nat>)
    requires Listed(w)
    ensures IsMaskedLeaf(w, v, Masked(w, v, ds).value)
  {
    hide Filler, IsFilling;
    match v
    case JNumber(text) =>
      NumberIsMasked(w, text, ds);
    case JString(_) =>
      var n := Intn(ds, LEAF_CHARS);
      FillersAreListed(w, 1 + n.value, n.rest);
    case _ =>
  }
}
