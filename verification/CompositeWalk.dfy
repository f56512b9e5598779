/** The search for a document field inside a composite type, through the composites its
    fields name (internal/classify/types.go:184-293). */
module CompositeWalk {
  import opened Common
  import opened CompositeText
  import opened CompositeNames
  import D = DomainText

  /** A definition as the catalog renders it, under schema, dot and name. */
  datatype NamedDef = NamedDef(name: string, def: string)

  datatype Schema = Schema(composites: seq<NamedDef>, domains: seq<NamedDef>)

  function NamesIn(defs: seq<NamedDef>): (names: seq<string>)
    ensures |names| == |defs|
  {
    seq(|defs|, i requires 0 <= i < |defs| => defs[i].name)
  }

  function NamesOf(schema: Schema): (names: seq<string>)
    ensures |names| == |schema.composites|
  {
    NamesIn(schema.composites)
  }

  /** The base type text of the first domain of that name, by either spelling. */
  function DomainBase(schema: Schema, name: string): Option<string> {
    match FindIn(NamesIn(schema.domains), name)
    case None => None
    case Some(d) => D.BaseOfDef(schema.domains[d].def)
  }

  method ReadDomainBase(schema: Schema, name: string) returns (base: Option<string>)
    ensures base == DomainBase(schema, name)
  {
    hide D.BaseOfDef, Spells;
    for d := 0 to |schema.domains|
      invariant FindIn(NamesIn(schema.domains), name) == FindFrom(NamesIn(schema.domains), name, d)
    {
      if !Spells(schema.domains[d].name, name) {
        continue;
      }
      base := D.ReadBase(schema.domains[d].def);
      return;
    }
    return None;
  }

  /** The type a field comes down to: array suffixes and modifier off, one domain resolved. */
  function TypeName(schema: Schema, typ: string): string {
    var name := StripTypmod(StripArrays(typ));
    match DomainBase(schema, name)
    case None => name
    case Some(base) => StripTypmod(StripArrays(base))
  }

  method WithoutArrays(typ: string) returns (name: string)
    ensures name == StripArrays(typ)
  {
    name := typ;
    while |name| >= 2 && name[|name| - 2..] == "[]"
      invariant StripArrays(name) == StripArrays(typ)
      decreases |name|
    {
      name := name[..|name| - 2];
    }
  }

  method ResolveTypeName(schema: Schema, typ: string) returns (name: string)
    ensures name == TypeName(schema, typ)
  {
    name := WithoutArrays(typ);
    name := StripTypmod(name);
    var base := ReadDomainBase(schema, name);
    if base.Some? {
      name := WithoutArrays(base.value);
      name := StripTypmod(name);
    }
  }

  function FamilyName(name: string): string {
    Lower(BareTypeName(name))
  }

  predicate IsDocument(name: string) {
    DocumentFamily(BareTypeName(name))
  }

  function Find(schema: Schema, name: string): (r: Option<nat>)
    ensures r.Some? ==> r.value < |schema.composites|
  {
    FindIn(NamesOf(schema), name)
  }

  method FindComposite(schema: Schema, name: string) returns (r: Option<nat>)
    ensures r == Find(schema, name)
  {
    for i := 0 to |schema.composites|
      invariant Find(schema, name) == FindFrom(NamesOf(schema), name, i)
    {
      if Spells(schema.composites[i].name, name) {
        return Some(i);
      }
    }
    return None;
  }

  // ---------- what is reachable ----------

  function Key(schema: Schema, i: nat): string
    requires i < |schema.composites|
  {
    Unquoted(schema.composites[i].name)
  }

  function Keys(schema: Schema): set<string> {
    set i | 0 <= i < |schema.composites| :: Key(schema, i)
  }

  function FieldsAt(schema: Schema, i: nat): seq<Attribute>
    requires i < |schema.composites|
  {
    FieldsOfDef(schema.composites[i].def)
  }

  /** The k-th field of the i-th composite. */
  predicate Documents(schema: Schema, i: nat, k: nat) {
    i < |schema.composites| && k < |FieldsAt(schema, i)| &&
    IsDocument(TypeName(schema, FieldsAt(schema, i)[k].typ))
  }

  predicate Nests(schema: Schema, i: nat, k: nat, j: nat) {
    i < |schema.composites| && k < |FieldsAt(schema, i)| && !Documents(schema, i, k) &&
    Find(schema, TypeName(schema, FieldsAt(schema, i)[k].typ)) == Some(j)
  }

  /** From composite i to composite j through n nested fields. */
  ghost predicate Reaches(schema: Schema, i: nat, j: nat, n: nat)
    decreases n
  {
    if n == 0 then i == j else exists m: nat, k: nat :: Nests(schema, i, k, m) && Reaches(schema, m, j, n - 1)
  }

  /** The type a document field is declared on, the field and its family. */
  datatype Hit = Hit(holder: string, field: string, family: string)

  function HitAt(schema: Schema, j: nat, k: nat): Hit
    requires j < |schema.composites| && k < |FieldsAt(schema, j)|
  {
    var f := FieldsAt(schema, j)[k];
    Hit(schema.composites[j].name, f.name, FamilyName(TypeName(schema, f.typ)))
  }

  ghost predicate HitFrom(schema: Schema, i: nat, hit: Hit) {
    exists j: nat, n: nat, k: nat ::
      Reaches(schema, i, j, n) && Documents(schema, j, k) && hit == HitAt(schema, j, k)
  }

  lemma HitThroughField(schema: Schema, i: nat, k: nat, m: nat, hit: Hit)
    requires Nests(schema, i, k, m) && HitFrom(schema, m, hit)
    ensures HitFrom(schema, i, hit)
  {
    var j: nat, n: nat, f: nat :| Reaches(schema, m, j, n) && Documents(schema, j, f) && hit == HitAt(schema, j, f);
    assert Reaches(schema, i, j, n + 1);
  }

  lemma DocumentHit(schema: Schema, i: nat, k: nat)
    requires Documents(schema, i, k)
    ensures HitFrom(schema, i, HitAt(schema, i, k))
  {
    assert Reaches(schema, i, i, 0);
  }

  // ---------- the walk ----------

  /** What a walk found and the keys marked so far. */
  datatype Walk = Walk(hit: Option<Hit>, seen: set<string>)

  function WalkOf(schema: Schema, name: string, seen: set<string>): (w: Walk)
    ensures seen <= w.seen
    decreases Keys(schema) - seen, 0
  {
    var found := Find(schema, name);
    if found.None? || Key(schema, found.value) in seen then Walk(None, seen)
    else
      assert Key(schema, found.value) in Keys(schema);
      WalkFields(schema, found.value, 0, seen + {Key(schema, found.value)})
  }

  function WalkFields(schema: Schema, i: nat, k: nat, seen: set<string>): (w: Walk)
    requires i < |schema.composites| && k <= |FieldsAt(schema, i)|
    ensures seen <= w.seen
    decreases Keys(schema) - seen, |FieldsAt(schema, i)| - k + 1
  {
    if k == |FieldsAt(schema, i)| then Walk(None, seen)
    else if Documents(schema, i, k) then Walk(Some(HitAt(schema, i, k)), seen)
    else
      var inner := WalkOf(schema, TypeName(schema, FieldsAt(schema, i)[k].typ), seen);
      if inner.hit.Some? then inner else WalkFields(schema, i, k + 1, inner.seen)
  }

  class Walker {
    var seen: set<string>

    constructor ()
      ensures seen == {}
    {
      seen := {};
    }

    /** documentFieldWalk, `seen` being the map its calls share. */
    method DocumentField(schema: Schema, typeName: string) returns (hit: Option<Hit>)
      modifies this
      ensures Walk(hit, seen) == WalkOf(schema, typeName, old(seen))
      decreases Keys(schema) - seen
    {
      hide TypeName, DocumentFamily, BareTypeName, FieldsOfDef, Unquoted, Find;
      var found := FindComposite(schema, typeName);
      if found.None? {
        return None;
      }
      var i := found.value;
      var key := Key(schema, i);
      if key in seen {
        return None;
      }
      assert key in Keys(schema);
      seen := seen + {key};
      ghost var marked := seen;
      var fields := CompositeFields(schema.composites[i].def);
      for k := 0 to |fields|
        invariant marked <= seen
        invariant WalkFields(schema, i, 0, marked) == WalkFields(schema, i, k, seen)
      {
        var name := ResolveTypeName(schema, fields[k].typ);
        if IsDocument(name) {
          return Some(Hit(schema.composites[i].name, fields[k].name, FamilyName(name)));
        }
        var inner := FindComposite(schema, name);
        if inner.Some? {
          hit := DocumentField(schema, name);
          if hit.Some? {
            return hit;
          }
        }
      }
      return None;
    }
  }

  function Search(schema: Schema, typeName: string): Option<Hit> {
    WalkOf(schema, typeName, {}).hit
  }

  /** compositeDocumentField. */
  method CompositeDocumentField(schema: Schema, typeName: string) returns (hit: Option<Hit>)
    ensures hit == Search(schema, typeName)
    ensures hit.Some? ==> Find(schema, typeName).Some? && HitFrom(schema, Find(schema, typeName).value, hit.value)
    ensures KeysTellApart(NamesOf(schema)) ==> Finds(schema, typeName)
  {
    hide WalkOf, Finds, Find, HitFrom;
    var walker := new Walker();
    hit := walker.DocumentField(schema, typeName);
    WalkIsSound(schema, typeName, {});
    if KeysTellApart(NamesOf(schema)) {
      SearchIsComplete(schema, typeName);
    }
  }

  // ---------- what it reports is there ----------

  lemma {:induction false} WalkIsSound(schema: Schema, name: string, seen: set<string>)
    ensures var w := WalkOf(schema, name, seen);
      w.hit.Some? ==> Find(schema, name).Some? && HitFrom(schema, Find(schema, name).value, w.hit.value)
    decreases Keys(schema) - seen, 0
  {
    hide Find, HitFrom, FieldsAt, Unquoted;
    var found := Find(schema, name);
    if found.Some? && Key(schema, found.value) !in seen {
      assert Key(schema, found.value) in Keys(schema);
      FieldsAreSound(schema, found.value, 0, seen + {Key(schema, found.value)});
    }
  }

  lemma {:induction false} FieldsAreSound(schema: Schema, i: nat, k: nat, seen: set<string>)
    requires i < |schema.composites| && k <= |FieldsAt(schema, i)|
    ensures var w := WalkFields(schema, i, k, seen); w.hit.Some? ==> HitFrom(schema, i, w.hit.value)
    decreases Keys(schema) - seen, |FieldsAt(schema, i)| - k + 1
  {
    hide Find, HitFrom, FieldsAt, Key, TypeName, IsDocument;
    if k < |FieldsAt(schema, i)| {
      if Documents(schema, i, k) {
        DocumentHit(schema, i, k);
      } else {
        var name := TypeName(schema, FieldsAt(schema, i)[k].typ);
        var inner := WalkOf(schema, name, seen);
        WalkIsSound(schema, name, seen);
        if inner.hit.Some? {
          HitThroughField(schema, i, k, Find(schema, name).value, inner.hit.value);
        } else {
          FieldsAreSound(schema, i, k + 1, inner.seen);
        }
      }
    }
  }

  // ---------- what is there it reports, where keys tell composites apart ----------

  /** The search reports a document field exactly when one is reachable. */
  ghost predicate Finds(schema: Schema, name: string) {
    Search(schema, name).Some? <==> Find(schema, name).Some? && exists hit :: HitFrom(schema, Find(schema, name).value, hit)
  }

  ghost predicate Nestable(schema: Schema, j: nat) {
    j < |schema.composites| && Findable(NamesOf(schema), j, true)
  }

  /** No document, and the composite it names, if any, is seen. */
  ghost predicate FieldWalked(schema: Schema, i: nat, k: nat, seen: set<string>) {
    !Documents(schema, i, k) &&
    forall j: nat :: Nests(schema, i, k, j) ==> j < |schema.composites| && Key(schema, j) in seen
  }

  ghost predicate WalkedAt(schema: Schema, i: nat, n: nat, seen: set<string>) {
    forall k: nat | k < n :: FieldWalked(schema, i, k, seen)
  }

  /** Every composite of these keys that a field may name was walked to its end without a hit. */
  ghost predicate Walked(schema: Schema, keys: set<string>, seen: set<string>) {
    forall j: nat | Nestable(schema, j) && Key(schema, j) in keys ::
      WalkedAt(schema, j, |FieldsAt(schema, j)|, seen)
  }

  lemma WalkedAtGrows(schema: Schema, i: nat, n: nat, before: set<string>, after: set<string>)
    requires before <= after && WalkedAt(schema, i, n, before)
    ensures WalkedAt(schema, i, n, after)
  {
    hide Documents, Nests, Key;
    forall k: nat | k < n ensures FieldWalked(schema, i, k, after) {
      assert FieldWalked(schema, i, k, before);
    }
  }

  /** One more field that holds no document and names nothing unseen. */
  lemma WalkedAtNext(schema: Schema, i: nat, k: nat, seen: set<string>)
    requires i < |schema.composites| && k < |FieldsAt(schema, i)| && WalkedAt(schema, i, k, seen)
    requires var name := TypeName(schema, FieldsAt(schema, i)[k].typ);
      !IsDocument(name) && (Find(schema, name).Some? ==> Key(schema, Find(schema, name).value) in seen)
    ensures WalkedAt(schema, i, k + 1, seen)
  {
    hide TypeName, IsDocument, FieldsAt, Key, Find;
  }

  lemma WalkedGrows(schema: Schema, keys: set<string>, before: set<string>, after: set<string>)
    requires before <= after
    requires Walked(schema, keys, before) && Walked(schema, after - before, after)
    ensures Walked(schema, keys + (after - before), after)
  {
    hide Documents, Nests, Findable;
    forall i: nat | Nestable(schema, i) && Key(schema, i) in keys + (after - before)
      ensures WalkedAt(schema, i, |FieldsAt(schema, i)|, after)
    {
      if Key(schema, i) in keys {
        WalkedAtGrows(schema, i, |FieldsAt(schema, i)|, before, after);
      }
    }
  }

  lemma WhatIsFoundIsFindable(schema: Schema, name: string)
    ensures var found := Find(schema, name); found.Some? ==>
      Findable(NamesOf(schema), found.value, false) && (!IsDocument(name) ==> Nestable(schema, found.value))
  {
    hide Findable, FindIn, DocumentFamily, BareTypeName;
    if Find(schema, name).Some? {
      FoundIsFindable(NamesOf(schema), name, Find(schema, name).value, false);
      if !IsDocument(name) {
        FoundIsFindable(NamesOf(schema), name, Find(schema, name).value, true);
      }
    }
  }

  /** Of the composites a field may name only the one just walked has its key. */
  lemma LastOfTheWalk(schema: Schema, i: nat, before: set<string>, seen: set<string>)
    requires i < |schema.composites| && Findable(NamesOf(schema), i, false) && KeysTellApart(NamesOf(schema))
    requires WalkedAt(schema, i, |FieldsAt(schema, i)|, seen)
    requires Walked(schema, seen - (before + {Key(schema, i)}), seen)
    ensures Walked(schema, seen - before, seen)
  {
    hide WalkedAt, FieldsAt, Findable, Unquoted;
    forall j: nat | Nestable(schema, j) && Key(schema, j) in seen - before
      ensures WalkedAt(schema, j, |FieldsAt(schema, j)|, seen)
    {
      if Key(schema, j) == Key(schema, i) {
        assert NamesOf(schema)[i] == schema.composites[i].name && NamesOf(schema)[j] == schema.composites[j].name;
        assert i == j;
      }
    }
  }

  lemma {:induction false} WalkCloses(schema: Schema, name: string, seen: set<string>)
    requires KeysTellApart(NamesOf(schema))
    ensures var w := WalkOf(schema, name, seen); w.hit.None? ==>
      && Walked(schema, w.seen - seen, w.seen)
      && (Find(schema, name).Some? ==>
            var i := Find(schema, name).value;
            Key(schema, i) in w.seen && (Key(schema, i) !in seen ==> WalkedAt(schema, i, |FieldsAt(schema, i)|, w.seen)))
    decreases Keys(schema) - seen, 0
  {
    hide Find, KeysTellApart, FieldsAt, Unquoted, Nestable, WalkedAt, WalkFields, Findable;
    var found := Find(schema, name);
    if found.Some? && Key(schema, found.value) !in seen {
      var i := found.value;
      var marked := seen + {Key(schema, i)};
      assert Key(schema, i) in Keys(schema);
      NothingWalked(schema, i, marked);
      FieldsClose(schema, i, 0, marked);
      WhatIsFoundIsFindable(schema, name);
      if WalkOf(schema, name, seen).hit.None? {
        LastOfTheWalk(schema, i, seen, WalkOf(schema, name, seen).seen);
      }
    }
  }

  lemma NothingWalked(schema: Schema, i: nat, seen: set<string>)
    ensures WalkedAt(schema, i, 0, seen) && Walked(schema, seen - seen, seen)
  {
  }

  lemma {:induction false} FieldsClose(schema: Schema, i: nat, k: nat, seen: set<string>)
    requires KeysTellApart(NamesOf(schema))
    requires i < |schema.composites| && k <= |FieldsAt(schema, i)| && WalkedAt(schema, i, k, seen)
    ensures var w := WalkFields(schema, i, k, seen); w.hit.None? ==>
      Walked(schema, w.seen - seen, w.seen) && WalkedAt(schema, i, |FieldsAt(schema, i)|, w.seen)
    decreases Keys(schema) - seen, |FieldsAt(schema, i)| - k + 1
  {
    hide Find, KeysTellApart, FieldsAt, Key, TypeName, IsDocument, Walked, WalkedAt;
    NothingWalked(schema, i, seen);
    if k < |FieldsAt(schema, i)| && !Documents(schema, i, k) {
      var name := TypeName(schema, FieldsAt(schema, i)[k].typ);
      var inner := WalkOf(schema, name, seen);
      WalkCloses(schema, name, seen);
      if inner.hit.None? {
        WalkedAtGrows(schema, i, k, seen, inner.seen);
        WalkedAtNext(schema, i, k, inner.seen);
        FieldsClose(schema, i, k + 1, inner.seen);
        var w := WalkFields(schema, i, k + 1, inner.seen);
        if w.hit.None? {
          WalkedGrows(schema, inner.seen - seen, inner.seen, w.seen);
          assert (inner.seen - seen) + (w.seen - inner.seen) == w.seen - seen;
        }
      }
    }
  }

  lemma {:induction false} WalkedIsClosed(schema: Schema, seen: set<string>, i: nat, j: nat, n: nat)
    requires i < |schema.composites| && Walked(schema, seen, seen) && WalkedAt(schema, i, |FieldsAt(schema, i)|, seen)
    ensures Reaches(schema, i, j, n) ==> forall k: nat :: !Documents(schema, j, k)
    decreases n
  {
    hide Documents, Nests, FieldsAt, Findable, WalkedAt;
    if n == 0 {
      NoDocumentPastTheEnd(schema, i, seen);
    } else if Reaches(schema, i, j, n) {
      var m: nat, k: nat :| Nests(schema, i, k, m) && Reaches(schema, m, j, n - 1);
      NestsIsSeen(schema, i, k, m, seen);
      WalkedIsClosed(schema, seen, m, j, n - 1);
    }
  }

  lemma NestsIsSeen(schema: Schema, i: nat, k: nat, m: nat, seen: set<string>)
    requires i < |schema.composites| && Nests(schema, i, k, m) && WalkedAt(schema, i, |FieldsAt(schema, i)|, seen)
    ensures Nestable(schema, m) && Key(schema, m) in seen
  {
    hide Findable;
    assert FieldWalked(schema, i, k, seen);
    WhatIsFoundIsFindable(schema, TypeName(schema, FieldsAt(schema, i)[k].typ));
  }

  lemma NoDocumentPastTheEnd(schema: Schema, i: nat, seen: set<string>)
    requires i < |schema.composites| && WalkedAt(schema, i, |FieldsAt(schema, i)|, seen)
    ensures forall k: nat :: !Documents(schema, i, k)
  {
    forall k: nat ensures !Documents(schema, i, k) {
      assert k < |FieldsAt(schema, i)| ==> FieldWalked(schema, i, k, seen);
    }
  }

  lemma SearchIsComplete(schema: Schema, name: string)
    requires KeysTellApart(NamesOf(schema))
    ensures Finds(schema, name)
  {
    hide Find, KeysTellApart, FieldsAt, Key, WalkedAt, WalkOf, Walked, Documents;
    WalkIsSound(schema, name, {});
    WalkCloses(schema, name, {});
    var w := WalkOf(schema, name, {});
    if w.hit.None? && Find(schema, name).Some? {
      var i := Find(schema, name).value;
      assert w.seen - {} == w.seen;
      forall hit ensures !HitFrom(schema, i, hit) {
        forall j: nat, n: nat ensures Reaches(schema, i, j, n) ==> forall k: nat :: !Documents(schema, j, k) {
          WalkedIsClosed(schema, w.seen, i, j, n);
        }
      }
    }
  }

  // ---------- where they do not, some definitions hide a document ----------

  function FieldOf(typ: TypeText): Column {
    RawColumn("f", false, typ)
  }

  function Json(): TypeText {
    assert Protected("n", 0, false) && Protected("on", 0, false) && Protected("son", 0, false);
    "json"
  }

  /** Composite i holds one field of the given type, every other one a json field. */
  function OneJsonEach(names: seq<string>, i: nat, typ: TypeText): Schema {
    Schema(seq(|names|, m requires 0 <= m < |names| =>
             NamedDef(names[m], PrintDef("t", [FieldOf(if m == i then typ else Json())]))),
           [])
  }

  lemma OneFieldIsRead(names: seq<string>, i: nat, typ: TypeText, m: nat)
    requires m < |names|
    ensures FieldsAt(OneJsonEach(names, i, typ), m) == [Attribute("f", if m == i then typ else Json())]
  {
    hide FieldsOfDef, PrintDef, Rendered;
    var c := FieldOf(if m == i then typ else Json());
    FieldsAreReadBack("t", [c]);
    assert Meant([c]) == [Attribute("f", c.typ)];
  }

  /** The walk that starts at i takes j, of the same key, for a type it has been to. */
  lemma TheTwinIsSkipped(names: seq<string>, start: string, i: nat, typ: TypeText, j: nat)
    requires FindIn(names, start) == Some(i) && FindIn(names, typ) == Some(j) && i != j
    requires Unquoted(names[i]) == Unquoted(names[j]) && !DocumentFamily(BareTypeName(typ))
    requires StripTypmod(StripArrays(typ)) == typ
    ensures var schema := OneJsonEach(names, i, typ);
      && NamesOf(schema) == names && Search(schema, start) == None
      && HitFrom(schema, i, Hit(names[j], "f", "json"))
  {
    hide FieldsAt, Unquoted, BareTypeName, FindIn, DocumentFamily, StripTypmod, StripArrays, Rendered, Lower;
    var schema := OneJsonEach(names, i, typ);
    assert NamesOf(schema) == names;
    OneFieldIsRead(names, i, typ, i);
    OneFieldIsRead(names, i, typ, j);
    JsonIsADocument(schema);
    assert Nests(schema, i, 0, j) && Documents(schema, j, 0);
    assert HitAt(schema, j, 0) == Hit(names[j], "f", "json");
    DocumentHit(schema, j, 0);
    HitThroughField(schema, i, 0, j, HitAt(schema, j, 0));
    var seen := {} + {Key(schema, i)};
    assert WalkFields(schema, i, 1, seen) == Walk(None, seen);
    assert WalkFields(schema, i, 0, seen) == Walk(None, seen);
  }

  lemma JsonIsADocument(schema: Schema)
    requires schema.domains == []
    ensures Json() == "json" && TypeName(schema, "json") == "json" && FamilyName("json") == "json"
    ensures IsDocument("json")
  {
    assert BeforeParen("json", false) == None;
    assert AfterDot("json", false) == None && Unquoted("json") == "json";
    assert Lower("json") == "json";
  }

  /** The search finds what there is to find, however the types of these names are defined,
      if and only if the names tell keys apart. */
  lemma SearchIsCompleteIff(names: seq<string>)
    ensures KeysTellApart(names) <==>
      forall schema: Schema, name: string :: NamesOf(schema) == names ==> Finds(schema, name)
  {
    if KeysTellApart(names) {
      forall schema: Schema, name: string | NamesOf(schema) == names ensures Finds(schema, name) {
        SearchIsComplete(schema, name);
      }
    } else {
      var schema, name := SomeSchemaHidesOne(names);
    }
  }

  lemma SomeSchemaHidesOne(names: seq<string>) returns (schema: Schema, name: string)
    requires !KeysTellApart(names)
    ensures NamesOf(schema) == names && !Finds(schema, name)
  {
    hide Findable, Unquoted, FindIn, BareTypeName, DocumentFamily, WalkOf, HitFrom, Canonical, TextOf, Rendered, StripArrays, StripTypmod;
    var i: nat, j: nat :| i < |names| && j < |names| && i != j && Unquoted(names[i]) == Unquoted(names[j])
      && Findable(names, i, false) && Findable(names, j, true);
    var key, n := FindableHasAName(names, i, false);
    name := TextOf(Canonical(key, n));
    key, n := FindableHasAName(names, j, true);
    var typ := TextOf(Canonical(key, n));
    CanonicalIsRead(key, n);
    TextIsPlain(Canonical(key, n));
    schema := OneJsonEach(names, i, typ);
    TheTwinIsSkipped(names, name, i, typ, j);
    assert Find(schema, name) == Some(i) && HitFrom(schema, i, Hit(names[j], "f", "json"));
  }
}
