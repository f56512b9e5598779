/** When the search for a document field is right about what a composite holds: a condition
    on the type names, necessary and sufficient (internal/classify/types.go:184-293 and 409-437). */
module SearchTruth {
  import opened Common
  import opened CompositeText
  import opened CompositeNames
  import opened CompositeWalk
  import opened TypeCatalog
  import D = DomainText

  // ---------- when the search is right ----------

  predicate NoDomain(t: Types, text: string) {
    FindIn(OwnNames(t.domains), text).None?
  }

  /** Every composite and every domain is the first its own text finds. */
  predicate FindThemselves(t: Types) {
    && (forall i :: 0 <= i < |t.composites| ==> FindIn(OwnNames(t.composites), TextOf(t.composites[i])) == Some(i))
    && (forall d :: 0 <= d < |t.domains| ==> FindIn(OwnNames(t.domains), TextOf(t.domains[d])) == Some(d))
  }

  /** No domain is found by the text of another type, and no other type's reads as a document's. */
  predicate LeavesAreClear(t: Types) {
    && (forall k :: 0 <= k < |t.documents| ==> NoDomain(t, Plain(t.documents[k])))
    && (forall k :: 0 <= k < |t.others| ==> NoDomain(t, Plain(t.others[k])) && !IsDocument(Plain(t.others[k])))
  }

  predicate NestedAreClear(t: Types) {
    && (forall i :: 0 <= i < |t.composites| ==>
          NoDomain(t, TextOf(t.composites[i])) && !IsDocument(TextOf(t.composites[i])))
    && (forall k :: 0 <= k < |t.others| ==> FindIn(OwnNames(t.composites), Plain(t.others[k])).None?)
    && KeysDiffer(t)
  }

  predicate KeysDiffer(t: Types) {
    forall i, j :: 0 <= i < j < |t.composites| ==>
      Unquoted(OwnName(t.composites[i])) != Unquoted(OwnName(t.composites[j]))
  }

  /** The condition on the names alone; the last part matters once one composite can nest another. */
  predicate Clear(t: Types) {
    t.composites == [] ||
    (FindThemselves(t) && LeavesAreClear(t) && (|t.composites| > 1 ==> NestedAreClear(t)))
  }

  /** The base type of a domain, any other type itself. */
  function Core(cat: Catalog, b: Base): (c: Base)
    requires Valid(cat) && Has(cat.types, b)
    ensures Has(cat.types, c)
  {
    match b case InDomain(d) => cat.bases[d].base case _ => b
  }

  predicate Nestable(t: Types, b: Base) {
    !b.InDomain? && (b.InComposite? ==> |t.composites| > 1)
  }

  lemma ClearIsTakenForItself(t: Types, b: Base)
    requires Clear(t) && t.composites != [] && Has(t, b) && Nestable(t, b)
    ensures NoDomain(t, Plain(TextOfBase(t, b)))
    ensures IsDocument(Plain(TextOfBase(t, b))) <==> b.InDocument?
  {
    hide FindIn, IsDocument, TextOf, Plain;
    if b.InComposite? {
      PlainText(t.composites[b.i]);
    }
  }

  lemma PlainText(q: QualifiedName)
    ensures Plain(TextOf(q)) == TextOf(q)
  {
    hide TextOf, StripArrays, StripTypmod;
    TextIsPlain(q);
  }

  lemma TakenForTheCore(cat: Catalog, b: Base)
    requires Valid(cat) && Clear(cat.types) && cat.types.composites != [] && Has(cat.types, b)
    requires Nestable(cat.types, Core(cat, b))
    ensures TakenFor(cat, b) == Plain(TextOfBase(cat.types, Core(cat, b)))
    ensures IsDocument(TakenFor(cat, b)) <==> Core(cat, b).InDocument?
  {
    hide FindIn, IsDocument, TextOf, Plain;
    ClearIsTakenForItself(cat.types, Core(cat, b));
    if b.InDomain? {
      PlainText(cat.types.domains[b.d]);
    }
  }

  /** What a field of a lawful catalog comes down to can be nested in a composite. */
  lemma FieldsNest(cat: Catalog, i: nat, k: nat)
    requires Valid(cat) && Flat(cat) && Lawful(cat) && i < |cat.fields| && k < |cat.fields[i]|
    ensures Nestable(cat.types, Core(cat, cat.fields[i][k].typ.base))
  {
    var rank: Base -> nat :| Ranked(cat, rank);
    var b := cat.fields[i][k].typ.base;
    assert rank(b) < rank(InComposite(i));
    if b.InDomain? {
      assert rank(cat.bases[b.d].base) < rank(b);
    }
  }

  /** A catalog a server may hold, and what it shows of it. */
  ghost predicate Possible(schema: Schema, cat: Catalog) {
    Valid(cat) && Lawful(cat) && Shows(schema, cat)
  }

  ghost predicate PossibleFlat(schema: Schema, cat: Catalog) {
    Possible(schema, cat) && Flat(cat)
  }

  /** What the walk sees of one field: a document, the composite that is meant, or nothing;
      of a sole composite it may see itself in a type that is none. */
  lemma FieldIsSeen(schema: Schema, cat: Catalog, i: nat, k: nat)
    requires PossibleFlat(schema, cat) && Clear(cat.types) && i < |cat.fields| && k < |cat.fields[i]|
    ensures var core := Core(cat, cat.fields[i][k].typ.base);
      && (Documents(schema, i, k) <==> core.InDocument?)
      && (core.InComposite? ==> Nests(schema, i, k, core.i))
      && (forall j: nat :: Nests(schema, i, k, j) ==> core == InComposite(j) || j == i)
  {
    hide FindIn, IsDocument, Plain, TypeName, TakenFor, OwnNames, TextOf, Lawful, FieldsAt, NoDomain;
    var r := cat.fields[i][k].typ;
    var core := Core(cat, r.base);
    FieldsNest(cat, i, k);
    TakenForTheCore(cat, r.base);
    TypeNameIsTakenFor(schema, cat, r);
    assert |schema.composites| == |cat.fields| && FieldsAt(schema, i)[k].typ == TextOfRef(cat.types, r);
    if core.InComposite? {
      PlainText(cat.types.composites[core.i]);
    }
    forall j: nat | Nests(schema, i, k, j) ensures core == InComposite(j) || j == i {
      assert j < |schema.composites|;
    }
  }

  lemma {:induction false} SeenIsHeld(schema: Schema, cat: Catalog, i: nat, j: nat, n: nat, k: nat)
    requires PossibleFlat(schema, cat) && Clear(cat.types) && i < |cat.fields|
    requires Reaches(schema, i, j, n) && Documents(schema, j, k)
    ensures HoldsADocument(cat, InComposite(i))
    decreases n
  {
    hide Documents, Nests, Shows, Clear, Flat, Lawful, FieldsAt;
    if n == 0 {
      FieldExists(schema, cat, i, k);
      FieldIsSeen(schema, cat, i, k);
      HeldByCore(cat, i, k, 0);
    } else {
      var m: nat, f: nat :| Nests(schema, i, f, m) && Reaches(schema, m, j, n - 1);
      NestsExists(schema, cat, i, f, m);
      FieldIsSeen(schema, cat, i, f);
      SeenIsHeld(schema, cat, m, j, n - 1, k);
      if m != i {
        var s: nat :| Holds(cat, InComposite(m), s);
        HeldByCore(cat, i, f, s);
      }
    }
  }

  lemma FieldExists(schema: Schema, cat: Catalog, i: nat, k: nat)
    requires Valid(cat) && Shows(schema, cat) && Documents(schema, i, k)
    ensures i < |cat.fields| && k < |cat.fields[i]|
  {
    hide FieldsAt, IsDocument, TypeName;
  }

  lemma NestsExists(schema: Schema, cat: Catalog, i: nat, k: nat, m: nat)
    requires Valid(cat) && Shows(schema, cat) && Nests(schema, i, k, m)
    ensures i < |cat.fields| && k < |cat.fields[i]| && m < |cat.fields|
  {
    hide FieldsAt, Documents, TypeName, FindIn;
    assert |NamesOf(schema)| == |schema.composites|;
  }

  lemma HeldByCore(cat: Catalog, i: nat, k: nat, n: nat)
    requires Valid(cat) && i < |cat.fields| && k < |cat.fields[i]|
    requires Holds(cat, Core(cat, cat.fields[i][k].typ.base), n)
    ensures HoldsADocument(cat, InComposite(i))
  {
    var b := cat.fields[i][k].typ.base;
    if b.InDomain? {
      assert Holds(cat, b, n + 1);
      assert Holds(cat, InComposite(i), n + 2);
    } else {
      assert Holds(cat, InComposite(i), n + 1);
    }
  }

  lemma {:induction false} HeldIsSeen(schema: Schema, cat: Catalog, i: nat, n: nat)
    requires PossibleFlat(schema, cat) && Clear(cat.types) && i < |cat.fields| && Holds(cat, InComposite(i), n)
    ensures exists hit :: HitFrom(schema, i, hit)
    decreases n
  {
    hide Documents, Nests, Shows, Clear, Lawful, HitFrom, Find;
    var k :| 0 <= k < |cat.fields[i]| && Holds(cat, cat.fields[i][k].typ.base, n - 1);
    var b := cat.fields[i][k].typ.base;
    FieldIsSeen(schema, cat, i, k);
    var core := Core(cat, b);
    var m := if b.InDomain? then n - 2 else n - 1;
    assert Holds(cat, core, m);
    if core.InDocument? {
      DocumentHit(schema, i, k);
    } else {
      HeldIsSeen(schema, cat, core.i, m);
      var hit :| HitFrom(schema, core.i, hit);
      HitThroughField(schema, i, k, core.i, hit);
    }
  }

  lemma KeysAreApart(schema: Schema, cat: Catalog)
    requires Valid(cat) && Shows(schema, cat) && Clear(cat.types)
    ensures KeysTellApart(NamesOf(schema))
  {
    hide Unquoted, Findable, FindIn, IsDocument, LeavesAreClear, FindThemselves;
    var names := OwnNames(cat.types.composites);
    forall i: nat, j: nat | i < |names| && j < |names| && i != j ensures Unquoted(names[i]) != Unquoted(names[j]) {
      assert KeysDiffer(cat.types);
    }
  }

  /** Where the names are clear the search is right, whatever the types are made of. */
  lemma ClearIsRight(schema: Schema, cat: Catalog)
    requires PossibleFlat(schema, cat) && Clear(cat.types)
    ensures Right(schema, cat)
  {
    hide Search, FindIn, HitFrom, KeysTellApart, Shows, Lawful, LeavesAreClear, NestedAreClear;
    KeysAreApart(schema, cat);
    forall i | 0 <= i < |cat.types.composites|
      ensures Search(schema, TextOf(cat.types.composites[i])).Some? <==> HoldsADocument(cat, InComposite(i))
    {
      var name := TextOf(cat.types.composites[i]);
      SearchIsComplete(schema, name);
      NamesAreShown(schema, cat);
      assert Find(schema, name) == Some(i);
      if HoldsADocument(cat, InComposite(i)) {
        var n: nat :| Holds(cat, InComposite(i), n);
        HeldIsSeen(schema, cat, i, n);
      }
      forall hit | HitFrom(schema, i, hit) ensures HoldsADocument(cat, InComposite(i)) {
        SeenHitIsHeld(schema, cat, i, hit);
      }
    }
  }

  lemma NamesAreShown(schema: Schema, cat: Catalog)
    requires Valid(cat) && Shows(schema, cat)
    ensures NamesOf(schema) == OwnNames(cat.types.composites)
  {
  }

  lemma SeenHitIsHeld(schema: Schema, cat: Catalog, i: nat, hit: Hit)
    requires PossibleFlat(schema, cat) && Clear(cat.types) && i < |cat.fields| && HitFrom(schema, i, hit)
    ensures HoldsADocument(cat, InComposite(i))
  {
    hide PossibleFlat, Clear, Documents;
    var j: nat, n: nat, k: nat :| Reaches(schema, i, j, n) && Documents(schema, j, k);
    SeenIsHeld(schema, cat, i, j, n, k);
  }

  // ---------- what a right report names ----------

  /** Composite j is n composites inside i, domains resolved. */
  ghost predicate Inside(cat: Catalog, i: nat, j: nat, n: nat)
    requires Valid(cat)
    decreases n, 1
  {
    if n == 0 then i == j
    else exists k: nat :: InsideThrough(cat, i, k, j, n)
  }

  ghost predicate InsideThrough(cat: Catalog, i: nat, k: nat, j: nat, n: nat)
    requires Valid(cat) && n > 0
    decreases n, 0
  {
    && i < |cat.fields| && k < |cat.fields[i]| && Core(cat, cat.fields[i][k].typ.base).InComposite?
    && Inside(cat, Core(cat, cat.fields[i][k].typ.base).i, j, n - 1)
  }

  /** The k-th field of j is a document, j is inside i, and the report says so. */
  ghost predicate Reports(cat: Catalog, i: nat, j: nat, k: nat, hit: Hit)
    requires Valid(cat)
  {
    && j < |cat.fields| && k < |cat.fields[j]| && (exists n: nat :: Inside(cat, i, j, n))
    && Core(cat, cat.fields[j][k].typ.base).InDocument?
    && hit == Hit(OwnName(cat.types.composites[j]), cat.fields[j][k].name.name,
                  FamilyName(Plain(TextOfBase(cat.types, Core(cat, cat.fields[j][k].typ.base)))))
  }

  lemma {:induction false} SeenIsInside(schema: Schema, cat: Catalog, i: nat, j: nat, n: nat)
    requires PossibleFlat(schema, cat) && Clear(cat.types) && i < |cat.fields| && Reaches(schema, i, j, n)
    ensures j < |cat.fields| && exists m: nat :: Inside(cat, i, j, m)
    decreases n
  {
    hide Documents, Nests, Shows, Clear, Flat, Lawful, FieldsAt;
    if n == 0 {
      assert Inside(cat, i, j, 0);
    } else {
      var m: nat, f: nat :| Nests(schema, i, f, m) && Reaches(schema, m, j, n - 1);
      NestsExists(schema, cat, i, f, m);
      FieldIsSeen(schema, cat, i, f);
      SeenIsInside(schema, cat, m, j, n - 1);
      if m != i {
        var s: nat :| Inside(cat, m, j, s);
        assert InsideThrough(cat, i, f, j, s + 1);
        assert Inside(cat, i, j, s + 1);
      }
    }
  }

  lemma FieldIsNamed(schema: Schema, cat: Catalog, j: nat, k: nat)
    requires PossibleFlat(schema, cat) && Clear(cat.types) && Documents(schema, j, k)
    ensures j < |cat.fields| && k < |cat.fields[j]| && Core(cat, cat.fields[j][k].typ.base).InDocument?
    ensures HitAt(schema, j, k) == Hit(OwnName(cat.types.composites[j]), cat.fields[j][k].name.name,
              FamilyName(Plain(TextOfBase(cat.types, Core(cat, cat.fields[j][k].typ.base)))))
  {
    hide FindIn, IsDocument, Plain, TypeName, TakenFor, OwnName, TextOf, Lawful, FieldsAt, NoDomain, FamilyName;
    FieldExists(schema, cat, j, k);
    FieldIsSeen(schema, cat, j, k);
    var r := cat.fields[j][k].typ;
    FieldsNest(cat, j, k);
    TakenForTheCore(cat, r.base);
    TypeNameIsTakenFor(schema, cat, r);
    NamesAreShown(schema, cat);
    assert NamesOf(schema)[j] == schema.composites[j].name == OwnName(cat.types.composites[j]);
    assert FieldsAt(schema, j)[k] == Attribute(cat.fields[j][k].name.name, TextOfRef(cat.types, r));
  }

  /** Where the names are clear, the report names a document field of a type that is inside. */
  lemma ClearReportIsTrue(schema: Schema, cat: Catalog, i: nat) returns (j: nat, k: nat)
    requires PossibleFlat(schema, cat) && Clear(cat.types) && i < |cat.types.composites|
    requires Search(schema, TextOf(cat.types.composites[i])).Some?
    ensures Reports(cat, i, j, k, Search(schema, TextOf(cat.types.composites[i])).value)
  {
    hide FindIn, Shows, Lawful, LeavesAreClear, NestedAreClear, WalkOf, HitFrom, Reaches, TextOf, FieldsAt, IsDocument, TypeName, FamilyName;
    var name := TextOf(cat.types.composites[i]);
    WalkIsSound(schema, name, {});
    NamesAreShown(schema, cat);
    assert Find(schema, name) == Some(i);
    var hit := Search(schema, name).value;
    assert HitFrom(schema, i, hit);
    var n;
    j, n, k := HitHasAPath(schema, i, hit);
    SeenIsInside(schema, cat, i, j, n);
    FieldIsNamed(schema, cat, j, k);
  }

  lemma HitHasAPath(schema: Schema, i: nat, hit: Hit) returns (j: nat, n: nat, k: nat)
    requires HitFrom(schema, i, hit)
    ensures Reaches(schema, i, j, n) && Documents(schema, j, k) && hit == HitAt(schema, j, k)
  {
    hide FieldsAt, IsDocument, TypeName, Reaches;
    j, n, k :| Reaches(schema, i, j, n) && Documents(schema, j, k) && hit == HitAt(schema, j, k);
  }

  // ---------- where the names are not clear ----------

  function Repeat<T>(n: nat, x: T): (s: seq<T>)
    ensures |s| == n && forall i :: 0 <= i < n ==> s[i] == x
  {
    seq(n, _ => x)
  }

  /** Composites of `first` have one field, of the type given, all others none. */
  function OneFieldEach(t: Types, first: map<nat, Base>, bases: seq<Base>): (cat: Catalog)
    ensures |cat.fields| == |t.composites| && |cat.bases| == |bases|
  {
    Catalog(t,
      seq(|t.composites|, i requires 0 <= i < |t.composites| =>
        if i in first then [FieldDef(RawIdent("f", true), TypeRef(first[i], 0))] else []),
      seq(|bases|, d requires 0 <= d < |bases| => TypeRef(bases[d], 0)))
  }

  /** A label no reader is misled by. */
  function PlainLabels(t: Types): Labels {
    Labels(Repeat(|t.composites|, "t"), Repeat(|t.domains|, "t"))
  }

  predicate IsLeaf(b: Base) {
    b == InDocument(0) || b == InOther(0)
  }

  lemma LeafIsLegible(t: Types, b: Base)
    requires IsLeaf(b)
    ensures Has(t, b) && BaseIsLegible(t, TypeRef(b, 0))
  {
    var s := TextOfRef(t, TypeRef(b, 0));
    assert s == TextOfBase(t, b) + "" == TextOfBase(t, b);
    assert s == "json" || s == "text";
    NoCapital(s);
  }

  lemma CapitalIsMissed(s: string, c: string, i: nat)
    requires forall j :: 0 <= j < |s| ==> !('A' <= s[j] <= 'Z')
    requires |c| > 1 && 'A' <= c[1] <= 'Z'
    ensures !D.OccursAt(s, c, i)
  {
    hide D.OccursAt;
    if D.OccursAt(s, c, i) {
      D.OccursFits(s, c, i);
      D.CharAt(s, c, i, 1);
    }
  }

  /** Every clause has a capital letter. */
  lemma NoCapital(s: string)
    requires forall i :: 0 <= i < |s| ==> !('A' <= s[i] <= 'Z')
    ensures D.Clauseless(s)
  {
    forall k, i | 0 <= k < |D.CLAUSES| && 0 <= i <= |s| ensures !D.OccursAt(s, D.CLAUSES[k], i) {
      D.ClausesAreWords(k);
      CapitalIsMissed(s, D.CLAUSES[k], i);
    }
  }

  /** Every field's type lies below the composite it is in: c on top, leaves at the bottom. */
  predicate BelowTheirOwner(t: Types, first: map<nat, Base>, c: nat) {
    forall i :: i in first ==> i < |t.composites| && Has(t, first[i]) && (IsLeaf(first[i]) || (i == c && first[i] != InComposite(c)))
  }

  predicate LeafBases(t: Types, bases: seq<Base>) {
    |bases| == |t.domains| && forall d :: 0 <= d < |bases| ==> IsLeaf(bases[d])
  }

  function RankUnder(c: nat, b: Base): nat {
    match b case InComposite(i) => (if i == c then 3 else 2) case InDomain(_) => 1 case _ => 0
  }

  lemma BuiltIsPossible(t: Types, first: map<nat, Base>, bases: seq<Base>, rank: Base -> nat) returns (schema: Schema)
    requires forall i :: i in first ==> i < |t.composites| && Has(t, first[i]) && rank(first[i]) < rank(InComposite(i))
    requires |bases| == |t.domains|
    requires forall d :: 0 <= d < |bases| ==>
      Has(t, bases[d]) && BaseIsLegible(t, TypeRef(bases[d], 0)) && rank(bases[d]) < rank(InDomain(d))
    ensures Possible(schema, OneFieldEach(t, first, bases))
  {
    hide BaseIsLegible, D.Occurs, Shows, Has;
    var cat := OneFieldEach(t, first, bases);
    assert Valid(cat);
    assert Ranked(cat, rank);
    PlainLabelsAreLegible(t);
    schema := Printed(cat, PlainLabels(t));
    PrintedShows(cat, PlainLabels(t));
  }

  lemma BuiltIsFlat(t: Types, first: map<nat, Base>, bases: seq<Base>, c: nat) returns (schema: Schema)
    requires BelowTheirOwner(t, first, c) && LeafBases(t, bases)
    ensures PossibleFlat(schema, OneFieldEach(t, first, bases))
  {
    hide BaseIsLegible, Has, Shows, Lawful;
    forall d | 0 <= d < |bases| ensures Has(t, bases[d]) && BaseIsLegible(t, TypeRef(bases[d], 0)) {
      LeafIsLegible(t, bases[d]);
    }
    var rank: Base -> nat := b => RankUnder(c, b);
    schema := BuiltIsPossible(t, first, bases, rank);
  }

  lemma LastIsMissed(s: string, p: string, i: nat)
    requires |p| > 2 && forall j :: 0 <= j < |s| ==> s[j] != p[2]
    ensures !D.OccursAt(s, p, i)
  {
    hide D.OccursAt;
    if D.OccursAt(s, p, i) {
      D.OccursFits(s, p, i);
      D.CharAt(s, p, i, 2);
    }
  }

  lemma PlainLabelsAreLegible(t: Types)
    ensures forall d :: 0 <= d < |t.domains| ==> !D.Occurs("CREATE DOMAIN " + PlainLabels(t).domains[d] + " ", D.AS)
  {
    var s := "CREATE DOMAIN " + "t" + " ";
    assert s == "CREATE DOMAIN t ";
    forall i | 0 <= i <= |s| ensures !D.OccursAt(s, D.AS, i) {
      LastIsMissed(s, D.AS, i);
    }
  }

  /** One field decides what the walk into its composite comes to. */
  lemma OneFieldDecides(schema: Schema, cat: Catalog, name: string, c: nat, b: Base, seen: set<string>)
    requires Valid(cat) && Shows(schema, cat) && c < |cat.fields| && Has(cat.types, b)
    requires Find(schema, name) == Some(c) && Key(schema, c) !in seen
    requires cat.fields[c] == [FieldDef(RawIdent("f", true), TypeRef(b, 0))]
    ensures var z := TakenFor(cat, b);
      WalkOf(schema, name, seen).hit.Some? <==> IsDocument(z) || WalkOf(schema, z, seen + {Key(schema, c)}).hit.Some?
  {
    hide TakenFor, TypeName, IsDocument, FieldsAt, Find, Key;
    TypeNameIsTakenFor(schema, cat, TypeRef(b, 0));
    assert |schema.composites| == |cat.fields| by { NamesAreShown(schema, cat); assert |NamesOf(schema)| == |schema.composites|; }
    assert FieldsAt(schema, c) == ShownFields(cat, c);
    assert |FieldsAt(schema, c)| == 1 && TypeName(schema, FieldsAt(schema, c)[0].typ) == TakenFor(cat, b);
    var marked := seen + {Key(schema, c)};
    var inner := WalkOf(schema, TakenFor(cat, b), marked);
    assert WalkFields(schema, c, 1, inner.seen) == Walk(None, inner.seen);
    assert WalkOf(schema, name, seen) == WalkFields(schema, c, 0, marked);
  }

  lemma NothingThere(schema: Schema, cat: Catalog, name: string, seen: set<string>)
    requires Valid(cat) && Shows(schema, cat)
    requires Find(schema, name).Some? ==>
      Find(schema, name).value < |cat.fields| &&
      (cat.fields[Find(schema, name).value] == [] || Key(schema, Find(schema, name).value) in seen)
    ensures WalkOf(schema, name, seen).hit.None?
  {
    hide FieldsAt, Find, Key, Has, Shows;
    var found := Find(schema, name);
    if found.Some? && Key(schema, found.value) !in seen {
      ShowsFields(schema, cat, found.value);
      var marked := seen + {Key(schema, found.value)};
      assert WalkFields(schema, found.value, 0, marked) == Walk(None, marked);
    }
  }

  lemma ShowsFields(schema: Schema, cat: Catalog, i: nat)
    requires Valid(cat) && Shows(schema, cat) && i < |schema.composites|
    ensures i < |cat.fields| && |FieldsAt(schema, i)| == |cat.fields[i]|
  {
    hide FieldsAt, TextOfRef, D.BaseOfDef;
    assert |NamesOf(schema)| == |schema.composites|;
  }

  lemma FindIsInTheCatalog(schema: Schema, cat: Catalog, name: string)
    requires Valid(cat) && Shows(schema, cat)
    ensures Find(schema, name) == FindIn(OwnNames(cat.types.composites), name)
    ensures Find(schema, name).Some? ==> Find(schema, name).value < |cat.fields|
    ensures forall i :: 0 <= i < |cat.fields| ==> i < |schema.composites| && Key(schema, i) == Unquoted(OwnName(cat.types.composites[i]))
  {
    hide FindIn, FieldsAt, Unquoted, OwnName;
    NamesAreShown(schema, cat);
    forall i | 0 <= i < |cat.fields| ensures i < |schema.composites| && Key(schema, i) == Unquoted(OwnName(cat.types.composites[i])) {
      assert NamesOf(schema)[i] == schema.composites[i].name;
    }
  }

  lemma HeldByTheOneField(cat: Catalog, c: nat, b: Base)
    requires Valid(cat) && c < |cat.fields| && Has(cat.types, b)
    requires cat.fields[c] == [FieldDef(RawIdent("f", true), TypeRef(b, 0))]
    ensures HoldsADocument(cat, InComposite(c)) <==> HoldsADocument(cat, b)
  {
    if HoldsADocument(cat, InComposite(c)) {
      var n: nat :| Holds(cat, InComposite(c), n);
      assert Holds(cat, b, n - 1);
    }
    if HoldsADocument(cat, b) {
      var n: nat :| Holds(cat, b, n);
      assert cat.fields[c][0].typ.base == b;
      assert Holds(cat, InComposite(c), n + 1);
    }
  }

  lemma HeldByABase(cat: Catalog, b: Base)
    requires Valid(cat) && Has(cat.types, b)
    ensures b.InDocument? ==> HoldsADocument(cat, b)
    ensures b.InOther? || (b.InComposite? && cat.fields[b.i] == []) ==> !HoldsADocument(cat, b)
    ensures b.InDomain? ==> (HoldsADocument(cat, b) <==> HoldsADocument(cat, cat.bases[b.d].base))
  {
    if b.InDocument? {
      assert Holds(cat, b, 0);
    }
    if b.InDomain? {
      var base := cat.bases[b.d].base;
      if HoldsADocument(cat, b) {
        var n: nat :| Holds(cat, b, n);
        assert Holds(cat, base, n - 1);
      }
      if HoldsADocument(cat, base) {
        var n: nat :| Holds(cat, base, n);
        assert Holds(cat, b, n + 1);
      }
    }
  }

  /** Only c has a field: the search goes by what its type is taken for, the truth by its base. */
  lemma OnlyOneField(t: Types, c: nat, b: Base, bases: seq<Base>) returns (cat: Catalog, schema: Schema)
    requires c < |t.composites| && FindIn(OwnNames(t.composites), TextOf(t.composites[c])) == Some(c)
    requires Has(t, b) && b != InComposite(c) && LeafBases(t, bases)
    ensures cat == OneFieldEach(t, map[c := b], bases) && PossibleFlat(schema, cat)
    ensures Right(schema, cat) ==>
      (IsDocument(TakenFor(cat, b)) <==> b.InDocument? || (b.InDomain? && bases[b.d].InDocument?))
  {
    hide FindIn, TextOf, IsDocument, TakenFor, Lawful, Shows, WalkOf;
    cat := OneFieldEach(t, map[c := b], bases);
    assert BelowTheirOwner(t, map[c := b], c) by { LeavesAreThere(t); }
    schema := BuiltIsFlat(t, map[c := b], bases, c);
    var name, z := TextOf(t.composites[c]), TakenFor(cat, b);
    FindIsInTheCatalog(schema, cat, name);
    FindIsInTheCatalog(schema, cat, z);
    OneFieldDecides(schema, cat, name, c, b, {});
    assert {} + {Key(schema, c)} == {Key(schema, c)};
    NothingThere(schema, cat, z, {Key(schema, c)});
    HeldByTheOneField(cat, c, b);
    HeldByABase(cat, b);
    if b.InDomain? {
      HeldByABase(cat, bases[b.d]);
    }
    if Right(schema, cat) {
      assert Search(schema, name).Some? <==> HoldsADocument(cat, InComposite(c));
    }
  }

  lemma LeavesAreThere(t: Types)
    ensures Has(t, InDocument(0)) && Has(t, InOther(0))
  {
  }

  lemma LeavesRead()
    ensures Plain("json") == "json" && IsDocument("json")
    ensures Plain("text") == "text" && !IsDocument("text")
  {
    hide Plain, BareTypeName, DocumentFamily, TypeName, FamilyName;
    JsonIsADocument(Schema([], []));
    WordIsPlain("json");
    WordIsPlain("text");
    NoFamilyButItsLetters("text");
  }

  /** A word of letters is neither cut nor split. */
  lemma WordIsPlain(s: string)
    requires forall i :: 0 <= i < |s| ==> 'a' <= s[i] <= 'z'
    ensures Plain(s) == s && BareTypeName(s) == s
  {
    WordIsWhole(s);
    NoQuoteToDrop(s);
    assert |s| >= 2 ==> s[|s| - 2..][1] == s[|s| - 1];
  }

  lemma {:induction false} WordIsWhole(s: string)
    requires forall i :: 0 <= i < |s| ==> 'a' <= s[i] <= 'z'
    ensures AfterDot(s, false) == None && BeforeParen(s, false) == None
  {
    if s != "" {
      WordIsWhole(s[1..]);
    }
  }

  lemma NoFamilyButItsLetters(bare: string)
    requires bare != "" && 'a' <= bare[0] <= 'z' && bare[0] != 'j' && bare[0] != 'h'
    ensures !DocumentFamily(bare)
  {
    assert Lower(bare)[0] == bare[0];
  }

  lemma LeafIsTakenForItself(cat: Catalog, b: Base)
    requires Valid(cat) && Has(cat.types, b)
    ensures var found := FindIn(OwnNames(cat.types.domains), Plain(TextOfBase(cat.types, b)));
      && (found.None? ==> TakenFor(cat, b) == Plain(TextOfBase(cat.types, b)))
      && (found.Some? && cat.bases[found.value].base == InDocument(0) ==> IsDocument(TakenFor(cat, b)))
      && (found.Some? && cat.bases[found.value].base == InOther(0) ==> !IsDocument(TakenFor(cat, b)))
  {
    hide FindIn, IsDocument, TextOf, Plain;
    LeavesRead();
  }

  /** A composite that is not what its text finds. */
  lemma CompositeLost(t: Types, i: nat) returns (cat: Catalog, schema: Schema)
    requires i < |t.composites| && FindIn(OwnNames(t.composites), TextOf(t.composites[i])) != Some(i)
    ensures cat.types == t && PossibleFlat(schema, cat) && !Right(schema, cat)
  {
    hide FindIn, TextOf, Lawful, Shows, WalkOf;
    LeavesAreThere(t);
    var first: map<nat, Base> := map[i := InDocument(0)];
    var bases := Repeat(|t.domains|, InOther(0));
    schema := BuiltIsFlat(t, first, bases, i);
    cat := OneFieldEach(t, first, bases);
    var name := TextOf(t.composites[i]);
    FindIsInTheCatalog(schema, cat, name);
    NothingThere(schema, cat, name, {});
    HeldByTheOneField(cat, i, InDocument(0));
    HeldByABase(cat, InDocument(0));
    assert Search(schema, name).None? && HoldsADocument(cat, InComposite(i));
  }

  /** A type other than a domain whose text finds a domain, or reads as a document's and is none. */
  lemma NestedMistaken(t: Types, b: Base, c: nat) returns (cat: Catalog, schema: Schema)
    requires Has(t, b) && !b.InDomain? && c < |t.composites| && b != InComposite(c)
    requires FindIn(OwnNames(t.composites), TextOf(t.composites[c])) == Some(c)
    requires !NoDomain(t, Plain(TextOfBase(t, b))) || (!b.InDocument? && IsDocument(Plain(TextOfBase(t, b))))
    ensures cat.types == t && PossibleFlat(schema, cat) && !Right(schema, cat)
  {
    hide FindIn, TextOf, IsDocument, Plain, TakenFor, PossibleFlat, Right;
    var bases := Repeat(|t.domains|, if b.InDocument? then InOther(0) else InDocument(0));
    cat, schema := OnlyOneField(t, c, b, bases);
    LeafIsTakenForItself(cat, b) by { FlatIsValid(schema, cat); }
  }

  lemma FlatIsValid(schema: Schema, cat: Catalog)
    requires PossibleFlat(schema, cat)
    ensures Valid(cat)
  {
  }

  /** A domain that is not what its text finds. */
  lemma DomainLost(t: Types, d: nat, c: nat) returns (cat: Catalog, schema: Schema)
    requires d < |t.domains| && c < |t.composites|
    requires FindIn(OwnNames(t.composites), TextOf(t.composites[c])) == Some(c)
    requires FindIn(OwnNames(t.domains), TextOf(t.domains[d])) != Some(d)
    ensures cat.types == t && PossibleFlat(schema, cat) && !Right(schema, cat)
  {
    hide FindIn, TextOf, IsDocument, Plain, TakenFor, PossibleFlat, Right;
    PlainText(t.domains[d]);
    var text := TextOf(t.domains[d]);
    var bases :=
      if NoDomain(t, text) then Repeat(|t.domains|, if IsDocument(text) then InOther(0) else InDocument(0))
      else Repeat(|t.domains|, InOther(0))[d := InDocument(0)];
    cat, schema := OnlyOneField(t, c, InDomain(d), bases);
    LeafIsTakenForItself(cat, InDomain(d)) by { FlatIsValid(schema, cat); }
  }

  /** Two composites of one key, the second found for its own text. */
  lemma TwinLost(t: Types, i: nat, j: nat) returns (cat: Catalog, schema: Schema)
    requires i < |t.composites| && j < |t.composites| && i != j && FindThemselves(t)
    requires Unquoted(OwnName(t.composites[i])) == Unquoted(OwnName(t.composites[j]))
    requires NoDomain(t, TextOf(t.composites[j])) && !IsDocument(TextOf(t.composites[j]))
    ensures cat.types == t && PossibleFlat(schema, cat) && !Right(schema, cat)
    ensures Search(schema, TextOf(t.composites[i])).None? && HoldsADocument(cat, InComposite(i))
  {
    hide FindIn, TextOf, IsDocument, Plain, TakenFor, Lawful, Shows, WalkOf, Unquoted, OwnName;
    LeavesAreThere(t);
    var first: map<nat, Base> := map[i := InComposite(j), j := InDocument(0)];
    var bases := Repeat(|t.domains|, InOther(0));
    schema := BuiltIsFlat(t, first, bases, i);
    cat := OneFieldEach(t, first, bases);
    var name, inner := TextOf(t.composites[i]), TextOf(t.composites[j]);
    PlainText(t.composites[j]);
    LeafIsTakenForItself(cat, InComposite(j));
    FindIsInTheCatalog(schema, cat, name);
    FindIsInTheCatalog(schema, cat, inner);
    OneFieldDecides(schema, cat, name, i, InComposite(j), {});
    assert {} + {Key(schema, i)} == {Key(schema, i)};
    NothingThere(schema, cat, inner, {Key(schema, i)});
    HeldByTheOneField(cat, i, InComposite(j));
    HeldByTheOneField(cat, j, InDocument(0));
    HeldByABase(cat, InDocument(0));
    assert Search(schema, name).None? && HoldsADocument(cat, InComposite(i));
  }

  /** A type that is no composite and finds one. */
  lemma OtherMistaken(t: Types, k: nat, c: nat, j: nat) returns (cat: Catalog, schema: Schema)
    requires k < |t.others| && c < |t.composites| && c != j && FindThemselves(t) && LeavesAreClear(t) && KeysDiffer(t)
    requires FindIn(OwnNames(t.composites), Plain(t.others[k])) == Some(j)
    ensures cat.types == t && PossibleFlat(schema, cat) && !Right(schema, cat)
  {
    hide FindIn, TextOf, IsDocument, Plain, TakenFor, Lawful, Shows, WalkOf, Unquoted, OwnName;
    LeavesAreThere(t);
    var first: map<nat, Base> := map[c := InOther(k), j := InDocument(0)];
    var bases := Repeat(|t.domains|, InDocument(0));
    schema := BuiltIsFlat(t, first, bases, c);
    cat := OneFieldEach(t, first, bases);
    var name, inner := TextOf(t.composites[c]), Plain(t.others[k]);
    LeafIsTakenForItself(cat, InOther(k));
    LeafIsTakenForItself(cat, InDocument(0));
    LeavesRead();
    FindIsInTheCatalog(schema, cat, name);
    FindIsInTheCatalog(schema, cat, inner);
    OneFieldDecides(schema, cat, name, c, InOther(k), {});
    assert {} + {Key(schema, c)} == {Key(schema, c)};
    assert Key(schema, j) != Key(schema, c) by { assert KeysDiffer(t); }
    OneFieldDecides(schema, cat, inner, j, InDocument(0), {Key(schema, c)});
    HeldByTheOneField(cat, c, InOther(k));
    HeldByABase(cat, InOther(k));
    assert Search(schema, name).Some? && !HoldsADocument(cat, InComposite(c));
  }

  function AnotherThan(i: nat): nat {
    if i == 0 then 1 else 0
  }

  lemma UnclearIsWrong(t: Types) returns (cat: Catalog, schema: Schema)
    requires !Clear(t)
    ensures cat.types == t && PossibleFlat(schema, cat) && !Right(schema, cat)
  {
    hide FindIn, TextOf, IsDocument, Plain, PossibleFlat, Right, OwnName, Unquoted;
    if i: nat :| i < |t.composites| && FindIn(OwnNames(t.composites), TextOf(t.composites[i])) != Some(i) {
      cat, schema := CompositeLost(t, i);
    } else if d: nat :| d < |t.domains| && FindIn(OwnNames(t.domains), TextOf(t.domains[d])) != Some(d) {
      cat, schema := DomainLost(t, d, 0);
    } else if k: nat :| k < |t.documents| && !NoDomain(t, Plain(t.documents[k])) {
      cat, schema := NestedMistaken(t, InDocument(k), 0);
    } else if k: nat :| k < |t.others| && (!NoDomain(t, Plain(t.others[k])) || IsDocument(Plain(t.others[k]))) {
      cat, schema := NestedMistaken(t, InOther(k), 0);
    } else if i: nat :| i < |t.composites| && (!NoDomain(t, TextOf(t.composites[i])) || IsDocument(TextOf(t.composites[i]))) {
      PlainText(t.composites[i]);
      cat, schema := NestedMistaken(t, InComposite(i), AnotherThan(i));
    } else if i: nat, j: nat :| i < j < |t.composites| && Unquoted(OwnName(t.composites[i])) == Unquoted(OwnName(t.composites[j])) {
      cat, schema := TwinLost(t, i, j);
    } else {
      var k :| 0 <= k < |t.others| && FindIn(OwnNames(t.composites), Plain(t.others[k])).Some?;
      var j := FindIn(OwnNames(t.composites), Plain(t.others[k])).value;
      cat, schema := OtherMistaken(t, k, AnotherThan(j), j);
    }
  }

  /** The search is right of every catalog with these names, without a domain over a domain,
      if and only if the names are clear. */
  lemma SearchIsRightIff(t: Types)
    ensures Clear(t) <==> forall cat: Catalog, schema: Schema :: cat.types == t && PossibleFlat(schema, cat) ==> Right(schema, cat)
  {
    hide Clear, Right, Shows, Lawful;
    if Clear(t) {
      forall cat: Catalog, schema: Schema | cat.types == t && PossibleFlat(schema, cat) ensures Right(schema, cat) {
        ClearIsRight(schema, cat);
      }
    } else {
      var cat, schema := UnclearIsWrong(t);
    }
  }

  // ---------- a domain over a domain ----------

  function RankOver(c: nat, d: nat, b: Base): nat {
    match b
    case InComposite(i) => if i == c then 4 else 3
    case InDomain(e) => if e == d then 2 else 1
    case _ => 0
  }

  lemma DeepIsPossible(t: Types, c: nat, d: nat, e: nat, leaf: Base) returns (cat: Catalog, schema: Schema)
    requires c < |t.composites| && d < |t.domains| && e < |t.domains| && d != e && IsLeaf(leaf)
    requires D.Clauseless(TextOf(t.domains[e]))
    ensures cat == OneFieldEach(t, map[c := InDomain(d)], Repeat(|t.domains|, leaf)[d := InDomain(e)])
    ensures Possible(schema, cat)
  {
    hide D.Clauseless, BaseIsLegible, Shows, Lawful;
    var bases := Repeat(|t.domains|, leaf)[d := InDomain(e)];
    cat := OneFieldEach(t, map[c := InDomain(d)], bases);
    LeafIsLegible(t, leaf);
    DomainIsLegible(t, e);
    var rank: Base -> nat := b => RankOver(c, d, b);
    schema := BuiltIsPossible(t, map[c := InDomain(d)], bases, rank);
  }

  lemma DomainIsLegible(t: Types, e: nat)
    requires e < |t.domains| && D.Clauseless(TextOf(t.domains[e]))
    ensures BaseIsLegible(t, TypeRef(InDomain(e), 0))
  {
    var s := TextOf(t.domains[e]);
    hide TextOf, D.Clauseless;
    TextEnds(t.domains[e]);
    assert s + "" == s;
  }

  /** Only the first domain is resolved: of clear names, too, a domain over another one is
      taken for a type of the other's name. */
  lemma DeepDomainIsMistaken(t: Types, c: nat, d: nat, e: nat) returns (cat: Catalog, schema: Schema)
    requires Clear(t) && c < |t.composites| && d < |t.domains| && e < |t.domains| && d != e
    requires D.Clauseless(TextOf(t.domains[e]))
    ensures cat.types == t && Possible(schema, cat) && !Right(schema, cat)
  {
    hide FindIn, TextOf, IsDocument, Plain, TakenFor, Lawful, Shows, WalkOf, D.Clauseless;
    LeavesAreThere(t);
    PlainText(t.domains[d]);
    PlainText(t.domains[e]);
    var z := TextOf(t.domains[e]);
    var leaf := if IsDocument(z) then InOther(0) else InDocument(0);
    cat, schema := DeepIsPossible(t, c, d, e, leaf);
    assert TakenFor(cat, InDomain(d)) == z by { DeepIsTakenFor(cat, d, e); }
    var name := TextOf(t.composites[c]);
    FindIsInTheCatalog(schema, cat, name);
    FindIsInTheCatalog(schema, cat, z);
    OneFieldDecides(schema, cat, name, c, InDomain(d), {});
    assert {} + {Key(schema, c)} == {Key(schema, c)};
    NothingThere(schema, cat, z, {Key(schema, c)});
    HeldByTheOneField(cat, c, InDomain(d));
    HeldByABase(cat, InDomain(d));
    HeldByABase(cat, InDomain(e));
    HeldByABase(cat, leaf);
    assert Search(schema, name).Some? <==> !HoldsADocument(cat, InComposite(c));
  }

  lemma DeepIsTakenFor(cat: Catalog, d: nat, e: nat)
    requires Valid(cat) && d < |cat.bases| && e < |cat.bases| && cat.bases[d].base == InDomain(e)
    requires FindIn(OwnNames(cat.types.domains), TextOf(cat.types.domains[d])) == Some(d)
    ensures TakenFor(cat, InDomain(d)) == TextOf(cat.types.domains[e])
  {
    hide FindIn, TextOf, Plain;
    PlainText(cat.types.domains[d]);
    PlainText(cat.types.domains[e]);
  }

  /** Domains of domains let in, the search is right of every catalog with these names if
      and only if the names are clear and there are no two domains to put on each other. */
  lemma SearchIsRightDeepIff(t: Types)
    requires forall d :: 0 <= d < |t.domains| ==> D.Clauseless(TextOf(t.domains[d]))
    ensures Clear(t) && (t.composites == [] || |t.domains| <= 1) <==>
      forall cat: Catalog, schema: Schema :: cat.types == t && Possible(schema, cat) ==> Right(schema, cat)
  {
    hide Clear, Right, Shows, TextOf, D.Clauseless;
    if !Clear(t) {
      var cat, schema := UnclearIsWrong(t);
      assert Possible(schema, cat);
    } else if t.composites != [] && |t.domains| > 1 {
      var cat, schema := DeepDomainIsMistaken(t, 0, 0, 1);
    } else {
      forall cat: Catalog, schema: Schema | cat.types == t && Possible(schema, cat) ensures Right(schema, cat) {
        if t.composites == [] {
          NothingToSearch(schema, cat);
        } else {
          OneDomainIsFlat(cat);
          ClearIsRight(schema, cat);
        }
      }
    }
  }

  lemma NothingToSearch(schema: Schema, cat: Catalog)
    requires Valid(cat) && cat.types.composites == []
    ensures Right(schema, cat)
  {
  }

  lemma OneDomainIsFlat(cat: Catalog)
    requires Valid(cat) && Lawful(cat) && |cat.types.domains| <= 1
    ensures Flat(cat)
  {
    var rank: Base -> nat :| Ranked(cat, rank);
  }

  // ---------- names no lookup confuses ----------

  /** Without quotes, and without a dot in its own name. */
  predicate PlainName(q: QualifiedName) {
    '"' !in q.space.name && '"' !in q.name.name && '.' !in q.name.name
  }

  predicate NameFree(qs: seq<QualifiedName>, bare: string) {
    forall i :: 0 <= i < |qs| ==> qs[i].name.name != bare
  }

  predicate DistinctNames(qs: seq<QualifiedName>) {
    forall i, j :: 0 <= i < j < |qs| ==> qs[i].name.name != qs[j].name.name
  }

  /** What a caller can see at a glance: no two types share a bare name, in whatever schemas,
      none but a document's is json, jsonb or hstore, no name holds a quote, and none of a
      composite or a domain a dot. */
  predicate NoneShared(t: Types) {
    && (forall i :: 0 <= i < |t.composites| ==> PlainName(t.composites[i]) && !DocumentFamily(t.composites[i].name.name))
    && (forall d :: 0 <= d < |t.domains| ==> PlainName(t.domains[d]) && NameFree(t.composites, t.domains[d].name.name))
    && DistinctNames(t.composites) && DistinctNames(t.domains)
    && (forall k :: 0 <= k < |t.documents| ==> Apart(t, Plain(t.documents[k])))
    && (forall k :: 0 <= k < |t.others| ==> Apart(t, Plain(t.others[k])) && !IsDocument(Plain(t.others[k])))
  }

  predicate Apart(t: Types, text: string) {
    '"' !in text && NameFree(t.composites, BareTypeName(text)) && NameFree(t.domains, BareTypeName(text))
  }

  lemma {:induction false} NoDotNoTail(s: string)
    requires '.' !in s
    ensures AfterDot(s, false) == None && AfterDot(s, true) == None
  {
    if s != "" {
      NoDotNoTail(s[1..]);
    }
  }

  lemma {:induction false} LastDot(s: string, n: string)
    requires '"' !in s && '"' !in n && '.' !in n
    ensures AfterDot(s + ("." + n), false) == Some(n)
  {
    var all := s + ("." + n);
    if s == "" {
      assert all == "." + n && all[1..] == n;
      NoDotNoTail(n);
    } else {
      assert all[0] == s[0] && all[1..] == s[1..] + ("." + n);
      LastDot(s[1..], n);
    }
  }

  lemma PlainNameIsRead(q: QualifiedName)
    requires PlainName(q)
    ensures Unquoted(OwnName(q)) == OwnName(q) && BareTypeName(OwnName(q)) == q.name.name
    ensures BareTypeName(TextOf(q)) == q.name.name && BareTypeName(Unquoted(TextOf(q))) == q.name.name
  {
    hide TextOf;
    var s, n := q.space.name, q.name.name;
    assert OwnName(q) == s + ("." + n);
    NoQuoteToDrop(OwnName(q));
    NoQuoteToDrop(n);
    NoQuoteToDrop(s);
    LastDot(s, n);
    NoDotNoTail(n);
    TextIsRead(q);
    assert s + "." + n == s + ("." + n);
  }

  /** Such a name is found by its bare name alone. */
  lemma SpellsIff(q: QualifiedName, text: string)
    requires PlainName(q) && BareTypeName(Unquoted(text)) == BareTypeName(text)
    ensures Spells(OwnName(q), text) <==> q.name.name == BareTypeName(text)
  {
    hide Unquoted, BareTypeName, OwnName;
    PlainNameIsRead(q);
  }

  lemma FindsItsOwn(qs: seq<QualifiedName>, i: nat)
    requires i < |qs| && DistinctNames(qs) && forall j :: 0 <= j < |qs| ==> PlainName(qs[j])
    ensures FindIn(OwnNames(qs), TextOf(qs[i])) == Some(i)
  {
    hide PlainName, Spells, TextOf, OwnName, FindFrom, BareTypeName, Unquoted;
    PlainNameIsRead(qs[i]);
    forall m: nat | m <= i ensures Spells(OwnNames(qs)[m], TextOf(qs[i])) <==> m == i {
      SpellsIff(qs[m], TextOf(qs[i]));
    }
    FindsTheFirst(OwnNames(qs), TextOf(qs[i]), i, 0);
  }

  lemma FindsNothing(qs: seq<QualifiedName>, text: string)
    requires BareTypeName(Unquoted(text)) == BareTypeName(text)
    requires NameFree(qs, BareTypeName(text)) && forall j :: 0 <= j < |qs| ==> PlainName(qs[j])
    ensures FindIn(OwnNames(qs), text) == None
  {
    hide PlainName, Spells, OwnName, FindFrom, BareTypeName, Unquoted;
    var r := FindIn(OwnNames(qs), text);
    if r.Some? {
      assert OwnNames(qs)[r.value] == OwnName(qs[r.value]);
      FindsTheFirst(OwnNames(qs), text, r.value, 0);
      SpellsIff(qs[r.value], text);
    }
  }

  lemma ApartFindsNothing(t: Types, text: string)
    requires NoneShared(t) && Apart(t, text)
    ensures FindIn(OwnNames(t.composites), text) == None && FindIn(OwnNames(t.domains), text) == None
  {
    hide FindIn, PlainName, BareTypeName;
    NoQuoteToDrop(text);
    FindsNothing(t.composites, text);
    FindsNothing(t.domains, text);
  }

  /** Where no two types share a bare name the names are clear. */
  lemma NoneSharedIsClear(t: Types)
    requires NoneShared(t)
    ensures Clear(t)
  {
    hide FindIn, TextOf, Plain, BareTypeName, OwnName, Unquoted, DocumentFamily, PlainName;
    forall i | 0 <= i < |t.composites|
      ensures FindIn(OwnNames(t.composites), TextOf(t.composites[i])) == Some(i)
      ensures NoDomain(t, TextOf(t.composites[i])) && !IsDocument(TextOf(t.composites[i]))
    {
      FindsItsOwn(t.composites, i);
      PlainNameIsRead(t.composites[i]);
      FindsNothing(t.domains, TextOf(t.composites[i]));
    }
    forall d | 0 <= d < |t.domains| ensures FindIn(OwnNames(t.domains), TextOf(t.domains[d])) == Some(d) {
      FindsItsOwn(t.domains, d);
    }
    forall k | 0 <= k < |t.documents| ensures NoDomain(t, Plain(t.documents[k])) {
      ApartFindsNothing(t, Plain(t.documents[k]));
    }
    forall k | 0 <= k < |t.others|
      ensures NoDomain(t, Plain(t.others[k])) && FindIn(OwnNames(t.composites), Plain(t.others[k])).None?
    {
      ApartFindsNothing(t, Plain(t.others[k]));
    }
    forall i, j | 0 <= i < j < |t.composites|
      ensures Unquoted(OwnName(t.composites[i])) != Unquoted(OwnName(t.composites[j]))
    {
      PlainNameIsRead(t.composites[i]);
      PlainNameIsRead(t.composites[j]);
    }
  }
}
