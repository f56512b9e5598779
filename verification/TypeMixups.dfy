/** Databases whose type names the search mixes up (internal/classify/types.go:184-293). */
module TypeMixups {
  import opened Common
  import opened CompositeText
  import opened CompositeNames
  import opened CompositeWalk
  import opened TypeCatalog
  import D = DomainText
  import opened SearchTruth
  import N = Names

  // ---------- two inputs ----------

  /** Composites i and j have one field each, and c one of type j. */
  function ThreeTypes(t: Types, i: nat, first: Base, j: nat, second: Base, c: nat): Catalog {
    OneFieldEach(t, map[i := first, j := second, c := InComposite(j)], [])
  }

  /** Types of one bare name in two schemas, the first of them the first of that name at all,
      and a third type; nothing else is in the way. */
  predicate SameName(t: Types, i: nat, j: nat, c: nat) {
    && t.domains == [] && i < |t.composites| && j < |t.composites| && c < |t.composites| && c != j
    && (forall m :: 0 <= m < |t.composites| ==> PlainName(t.composites[m]) && t.composites[m].name.name != "text")
    && t.composites[i].name.name == t.composites[j].name.name && !DocumentFamily(t.composites[j].name.name)
    && (forall m :: 0 <= m < i ==> t.composites[m].name.name != t.composites[i].name.name)
    && (forall m :: 0 <= m < |t.composites| && m != c ==> t.composites[m].name.name != t.composites[c].name.name)
  }

  lemma FirstIsFound(t: Types, text: string, i: nat)
    requires i < |t.composites| && BareTypeName(Unquoted(text)) == BareTypeName(text) == t.composites[i].name.name
    requires forall m :: 0 <= m < |t.composites| ==> PlainName(t.composites[m])
    requires forall m :: 0 <= m < i ==> t.composites[m].name.name != t.composites[i].name.name
    ensures FindIn(OwnNames(t.composites), text) == Some(i)
  {
    hide PlainName, FindFrom, BareTypeName, Unquoted, OwnName, Spells;
    forall m: nat | m <= i ensures Spells(OwnNames(t.composites)[m], text) <==> m == i {
      SpellsIff(t.composites[m], text);
    }
    FindsTheFirst(OwnNames(t.composites), text, i, 0);
  }

  lemma NameFindsNothing(t: Types, name: string)
    requires '"' !in name && '.' !in name
    requires forall m :: 0 <= m < |t.composites| ==> PlainName(t.composites[m]) && t.composites[m].name.name != name
    ensures FindIn(OwnNames(t.composites), name) == None
  {
    NoQuoteToDrop(name);
    NoDotNoTail(name);
    hide PlainName, FindFrom, Unquoted, OwnName, AfterDot;
    FindsNothing(t.composites, name);
  }

  /** j is taken for i: a document in j is missed, and one in i is reported of a type that
      does not hold it. Plain names tell keys apart, so that is not what it takes. */
  lemma FirstOfTheNameIsTaken(t: Types, i: nat, first: Base, j: nat, second: Base, c: nat, schema: Schema)
    requires SameName(t, i, j, c) && i != j && IsLeaf(first) && IsLeaf(second)
    requires Valid(ThreeTypes(t, i, first, j, second, c)) && Shows(schema, ThreeTypes(t, i, first, j, second, c))
    ensures Search(schema, TextOf(t.composites[c])).Some? <==> first.InDocument?
    ensures HoldsADocument(ThreeTypes(t, i, first, j, second, c), InComposite(c)) <==> second.InDocument?
  {
    hide TextOf, IsDocument, Plain, TakenFor, WalkOf, FindIn, Shows, Unquoted, OwnName, PlainName, BareTypeName, DocumentFamily;
    var cat := ThreeTypes(t, i, first, j, second, c);
    var name, inner := TextOf(t.composites[c]), TextOf(t.composites[j]);
    PlainNameIsRead(t.composites[c]);
    PlainNameIsRead(t.composites[j]);
    FirstIsFound(t, name, c);
    FirstIsFound(t, inner, i);
    FindIsInTheCatalog(schema, cat, name);
    FindIsInTheCatalog(schema, cat, inner);
    PlainText(t.composites[j]);
    LeavesRead();
    NoDomainsToFind(cat, InComposite(j));
    NoDomainsToFind(cat, first);
    OneFieldDecides(schema, cat, name, c, InComposite(j), {});
    assert {} + {Key(schema, c)} == {Key(schema, c)};
    assert IsDocument(inner) == DocumentFamily(BareTypeName(inner)) by { FamilyIsByBareName(inner); }
    KeysOfPlainNames(t, i, c);
    OneFieldDecides(schema, cat, inner, i, first, {Key(schema, c)});
    NameFindsNothing(t, "text");
    FindIsInTheCatalog(schema, cat, "text");
    if first.InOther? {
      NothingThere(schema, cat, "text", {Key(schema, c)} + {Key(schema, i)});
    }
    HeldByTheOneField(cat, c, InComposite(j));
    HeldByTheOneField(cat, j, second);
    HeldByABase(cat, second);
  }

  lemma FamilyIsByBareName(name: string)
    ensures IsDocument(name) == DocumentFamily(BareTypeName(name))
  {
  }

  lemma KeysOfPlainNames(t: Types, i: nat, c: nat)
    requires i < |t.composites| && c < |t.composites| && PlainName(t.composites[i]) && PlainName(t.composites[c])
    requires t.composites[i].name.name != t.composites[c].name.name
    ensures Unquoted(OwnName(t.composites[i])) != Unquoted(OwnName(t.composites[c]))
  {
    hide PlainName, BareTypeName, OwnName, Unquoted;
    PlainNameIsRead(t.composites[i]);
    PlainNameIsRead(t.composites[c]);
  }

  lemma NoDomainsToFind(cat: Catalog, b: Base)
    requires Valid(cat) && Has(cat.types, b) && cat.types.domains == []
    ensures TakenFor(cat, b) == Plain(TextOfBase(cat.types, b))
  {
    hide Plain, TextOf;
  }

  function BareIn(space: string, name: string): QualifiedName
    requires N.Bare(space) && N.Bare(name)
  {
    QualifiedName(RawIdent(space, false), RawIdent(name, false), false)
  }

  /** Types of one name in schemas a and b, and another type in schema c, none of them on the search path. */
  function Namesakes(a: string, b: string, name: string, c: string, other: string): (t: Types)
    requires N.Bare(a) && N.Bare(b) && N.Bare(name) && N.Bare(c) && N.Bare(other)
    ensures |t.composites| == 3 && t.domains == []
  {
    OnlyComposites([BareIn(a, name), BareIn(b, name), BareIn(c, other)])
  }

  lemma BareIsPlain(space: string, name: string)
    requires N.Bare(space) && N.Bare(name)
    ensures PlainName(BareIn(space, name)) && BareIn(space, name).name.name == name
    ensures TextOf(BareIn(space, name)) == space + ("." + name)
  {
  }

  lemma NamesakesShareAName(a: string, b: string, name: string, c: string, other: string)
    requires N.Bare(a) && N.Bare(b) && N.Bare(name) && N.Bare(c) && N.Bare(other)
    requires name != other && name != "text" && other != "text" && !DocumentFamily(name)
    ensures SameName(Namesakes(a, b, name, c, other), 0, 1, 2)
    ensures TextOf(Namesakes(a, b, name, c, other).composites[2]) == c + ("." + other)
  {
    hide PlainName, DocumentFamily, TextOf, BareIn, OnlyComposites, N.Bare;
    BareIsPlain(a, name);
    BareIsPlain(b, name);
    BareIsPlain(c, other);
    var t := Namesakes(a, b, name, c, other);
    assert t.composites == [BareIn(a, name), BareIn(b, name), BareIn(c, other)];
    hide Namesakes;
  }

  lemma KeysOfPlainTypes(schema: Schema, cat: Catalog)
    requires Valid(cat) && Shows(schema, cat)
    requires forall m :: 0 <= m < |cat.types.composites| ==> PlainName(cat.types.composites[m])
    ensures KeysTellApart(NamesOf(schema))
  {
    hide KeysTellApart, Shows;
    NamesAreShown(schema, cat);
    var names := OwnNames(cat.types.composites);
    forall m | 0 <= m < |names| ensures '"' !in names[m] {
      assert PlainName(cat.types.composites[m]);
    }
    PlainNamesTellApart(names);
  }

  /** A text in the first namesake, a json in the second and, in the third type, a field of
      the second: the third is searched in vain. */
  lemma SecondNamesakeIsMissed(a: string, b: string, name: string, c: string, other: string)
    returns (cat: Catalog, schema: Schema)
    requires N.Bare(a) && N.Bare(b) && N.Bare(name) && N.Bare(c) && N.Bare(other)
    requires name != other && name != "text" && other != "text" && !DocumentFamily(name)
    ensures cat == ThreeTypes(Namesakes(a, b, name, c, other), 0, InOther(0), 1, InDocument(0), 2)
    ensures PossibleFlat(schema, cat) && KeysTellApart(NamesOf(schema))
    ensures Search(schema, c + ("." + other)).None? && HoldsADocument(cat, InComposite(2))
  {
    hide Search, TextOf, KeysTellApart, DocumentFamily, Shows, Lawful, HoldsADocument, Unquoted, N.Bare, Namesakes;
    var t := Namesakes(a, b, name, c, other);
    var first: map<nat, Base> := map[0 := InOther(0), 1 := InDocument(0), 2 := InComposite(1)];
    LeavesAreThere(t);
    NamesakesShareAName(a, b, name, c, other);
    schema := BuiltIsFlat(t, first, [], 2);
    cat := ThreeTypes(t, 0, InOther(0), 1, InDocument(0), 2);
    FirstOfTheNameIsTaken(t, 0, InOther(0), 1, InDocument(0), 2, schema);
    KeysOfPlainTypes(schema, cat);
  }

  /** For one: a.addr and b.addr, and c.person with a field of type b.addr. */
  lemma SecondAddressIsMissed() returns (cat: Catalog, schema: Schema)
    ensures N.Bare("a") && N.Bare("b") && N.Bare("addr") && N.Bare("c") && N.Bare("person")
    ensures cat == ThreeTypes(Namesakes("a", "b", "addr", "c", "person"), 0, InOther(0), 1, InDocument(0), 2)
    ensures PossibleFlat(schema, cat) && KeysTellApart(NamesOf(schema))
    ensures Search(schema, "c.person").None? && HoldsADocument(cat, InComposite(2))
  {
    hide Search, KeysTellApart, PossibleFlat, HoldsADocument, DocumentFamily, Namesakes, ThreeTypes;
    NoFamilyButItsLetters("addr");
    assert "c" + ("." + "person") == "c.person";
    cat, schema := SecondNamesakeIsMissed("a", "b", "addr", "c", "person");
  }

  /** Type c of schema a.b and type b".c of schema a, both on the search path. */
  function Twins(a: char, b: char, c: char): (t: Types)
    ensures |t.composites| == 2 && t.domains == []
  {
    OnlyComposites([QualifiedName(RawIdent([a] + (['.'] + [b]), true), RawIdent([c], true), true),
                    QualifiedName(RawIdent([a], true), RawIdent([b] + (['"'] + (['.'] + [c])), true), true)])
  }

  predicate Simple(c: char) {
    c != '"' && c != '.'
  }

  lemma OneStep(c: char, s: string, inQuote: bool)
    ensures Unquoted([c] + s) == (if c == '"' then "" else [c]) + Unquoted(s)
    ensures AfterDot([c] + s, inQuote) ==
      match AfterDot(s, if c == '"' then !inQuote else inQuote)
      case Some(t) => Some(t)
      case None => if c == '.' && !inQuote then Some(s) else None
  {
    assert ([c] + s)[1..] == s;
  }

  lemma TwinNamesRead(a: char, b: char, c: char)
    requires Simple(a) && Simple(b) && Simple(c)
    ensures Unquoted([c]) == [c] && AfterDot([c], false) == None
    ensures Unquoted([a] + (['.'] + ([b] + (['.'] + [c])))) == [a, '.', b, '.', c]
    ensures BareTypeName([a] + (['.'] + ([b] + (['.'] + [c])))) == [c]
    ensures Unquoted([b] + (['"'] + (['.'] + [c]))) == [b, '.', c]
    ensures Unquoted([a] + (['.'] + ([b] + (['"'] + (['.'] + [c]))))) == [a, '.', b, '.', c]
    ensures BareTypeName([a] + (['.'] + ([b] + (['"'] + (['.'] + [c]))))) == [b, '.', c]
  {
    NothingIsRead();
    assert AfterDot("", true) == None && [c] + "" == [c];
    hide Unquoted, AfterDot;
    OneStep(c, "", false);
    OneStep(c, "", true);
    var dotted := ['.'] + [c];
    OneStep('.', [c], false);
    OneStep('.', [c], true);
    OneStep(b, dotted, false);
    OneStep('.', [b] + dotted, false);
    OneStep(a, ['.'] + ([b] + dotted), false);
    OneStep('"', dotted, false);
    OneStep(b, ['"'] + dotted, false);
    OneStep('.', [b] + (['"'] + dotted), false);
    OneStep(a, ['.'] + ([b] + (['"'] + dotted)), false);
  }

  lemma TwinNames(a: char, b: char, c: char)
    ensures var p, q := Twins(a, b, c).composites[0], Twins(a, b, c).composites[1];
      && p.visible && p.name.name == [c] && OwnName(p) == [a] + (['.'] + ([b] + (['.'] + [c])))
      && q.visible && q.name.name == [b] + (['"'] + (['.'] + [c])) && OwnName(q) == [a] + (['.'] + ([b] + (['"'] + (['.'] + [c]))))
  {
    hide OnlyComposites;
    var tail := [b] + (['"'] + (['.'] + [c]));
    assert [a] + (['.'] + [b]) + "." + [c] == [a] + (['.'] + ([b] + (['.'] + [c])));
    assert [a] + "." + tail == [a] + (['.'] + tail);
  }

  lemma TwinsRead(a: char, b: char, c: char)
    requires Simple(a) && Simple(b) && Simple(c)
    ensures var p, q := Twins(a, b, c).composites[0], Twins(a, b, c).composites[1];
      && Unquoted(OwnName(p)) == Unquoted(OwnName(q)) == [a, '.', b, '.', c]
      && BareTypeName(OwnName(p)) == [c] && BareTypeName(OwnName(q)) == [b, '.', c]
      && Unquoted(TextOf(p)) == BareTypeName(TextOf(p)) == [c]
      && Unquoted(TextOf(q)) == BareTypeName(TextOf(q)) == [b, '.', c]
  {
    hide Unquoted, BareTypeName, TextOf, OwnName, Twins;
    var p, q := Twins(a, b, c).composites[0], Twins(a, b, c).composites[1];
    TwinNames(a, b, c);
    TwinNamesRead(a, b, c);
    TextIsRead(p);
    TextIsRead(q);
  }

  lemma TwinsFindThemselves(a: char, b: char, c: char)
    requires Simple(a) && Simple(b) && Simple(c)
    ensures FindThemselves(Twins(a, b, c)) && !KeysDiffer(Twins(a, b, c))
    ensures !IsDocument(TextOf(Twins(a, b, c).composites[1]))
  {
    hide Unquoted, BareTypeName, TextOf, FindFrom, DocumentFamily, OwnName, Twins;
    var t := Twins(a, b, c);
    TwinsRead(a, b, c);
    NoFamilyHasADot([b, '.', c]);
    var names := OwnNames(t.composites);
    FindsTheFirst(names, TextOf(t.composites[0]), 0, 0);
    FindsTheFirst(names, TextOf(t.composites[1]), 1, 0);
    assert Unquoted(OwnName(t.composites[0])) == Unquoted(OwnName(t.composites[1]));
  }

  lemma NoFamilyHasADot(bare: string)
    requires |bare| > 1 && bare[1] == '.'
    ensures !DocumentFamily(bare)
  {
    assert Lower(bare)[1] == '.';
  }

  /** Each twin is found for its own text, and still they share the key a.b.c: with a json in
      the second and a field of the second in the first, the first is searched in vain. */
  lemma TwinIsMissed(a: char, b: char, c: char) returns (cat: Catalog, schema: Schema)
    requires Simple(a) && Simple(b) && Simple(c)
    ensures cat.types == Twins(a, b, c) && PossibleFlat(schema, cat) && FindThemselves(cat.types)
    ensures Search(schema, TextOf(cat.types.composites[0])).None? && HoldsADocument(cat, InComposite(0))
  {
    hide FindThemselves, PossibleFlat, IsDocument, Unquoted, OwnName, FindIn, Twins;
    TwinsFindThemselves(a, b, c);
    TwinsRead(a, b, c);
    cat, schema := TwinLost(Twins(a, b, c), 0, 1);
  }
}
