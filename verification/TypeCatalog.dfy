/** The types of a database, what they hold, and how the catalog shows them, whatever a
    lookup makes of that (internal/introspect/sql.go:141-189). */
module TypeCatalog {
  import opened Common
  import opened CompositeText
  import opened CompositeNames
  import opened CompositeWalk
  import D = DomainText
  import L = Literal
  import N = Names

  // ---------- the types of a database ----------

  /** Its composites and domains in the order they are listed, and the texts shown of the
      other types: of json, jsonb and hstore under `documents`. */
  datatype RawTypes = RawTypes(composites: seq<QualifiedName>, domains: seq<QualifiedName>,
                               documents: seq<TypeText>, others: seq<TypeText>)

  type Types = t: RawTypes | AlwaysThere(t)
    witness BuiltIns()

  predicate AlwaysThere(t: RawTypes) {
    && t.documents != [] && t.documents[0] == "json" && t.others != [] && t.others[0] == "text"
    && forall k :: 0 <= k < |t.documents| ==> IsDocument(Plain(t.documents[k]))
  }

  function BuiltIns(): (t: RawTypes)
    ensures AlwaysThere(t) && t.domains == []
  {
    JsonIsADocument(Schema([], []));
    TextIsShown();
    RawTypes([], [], [Json()], ["text"])
  }

  /** No domain and no enum, only these composites. */
  function OnlyComposites(composites: seq<QualifiedName>): (t: Types)
    ensures t.composites == composites && t.domains == []
  {
    BuiltIns().(composites := composites)
  }

  lemma TextIsShown()
    ensures Rendered(RawColumn("f", false, "text"))
  {
    assert Protected("t", 0, false) && Protected("xt", 0, false) && Protected("ext", 0, false);
  }

  /** What is looked up of a type text: array suffixes and modifier off. */
  function Plain(text: string): string {
    StripTypmod(StripArrays(text))
  }

  datatype Base = InComposite(i: nat) | InDomain(d: nat) | InDocument(k: nat) | InOther(k: nat)

  /** A type or, with dimensions, an array of it. */
  datatype TypeRef = TypeRef(base: Base, dims: nat)

  datatype FieldDef = FieldDef(name: Ident, typ: TypeRef)

  /** The definitions: every composite's fields and every domain's base type. */
  datatype Catalog = Catalog(types: Types, fields: seq<seq<FieldDef>>, bases: seq<TypeRef>)

  predicate Has(t: Types, b: Base) {
    match b
    case InComposite(i) => i < |t.composites|
    case InDomain(d) => d < |t.domains|
    case InDocument(k) => k < |t.documents|
    case InOther(k) => k < |t.others|
  }

  ghost predicate Valid(cat: Catalog) {
    && |cat.fields| == |cat.types.composites| && |cat.bases| == |cat.types.domains|
    && (forall i, k :: 0 <= i < |cat.fields| && 0 <= k < |cat.fields[i]| ==> Has(cat.types, cat.fields[i][k].typ.base))
    && (forall d :: 0 <= d < |cat.bases| ==> Has(cat.types, cat.bases[d].base))
  }

  // ---------- what a type holds ----------

  /** A document is n steps inside: down a field of a composite or to the base of a domain. */
  ghost predicate Holds(cat: Catalog, b: Base, n: nat)
    requires Valid(cat) && Has(cat.types, b)
    decreases n
  {
    if n == 0 then b.InDocument?
    else match b
      case InDomain(d) => Holds(cat, cat.bases[d].base, n - 1)
      case InComposite(i) => exists k :: 0 <= k < |cat.fields[i]| && Holds(cat, cat.fields[i][k].typ.base, n - 1)
      case _ => false
  }

  ghost predicate HoldsADocument(cat: Catalog, b: Base)
    requires Valid(cat) && Has(cat.types, b)
  {
    exists n: nat :: Holds(cat, b, n)
  }

  ghost predicate Ranked(cat: Catalog, rank: Base -> nat) {
    && (forall i, k :: 0 <= i < |cat.fields| && 0 <= k < |cat.fields[i]| ==>
          rank(cat.fields[i][k].typ.base) < rank(InComposite(i)))
    && (forall d :: 0 <= d < |cat.bases| ==> rank(cat.bases[d].base) < rank(InDomain(d)))
  }

  /** No type is nested in itself, which the server does not allow. */
  ghost predicate Lawful(cat: Catalog) {
    exists rank: Base -> nat :: Ranked(cat, rank)
  }

  /** No domain is over a domain. */
  ghost predicate Flat(cat: Catalog) {
    forall d :: 0 <= d < |cat.bases| ==> !cat.bases[d].base.InDomain?
  }

  // ---------- what the catalog shows ----------

  function TextOfBase(t: Types, b: Base): string
    requires Has(t, b)
  {
    match b
    case InComposite(i) => TextOf(t.composites[i])
    case InDomain(d) => TextOf(t.domains[d])
    case InDocument(k) => t.documents[k]
    case InOther(k) => t.others[k]
  }

  function Brackets(dims: nat): string {
    if dims == 0 then "" else Brackets(dims - 1) + "[]"
  }

  function TextOfRef(t: Types, r: TypeRef): string
    requires Has(t, r.base)
  {
    TextOfBase(t, r.base) + Brackets(r.dims)
  }

  function OwnNames(qs: seq<QualifiedName>): (names: seq<string>)
    ensures |names| == |qs|
  {
    seq(|qs|, i requires 0 <= i < |qs| => OwnName(qs[i]))
  }

  ghost function ShownFields(cat: Catalog, i: nat): (a: seq<Attribute>)
    requires Valid(cat) && i < |cat.fields|
    ensures |a| == |cat.fields[i]|
  {
    seq(|cat.fields[i]|, k requires 0 <= k < |cat.fields[i]| =>
      Attribute(cat.fields[i][k].name.name, TextOfRef(cat.types, cat.fields[i][k].typ)))
  }

  /** The listed names are the types' own, and the texts read back as what is defined. */
  ghost predicate Shows(schema: Schema, cat: Catalog)
    requires Valid(cat)
  {
    && NamesOf(schema) == OwnNames(cat.types.composites)
    && NamesIn(schema.domains) == OwnNames(cat.types.domains)
    && (forall i :: 0 <= i < |schema.composites| ==> FieldsAt(schema, i) == ShownFields(cat, i))
    && (forall d :: 0 <= d < |schema.domains| ==>
          D.BaseOfDef(schema.domains[d].def) == Some(TextOfRef(cat.types, cat.bases[d])))
  }

  /** The search reports a document field of exactly the composites that hold one. */
  ghost predicate Right(schema: Schema, cat: Catalog)
    requires Valid(cat)
  {
    forall i :: 0 <= i < |cat.types.composites| ==>
      (Search(schema, TextOf(cat.types.composites[i])).Some? <==> HoldsADocument(cat, InComposite(i)))
  }

  // ---------- what the search makes of a text ----------

  lemma {:induction false} BracketsComeOff(s: string, dims: nat)
    ensures StripArrays(s + Brackets(dims)) == StripArrays(s)
  {
    if dims == 0 {
      assert s + Brackets(dims) == s;
    } else {
      var most := s + Brackets(dims - 1);
      assert s + Brackets(dims) == most + "[]";
      assert (most + "[]")[..|most + "[]"| - 2] == most;
      BracketsComeOff(s, dims - 1);
    }
  }

  /** The name a field of type b is taken for: its own, or that of the base type of the
      first domain its text finds. */
  function TakenFor(cat: Catalog, b: Base): string
    requires Valid(cat) && Has(cat.types, b)
  {
    var x := Plain(TextOfBase(cat.types, b));
    match FindIn(OwnNames(cat.types.domains), x)
    case None => x
    case Some(d) => Plain(TextOfBase(cat.types, cat.bases[d].base))
  }

  lemma TypeNameIsTakenFor(schema: Schema, cat: Catalog, r: TypeRef)
    requires Valid(cat) && Shows(schema, cat) && Has(cat.types, r.base)
    ensures TypeName(schema, TextOfRef(cat.types, r)) == TakenFor(cat, r.base)
  {
    hide StripArrays, StripTypmod, FindIn, TextOfBase, D.BaseOfDef, FieldsAt;
    BracketsComeOff(TextOfBase(cat.types, r.base), r.dims);
    var found := FindIn(OwnNames(cat.types.domains), Plain(TextOfBase(cat.types, r.base)));
    if found.Some? {
      var base := cat.bases[found.value];
      BracketsComeOff(TextOfBase(cat.types, base.base), base.dims);
    }
  }

  // ---------- a rendering of any catalog ----------

  ghost function ColumnOf(t: Types, f: FieldDef): Column
    requires Has(t, f.typ.base)
  {
    RefIsShown(t, f.typ);
    RawColumn(f.name.name, f.name.quoted, TextOfRef(t, f.typ))
  }

  lemma {:induction false} BracketsAreProtected(s: string, depth: int, inQuote: bool)
    ensures Protected(s + "[]", depth, inQuote) == Protected(s, depth, inQuote)
  {
    if s == "" {
      assert s + "[]" == "[]" && "[]"[1..] == "]" && "]"[1..] == "";
    } else {
      assert (s + "[]")[1..] == s[1..] + "[]";
      BracketsAreProtected(s[1..], if s[0] == '(' && !inQuote then depth + 1 else if s[0] == ')' && !inQuote then depth - 1 else depth,
                           if s[0] == '"' then !inQuote else inQuote);
    }
  }

  lemma BracketsTrim(s: string)
    requires s != "" && L.Trim(s)
    ensures L.Trim(s + "[]")
  {
    assert (s + "[]")[0] == s[0] && (s + "[]")[|s| + 1] == ']';
  }

  lemma {:induction false} BracketsAreShown(s: string, dims: nat)
    requires Rendered(RawColumn("f", false, s))
    ensures Rendered(RawColumn("f", false, s + Brackets(dims)))
  {
    hide Protected, L.Trim, N.Bare;
    if dims == 0 {
      assert s + Brackets(0) == s;
    } else {
      var most := s + Brackets(dims - 1);
      BracketsAreShown(s, dims - 1);
      assert s + Brackets(dims) == most + "[]";
      BracketsAreProtected(most, 0, false);
      BracketsTrim(most);
    }
  }

  lemma RefIsShown(t: Types, r: TypeRef)
    requires Has(t, r.base)
    ensures Rendered(RawColumn("f", false, TextOfRef(t, r)))
  {
    hide Rendered, TextOf;
    match r.base
    case InComposite(i) => TextIsPlain(t.composites[i]); BracketsAreShown(TextOfBase(t, r.base), r.dims);
    case InDomain(d) => TextIsPlain(t.domains[d]); BracketsAreShown(TextOfBase(t, r.base), r.dims);
    case _ => BracketsAreShown(TextOfBase(t, r.base), r.dims);
  }

  ghost function ColumnsOf(cat: Catalog, i: nat): (cs: seq<Column>)
    requires Valid(cat) && i < |cat.fields|
    ensures |cs| == |cat.fields[i]|
  {
    seq(|cat.fields[i]|, k requires 0 <= k < |cat.fields[i]| => ColumnOf(cat.types, cat.fields[i][k]))
  }

  /** The names the definitions give the types they define. */
  datatype Labels = Labels(composites: seq<string>, domains: seq<string>)

  /** Names a definition's reader is not misled by (ParenthesisInTheNameMisleads, BaseIsReadIff). */
  ghost predicate Legible(cat: Catalog, labels: Labels)
    requires Valid(cat)
  {
    && |labels.composites| == |cat.types.composites| && |labels.domains| == |cat.types.domains|
    && (forall i :: 0 <= i < |labels.composites| ==> '(' !in labels.composites[i])
    && (forall d :: 0 <= d < |labels.domains| ==> !D.Occurs("CREATE DOMAIN " + labels.domains[d] + " ", D.AS))
    && (forall d :: 0 <= d < |cat.bases| ==> BaseIsLegible(cat.types, cat.bases[d]))
  }

  predicate BaseIsLegible(t: Types, r: TypeRef)
    requires Has(t, r.base)
  {
    D.IsBase(TextOfRef(t, r)) && D.Clauseless(TextOfRef(t, r))
  }

  ghost function Printed(cat: Catalog, labels: Labels): Schema
    requires Valid(cat) && Legible(cat, labels)
  {
    Schema(
      seq(|cat.fields|, i requires 0 <= i < |cat.fields| =>
        NamedDef(OwnName(cat.types.composites[i]), PrintDef(labels.composites[i], ColumnsOf(cat, i)))),
      seq(|cat.bases|, d requires 0 <= d < |cat.bases| =>
        NamedDef(OwnName(cat.types.domains[d]), D.PrintDomain(labels.domains[d], TextOfRef(cat.types, cat.bases[d]), ""))))
  }

  /** The catalog's own text shows it. */
  lemma PrintedShows(cat: Catalog, labels: Labels)
    requires Valid(cat) && Legible(cat, labels)
    ensures Shows(Printed(cat, labels), cat)
  {
    hide PrintDef, FieldsOfDef, D.PrintDomain, D.BaseOfDef, D.IsBase, D.Clauseless, D.Occurs, TextOfRef, OwnName;
    var schema := Printed(cat, labels);
    assert NamesOf(schema) == OwnNames(cat.types.composites);
    assert NamesIn(schema.domains) == OwnNames(cat.types.domains);
    forall i | 0 <= i < |schema.composites| ensures FieldsAt(schema, i) == ShownFields(cat, i) {
      FieldsAreReadBack(labels.composites[i], ColumnsOf(cat, i));
      assert Meant(ColumnsOf(cat, i)) == ShownFields(cat, i);
    }
    forall d | 0 <= d < |schema.domains| ensures D.BaseOfDef(schema.domains[d].def) == Some(TextOfRef(cat.types, cat.bases[d])) {
      assert BaseIsLegible(cat.types, cat.bases[d]);
      D.BaseIsReadIff(labels.domains[d], TextOfRef(cat.types, cat.bases[d]), "");
    }
  }
}
