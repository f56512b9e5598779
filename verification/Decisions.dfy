/** The classifier's data: columns, foreign keys, one mutable decision a column
    (internal/classify/classify.go, internal/pipeline). Reason fragments are
    kept only where a pass reads them back: `keyExempt` is `keyFrag >= 0`. */
module Decisions {
  import opened Common

  datatype TableRef = TableRef(schema: string, name: string)

  datatype ColumnRef = ColumnRef(table: TableRef, column: string)

  datatype Category =
    | CatNone | PersonName | Email | Phone | Address | Geo | PersonDate
    | NationalID | Financial | NetworkID | OnlineID | Credential | FreeText
    | Special | Binary | SemiStruct | DerivedText

  datatype Family =
    | FamText | FamVarchar | FamBpchar | FamCitext | FamBoolean | FamInteger
    | FamBigint | FamNumeric | FamFloat | FamDate | FamTimestamp | FamTime
    | FamInterval | FamUUID | FamInet | FamCIDR | FamMacaddr | FamBytea
    | FamJSON | FamJSONB | FamHstore | FamTSVector | FamXML | FamEnum
    | FamComposite | FamOther

  datatype Source =
    | ByClassifier | ByYmlUnmask | ByFlagUnmask | ByYmlRaise | ByFKPropagation | ByNeighbour

  // pipeline.Confidence is an int; these are its five named levels.
  const CONF_NONE := 0
  const CONF_LOW := 1
  const CONF_POSSIBLE := 2 // the mask threshold
  const CONF_LIKELY := 3
  const CONF_CERTAIN := 4

  /** What base() settles about a column before the passes start; no later pass writes it. */
  datatype Traits = Traits(
    family: Family,
    isArray: bool,
    generated: bool,
    declaredLength: Option<int>,
    fingerprint: string,
    twoLetterCodes: bool,
    guessedPhone: bool,
    spared: bool,
    nameUncorroborated: bool)

  /** One column's decision while the passes run. */
  datatype Work = Work(
    col: Traits,
    category: Category,
    confidence: int,
    source: Source,
    refusedPartner: Option<ColumnRef>,
    tableHasLikely: bool,
    typeConflict: bool,
    neverMask: bool,
    frameworkMetadata: bool,
    keyExempt: bool,
    propagationRefused: bool,
    unmasked: bool,
    sweptNoSignal: bool)
  {
    /** The threshold: what finalise calls Masked. */
    predicate Masked() {
      confidence >= CONF_POSSIBLE && !neverMask && !unmasked
    }
  }

  type Dec = map<ColumnRef, Work>

  /** What finalise hands the plan and the loader of one column. */
  datatype Decision = Decision(category: Category, source: Source, masked: bool, neverMasked: bool, uniqueIndex: bool)

  /** The rule pack's `accepts:` lists; a category listed with no families accepts any. */
  type Accepts = map<Category, Option<set<Family>>>

  predicate Accepted(pack: Accepts, cat: Category, family: Family) {
    cat in pack && match pack[cat] case None => true case Some(fams) => family in fams
  }

  predicate IsKeyFamily(f: Family) {
    f == FamInteger || f == FamBigint || f == FamUUID
  }

  predicate IsCharacterFamily(f: Family) {
    f == FamText || f == FamVarchar || f == FamBpchar || f == FamCitext
  }

  predicate IdentifiesAPerson(cat: Category) {
    match cat
    case CatNone | FreeText | Binary | SemiStruct | DerivedText => false
    case _ => true
  }

  datatype ForeignKey = ForeignKey(
    child: TableRef, childCols: seq<string>,
    parent: TableRef, parentCols: seq<string>,
    validated: bool, isVirtual: bool)

  datatype Table = Table(ref: TableRef, columns: seq<string>)

  /** One column pair of a foreign key; `checked` is validated and not virtual. */
  datatype Pair = Pair(parent: ColumnRef, child: ColumnRef, checked: bool)

  function Width(fk: ForeignKey): nat {
    if |fk.childCols| <= |fk.parentCols| then |fk.childCols| else |fk.parentCols|
  }

  function PairAt(fk: ForeignKey, i: nat): Pair
    requires i < Width(fk)
  {
    Pair(ColumnRef(fk.parent, fk.parentCols[i]), ColumnRef(fk.child, fk.childCols[i]),
         fk.validated && !fk.isVirtual)
  }

  /** The first n column pairs of one key, in position order. */
  function PairsTo(fk: ForeignKey, n: nat): (ps: seq<Pair>)
    requires n <= Width(fk)
    ensures |ps| == n && forall i :: 0 <= i < n ==> ps[i] == PairAt(fk, i)
  {
    seq(n, i requires 0 <= i < n => PairAt(fk, i))
  }

  /** Every column pair, in the order the sweeps visit them. */
  function AllPairs(fks: seq<ForeignKey>): seq<Pair> {
    if fks == [] then [] else
      AllPairs(fks[..|fks| - 1]) + PairsTo(fks[|fks| - 1], Width(fks[|fks| - 1]))
  }

  predicate SingleColumn(fks: seq<ForeignKey>) {
    forall i :: 0 <= i < |fks| ==> Width(fks[i]) == 1
  }

  lemma {:induction false} SingleColumnPairCount(fks: seq<ForeignKey>)
    requires SingleColumn(fks)
    ensures |AllPairs(fks)| == |fks|
  {
    if fks != [] {
      SingleColumnPairCount(fks[..|fks| - 1]);
    }
  }

  lemma {:induction false} PairInAllPairs(fks: seq<ForeignKey>, k: nat, i: nat)
    requires k < |fks| && i < Width(fks[k])
    ensures PairAt(fks[k], i) in AllPairs(fks)
  {
    var last := |fks| - 1;
    if k < last {
      PairInAllPairs(fks[..last], k, i);
    } else {
      assert PairsTo(fks[last], Width(fks[last]))[i] == PairAt(fks[k], i);
    }
  }

  // ---------- what a pass may not undo ----------

  /** w' is a later decision on w's column: no confidence lowered, no category taken
      back, and nothing changed that describes the column rather than the decision. */
  predicate Unlowered(w: Work, w': Work) {
    && w.confidence <= w'.confidence
    && (w.category != CatNone ==> w'.category != CatNone)
    && w.col == w'.col
  }

  /** Unlowered, and no exemption granted or turned into another kind. */
  predicate Raises(w: Work, w': Work) {
    Unlowered(w, w') && (w'.neverMask ==> w.neverMask && w'.keyExempt == w.keyExempt)
  }

  /** Still masked if it was, and no opt-out recorded. */
  predicate StillMasked(w: Work, w': Work) {
    (w.Masked() ==> w'.Masked()) && (w'.unmasked ==> w.unmasked)
  }

  /** A decision above none names a category. */
  predicate HasCategory(w: Work) {
    w.confidence > CONF_NONE ==> w.category != CatNone
  }

  predicate AllHaveCategory(d: Dec) {
    forall c :: c in d ==> HasCategory(d[c])
  }

  /** The contract of a pass that only ever masks more. */
  predicate MasksMore(d: Dec, d': Dec) {
    && d.Keys == d'.Keys
    && (forall c :: c in d ==> Raises(d[c], d'[c]) && StillMasked(d[c], d'[c]))
    && (AllHaveCategory(d) ==> AllHaveCategory(d'))
  }

  lemma MasksMoreTransitive(a: Dec, b: Dec, c: Dec)
    requires MasksMore(a, b) && MasksMore(b, c)
    ensures MasksMore(a, c)
  {
    forall x | x in a ensures Raises(a[x], c[x]) && StillMasked(a[x], c[x]) {
      assert Raises(a[x], b[x]) && Raises(b[x], c[x]);
    }
  }

  /** MasksMore for one column. */
  predicate WorkMasksMore(w: Work, w': Work) {
    Raises(w, w') && StillMasked(w, w') && (HasCategory(w) ==> HasCategory(w'))
  }

  lemma OneColumnMasksMore(d: Dec, d': Dec, c: ColumnRef, w: Work)
    requires MasksMore(d, d') && c in d'
    requires WorkMasksMore(d'[c], w)
    ensures MasksMore(d, d'[c := w])
  {
    var e := d'[c := w];
    forall x | x in d' ensures Raises(d'[x], e[x]) && StillMasked(d'[x], e[x]) {
      if x != c { assert e[x] == d'[x]; }
    }
    if AllHaveCategory(d') {
      forall x | x in e ensures HasCategory(e[x]) {
        if x != c { assert e[x] == d'[x]; }
      }
    }
    MasksMoreTransitive(d, d', e);
  }
}
