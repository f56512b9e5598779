/** The passes that raise a decision on a neighbour's, a namesake's or the
    committed file's account (classify.go, passes 2, 3, 3b, 4b and 5). */
module RaisingPasses {
  import opened Common
  import opened Decisions

  // ---------- one rule applied to a list of columns ----------

  /** What one visit of a raising loop does to a column's decision. */
  datatype Raise =
    | RaiseBytea
    | NoteLikely(likely: nat)
    | RaiseLow
    | RaiseGuessedPhone

  function Raised(rule: Raise, w: Work): Work {
    match rule
    case RaiseBytea =>
      if w.col.family != FamBytea || w.neverMask || w.confidence >= CONF_POSSIBLE then w
      else w.(category := Binary, confidence := CONF_POSSIBLE)
    case NoteLikely(likely) =>
      var others := if w.confidence >= CONF_LIKELY then likely - 1 else likely;
      w.(tableHasLikely := others > 0)
    case RaiseLow =>
      if !Raisable(w) || w.confidence != CONF_LOW then w
      else w.(confidence := CONF_POSSIBLE, source := ByNeighbour)
    case RaiseGuessedPhone =>
      if !w.col.guessedPhone || w.neverMask || w.typeConflict || w.confidence >= CONF_POSSIBLE || !w.tableHasLikely then w
      else w.(category := Phone, confidence := CONF_POSSIBLE)
  }

  predicate Raisable(w: Work) {
    !w.typeConflict && !w.neverMask && w.category != CatNone
  }

  function RaiseAt(rule: Raise, c: ColumnRef, dec: Dec): Dec {
    if c in dec then dec[c := Raised(rule, dec[c])] else dec
  }

  function RaiseEach(rule: Raise, cols: seq<ColumnRef>, dec: Dec): Dec {
    if cols == [] then dec else
      RaiseAt(rule, cols[|cols| - 1], RaiseEach(rule, cols[..|cols| - 1], dec))
  }

  function Columns(t: Table): (cols: seq<ColumnRef>)
    ensures |cols| == |t.columns|
  {
    seq(|t.columns|, i requires 0 <= i < |t.columns| => ColumnRef(t.ref, t.columns[i]))
  }

  /** How many of the columns stand at a confidence of at least `level`. */
  function CountAtLeast(level: int, cols: seq<ColumnRef>, dec: Dec): (n: nat)
    ensures n <= |cols|
  {
    if cols == [] then 0 else
      var c := cols[|cols| - 1];
      CountAtLeast(level, cols[..|cols| - 1], dec) + (if c in dec && dec[c].confidence >= level then 1 else 0)
  }

  function CountCertain(cols: seq<ColumnRef>, dec: Dec): nat {
    if cols == [] then 0 else
      var c := cols[|cols| - 1];
      CountCertain(cols[..|cols| - 1], dec) + (if c in dec && dec[c].confidence == CONF_CERTAIN then 1 else 0)
  }

  function ByteaTable(t: Table, dec: Dec): Dec {
    if CountCertain(Columns(t), dec) == 0 then dec else RaiseEach(RaiseBytea, Columns(t), dec)
  }

  function NeighbourTable(t: Table, dec: Dec): Dec {
    var likely := CountAtLeast(CONF_LIKELY, Columns(t), dec);
    var noted := RaiseEach(NoteLikely(likely), Columns(t), dec);
    if likely == 0 then noted else RaiseEach(RaiseLow, Columns(t), noted)
  }

  function ByteaPass(ts: seq<Table>, dec: Dec): Dec {
    if ts == [] then dec else ByteaTable(ts[|ts| - 1], ByteaPass(ts[..|ts| - 1], dec))
  }

  function NeighbourPass(ts: seq<Table>, dec: Dec): Dec {
    if ts == [] then dec else NeighbourTable(ts[|ts| - 1], NeighbourPass(ts[..|ts| - 1], dec))
  }

  predicate SameSwept(d: Dec, d': Dec) {
    d.Keys == d'.Keys && forall c :: c in d ==> d'[c].sweptNoSignal == d[c].sweptNoSignal
  }

  lemma RaisedMasksMore(rule: Raise, w: Work)
    ensures WorkMasksMore(w, Raised(rule, w)) && Raised(rule, w).sweptNoSignal == w.sweptNoSignal
  {
    match rule
    case RaiseBytea =>
    case NoteLikely(likely) =>
    case RaiseLow =>
    case RaiseGuessedPhone =>
  }

  lemma {:induction false} RaiseEachMasksMore(rule: Raise, cols: seq<ColumnRef>, dec: Dec)
    ensures MasksMore(dec, RaiseEach(rule, cols, dec))
    ensures SameSwept(dec, RaiseEach(rule, cols, dec))
  {
    if cols != [] {
      var c := cols[|cols| - 1];
      var before := RaiseEach(rule, cols[..|cols| - 1], dec);
      RaiseEachMasksMore(rule, cols[..|cols| - 1], dec);
      if c in before {
        RaisedMasksMore(rule, before[c]);
        OneColumnMasksMore(dec, before, c, Raised(rule, before[c]));
      }
    }
  }

  lemma {:induction false} ByteaPassMasksMore(ts: seq<Table>, dec: Dec)
    ensures MasksMore(dec, ByteaPass(ts, dec)) && SameSwept(dec, ByteaPass(ts, dec))
  {
    if ts != [] {
      var before := ByteaPass(ts[..|ts| - 1], dec);
      ByteaPassMasksMore(ts[..|ts| - 1], dec);
      RaiseEachMasksMore(RaiseBytea, Columns(ts[|ts| - 1]), before);
      MasksMoreTransitive(dec, before, ByteaPass(ts, dec));
    }
  }

  lemma {:induction false} NeighbourPassMasksMore(ts: seq<Table>, dec: Dec)
    ensures MasksMore(dec, NeighbourPass(ts, dec)) && SameSwept(dec, NeighbourPass(ts, dec))
  {
    if ts != [] {
      var t := ts[|ts| - 1];
      var before := NeighbourPass(ts[..|ts| - 1], dec);
      NeighbourPassMasksMore(ts[..|ts| - 1], dec);
      var likely := CountAtLeast(CONF_LIKELY, Columns(t), before);
      var noted := RaiseEach(NoteLikely(likely), Columns(t), before);
      RaiseEachMasksMore(NoteLikely(likely), Columns(t), before);
      RaiseEachMasksMore(RaiseLow, Columns(t), noted);
      MasksMoreTransitive(dec, before, noted);
      MasksMoreTransitive(dec, noted, NeighbourPass(ts, dec));
    }
  }

  // ---------- sameColumnName ----------

  datatype Namesake = Namesake(category: Category, table: TableRef)

  /** normaliseName over every column, left uninterpreted. */
  type Normalised = ColumnRef -> string

  predicate SpeaksForItsName(w: Work) {
    w.confidence >= CONF_POSSIBLE && !w.neverMask && w.category != CatNone && !w.sweptNoSignal
  }

  /** The first masked, evidenced column of each normalised name. */
  function Namesakes(norm: Normalised, order: seq<ColumnRef>, dec: Dec): map<string, Namesake> {
    if order == [] then map[] else
    var c := order[|order| - 1];
    var rest := Namesakes(norm, order[..|order| - 1], dec);
    if c !in dec || !SpeaksForItsName(dec[c]) || norm(c) in rest then rest
    else rest[norm(c) := Namesake(dec[c].category, c.table)]
  }

  function NameShared(pack: Accepts, c: ColumnRef, w: Work, key: string, sources: map<string, Namesake>): Work {
    if w.neverMask || w.typeConflict || w.confidence >= CONF_POSSIBLE || w.col.nameUncorroborated then w
    else if key !in sources || sources[key].table == c.table then w
    else if w.category != CatNone && w.category != sources[key].category then w
    else if !Accepted(pack, sources[key].category, w.col.family) then w
    else w.(category := sources[key].category, confidence := CONF_POSSIBLE, source := ByFKPropagation)
  }

  function ShareNames(norm: Normalised, pack: Accepts, sources: map<string, Namesake>, order: seq<ColumnRef>, dec: Dec): Dec {
    if order == [] then dec else
    var c := order[|order| - 1];
    var rest := ShareNames(norm, pack, sources, order[..|order| - 1], dec);
    if c in rest then rest[c := NameShared(pack, c, rest[c], norm(c), sources)] else rest
  }

  /** No recorded source is without a category, and each is an evidenced masked column's. */
  lemma {:induction false} NamesakesAreEvidenced(norm: Normalised, order: seq<ColumnRef>, dec: Dec)
    ensures forall k :: k in Namesakes(norm, order, dec) ==>
      exists c :: c in order && c in dec && norm(c) == k && SpeaksForItsName(dec[c])
        && Namesakes(norm, order, dec)[k] == Namesake(dec[c].category, c.table)
  {
    if order != [] {
      NamesakesAreEvidenced(norm, order[..|order| - 1], dec);
      var c := order[|order| - 1];
      assert c in order;
      assert forall x :: x in order[..|order| - 1] ==> x in order;
    }
  }

  lemma {:induction false} ShareNamesMasksMore(norm: Normalised, pack: Accepts, sources: map<string, Namesake>, order: seq<ColumnRef>, dec: Dec)
    requires forall k :: k in sources ==> sources[k].category != CatNone
    ensures MasksMore(dec, ShareNames(norm, pack, sources, order, dec))
  {
    if order != [] {
      var c := order[|order| - 1];
      var before := ShareNames(norm, pack, sources, order[..|order| - 1], dec);
      ShareNamesMasksMore(norm, pack, sources, order[..|order| - 1], dec);
      if c in before {
        assert WorkMasksMore(before[c], NameShared(pack, c, before[c], norm(c), sources));
        OneColumnMasksMore(dec, before, c, NameShared(pack, c, before[c], norm(c), sources));
      }
    }
  }

  // ---------- applyPrior ----------

  datatype Unmask = Unmask(reason: string, typeFP: string, byFlag: bool)

  /** `category` is None where the file gives the empty string. */
  datatype ColumnConfig = ColumnConfig(category: Option<Category>, confidence: int, unmask: Option<Unmask>)

  /** One `patterns:` entry; `names` is every column its regexp matches. */
  datatype Pattern = Pattern(names: set<ColumnRef>, category: Option<Category>, confidence: int)

  datatype Prior = Prior(patterns: seq<Pattern>, columns: map<ColumnRef, ColumnConfig>)

  datatype RaiseResult = RaiseResult(work: Work, applied: bool)

  /** The category the raise would leave, where the column's type accepts the file's. */
  function Recategorised(pack: Accepts, w: Work, cat: Option<Category>): Work {
    if cat.Some? && cat.value != CatNone && Accepted(pack, cat.value, w.col.family)
    then w.(category := cat.value, typeConflict := false) else w
  }

  /** liftFrameworkMetadataExemption. */
  function Lifted(w: Work): Work {
    if w.frameworkMetadata then w.(neverMask := false, frameworkMetadata := false) else w
  }

  function RaiseFromConfig(pack: Accepts, w: Work, cat: Option<Category>, conf: int): RaiseResult {
    var named := Recategorised(pack, w, cat);
    if named.category == CatNone || named.typeConflict || !Accepted(pack, named.category, named.col.family)
    then RaiseResult(named, false)
    else RaiseResult(Lifted(named).(confidence := conf, source := ByYmlRaise), true)
  }

  function PatternVisit(pack: Accepts, pat: Pattern, c: ColumnRef, w: Work): RaiseResult {
    if (w.neverMask && !w.frameworkMetadata) || c !in pat.names || pat.confidence <= w.confidence
    then RaiseResult(w, false)
    else RaiseFromConfig(pack, w, pat.category, pat.confidence)
  }

  predicate HonourOptOut(u: Unmask, fingerprint: string) {
    if u.reason == "" then false
    else if u.typeFP == "" then u.byFlag
    else u.typeFP == fingerprint
  }

  function OptedOut(w: Work, u: Unmask): Work {
    w.(unmasked := true, source := if u.byFlag then ByFlagUnmask else ByYmlUnmask)
  }

  function ColumnVisit(pack: Accepts, cc: ColumnConfig, w: Work): RaiseResult {
    var raised :=
      if cc.confidence > w.confidence && (!w.neverMask || w.frameworkMetadata)
      then RaiseFromConfig(pack, w, cc.category, cc.confidence) else RaiseResult(w, false);
    if cc.unmask.Some? && HonourOptOut(cc.unmask.value, raised.work.col.fingerprint)
    then raised.(work := OptedOut(raised.work, cc.unmask.value)) else raised
  }

  /** The decisions, and whether any raise applied (priorRaised). */
  datatype Folded = Folded(dec: Dec, raised: bool)

  function FoldVisit(f: Folded, c: ColumnRef, v: RaiseResult): Folded {
    Folded(f.dec[c := v.work], f.raised || v.applied)
  }

  function ApplyPattern(pack: Accepts, pat: Pattern, order: seq<ColumnRef>, f: Folded): Folded {
    if order == [] then f else
    var c := order[|order| - 1];
    var g := ApplyPattern(pack, pat, order[..|order| - 1], f);
    if c in g.dec then FoldVisit(g, c, PatternVisit(pack, pat, c, g.dec[c])) else g
  }

  function ApplyPatterns(pack: Accepts, pats: seq<Pattern>, order: seq<ColumnRef>, f: Folded): Folded {
    if pats == [] then f else
      ApplyPattern(pack, pats[|pats| - 1], order, ApplyPatterns(pack, pats[..|pats| - 1], order, f))
  }

  function ApplyColumns(pack: Accepts, prior: Prior, order: seq<ColumnRef>, f: Folded): Folded {
    if order == [] then f else
    var c := order[|order| - 1];
    var g := ApplyColumns(pack, prior, order[..|order| - 1], f);
    if c in g.dec && c in prior.columns then FoldVisit(g, c, ColumnVisit(pack, prior.columns[c], g.dec[c])) else g
  }

  function ApplyPrior(pack: Accepts, prior: Prior, order: seq<ColumnRef>, dec: Dec): Folded {
    ApplyColumns(pack, prior, order, ApplyPatterns(pack, prior.patterns, order, Folded(dec, false)))
  }

  /** The committed file only tightens: a column leaves the masked set only by an
      opt-out that carries a reason and its own fingerprint, or the flag's. */
  predicate Tightens(prior: Prior, d: Dec, d': Dec) {
    && d.Keys == d'.Keys
    && (forall c :: c in d ==> Raises(d[c], d'[c]))
    && (AllHaveCategory(d) ==> AllHaveCategory(d'))
    && forall c :: c in d && !StillMasked(d[c], d'[c]) ==> OptOutStands(prior, c, d[c].col.fingerprint)
  }

  predicate OptOutStands(prior: Prior, c: ColumnRef, fingerprint: string) {
    && c in prior.columns && prior.columns[c].unmask.Some?
    && Stands(prior.columns[c].unmask.value, fingerprint)
  }

  /** A reason, and the fingerprint of the column as it is now, which the flag alone may leave out. */
  predicate Stands(u: Unmask, fingerprint: string) {
    u.reason != "" && (u.typeFP == fingerprint || u.typeFP == "") && (u.typeFP != "" || u.byFlag)
  }

  lemma HonouredIffItStands(u: Unmask, fingerprint: string)
    ensures HonourOptOut(u, fingerprint) <==> Stands(u, fingerprint)
  {
  }

  lemma RaiseFromConfigMasksMore(pack: Accepts, w: Work, cat: Option<Category>, conf: int)
    requires conf > w.confidence && (!w.neverMask || w.frameworkMetadata)
    ensures WorkMasksMore(w, RaiseFromConfig(pack, w, cat, conf).work)
  {
    hide Accepted;
    var named := Recategorised(pack, w, cat);
    RecategorisedMasksMore(pack, w, cat);
    assert WorkMasksMore(named, Lifted(named)) && Lifted(named).category == named.category;
    hide Recategorised;
  }

  lemma RecategorisedMasksMore(pack: Accepts, w: Work, cat: Option<Category>)
    ensures var named := Recategorised(pack, w, cat);
      WorkMasksMore(w, named) && named.confidence == w.confidence && named.neverMask == w.neverMask
      && named.frameworkMetadata == w.frameworkMetadata && named.unmasked == w.unmasked
  {
    hide Accepted;
  }

  lemma VisitsMaskMore(pack: Accepts, pat: Pattern, c: ColumnRef, w: Work)
    ensures WorkMasksMore(w, PatternVisit(pack, pat, c, w).work)
  {
    if !((w.neverMask && !w.frameworkMetadata) || c !in pat.names || pat.confidence <= w.confidence) {
      RaiseFromConfigMasksMore(pack, w, pat.category, pat.confidence);
    }
  }

  lemma OptedOutKeeps(w: Work, u: Unmask)
    ensures Raises(w, OptedOut(w, u)) && (HasCategory(w) ==> HasCategory(OptedOut(w, u)))
  {
  }

  lemma ColumnVisitTightens(pack: Accepts, cc: ColumnConfig, w: Work)
    ensures var w' := ColumnVisit(pack, cc, w).work;
      && Raises(w, w') && (HasCategory(w) ==> HasCategory(w'))
      && (StillMasked(w, w') || (cc.unmask.Some? && Stands(cc.unmask.value, w.col.fingerprint)))
  {
    if cc.unmask.Some? {
      HonouredIffItStands(cc.unmask.value, w.col.fingerprint);
    }
    if cc.confidence > w.confidence && (!w.neverMask || w.frameworkMetadata) {
      RaiseFromConfigMasksMore(pack, w, cc.category, cc.confidence);
      var raised := RaiseFromConfig(pack, w, cc.category, cc.confidence).work;
      if cc.unmask.Some? && HonourOptOut(cc.unmask.value, raised.col.fingerprint) {
        OptedOutKeeps(raised, cc.unmask.value);
      }
    }
  }

  lemma {:induction false} ApplyPatternMasksMore(pack: Accepts, pat: Pattern, order: seq<ColumnRef>, f: Folded)
    ensures MasksMore(f.dec, ApplyPattern(pack, pat, order, f).dec)
  {
    if order != [] {
      var c := order[|order| - 1];
      var before := ApplyPattern(pack, pat, order[..|order| - 1], f).dec;
      ApplyPatternMasksMore(pack, pat, order[..|order| - 1], f);
      if c in before {
        VisitsMaskMore(pack, pat, c, before[c]);
        OneColumnMasksMore(f.dec, before, c, PatternVisit(pack, pat, c, before[c]).work);
      }
    }
  }

  lemma {:induction false} ApplyPatternsMasksMore(pack: Accepts, pats: seq<Pattern>, order: seq<ColumnRef>, f: Folded)
    ensures MasksMore(f.dec, ApplyPatterns(pack, pats, order, f).dec)
  {
    if pats != [] {
      var before := ApplyPatterns(pack, pats[..|pats| - 1], order, f);
      ApplyPatternsMasksMore(pack, pats[..|pats| - 1], order, f);
      ApplyPatternMasksMore(pack, pats[|pats| - 1], order, before);
      MasksMoreTransitive(f.dec, before.dec, ApplyPatterns(pack, pats, order, f).dec);
    }
  }

  lemma OneEntryTightens(prior: Prior, c: ColumnRef, d: Dec, d': Dec, w: Work)
    requires Tightens(prior, d, d') && c in d'
    requires Raises(d'[c], w) && (HasCategory(d'[c]) ==> HasCategory(w))
    requires StillMasked(d'[c], w) || OptOutStands(prior, c, d'[c].col.fingerprint)
    ensures Tightens(prior, d, d'[c := w])
  {
    var e := d'[c := w];
    forall x | x in d
      ensures Raises(d[x], e[x])
      ensures StillMasked(d[x], e[x]) || OptOutStands(prior, x, d[x].col.fingerprint)
    {
      assert Raises(d[x], d'[x]);
      assert x != c ==> e[x] == d'[x];
    }
    if AllHaveCategory(d) {
      forall x | x in e ensures HasCategory(e[x]) {
        assert x != c ==> e[x] == d'[x];
      }
    }
  }

  lemma {:induction false} ApplyColumnsTightens(pack: Accepts, prior: Prior, order: seq<ColumnRef>, f: Folded)
    ensures Tightens(prior, f.dec, ApplyColumns(pack, prior, order, f).dec)
  {
    if order != [] {
      var c := order[|order| - 1];
      ApplyColumnsTightens(pack, prior, order[..|order| - 1], f);
      var before := ApplyColumns(pack, prior, order[..|order| - 1], f).dec;
      if c in before && c in prior.columns {
        ColumnVisitTightens(pack, prior.columns[c], before[c]);
        OneEntryTightens(prior, c, f.dec, before, ColumnVisit(pack, prior.columns[c], before[c]).work);
      }
    }
  }

  lemma ApplyPriorTightens(pack: Accepts, prior: Prior, order: seq<ColumnRef>, dec: Dec)
    ensures Tightens(prior, dec, ApplyPrior(pack, prior, order, dec).dec)
  {
    var mid := ApplyPatterns(pack, prior.patterns, order, Folded(dec, false));
    var end := ApplyPrior(pack, prior, order, dec).dec;
    ApplyPatternsMasksMore(pack, prior.patterns, order, Folded(dec, false));
    ApplyColumnsTightens(pack, prior, order, mid);
    forall x | x in dec
      ensures Raises(dec[x], end[x])
      ensures !StillMasked(dec[x], end[x]) ==> OptOutStands(prior, x, dec[x].col.fingerprint)
    {
      assert Raises(dec[x], mid.dec[x]) && StillMasked(dec[x], mid.dec[x]);
    }
  }

  // ---------- what the file does to a column ----------

  /** A column the file's opt-out stands for is unmasked, and no other one becomes so. */
  lemma {:induction false} ColumnsUnmaskIff(pack: Accepts, prior: Prior, order: seq<ColumnRef>, f: Folded, c: ColumnRef)
    requires c in f.dec
    ensures var d := ApplyColumns(pack, prior, order, f).dec;
      c in d && (d[c].unmasked <==> f.dec[c].unmasked || (c in order && OptOutStands(prior, c, f.dec[c].col.fingerprint)))
  {
    hide Stands, HonourOptOut, RaiseFromConfig;
    ApplyColumnsTightens(pack, prior, order, f);
    if order != [] {
      var x := order[|order| - 1];
      var before := ApplyColumns(pack, prior, order[..|order| - 1], f).dec;
      ColumnsUnmaskIff(pack, prior, order[..|order| - 1], f, c);
      ApplyColumnsTightens(pack, prior, order[..|order| - 1], f);
      assert c in order <==> c in order[..|order| - 1] || c == x;
      if c == x && c in prior.columns {
        VisitUnmasksIff(pack, prior.columns[c], before[c]);
      }
    }
  }

  lemma RaiseKeepsOptOut(pack: Accepts, w: Work, cat: Option<Category>, conf: int)
    ensures var w' := RaiseFromConfig(pack, w, cat, conf).work; w'.unmasked == w.unmasked && w'.col == w.col
  {
    RecategorisedIs(pack, w, cat);
    hide Accepted, Recategorised;
  }

  lemma RecategorisedIs(pack: Accepts, w: Work, cat: Option<Category>)
    ensures var named := Recategorised(pack, w, cat);
      named == w.(category := named.category, typeConflict := named.typeConflict)
  {
    hide Accepted;
    var named := Recategorised(pack, w, cat);
    if cat.Some? && cat.value != CatNone && Accepted(pack, cat.value, w.col.family) {
      assert named == w.(category := cat.value, typeConflict := false);
    } else {
      assert named == w;
    }
  }

  lemma PatternVisitKeepsOptOut(pack: Accepts, pat: Pattern, c: ColumnRef, w: Work)
    ensures var w' := PatternVisit(pack, pat, c, w).work; w'.unmasked == w.unmasked && w'.col == w.col
  {
    hide RaiseFromConfig;
    RaiseKeepsOptOut(pack, w, pat.category, pat.confidence);
  }

  lemma VisitUnmasksIff(pack: Accepts, cc: ColumnConfig, w: Work)
    ensures ColumnVisit(pack, cc, w).work.unmasked <==> w.unmasked || (cc.unmask.Some? && Stands(cc.unmask.value, w.col.fingerprint))
  {
    hide RaiseFromConfig, HonourOptOut, Stands;
    RaiseKeepsOptOut(pack, w, cc.category, cc.confidence);
    if cc.unmask.Some? {
      HonouredIffItStands(cc.unmask.value, w.col.fingerprint);
    }
  }

  lemma {:induction false} PatternsKeepOptOuts(pack: Accepts, pats: seq<Pattern>, order: seq<ColumnRef>, f: Folded)
    ensures var d := ApplyPatterns(pack, pats, order, f).dec;
      d.Keys == f.dec.Keys && forall c :: c in f.dec ==> d[c].unmasked == f.dec[c].unmasked && d[c].col == f.dec[c].col
  {
    if pats != [] {
      PatternsKeepOptOuts(pack, pats[..|pats| - 1], order, f);
      PatternKeepsOptOuts(pack, pats[|pats| - 1], order, ApplyPatterns(pack, pats[..|pats| - 1], order, f));
    }
  }

  lemma {:induction false} PatternKeepsOptOuts(pack: Accepts, pat: Pattern, order: seq<ColumnRef>, f: Folded)
    ensures var d := ApplyPattern(pack, pat, order, f).dec;
      d.Keys == f.dec.Keys && forall c :: c in f.dec ==> d[c].unmasked == f.dec[c].unmasked && d[c].col == f.dec[c].col
  {
    hide PatternVisit;
    if order != [] {
      PatternKeepsOptOuts(pack, pat, order[..|order| - 1], f);
      var c := order[|order| - 1];
      var before := ApplyPattern(pack, pat, order[..|order| - 1], f).dec;
      if c in before {
        PatternVisitKeepsOptOut(pack, pat, c, before[c]);
      }
    }
  }

  /** applyPrior unmasks exactly the columns of the run whose opt-out carries a reason and
      either their own type fingerprint or, from the flag alone, none. */
  lemma OptOutsTakeEffectIff(pack: Accepts, prior: Prior, order: seq<ColumnRef>, dec: Dec, c: ColumnRef)
    requires c in dec && c in order && !dec[c].unmasked
    ensures var end := ApplyPrior(pack, prior, order, dec).dec;
      c in end && (end[c].unmasked <==>
        c in prior.columns && prior.columns[c].unmask.Some? &&
        var u := prior.columns[c].unmask.value;
        u.reason != "" && if u.typeFP == "" then u.byFlag else u.typeFP == dec[c].col.fingerprint)
  {
    var start := Folded(dec, false);
    PatternsKeepOptOuts(pack, prior.patterns, order, start);
    ColumnsUnmaskIff(pack, prior, order, ApplyPatterns(pack, prior.patterns, order, start), c);
  }

  // ---------- what the file raises ----------

  /** Open to a raise: masked at all, or only spared as a framework's own column. */
  predicate MayBeRaised(w: Work) {
    !w.neverMask || w.frameworkMetadata
  }

  /** A category the file names and the column's type accepts. */
  predicate TypeTakes(pack: Accepts, cat: Option<Category>, w: Work) {
    cat.Some? && cat.value != CatNone && Accepted(pack, cat.value, w.col.family)
  }

  /** What any entry of the file may do to a decision: raise it, and then it is open to the mask. */
  predicate FileMoves(w: Work, w': Work) {
    && w.confidence <= w'.confidence && w'.col == w.col
    && (w.category != CatNone ==> w'.category != CatNone)
    && (w'.neverMask ==> w.neverMask) && (w'.typeConflict ==> w.typeConflict)
    && (w.confidence < w'.confidence ==> !w'.neverMask && w'.category != CatNone && !w'.typeConflict)
    && (MayBeRaised(w) ==> MayBeRaised(w'))
  }

  lemma RaiseMoves(pack: Accepts, w: Work, cat: Option<Category>, conf: int)
    requires conf > w.confidence && MayBeRaised(w)
    ensures var w' := RaiseFromConfig(pack, w, cat, conf).work;
      FileMoves(w, w') && (TypeTakes(pack, cat, w) ==> w'.confidence == conf && w'.category == cat.value && w'.source == ByYmlRaise)
  {
    hide Accepted;
    RecategorisedIs(pack, w, cat);
    TakenIs(pack, w, cat);
    hide Recategorised, TypeTakes;
  }

  lemma TakenIs(pack: Accepts, w: Work, cat: Option<Category>)
    ensures var named := Recategorised(pack, w, cat);
      && (TypeTakes(pack, cat, w) ==> named.category == cat.value && cat.value != CatNone && !named.typeConflict && Accepted(pack, cat.value, w.col.family))
      && (!TypeTakes(pack, cat, w) ==> named == w)
  {
    hide Accepted;
  }

  lemma PatternVisitMoves(pack: Accepts, pat: Pattern, c: ColumnRef, w: Work)
    ensures var w' := PatternVisit(pack, pat, c, w).work;
      FileMoves(w, w') && (c in pat.names && MayBeRaised(w) && TypeTakes(pack, pat.category, w) ==> w'.confidence >= pat.confidence)
  {
    hide RaiseFromConfig, Accepted, TypeTakes;
    if MayBeRaised(w) && pat.confidence > w.confidence {
      RaiseMoves(pack, w, pat.category, pat.confidence);
    }
  }

  lemma ColumnVisitMoves(pack: Accepts, cc: ColumnConfig, w: Work)
    ensures var w' := ColumnVisit(pack, cc, w).work;
      FileMoves(w, w') && (MayBeRaised(w) && TypeTakes(pack, cc.category, w) ==> w'.confidence >= cc.confidence)
  {
    hide RaiseFromConfig, Accepted, TypeTakes, HonourOptOut;
    if MayBeRaised(w) && cc.confidence > w.confidence {
      RaiseMoves(pack, w, cc.category, cc.confidence);
    }
  }

  lemma {:induction false} PatternMoves(pack: Accepts, pat: Pattern, order: seq<ColumnRef>, f: Folded, c: ColumnRef)
    requires c in f.dec
    ensures var d := ApplyPattern(pack, pat, order, f).dec;
      && c in d && FileMoves(f.dec[c], d[c])
      && (c in order && c in pat.names && MayBeRaised(f.dec[c]) && TypeTakes(pack, pat.category, f.dec[c]) ==> d[c].confidence >= pat.confidence)
  {
    hide PatternVisit, Accepted;
    if order != [] {
      var most := order[..|order| - 1];
      PatternMoves(pack, pat, most, f, c);
      PatternVisitMoves(pack, pat, c, ApplyPattern(pack, pat, most, f).dec[c]);
      assert c in order <==> c in most || c == order[|order| - 1];
    }
  }

  lemma {:induction false} PatternsMove(pack: Accepts, pats: seq<Pattern>, order: seq<ColumnRef>, f: Folded, c: ColumnRef)
    requires c in f.dec
    ensures var d := ApplyPatterns(pack, pats, order, f).dec;
      && c in d && FileMoves(f.dec[c], d[c])
      && (forall p :: p in pats && c in order && c in p.names && MayBeRaised(f.dec[c]) && TypeTakes(pack, p.category, f.dec[c]) ==>
            d[c].confidence >= p.confidence)
  {
    hide ApplyPattern, Accepted;
    if pats != [] {
      var most, last := pats[..|pats| - 1], pats[|pats| - 1];
      PatternsMove(pack, most, order, f, c);
      PatternMoves(pack, last, order, ApplyPatterns(pack, most, order, f), c);
      assert forall p :: p in pats ==> p in most || p == last;
    }
  }

  lemma {:induction false} ColumnsMove(pack: Accepts, prior: Prior, order: seq<ColumnRef>, f: Folded, c: ColumnRef)
    requires c in f.dec
    ensures var d := ApplyColumns(pack, prior, order, f).dec;
      && c in d && FileMoves(f.dec[c], d[c])
      && (c in order && c in prior.columns && MayBeRaised(f.dec[c]) && TypeTakes(pack, prior.columns[c].category, f.dec[c]) ==>
            d[c].confidence >= prior.columns[c].confidence)
  {
    hide ColumnVisit, Accepted;
    if order != [] {
      var most := order[..|order| - 1];
      ColumnsMove(pack, prior, most, f, c);
      if c in prior.columns {
        ColumnVisitMoves(pack, prior.columns[c], ApplyColumns(pack, prior, most, f).dec[c]);
      }
      assert c in order <==> c in most || c == order[|order| - 1];
    }
  }

  /** Whatever a pattern or a column's own entry asks for, with a category the column's type
      accepts, the column comes out at least as certain; and one the file raised is open to
      the mask and has a category. */
  lemma FileRaises(pack: Accepts, prior: Prior, order: seq<ColumnRef>, dec: Dec, c: ColumnRef)
    requires c in dec && c in order && MayBeRaised(dec[c])
    ensures var end := ApplyPrior(pack, prior, order, dec).dec;
      && c in end && FileMoves(dec[c], end[c])
      && (forall p :: p in prior.patterns && c in p.names && TypeTakes(pack, p.category, dec[c]) ==> end[c].confidence >= p.confidence)
      && (c in prior.columns && TypeTakes(pack, prior.columns[c].category, dec[c]) ==> end[c].confidence >= prior.columns[c].confidence)
  {
    hide ApplyPatterns, ApplyColumns, Accepted;
    var start := Folded(dec, false);
    PatternsMove(pack, prior.patterns, order, start, c);
    ColumnsMove(pack, prior, order, ApplyPatterns(pack, prior.patterns, order, start), c);
  }
}
