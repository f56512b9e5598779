/** One Classify call from the end of base() on: the passes as the classifier runs
    them, over one mutable map of decisions (internal/classify/classify.go). */
module Classifier {
  import opened Common
  import opened Decisions
  import opened KeyPropagation
  import opened RaisingPasses
  import opened JoinPairing
  import opened UnknownSweep
  import opened MaskedColumns
  import CR = ClassifyRun

  class State {
    const tables: seq<Table>
    const fks: seq<ForeignKey>
    const order: seq<ColumnRef>
    const pack: Accepts
    const keyColumns: set<ColumnRef>
    const unique: set<ColumnRef>
    const norm: Normalised
    var joins: Joins
    var dec: Dec
    var priorRaised: bool

    constructor (tables: seq<Table>, fks: seq<ForeignKey>, order: seq<ColumnRef>, pack: Accepts,
                 keyColumns: set<ColumnRef>, unique: set<ColumnRef>, norm: Normalised, base: Dec)
      ensures this.tables == tables && this.fks == fks && this.order == order && this.pack == pack
      ensures this.keyColumns == keyColumns && this.unique == unique && this.norm == norm
      ensures dec == base && !priorRaised && joins == Joins(map[], map[])
    {
      this.tables, this.fks, this.order, this.pack := tables, fks, order, pack;
      this.keyColumns, this.unique, this.norm := keyColumns, unique, norm;
      dec, priorRaised, joins := base, false, Joins(map[], map[]);
    }

    function Rules(): Rules {
      KeyPropagation.Rules(pack, keyColumns)
    }

    method IndexFKColumns()
      modifies this`joins
      ensures joins == Index(AllPairs(fks))
    {
      joins := Joins(map[], map[]);
      assert AllPairs(fks[..0]) == [] && Index([]) == joins;
      hide Index, AllPairs, Append;
      for k := 0 to |fks|
        invariant joins == Index(AllPairs(fks[..k]))
      {
        var fk := fks[k];
        ghost var before := AllPairs(fks[..k]);
        OneKeyMore(fks, k);
        assert before + PairsTo(fk, 0) == before;
        for i := 0 to Width(fk)
          invariant !fk.validated || fk.isVirtual ==> joins == Index(before)
          invariant joins == Index(before + PairsTo(fk, i))
        {
          IndexSnoc(before, fk, i);
          if fk.validated && !fk.isVirtual {
            var parent, child := ColumnRef(fk.parent, fk.parentCols[i]), ColumnRef(fk.child, fk.childCols[i]);
            joins := Joins(Append(Append(joins.partners, parent, child), child, parent), Append(joins.parents, child, parent));
          }
        }
      }
      assert fks[..|fks|] == fks;
    }

    method ByteaInPersonShapedTable()
      modifies this`dec
      ensures dec == ByteaPass(tables, old(dec))
    {
      for k := 0 to |tables|
        invariant dec == ByteaPass(tables[..k], old(dec))
      {
        assert tables[..k + 1][..k] == tables[..k];
        var cols := Columns(tables[k]);
        ghost var before := dec;
        var certain := 0;
        for i := 0 to |cols|
          invariant certain == CountCertain(cols[..i], dec)
        {
          assert cols[..i + 1][..i] == cols[..i];
          if cols[i] in dec && dec[cols[i]].confidence == CONF_CERTAIN {
            certain := certain + 1;
          }
        }
        assert cols[..|cols|] == cols;
        if certain != 0 {
          RaiseColumns(RaiseBytea, cols);
        }
      }
      assert tables[..|tables|] == tables;
    }

    /** One raising loop over a table's columns. */
    method RaiseColumns(rule: Raise, cols: seq<ColumnRef>)
      modifies this`dec
      ensures dec == RaiseEach(rule, cols, old(dec))
    {
      for i := 0 to |cols|
        invariant dec == RaiseEach(rule, cols[..i], old(dec))
      {
        assert cols[..i + 1][..i] == cols[..i];
        if cols[i] in dec {
          dec := dec[cols[i] := Raised(rule, dec[cols[i]])];
        }
      }
      assert cols[..|cols|] == cols;
    }

    /** The first arm, then guessedPhoneColumns over every column. */
    method NeighbouringColumns()
      modifies this`dec
      ensures dec == RaiseEach(RaiseGuessedPhone, order, NeighbourPass(tables, old(dec)))
    {
      for k := 0 to |tables|
        invariant dec == NeighbourPass(tables[..k], old(dec))
      {
        assert tables[..k + 1][..k] == tables[..k];
        var cols := Columns(tables[k]);
        var likely := 0;
        for i := 0 to |cols|
          invariant likely == CountAtLeast(CONF_LIKELY, cols[..i], dec)
        {
          assert cols[..i + 1][..i] == cols[..i];
          if cols[i] in dec && dec[cols[i]].confidence >= CONF_LIKELY {
            likely := likely + 1;
          }
        }
        assert cols[..|cols|] == cols;
        RaiseColumns(NoteLikely(likely), cols);
        if likely != 0 {
          RaiseColumns(RaiseLow, cols);
        }
      }
      assert tables[..|tables|] == tables;
      RaiseColumns(RaiseGuessedPhone, order);
    }

    /** One column's visit: skipped, spared, refused with its partner, or raised with all it is joined to. */
    method SweepColumn(c: ColumnRef)
      modifies this`dec
      ensures Visited(joins, unique, c, old(dec), dec)
    {
      if c !in dec || !Undecided(dec[c]) || c in unique {
        return;
      }
      var pairing := FkPairs(joins, dec, c);
      match pairing
      case Blocked(b) =>
        dec := dec[c := dec[c].(refusedPartner := Some(b))];
        if b in dec {
          dec := dec[b := dec[b].(refusedPartner := Some(c))];
        }
        assert Refusal(joins, c, old(dec), dec);
      case Together(partners) =>
        if !dec[c].col.spared {
          dec := dec[c := Swept(dec[c])];
          for i := 0 to |partners|
            invariant dec == SweepAll(Elements(partners[..i]) + {c}, old(dec))
          {
            var p := partners[i];
            assert PartnerRaisable(old(dec), p);
            assert Elements(partners[..i + 1]) == Elements(partners[..i]) + {p};
            assert p !in Elements(partners[..i]) + {c};
            dec := dec[p := Swept(dec[p])];
          }
          assert partners[..|partners|] == partners;
        }
        assert UnknownSweep.Together(joins, c, old(dec), dec);
    }

    /** A signal-less character column beside a certain person is swept, spared, left to
        its unique index or refused aloud; a swept column takes its checked parents along,
        and nothing is swept without such a neighbour. */
    method UnknownColumnsBesideCertain()
      requires SweptWithParents(joins, dec)
      modifies this`dec
      ensures SweepHolds(tables, joins, unique, old(dec), dec)
      ensures forall k :: 0 <= k < |tables| && PersonShaped(Columns(tables[k]), old(dec))
                ==> AllAccounted(unique, dec, Columns(tables[k]))
    {
      SweepStarts(tables, joins, unique, dec);
      hide PersonShaped, AllAccounted, AllOnlySwept, SweepHolds;
      for k := 0 to |tables|
        invariant SweepHolds(tables, joins, unique, old(dec), dec)
        invariant forall m :: 0 <= m < k && PersonShaped(Columns(tables[m]), old(dec))
                    ==> AllAccounted(unique, dec, Columns(tables[m]))
      {
        var cols := Columns(tables[k]);
        ghost var before := dec;
        OnlySweeps(tables, joins, unique, old(dec), dec);
        var certain := CountCertainPersons(cols, old(dec));
        if certain != 0 {
          SweepTable(k, old(dec));
          forall m | 0 <= m < k && PersonShaped(Columns(tables[m]), old(dec))
            ensures AllAccounted(unique, dec, Columns(tables[m]))
          {
            AccountedStays(unique, before, dec, Columns(tables[m]));
          }
        }
      }
    }

    /** The count that opens a table's sweep, unmoved by what earlier tables' sweeps raised. */
    method CountCertainPersons(cols: seq<ColumnRef>, ghost base: Dec) returns (certain: nat)
      requires AllOnlySwept(base, dec)
      ensures certain > 0 <==> PersonShaped(cols, base)
    {
      certain := 0;
      OnlySweptKeeps(unique, base, dec);
      for i := 0 to |cols|
        invariant certain > 0 <==> PersonShaped(cols[..i], base)
      {
        PersonShapedSnoc(cols, i, base);
        if cols[i] in dec && dec[cols[i]].confidence == CONF_CERTAIN && IdentifiesAPerson(dec[cols[i]].category) {
          certain := certain + 1;
        }
      }
      assert cols[..|cols|] == cols;
    }

    /** The sweep of one person-shaped table. */
    method SweepTable(k: nat, ghost base: Dec)
      requires k < |tables| && PersonShaped(Columns(tables[k]), base)
      requires SweepHolds(tables, joins, unique, base, dec)
      modifies this`dec
      ensures SweepHolds(tables, joins, unique, base, dec) && AllOnlySwept(old(dec), dec)
      ensures AllAccounted(unique, dec, Columns(tables[k]))
    {
      hide SweepHolds, AllOnlySwept, PersonShaped, Visited, PersonNeighbour;
      var cols := Columns(tables[k]);
      assert cols[..0] == [];
      NothingSwept(dec);
      assert AllAccounted(unique, dec, cols[..0]);
      hide AllAccounted;
      for i := 0 to |cols|
        invariant SweepHolds(tables, joins, unique, base, dec) && AllOnlySwept(old(dec), dec)
        invariant AllAccounted(unique, dec, cols[..i])
      {
        ghost var before := dec;
        SweepColumn(cols[i]);
        IsNeighbour(tables, base, k, i);
        VisitKeepsSweep(tables, joins, unique, cols, i, base, before, dec);
        OnlySweptTransitive(old(dec), before, dec);
      }
      assert cols[..|cols|] == cols;
    }

    // ---------- pass 4 ----------

    method ReconcileKeyChildren() returns (changed: bool)
      modifies this`dec
      ensures SweepResult(dec, changed) == ReconcileSweep(AllPairs(fks), old(dec))
    {
      changed := false;
      for k := 0 to |fks|
        invariant SweepResult(dec, changed) == ReconcileSweep(AllPairs(fks[..k]), old(dec))
      {
        var fk := fks[k];
        ghost var before := AllPairs(fks[..k]);
        assert fks[..k + 1][..k] == fks[..k];
        assert before + PairsTo(fk, 0) == before;
        for i := 0 to Width(fk)
          invariant SweepResult(dec, changed) == ReconcileSweep(before + PairsTo(fk, i), old(dec))
        {
          SweepSnoc(before, fk, i);
          var p := PairAt(fk, i);
          var step := ReconcileStep(p);
          changed := changed || step;
        }
      }
      assert fks[..|fks|] == fks;
    }

    /** One pair of the sweep: the child takes the exemption back from its exempt parent. */
    method ReconcileStep(p: Pair) returns (changed: bool)
      modifies this`dec
      ensures SweepResult(dec, changed) == ReconcilePair(p, old(dec))
    {
      if !p.checked || p.parent !in dec || p.child !in dec {
        return false;
      }
      if !dec[p.parent].neverMask || !dec[p.parent].keyExempt {
        return false;
      }
      var cw := dec[p.child];
      if cw.neverMask || cw.confidence < CONF_POSSIBLE || !IsKeyFamily(cw.col.family) || cw.col.isArray {
        return false;
      }
      dec := dec[p.child := cw.(neverMask := true, keyExempt := true)];
      return true;
    }

    method KeyChildren()
      modifies this`dec
      ensures dec == ReconcileRounds(AllPairs(fks), old(dec), |fks| + 1).dec
    {
      var round := 0;
      while round <= |fks|
        invariant 0 <= round <= |fks| + 1
        invariant ReconcileRounds(AllPairs(fks), old(dec), |fks| + 1) ==
                  ReconcileRounds(AllPairs(fks), dec, |fks| + 1 - round)
      {
        var changed := ReconcileKeyChildren();
        if !changed {
          return;
        }
        round := round + 1;
      }
    }

    method PropagateKeys() returns (changed: bool)
      modifies this`dec
      ensures SweepResult(dec, changed) == PropagateSweep(Rules(), AllPairs(fks), old(dec))
    {
      changed := false;
      for k := 0 to |fks|
        invariant SweepResult(dec, changed) == PropagateSweep(Rules(), AllPairs(fks[..k]), old(dec))
      {
        var fk := fks[k];
        ghost var before := AllPairs(fks[..k]);
        assert fks[..k + 1][..k] == fks[..k];
        assert before + PairsTo(fk, 0) == before;
        for i := 0 to Width(fk)
          invariant SweepResult(dec, changed) == PropagateSweep(Rules(), before + PairsTo(fk, i), old(dec))
        {
          SweepSnoc(before, fk, i);
          var step := PropagateStep(PairAt(fk, i));
          changed := changed || step;
        }
      }
      assert fks[..|fks|] == fks;
    }

    /** One pair of the sweep: a masked key's decision overrides the child's. */
    method PropagateStep(p: Pair) returns (changed: bool)
      modifies this`dec
      ensures SweepResult(dec, changed) == PropagatePair(Rules(), p, old(dec))
    {
      if p.parent !in dec || p.child !in dec || p.parent !in keyColumns {
        return false;
      }
      var pw, cw := dec[p.parent], dec[p.child];
      if pw.confidence < CONF_POSSIBLE || pw.neverMask || pw.category == CatNone || cw.col.generated || cw.unmasked {
        return false;
      }
      if !Accepted(pack, pw.category, cw.col.family) {
        if !cw.propagationRefused {
          dec := dec[p.child := cw.(propagationRefused := true)];
          return true;
        }
        return false;
      }
      if cw.category == pw.category && cw.confidence >= pw.confidence && !cw.neverMask {
        return false;
      }
      cw := cw.(neverMask := false, typeConflict := false, frameworkMetadata := false, sweptNoSignal := false, keyExempt := false);
      cw := cw.(category := pw.category);
      if cw.confidence < pw.confidence {
        cw := cw.(confidence := pw.confidence);
      }
      dec := dec[p.child := cw.(source := ByFKPropagation)];
      return true;
    }

    method ForeignKeys()
      modifies this`dec
      ensures dec == PropagateRounds(Rules(), AllPairs(fks), old(dec), |fks| + 1).dec
    {
      var round := 0;
      while round <= |fks|
        invariant 0 <= round <= |fks| + 1
        invariant PropagateRounds(Rules(), AllPairs(fks), old(dec), |fks| + 1) ==
                  PropagateRounds(Rules(), AllPairs(fks), dec, |fks| + 1 - round)
      {
        var changed := PropagateKeys();
        if !changed {
          return;
        }
        round := round + 1;
      }
    }

    method SameColumnName()
      modifies this`dec
      ensures dec == ShareNames(norm, pack, Namesakes(norm, order, old(dec)), order, old(dec))
    {
      var masked := map[];
      for i := 0 to |order|
        invariant masked == Namesakes(norm, order[..i], dec)
      {
        assert order[..i + 1][..i] == order[..i];
        var c := order[i];
        if c in dec && SpeaksForItsName(dec[c]) && norm(c) !in masked {
          masked := masked[norm(c) := Namesake(dec[c].category, c.table)];
        }
      }
      for i := 0 to |order|
        invariant dec == ShareNames(norm, pack, masked, order[..i], old(dec))
      {
        assert order[..i + 1][..i] == order[..i];
        var c := order[i];
        if c in dec {
          dec := dec[c := NameShared(pack, c, dec[c], norm(c), masked)];
        }
      }
      assert order[..|order|] == order;
    }

    // ---------- pass 5 ----------

    /** Folds the committed file in; a column it does not carry is drift, an opt-out it may not honour expired. */
    method ApplyPrior(prior: Prior) returns (drift: set<ColumnRef>, expired: set<ColumnRef>)
      modifies this`dec, this`priorRaised
      ensures var f := RaisingPasses.ApplyPrior(pack, prior, order, old(dec));
        dec == f.dec && priorRaised == (f.raised || old(priorRaised))
      ensures forall c :: c in drift <==> c in order && c !in prior.columns
      ensures forall c :: c in expired <==> c in order && Expired(prior, c, old(dec))
    {
      ghost var start, was := Folded(dec, false), priorRaised;
      for k := 0 to |prior.patterns|
        invariant var f := ApplyPatterns(pack, prior.patterns[..k], order, start); dec == f.dec && priorRaised == (f.raised || was)
      {
        assert prior.patterns[..k + 1][..k] == prior.patterns[..k];
        ApplyPatternLoop(prior.patterns[k], ApplyPatterns(pack, prior.patterns[..k], order, start), was);
      }
      assert prior.patterns[..|prior.patterns|] == prior.patterns;
      ApplyPatternsMasksMore(pack, prior.patterns, order, start);
      drift, expired := ApplyColumnsLoop(prior, ApplyPatterns(pack, prior.patterns, order, start), was);
    }

    /** Every column's own entry. */
    method ApplyColumnsLoop(prior: Prior, ghost f: Folded, ghost was: bool) returns (drift: set<ColumnRef>, expired: set<ColumnRef>)
      requires dec == f.dec && priorRaised == (f.raised || was)
      modifies this`dec, this`priorRaised
      ensures var g := ApplyColumns(pack, prior, order, f); dec == g.dec && priorRaised == (g.raised || was)
      ensures forall c :: c in drift <==> c in order && c !in prior.columns
      ensures forall c :: c in expired <==> c in order && Expired(prior, c, f.dec)
    {
      drift, expired := {}, {};
      for i := 0 to |order|
        invariant var g := ApplyColumns(pack, prior, order[..i], f); dec == g.dec && priorRaised == (g.raised || was)
        invariant forall c :: c in drift <==> c in order[..i] && c !in prior.columns
        invariant forall c :: c in expired <==> c in order[..i] && Expired(prior, c, f.dec)
      {
        hide ApplyColumns, Expired;
        ghost var before := order[..i];
        assert order[..i + 1] == before + [order[i]];
        var missing, lapsed := ApplyTurn(prior, i, f, was);
        if missing {
          drift := drift + {order[i]};
        }
        if lapsed {
          expired := expired + {order[i]};
        }
      }
      assert order[..|order|] == order;
    }

    /** The i-th column's turn: absent from the file, or visited with its entry. */
    method ApplyTurn(prior: Prior, i: nat, ghost f: Folded, ghost was: bool) returns (missing: bool, lapsed: bool)
      requires i < |order|
      requires var g := ApplyColumns(pack, prior, order[..i], f); dec == g.dec && priorRaised == (g.raised || was)
      modifies this`dec, this`priorRaised
      ensures var g := ApplyColumns(pack, prior, order[..i + 1], f); dec == g.dec && priorRaised == (g.raised || was)
      ensures missing <==> order[i] !in prior.columns
      ensures lapsed <==> Expired(prior, order[i], f.dec)
    {
      hide ColumnVisit, HonourOptOut, Stands;
      var c := order[i];
      missing, lapsed := c !in prior.columns, false;
      assert order[..i + 1][..i] == order[..i];
      ColumnsStay(pack, prior, order[..i], f);
      if !missing && c in dec {
        if prior.columns[c].unmask.Some? {
          HonouredIffItStands(prior.columns[c].unmask.value, dec[c].col.fingerprint);
        }
        lapsed := ApplyColumnEntry(c, prior.columns[c]);
      }
    }

    /** One column's entry: its raise, then its opt-out. */
    method ApplyColumnEntry(c: ColumnRef, cc: ColumnConfig) returns (lapsed: bool)
      requires c in dec
      modifies this`dec, this`priorRaised
      ensures Folded(dec, priorRaised) == FoldVisit(Folded(old(dec), old(priorRaised)), c, ColumnVisit(pack, cc, old(dec)[c]))
      ensures lapsed <==> cc.unmask.Some? && !HonourOptOut(cc.unmask.value, old(dec)[c].col.fingerprint)
    {
      hide RaiseFromConfig, HonourOptOut, OptedOut;
      var w := dec[c];
      if cc.confidence > w.confidence && (!w.neverMask || w.frameworkMetadata) {
        RaiseFromConfigMasksMore(pack, w, cc.category, cc.confidence);
        var v := RaiseFromConfig(pack, w, cc.category, cc.confidence);
        w := v.work;
        priorRaised := priorRaised || v.applied;
      }
      lapsed := false;
      if cc.unmask.Some? {
        if HonourOptOut(cc.unmask.value, w.col.fingerprint) {
          w := OptedOut(w, cc.unmask.value);
        } else {
          lapsed := true;
        }
      }
      dec := dec[c := w];
    }

    /** One pattern over every column. */
    method ApplyPatternLoop(pat: Pattern, ghost f: Folded, ghost was: bool)
      requires dec == f.dec && priorRaised == (f.raised || was)
      modifies this`dec, this`priorRaised
      ensures var g := ApplyPattern(pack, pat, order, f); dec == g.dec && priorRaised == (g.raised || was)
    {
      for i := 0 to |order|
        invariant var g := ApplyPattern(pack, pat, order[..i], f); dec == g.dec && priorRaised == (g.raised || was)
      {
        assert order[..i + 1][..i] == order[..i];
        var c := order[i];
        if c in dec {
          var v := PatternVisit(pack, pat, c, dec[c]);
          dec, priorRaised := dec[c := v.work], priorRaised || v.applied;
        }
      }
      assert order[..|order|] == order;
    }

    // ---------- pass 6 ----------

    method Finalise() returns (decisions: map<ColumnRef, Decision>)
      requires forall c :: c in order ==> c in dec
      ensures decisions.Keys == set c | c in order
      ensures forall c :: c in decisions ==> decisions[c] == Final(dec[c], c in unique)
    {
      decisions := map[];
      for i := 0 to |order|
        invariant decisions.Keys == set c | c in order[..i]
        invariant forall c :: c in decisions ==> decisions[c] == Final(dec[c], c in unique)
      {
        assert order[..i + 1] == order[..i] + [order[i]];
        var w := dec[order[i]];
        decisions := decisions[order[i] :=
          Decision(w.category, w.source,
                   w.confidence >= CONF_POSSIBLE && !w.neverMask && !w.unmasked, w.neverMask, order[i] in unique)];
      }
      assert order[..|order|] == order;
    }

    /** The passes in Classify's order, from the end of base(). */
    method Classify(prior: Option<Prior>) returns (decisions: map<ColumnRef, Decision>)
      requires NoneSwept(dec) && AllHaveCategory(dec) && !priorRaised
      requires forall c :: c in order <==> c in dec
      modifies this
      ensures joins == Index(AllPairs(fks))
      ensures dec.Keys == old(dec).Keys && AllHaveCategory(dec)
      ensures decisions.Keys == dec.Keys
      ensures forall c :: c in decisions ==> var w := dec[c];
        decisions[c] == Decision(w.category, w.source, w.confidence >= CONF_POSSIBLE && !w.neverMask && !w.unmasked, w.neverMask, c in unique)
      ensures forall c :: c in dec ==> CR.Held(prior, AllPairs(fks), old(dec), dec, c)
      ensures exists swept :: SweptRun(tables, joins, unique, Neighboured(tables, order, old(dec)), swept)
                && dec == CR.Concluded(Env(), prior, swept)
                && (CR.NoneOptedOut(old(dec)) ==>
                      RequiredAreMasked(tables, order, unique, prior, AllPairs(fks), old(dec), swept, dec, decisions))
    {
      hide Index, ByteaPass, NeighbourPass, RaiseEach, CR.Concluded, CR.Held, PersonShaped, AllAccounted, SweepHolds;
      IndexFKColumns();
      ByteaInPersonShapedTable();
      NeighbouringColumns();
      ghost var noted := dec;
      NeighbouredMasksMore(tables, order, old(dec));
      NoParentsOfNone(noted);
      UnknownColumnsBesideCertain();
      ghost var swept := dec;
      SweepMasksMore(old(dec), noted, swept);
      Conclude(prior);
      CR.PassesOnlyMaskMore(Env(), prior, swept);
      CR.HeldFrom(prior, AllPairs(fks), old(dec), swept, dec);
      decisions := Finalise();
      ResultIsMasked(prior, old(dec), swept, dec, decisions);
    }

    lemma ResultIsMasked(prior: Option<Prior>, base: Dec, swept: Dec, end: Dec, decisions: map<ColumnRef, Decision>)
      requires forall c :: c in base ==> c in order
      requires NoneSwept(base) && SweptRun(tables, joins, unique, Neighboured(tables, order, base), swept)
      requires end.Keys == swept.Keys && forall c :: c in swept ==> CR.Held(prior, AllPairs(fks), swept, end, c)
      requires forall c :: c in end ==> c in decisions && decisions[c] == Final(end[c], c in unique)
      ensures CR.NoneOptedOut(base) ==>
        RequiredAreMasked(tables, order, unique, prior, AllPairs(fks), base, swept, end, decisions)
    {
      hide SweptRun, Neighboured, CR.Held, RequiredAreMasked;
      if CR.NoneOptedOut(base) {
        RequiredEndMasked(tables, order, joins, unique, prior, AllPairs(fks), base, swept, end, decisions);
      }
    }

    lemma NoParentsOfNone(noted: Dec)
      requires NoneSwept(noted)
      ensures SweptWithParents(joins, noted)
    {
    }

    lemma SweepMasksMore(base: Dec, noted: Dec, swept: Dec)
      requires MasksMore(base, noted) && SweepHolds(tables, joins, unique, noted, swept)
      ensures MasksMore(base, swept)
    {
      OnlySweptKeeps(unique, noted, swept);
      MasksMoreTransitive(base, noted, swept);
    }

    /** Propagation, the committed file, and propagation again when the file raised something. */
    method Conclude(prior: Option<Prior>)
      requires !priorRaised
      modifies this`dec, this`priorRaised
      ensures dec == CR.Concluded(Env(), prior, old(dec))
    {
      KeyChildren();
      ForeignKeys();
      SameColumnName();
      if prior.Some? {
        var _, _ := ApplyPrior(prior.value);
      }
      if priorRaised {
        ForeignKeys();
      }
    }

    function Env(): CR.Env {
      CR.Env(Rules(), fks, order, norm)
    }
  }

  function Final(w: Work, isUnique: bool): Decision {
    Decision(w.category, w.source, w.Masked(), w.neverMask, isUnique)
  }

  /** The file carries an opt-out for c that does not stand against c's own fingerprint. */
  predicate Expired(prior: Prior, c: ColumnRef, d: Dec) {
    && c in prior.columns && c in d && prior.columns[c].unmask.Some?
    && !Stands(prior.columns[c].unmask.value, d[c].col.fingerprint)
  }

  lemma ColumnsStay(pack: Accepts, prior: Prior, order: seq<ColumnRef>, f: Folded)
    ensures var d := ApplyColumns(pack, prior, order, f).dec;
      d.Keys == f.dec.Keys && forall c :: c in f.dec ==> d[c].col.fingerprint == f.dec[c].col.fingerprint
  {
    hide ApplyColumns;
    ApplyColumnsTightens(pack, prior, order, f);
  }

  lemma SweepSnoc(before: seq<Pair>, fk: ForeignKey, i: nat)
    requires i < Width(fk)
    ensures var longer := before + PairsTo(fk, i + 1);
      longer[..|longer| - 1] == before + PairsTo(fk, i) && longer[|longer| - 1] == PairAt(fk, i)
  {
  }

  lemma OneKeyMore(fks: seq<ForeignKey>, k: nat)
    requires k < |fks|
    ensures AllPairs(fks[..k + 1]) == AllPairs(fks[..k]) + PairsTo(fks[k], Width(fks[k]))
  {
    assert fks[..k + 1][..k] == fks[..k];
  }

  lemma IndexSnoc(before: seq<Pair>, fk: ForeignKey, i: nat)
    requires i < Width(fk)
    ensures Index(before + PairsTo(fk, i + 1)) == IndexPair(Index(before + PairsTo(fk, i)), PairAt(fk, i))
  {
    var longer := before + PairsTo(fk, i + 1);
    assert longer[..|longer| - 1] == before + PairsTo(fk, i);
  }
}
