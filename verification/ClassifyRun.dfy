/** A whole Classify call: what the passes promise together, and what a mask
    request may rely on (classify.go:255-300 and 3121-3144, core/mask.go:330-352). */
module ClassifyRun {
  import opened Common
  import opened Decisions
  import KP = KeyPropagation
  import RP = RaisingPasses
  import SC = SweepConvergence

  datatype Env = Env(rules: KP.Rules, fks: seq<ForeignKey>, order: seq<ColumnRef>, norm: RP.Normalised)

  function Exempted(e: Env, d: Dec): Dec {
    KP.ReconcileRounds(AllPairs(e.fks), d, |e.fks| + 1).dec
  }

  function Propagated(e: Env, d: Dec): Dec {
    KP.PropagateRounds(e.rules, AllPairs(e.fks), d, |e.fks| + 1).dec
  }

  function Shared(e: Env, d: Dec): Dec {
    RP.ShareNames(e.norm, e.rules.pack, RP.Namesakes(e.norm, e.order, d), e.order, d)
  }

  function Prioritised(e: Env, prior: Option<RP.Prior>, d: Dec): RP.Folded {
    if prior.None? then RP.Folded(d, false) else RP.ApplyPrior(e.rules.pack, prior.value, e.order, d)
  }

  /** Classify from keyChildren to the last pass before finalise. */
  function Concluded(e: Env, prior: Option<RP.Prior>, d: Dec): Dec {
    var f := Prioritised(e, prior, Shared(e, Propagated(e, Exempted(e, d))));
    if f.raised then Propagated(e, f.dec) else f.dec
  }

  // ---------- the passes only mask more ----------

  predicate OptOutHonoured(prior: Option<RP.Prior>, c: ColumnRef, fingerprint: string) {
    prior.Some? && RP.OptOutStands(prior.value, c, fingerprint)
  }

  /** c is the child end of a checked pair and carries the key exemption. */
  predicate KeyChildExempt(ps: seq<Pair>, d: Dec, c: ColumnRef) {
    c in d && d[c].neverMask && d[c].keyExempt && exists p :: p in ps && p.checked && p.child == c
  }

  lemma SharedMasksMore(e: Env, d: Dec)
    ensures MasksMore(d, Shared(e, d))
  {
    RP.NamesakesAreEvidenced(e.norm, e.order, d);
    RP.ShareNamesMasksMore(e.norm, e.rules.pack, RP.Namesakes(e.norm, e.order, d), e.order, d);
  }

  /** What one column's decision may come to, from the end of base() to finalise. */
  predicate Held(prior: Option<RP.Prior>, ps: seq<Pair>, d: Dec, d': Dec, c: ColumnRef)
    requires c in d && c in d'
  {
    && Unlowered(d[c], d'[c])
    && (d[c].Masked() && !d'[c].Masked() ==>
          OptOutHonoured(prior, c, d[c].col.fingerprint) || KeyChildExempt(ps, d', c))
  }

  /** applyPrior's contract, with no file at all read as one that says nothing. */
  predicate FoldedIn(prior: Option<RP.Prior>, d: Dec, d': Dec) {
    if prior.None? then d' == d else RP.Tightens(prior.value, d, d')
  }

  lemma HeldThrough(prior: Option<RP.Prior>, ps: seq<Pair>, d: Dec, a: Dec, s: Dec, f: Dec, end: Dec, c: ColumnRef)
    requires KP.ExemptsOnly(ps, d, a) && MasksMore(a, s) && FoldedIn(prior, s, f) && MasksMore(f, end)
    requires c in d
    ensures c in end && Held(prior, ps, d, end, c)
  {
    assert Unlowered(d[c], a[c]) && Raises(a[c], s[c]) && StillMasked(a[c], s[c]);
    assert Raises(s[c], f[c]);
    assert Raises(f[c], end[c]) && StillMasked(f[c], end[c]);
    if d[c].Masked() && !end[c].Masked() && !OptOutHonoured(prior, c, d[c].col.fingerprint) {
      assert StillMasked(s[c], f[c]);
      assert a[c].neverMask && a[c] != d[c];
      assert KP.ExemptByPair(ps, a, c);
    }
  }

  lemma AfterExemption(e: Env, prior: Option<RP.Prior>, a: Dec)
    ensures var s := Shared(e, Propagated(e, a));
      var f := Prioritised(e, prior, s);
      MasksMore(a, s) && FoldedIn(prior, s, f.dec) && MasksMore(f.dec, Propagated(e, f.dec)) && MasksMore(f.dec, f.dec)
  {
    var b := Propagated(e, a);
    KP.PropagateRoundsMaskMore(e.rules, AllPairs(e.fks), a, |e.fks| + 1);
    SharedMasksMore(e, b);
    MasksMoreTransitive(a, b, Shared(e, b));
    if prior.Some? {
      RP.ApplyPriorTightens(e.rules.pack, prior.value, e.order, Shared(e, b));
    }
    KP.PropagateRoundsMaskMore(e.rules, AllPairs(e.fks), Prioritised(e, prior, Shared(e, b)).dec, |e.fks| + 1);
  }

  /** No pass lowers a confidence or takes a category back, and a masked column stays
      masked except by keyChildren's exemption or an opt-out that stands. */
  lemma PassesOnlyMaskMore(e: Env, prior: Option<RP.Prior>, d: Dec)
    ensures Concluded(e, prior, d).Keys == d.Keys
    ensures forall c :: c in d ==> Held(prior, AllPairs(e.fks), d, Concluded(e, prior, d), c)
    ensures AllHaveCategory(d) ==> AllHaveCategory(Concluded(e, prior, d))
  {
    var ps := AllPairs(e.fks);
    var a := Exempted(e, d);
    KP.ReconcileRoundsExemptOnly(ps, d, |e.fks| + 1);
    AfterExemption(e, prior, a);
    var s := Shared(e, Propagated(e, a));
    var end := Concluded(e, prior, d);
    forall c | c in d ensures c in end && Held(prior, ps, d, end, c) {
      HeldThrough(prior, ps, d, a, s, Prioritised(e, prior, s).dec, end, c);
    }
    if AllHaveCategory(d) {
      assert AllHaveCategory(a);
    }
  }

  /** An earlier pass that only masked more may be put in front. */
  lemma HeldFrom(prior: Option<RP.Prior>, ps: seq<Pair>, base: Dec, d: Dec, end: Dec)
    requires MasksMore(base, d) && end.Keys == d.Keys
    requires forall c :: c in d ==> Held(prior, ps, d, end, c)
    ensures forall c :: c in base ==> Held(prior, ps, base, end, c)
  {
    forall c | c in base ensures Held(prior, ps, base, end, c) {
      assert Raises(base[c], d[c]) && StillMasked(base[c], d[c]) && Held(prior, ps, d, end, c);
    }
  }

  // ---------- a masked key's children ----------

  predicate OptOutSource(s: Source) {
    s == ByFlagUnmask || s == ByYmlUnmask
  }

  /** An opted-out column says so in its source. */
  predicate OptOutsNamed(d: Dec) {
    forall c :: c in d && d[c].unmasked ==> OptOutSource(d[c].source)
  }

  predicate OptOutsStand(prior: RP.Prior, d: Dec) {
    forall c :: c in d && d[c].unmasked ==> RP.OptOutStands(prior, c, d[c].col.fingerprint)
  }

  predicate NoneOptedOut(d: Dec) {
    forall c :: c in d ==> !d[c].unmasked
  }

  lemma {:induction false} ApplyColumnsNamesOptOuts(pack: Accepts, prior: RP.Prior, order: seq<ColumnRef>, f: RP.Folded)
    requires NoneOptedOut(f.dec)
    ensures OptOutsNamed(RP.ApplyColumns(pack, prior, order, f).dec)
    ensures OptOutsStand(prior, RP.ApplyColumns(pack, prior, order, f).dec)
  {
    if order != [] {
      ApplyColumnsNamesOptOuts(pack, prior, order[..|order| - 1], f);
      var c := order[|order| - 1];
      var before := RP.ApplyColumns(pack, prior, order[..|order| - 1], f).dec;
      if c in before && c in prior.columns {
        VisitNamesOptOut(pack, prior, c, before[c]);
      }
      assert forall x :: x in before && x != c ==> RP.ApplyColumns(pack, prior, order, f).dec[x] == before[x];
    }
  }

  lemma VisitNamesOptOut(pack: Accepts, prior: RP.Prior, c: ColumnRef, w: Work)
    requires c in prior.columns
    requires w.unmasked ==> RP.OptOutStands(prior, c, w.col.fingerprint)
    ensures var w' := RP.ColumnVisit(pack, prior.columns[c], w).work;
      w'.unmasked ==> OptOutSource(w'.source) && RP.OptOutStands(prior, c, w'.col.fingerprint)
  {
    hide RP.RaiseFromConfig, RP.HonourOptOut, RP.Stands;
    var cc := prior.columns[c];
    RP.RaiseKeepsOptOut(pack, w, cc.category, cc.confidence);
    if cc.unmask.Some? {
      RP.HonouredIffItStands(cc.unmask.value, w.col.fingerprint);
    }
  }

  lemma PriorNamesOptOuts(e: Env, prior: RP.Prior, d: Dec)
    requires NoneOptedOut(d)
    ensures OptOutsNamed(RP.ApplyPrior(e.rules.pack, prior, e.order, d).dec)
  {
    var start := RP.Folded(d, false);
    RP.ApplyPatternsMasksMore(e.rules.pack, prior.patterns, e.order, start);
    var mid := RP.ApplyPatterns(e.rules.pack, prior.patterns, e.order, start);
    assert NoneOptedOut(mid.dec) by {
      forall c | c in mid.dec ensures !mid.dec[c].unmasked { assert StillMasked(d[c], mid.dec[c]); }
    }
    ApplyColumnsNamesOptOuts(e.rules.pack, prior, e.order, mid);
  }

  /** Before the second sweep and after it, an opted-out column is named so. */
  lemma ConcludedNamesOptOuts(e: Env, prior: Option<RP.Prior>, d: Dec)
    requires NoneOptedOut(d)
    ensures OptOutsNamed(Concluded(e, prior, d))
  {
    var ps := AllPairs(e.fks);
    var a := Exempted(e, d);
    KP.ReconcileRoundsExemptOnly(ps, d, |e.fks| + 1);
    AfterExemption(e, prior, a);
    var s := Shared(e, Propagated(e, a));
    assert NoneOptedOut(s) by {
      forall c | c in s ensures !s[c].unmasked { assert StillMasked(a[c], s[c]); }
    }
    if prior.Some? {
      PriorNamesOptOuts(e, prior.value, s);
    }
    KP.PropagateRoundsMaskMore(e.rules, ps, Prioritised(e, prior, s).dec, |e.fks| + 1);
  }

  /** The second sweep ran and stopped because nothing moved. */
  predicate SettledAfterPrior(e: Env, prior: Option<RP.Prior>, d: Dec) {
    var f := Prioritised(e, prior, Shared(e, Propagated(e, Exempted(e, d))));
    f.raised && !KP.PropagateRounds(e.rules, AllPairs(e.fks), f.dec, |e.fks| + 1).changed
  }

  /** Keys foreignKeys always settles: one parent a child, and either no chain of pairs
      longer than the number of keys or single columns without a cycle. */
  ghost predicate SettlingKeys(fks: seq<ForeignKey>) {
    SC.OneParent(AllPairs(fks)) && exists rank ::
      SC.Layered(AllPairs(fks), rank, |fks|) || (SingleColumn(fks) && SC.Acyclic(AllPairs(fks), rank))
  }

  /** With such keys the second sweep ends quietly whenever the file makes it run. */
  lemma {:induction false} SettledIffRaised(e: Env, prior: Option<RP.Prior>, d: Dec)
    requires SettlingKeys(e.fks)
    ensures SettledAfterPrior(e, prior, d) <==> Prioritised(e, prior, Shared(e, Propagated(e, Exempted(e, d)))).raised
  {
    hide SC.Layered, SC.Acyclic, SingleColumn, SC.OneParent;
    var f := Prioritised(e, prior, Shared(e, Propagated(e, Exempted(e, d))));
    var rank :| SC.Layered(AllPairs(e.fks), rank, |e.fks|) || (SingleColumn(e.fks) && SC.Acyclic(AllPairs(e.fks), rank));
    if SC.Layered(AllPairs(e.fks), rank, |e.fks|) {
      SC.ForeignKeysConverges(e.rules, e.fks, f.dec, rank);
    } else {
      SC.SingleColumnForeignKeysConverge(e.rules, e.fks, f.dec, rank);
    }
  }

  /** After a quiet post-prior sweep, a masked key column leaves a child copied only if
      the child is opted out, generated, or of a type the parent's category refuses. */
  lemma MaskedKeyReachesItsChildren(e: Env, prior: Option<RP.Prior>, d: Dec, p: Pair)
    requires AllHaveCategory(d) && NoneOptedOut(d)
    requires SettledAfterPrior(e, prior, d)
    requires p in AllPairs(e.fks) && p.parent in e.rules.keyColumns && p.parent in d && p.child in d
    ensures var end := Concluded(e, prior, d);
      p.parent in end && p.child in end
      && (end[p.parent].Masked() ==>
            || (end[p.child].Masked() && end[p.child].category == end[p.parent].category
                && end[p.child].confidence >= end[p.parent].confidence)
            || end[p.child].col.generated
            || (end[p.child].unmasked && OptOutSource(end[p.child].source))
            || !Accepted(e.rules.pack, end[p.parent].category, end[p.child].col.family))
  {
    PassesOnlyMaskMore(e, prior, d);
    ConcludedNamesOptOuts(e, prior, d);
    var f := Prioritised(e, prior, Shared(e, Propagated(e, Exempted(e, d))));
    KP.QuietExitAgrees(e.rules, AllPairs(e.fks), f.dec, |e.fks| + 1);
    assert KP.Agrees(e.rules, p, Concluded(e, prior, d));
  }
}
