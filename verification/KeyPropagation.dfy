/** Foreign-key propagation and the key exemption's reconciliation, as functions
    of the decisions (internal/classify/classify.go, pass 4). The State class
    runs them in place; what they promise is proved here. */
module KeyPropagation {
  import opened Decisions

  /** What one sweep step does to the decisions, and whether it changed anything. */
  datatype SweepResult = SweepResult(dec: Dec, changed: bool)

  datatype Rules = Rules(pack: Accepts, keyColumns: set<ColumnRef>)

  // ---------- propagateKeys ----------

  /** The parent end carries a decision that overrides its children's. */
  predicate Overrides(r: Rules, dec: Dec, parent: ColumnRef) {
    && parent in dec && parent in r.keyColumns
    && dec[parent].confidence >= CONF_POSSIBLE
    && !dec[parent].neverMask && dec[parent].category != CatNone
  }

  function Overridden(child: Work, parent: Work): Work {
    child.(neverMask := false, typeConflict := false, frameworkMetadata := false,
           sweptNoSignal := false, keyExempt := false,
           category := parent.category,
           confidence := if child.confidence < parent.confidence then parent.confidence else child.confidence,
           source := ByFKPropagation)
  }

  function PropagatePair(r: Rules, p: Pair, dec: Dec): SweepResult {
    if p.child !in dec || !Overrides(r, dec, p.parent) then SweepResult(dec, false) else
    var pw, cw := dec[p.parent], dec[p.child];
    if cw.col.generated || cw.unmasked then SweepResult(dec, false)
    else if !Accepted(r.pack, pw.category, cw.col.family) then
      if cw.propagationRefused then SweepResult(dec, false)
      else SweepResult(dec[p.child := cw.(propagationRefused := true)], true)
    else if cw.category == pw.category && cw.confidence >= pw.confidence && !cw.neverMask then
      SweepResult(dec, false)
    else SweepResult(dec[p.child := Overridden(cw, pw)], true)
  }

  /** One sweep over pairs, in order. */
  function PropagateSweep(r: Rules, ps: seq<Pair>, dec: Dec): SweepResult {
    if ps == [] then SweepResult(dec, false) else
    var before := PropagateSweep(r, ps[..|ps| - 1], dec);
    var step := PropagatePair(r, ps[|ps| - 1], before.dec);
    SweepResult(step.dec, before.changed || step.changed)
  }

  /** At most n sweeps, stopping at the first quiet one; `changed` says the last one moved something. */
  function PropagateRounds(r: Rules, ps: seq<Pair>, dec: Dec, n: nat): SweepResult
    decreases n
  {
    if n == 0 then SweepResult(dec, true) else
    var s := PropagateSweep(r, ps, dec);
    if !s.changed then s else PropagateRounds(r, ps, s.dec, n - 1)
  }

  // ---------- reconcileKeyChildren ----------

  function ReconcilePair(p: Pair, dec: Dec): SweepResult {
    if !p.checked || p.parent !in dec || p.child !in dec then SweepResult(dec, false) else
    var pw, cw := dec[p.parent], dec[p.child];
    if !pw.neverMask || !pw.keyExempt then SweepResult(dec, false)
    else if cw.neverMask || cw.confidence < CONF_POSSIBLE then SweepResult(dec, false)
    else if !IsKeyFamily(cw.col.family) || cw.col.isArray then SweepResult(dec, false)
    else SweepResult(dec[p.child := cw.(neverMask := true, keyExempt := true)], true)
  }

  function ReconcileSweep(ps: seq<Pair>, dec: Dec): SweepResult {
    if ps == [] then SweepResult(dec, false) else
    var before := ReconcileSweep(ps[..|ps| - 1], dec);
    var step := ReconcilePair(ps[|ps| - 1], before.dec);
    SweepResult(step.dec, before.changed || step.changed)
  }

  function ReconcileRounds(ps: seq<Pair>, dec: Dec, n: nat): SweepResult
    decreases n
  {
    if n == 0 then SweepResult(dec, true) else
    var s := ReconcileSweep(ps, dec);
    if !s.changed then s else ReconcileRounds(ps, s.dec, n - 1)
  }

  // ---------- what a quiet exit means ----------

  /** ARCHITECTURE's agreement across one edge: the parent does not override, or the
      child cannot or need not take its decision, or it already has. */
  predicate Agrees(r: Rules, p: Pair, dec: Dec) {
    p.child in dec && Overrides(r, dec, p.parent) ==>
      var pw, cw := dec[p.parent], dec[p.child];
      || cw.col.generated
      || cw.unmasked
      || (!Accepted(r.pack, pw.category, cw.col.family) && cw.propagationRefused)
      || (cw.category == pw.category && cw.confidence >= pw.confidence && !cw.neverMask)
  }

  /** An exempt key's scalar key-family child is never left masked. */
  predicate ExemptionShared(p: Pair, dec: Dec) {
    p.checked && p.parent in dec && p.child in dec && dec[p.parent].neverMask && dec[p.parent].keyExempt ==>
      var cw := dec[p.child];
      cw.neverMask || cw.confidence < CONF_POSSIBLE || !IsKeyFamily(cw.col.family) || cw.col.isArray
  }

  lemma {:induction false} QuietPropagateSweep(r: Rules, ps: seq<Pair>, dec: Dec)
    requires !PropagateSweep(r, ps, dec).changed
    ensures PropagateSweep(r, ps, dec).dec == dec
    ensures forall p :: p in ps ==> PropagatePair(r, p, dec) == SweepResult(dec, false)
  {
    if ps != [] {
      QuietPropagateSweep(r, ps[..|ps| - 1], dec);
      assert ps == ps[..|ps| - 1] + [ps[|ps| - 1]];
    }
  }

  lemma {:induction false} QuietReconcileSweep(ps: seq<Pair>, dec: Dec)
    requires !ReconcileSweep(ps, dec).changed
    ensures ReconcileSweep(ps, dec).dec == dec
    ensures forall p :: p in ps ==> ReconcilePair(p, dec) == SweepResult(dec, false)
  {
    if ps != [] {
      QuietReconcileSweep(ps[..|ps| - 1], dec);
      assert ps == ps[..|ps| - 1] + [ps[|ps| - 1]];
    }
  }

  /** Join agreement: a quiet exit leaves every edge agreeing. */
  lemma {:induction false} QuietExitAgrees(r: Rules, ps: seq<Pair>, dec: Dec, n: nat)
    requires !PropagateRounds(r, ps, dec, n).changed
    ensures forall p :: p in ps ==> Agrees(r, p, PropagateRounds(r, ps, dec, n).dec)
    decreases n
  {
    var s := PropagateSweep(r, ps, dec);
    if s.changed {
      QuietExitAgrees(r, ps, s.dec, n - 1);
    } else {
      QuietPropagateSweep(r, ps, dec);
      forall p | p in ps ensures Agrees(r, p, dec) {
        assert PropagatePair(r, p, dec) == SweepResult(dec, false);
      }
    }
  }

  lemma {:induction false} QuietExitSharesExemption(ps: seq<Pair>, dec: Dec, n: nat)
    requires !ReconcileRounds(ps, dec, n).changed
    ensures forall p :: p in ps ==> ExemptionShared(p, ReconcileRounds(ps, dec, n).dec)
    decreases n
  {
    var s := ReconcileSweep(ps, dec);
    if s.changed {
      QuietExitSharesExemption(ps, s.dec, n - 1);
    } else {
      QuietReconcileSweep(ps, dec);
      forall p | p in ps ensures ExemptionShared(p, dec) {
        assert ReconcilePair(p, dec) == SweepResult(dec, false);
      }
    }
  }

  // ---------- the passes only mask more ----------

  /** An opted-out column is never touched, and a column no pair names as child stays as it is. */
  lemma {:induction false} PropagateSweepMasksMore(r: Rules, ps: seq<Pair>, dec: Dec)
    ensures MasksMore(dec, PropagateSweep(r, ps, dec).dec)
    ensures forall c :: c in dec && dec[c].unmasked ==> PropagateSweep(r, ps, dec).dec[c] == dec[c]
    ensures forall c :: c in dec ==> PropagateSweep(r, ps, dec).dec[c].unmasked == dec[c].unmasked
    ensures forall c :: c in dec && (forall p :: p in ps ==> p.child != c) ==> PropagateSweep(r, ps, dec).dec[c] == dec[c]
  {
    if ps != [] {
      PropagateSweepMasksMore(r, ps[..|ps| - 1], dec);
      var before := PropagateSweep(r, ps[..|ps| - 1], dec).dec;
      var p := ps[|ps| - 1];
      PropagateStepMasksMore(r, p, before);
      MasksMoreTransitive(dec, before, PropagatePair(r, p, before).dec);
      assert p in ps && forall q :: q in ps[..|ps| - 1] ==> q in ps;
    }
  }

  lemma PropagateStepMasksMore(r: Rules, p: Pair, dec: Dec)
    ensures MasksMore(dec, PropagatePair(r, p, dec).dec)
    ensures forall c :: c in dec && (dec[c].unmasked || c != p.child) ==> PropagatePair(r, p, dec).dec[c] == dec[c]
    ensures forall c :: c in dec ==> PropagatePair(r, p, dec).dec[c].unmasked == dec[c].unmasked
  {
    if PropagatePair(r, p, dec).changed {
      OneColumnMasksMore(dec, dec, p.child, PropagatePair(r, p, dec).dec[p.child]);
    }
  }

  lemma {:induction false} PropagateRoundsMaskMore(r: Rules, ps: seq<Pair>, dec: Dec, n: nat)
    ensures MasksMore(dec, PropagateRounds(r, ps, dec, n).dec)
    ensures forall c :: c in dec && dec[c].unmasked ==> PropagateRounds(r, ps, dec, n).dec[c] == dec[c]
    ensures forall c :: c in dec ==> PropagateRounds(r, ps, dec, n).dec[c].unmasked == dec[c].unmasked
    ensures forall c :: c in dec && (forall p :: p in ps ==> p.child != c) ==> PropagateRounds(r, ps, dec, n).dec[c] == dec[c]
    decreases n
  {
    if n > 0 {
      var s := PropagateSweep(r, ps, dec);
      PropagateSweepMasksMore(r, ps, dec);
      if s.changed {
        PropagateRoundsMaskMore(r, ps, s.dec, n - 1);
        MasksMoreTransitive(dec, s.dec, PropagateRounds(r, ps, dec, n).dec);
      }
    }
  }

  /** The exemption of a checked pair's parent reached the child. */
  predicate ExemptByPair(ps: seq<Pair>, dec: Dec, c: ColumnRef) {
    && c in dec && dec[c].neverMask && dec[c].keyExempt
    && exists p :: p in ps && p.checked && p.child == c && p.parent in dec
                && dec[p.parent].neverMask && dec[p.parent].keyExempt
  }

  /** The contract of the one pass that masks less. */
  predicate ExemptsOnly(ps: seq<Pair>, d: Dec, d': Dec) {
    && d.Keys == d'.Keys
    && (forall c :: c in d ==> Unlowered(d[c], d'[c]) && HasCategory(d[c]) == HasCategory(d'[c]))
    && (forall c :: c in d && d'[c] != d[c] ==> ExemptByPair(ps, d', c))
    && (forall c :: c in d && d[c].neverMask ==> d'[c] == d[c])
    && (forall c :: c in d ==> d'[c] == d[c].(neverMask := d'[c].neverMask, keyExempt := d'[c].keyExempt))
  }

  lemma ReconcileStepExemptsOnly(all: seq<Pair>, p: Pair, dec: Dec)
    requires p in all
    ensures ExemptsOnly(all, dec, ReconcilePair(p, dec).dec)
  {
    var after := ReconcilePair(p, dec).dec;
    if after != dec {
      assert p.parent != p.child && after[p.parent] == dec[p.parent];
      assert ExemptByPair(all, after, p.child);
      forall c | c in dec && c != p.child ensures after[c] == dec[c] {}
    }
  }

  lemma {:induction false} ReconcileSweepExemptsOnly(all: seq<Pair>, ps: seq<Pair>, dec: Dec)
    requires forall p :: p in ps ==> p in all
    ensures ExemptsOnly(all, dec, ReconcileSweep(ps, dec).dec)
  {
    if ps != [] {
      ReconcileSweepExemptsOnly(all, ps[..|ps| - 1], dec);
      var before := ReconcileSweep(ps[..|ps| - 1], dec).dec;
      ReconcileStepExemptsOnly(all, ps[|ps| - 1], before);
      ExemptsOnlyTransitive(all, dec, before, ReconcilePair(ps[|ps| - 1], before).dec);
    }
  }

  lemma ExemptsOnlyTransitive(ps: seq<Pair>, a: Dec, b: Dec, c: Dec)
    requires ExemptsOnly(ps, a, b) && ExemptsOnly(ps, b, c)
    ensures ExemptsOnly(ps, a, c)
  {
    forall x | x in a && c[x] != a[x] ensures ExemptByPair(ps, c, x) {
      if c[x] == b[x] {
        assert ExemptByPair(ps, b, x);
        var p :| p in ps && p.checked && p.child == x && p.parent in b && b[p.parent].neverMask && b[p.parent].keyExempt;
        assert c[p.parent] == b[p.parent];
      }
    }
  }

  lemma {:induction false} ReconcileRoundsExemptOnly(ps: seq<Pair>, dec: Dec, n: nat)
    ensures ExemptsOnly(ps, dec, ReconcileRounds(ps, dec, n).dec)
    decreases n
  {
    if n > 0 {
      var s := ReconcileSweep(ps, dec);
      ReconcileSweepExemptsOnly(ps, ps, dec);
      if s.changed {
        ReconcileRoundsExemptOnly(ps, s.dec, n - 1);
        ExemptsOnlyTransitive(ps, dec, s.dec, ReconcileRounds(ps, dec, n).dec);
      }
    }
  }
}
