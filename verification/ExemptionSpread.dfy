/** Exactly when keyChildren's sweeps suffice for keys in a given order: when they do for
    every chain of columns on its own (classify.go, keyChildren and reconcileKeyChildren). */
module ExemptionSpread {
  import opened Common
  import opened Decisions
  import opened KeyPropagation
  import SC = SweepConvergence

  // ---------- the sweeps as a set that grows ----------

  /** The columns the exemption has reached, and whether a step reached one more. */
  datatype Spread = Spread(reached: set<ColumnRef>, changed: bool)

  /** `open` are the columns an exemption may be granted to. */
  function SpreadPair(p: Pair, open: set<ColumnRef>, s: set<ColumnRef>): Spread {
    if p.checked && p.parent in s && p.child in open && p.child !in s then Spread(s + {p.child}, true)
    else Spread(s, false)
  }

  function SpreadSweep(ps: seq<Pair>, open: set<ColumnRef>, s: set<ColumnRef>): Spread {
    if ps == [] then Spread(s, false) else
    var before := SpreadSweep(ps[..|ps| - 1], open, s);
    var step := SpreadPair(ps[|ps| - 1], open, before.reached);
    Spread(step.reached, before.changed || step.changed)
  }

  function SpreadRounds(ps: seq<Pair>, open: set<ColumnRef>, s: set<ColumnRef>, n: nat): Spread
    decreases n
  {
    if n == 0 then Spread(s, true) else
    var w := SpreadSweep(ps, open, s);
    if !w.changed then w else SpreadRounds(ps, open, w.reached, n - 1)
  }

  function ExemptOf(d: Dec): set<ColumnRef> {
    set c | c in d && d[c].neverMask && d[c].keyExempt
  }

  function OpenOf(d: Dec): set<ColumnRef> {
    set c | c in d && IsOpen(d[c])
  }

  predicate IsOpen(w: Work) {
    !w.neverMask && w.confidence >= CONF_POSSIBLE && IsKeyFamily(w.col.family) && !w.col.isArray
  }

  /** d is dec with the exemption granted to some of its open columns. */
  predicate Granted(dec: Dec, d: Dec) {
    && d.Keys == dec.Keys
    && forall c :: c in dec ==> d[c] == dec[c] || (IsOpen(dec[c]) && d[c] == dec[c].(neverMask := true, keyExempt := true))
  }

  lemma OpenIsUngranted(dec: Dec, d: Dec, c: ColumnRef)
    requires Granted(dec, d) && c in d
    ensures IsOpen(d[c]) <==> c in OpenOf(dec) && c !in ExemptOf(d)
  {
    hide IsKeyFamily;
  }

  lemma PairSpreads(p: Pair, dec: Dec, d: Dec)
    requires Granted(dec, d)
    ensures var x := ReconcilePair(p, d);
      Granted(dec, x.dec) && Spread(ExemptOf(x.dec), x.changed) == SpreadPair(p, OpenOf(dec), ExemptOf(d))
  {
    if p.child in d {
      OpenIsUngranted(dec, d, p.child);
      var x := ReconcilePair(p, d);
      assert x.changed <==> p.checked && p.parent in ExemptOf(d) && IsOpen(d[p.child]);
      hide OpenOf, IsKeyFamily;
      if x.changed {
        assert x.dec == d[p.child := d[p.child].(neverMask := true, keyExempt := true)];
        assert ExemptOf(x.dec) == ExemptOf(d) + {p.child};
      }
    }
  }

  lemma {:induction false} SweepSpreads(ps: seq<Pair>, dec: Dec, d: Dec)
    requires Granted(dec, d)
    ensures var x := ReconcileSweep(ps, d);
      Granted(dec, x.dec) && Spread(ExemptOf(x.dec), x.changed) == SpreadSweep(ps, OpenOf(dec), ExemptOf(d))
  {
    hide Granted, ReconcilePair, SpreadPair, ExemptOf, OpenOf;
    if ps != [] {
      SweepSpreads(ps[..|ps| - 1], dec, d);
      PairSpreads(ps[|ps| - 1], dec, ReconcileSweep(ps[..|ps| - 1], d).dec);
    }
  }

  /** The loop over decisions is the loop over sets. */
  lemma {:induction false} RoundsSpread(ps: seq<Pair>, dec: Dec, d: Dec, n: nat)
    requires Granted(dec, d)
    ensures ReconcileRounds(ps, d, n).changed == SpreadRounds(ps, OpenOf(dec), ExemptOf(d), n).changed
    decreases n
  {
    hide Granted, ExemptOf, OpenOf;
    if n > 0 {
      SweepSpreads(ps, dec, d);
      var x := ReconcileSweep(ps, d);
      if x.changed {
        RoundsSpread(ps, dec, x.dec, n - 1);
      }
    }
  }

  // ---------- how it grows ----------

  lemma {:induction false} SweepGrows(ps: seq<Pair>, open: set<ColumnRef>, s: set<ColumnRef>)
    ensures var w := SpreadSweep(ps, open, s); s <= w.reached && (w.changed <==> w.reached != s)
  {
    if ps != [] {
      SweepGrows(ps[..|ps| - 1], open, s);
    }
  }

  /** With fewer columns open and fewer reached, no more is reached. */
  lemma {:induction false} SweepIsMonotone(ps: seq<Pair>, a: set<ColumnRef>, s: set<ColumnRef>, b: set<ColumnRef>, t: set<ColumnRef>)
    requires a <= b && s <= t
    ensures SpreadSweep(ps, a, s).reached <= SpreadSweep(ps, b, t).reached
  {
    if ps != [] {
      SweepIsMonotone(ps[..|ps| - 1], a, s, b, t);
    }
  }

  lemma {:induction false} RoundsAreMonotone(ps: seq<Pair>, a: set<ColumnRef>, s: set<ColumnRef>, b: set<ColumnRef>, t: set<ColumnRef>, n: nat)
    requires a <= b && s <= t
    ensures SpreadRounds(ps, a, s, n).reached <= SpreadRounds(ps, b, t, n).reached
    decreases n
  {
    if n > 0 {
      SweepIsMonotone(ps, a, s, b, t);
      SweepGrows(ps, a, s);
      SweepGrows(ps, b, t);
      var v, w := SpreadSweep(ps, a, s), SpreadSweep(ps, b, t);
      if v.changed && w.changed {
        RoundsAreMonotone(ps, a, v.reached, b, w.reached, n - 1);
      } else if v.changed {
        RoundsStayBelow(ps, a, v.reached, b, t, n - 1);
      } else if w.changed {
        RoundsGrow(ps, b, w.reached, n - 1);
      }
    }
  }

  lemma {:induction false} RoundsGrow(ps: seq<Pair>, open: set<ColumnRef>, s: set<ColumnRef>, n: nat)
    ensures s <= SpreadRounds(ps, open, s, n).reached
    decreases n
  {
    if n > 0 {
      SweepGrows(ps, open, s);
      if SpreadSweep(ps, open, s).changed {
        RoundsGrow(ps, open, SpreadSweep(ps, open, s).reached, n - 1);
      }
    }
  }

  /** What a quiet set holds no sweep over fewer columns leaves. */
  lemma {:induction false} RoundsStayBelow(ps: seq<Pair>, a: set<ColumnRef>, s: set<ColumnRef>, b: set<ColumnRef>, t: set<ColumnRef>, n: nat)
    requires a <= b && s <= t && !SpreadSweep(ps, b, t).changed
    ensures SpreadRounds(ps, a, s, n).reached <= t
    decreases n
  {
    if n > 0 {
      SweepIsMonotone(ps, a, s, b, t);
      SweepGrows(ps, b, t);
      SweepGrows(ps, a, s);
      if SpreadSweep(ps, a, s).changed {
        RoundsStayBelow(ps, a, SpreadSweep(ps, a, s).reached, b, t, n - 1);
      }
    }
  }

  /** n + 1 rounds are n rounds and one sweep. */
  lemma {:induction false} LastRound(ps: seq<Pair>, open: set<ColumnRef>, s: set<ColumnRef>, n: nat)
    ensures var r := SpreadRounds(ps, open, s, n);
      SpreadRounds(ps, open, s, n + 1).changed == SpreadSweep(ps, open, r.reached).changed
    decreases n
  {
    var w := SpreadSweep(ps, open, s);
    if n == 0 {
      assert SpreadRounds(ps, open, w.reached, 0).changed;
    } else if w.changed {
      LastRound(ps, open, w.reached, n - 1);
    } else {
      SweepGrows(ps, open, s);
    }
  }

  // ---------- chains ----------

  /** Columns each the parent of the next, none twice; the first is the exempt one. */
  predicate IsPath(ps: seq<Pair>, cols: seq<ColumnRef>) {
    cols != [] && Distinct(cols) && forall i :: 0 < i < |cols| ==> Pair(cols[i - 1], cols[i], true) in ps
  }

  /** A path from a column exempt from the start through open ones, all of it reached. */
  ghost predicate ReachedAlong(ps: seq<Pair>, open: set<ColumnRef>, start: set<ColumnRef>, s: set<ColumnRef>, c: ColumnRef) {
    exists cols: seq<ColumnRef> :: IsPath(ps, cols) && cols[0] in start && cols[|cols| - 1] == c && Elements(cols[1..]) <= open && Elements(cols) <= s
  }

  ghost predicate AllReached(ps: seq<Pair>, open: set<ColumnRef>, start: set<ColumnRef>, s: set<ColumnRef>) {
    forall c :: c in s ==> ReachedAlong(ps, open, start, s, c)
  }

  lemma StartIsReached(ps: seq<Pair>, open: set<ColumnRef>, start: set<ColumnRef>)
    ensures AllReached(ps, open, start, start)
  {
    forall c | c in start ensures ReachedAlong(ps, open, start, start, c) {
      assert IsPath(ps, [c]) && Elements([c]) == {c};
    }
  }

  lemma OneMoreIsReached(ps: seq<Pair>, p: Pair, open: set<ColumnRef>, start: set<ColumnRef>, s: set<ColumnRef>)
    requires AllReached(ps, open, start, s) && p in ps
    ensures AllReached(ps, open, start, SpreadPair(p, open, s).reached)
  {
    var t := SpreadPair(p, open, s).reached;
    if t != s {
      forall c | c in t ensures ReachedAlong(ps, open, start, t, c) {
        var from := if c in s then c else p.parent;
        var cols: seq<ColumnRef> :| IsPath(ps, cols) && cols[0] in start && cols[|cols| - 1] == from
          && Elements(cols[1..]) <= open && Elements(cols) <= s;
        if c !in s {
          PathExtends(ps, cols, c);
        }
      }
    }
  }

  lemma PathExtends(ps: seq<Pair>, cols: seq<ColumnRef>, c: ColumnRef)
    requires IsPath(ps, cols) && c !in Elements(cols) && Pair(cols[|cols| - 1], c, true) in ps
    ensures IsPath(ps, cols + [c]) && Elements(cols + [c]) == Elements(cols) + {c}
    ensures Elements((cols + [c])[1..]) == Elements(cols[1..]) + {c}
  {
    assert (cols + [c])[1..] == cols[1..] + [c];
    forall i | 0 <= i < |cols| ensures cols[i] != c {
      assert cols[i] in Elements(cols);
    }
  }

  lemma {:induction false} SweepReaches(ps: seq<Pair>, n: nat, open: set<ColumnRef>, start: set<ColumnRef>, s: set<ColumnRef>)
    requires n <= |ps| && AllReached(ps, open, start, s)
    ensures AllReached(ps, open, start, SpreadSweep(ps[..n], open, s).reached)
  {
    hide AllReached, SpreadPair;
    if n > 0 {
      SweepReaches(ps, n - 1, open, start, s);
      assert ps[..n][..n - 1] == ps[..n - 1];
      OneMoreIsReached(ps, ps[n - 1], open, start, SpreadSweep(ps[..n - 1], open, s).reached);
    }
  }

  lemma {:induction false} RoundsReach(ps: seq<Pair>, open: set<ColumnRef>, start: set<ColumnRef>, s: set<ColumnRef>, n: nat)
    requires AllReached(ps, open, start, s)
    ensures AllReached(ps, open, start, SpreadRounds(ps, open, s, n).reached)
    decreases n
  {
    hide AllReached;
    if n > 0 {
      SweepReaches(ps, |ps|, open, start, s);
      assert ps[..|ps|] == ps;
      if SpreadSweep(ps, open, s).changed {
        RoundsReach(ps, open, start, SpreadSweep(ps, open, s).reached, n - 1);
      }
    }
  }

  /** A quiet set that holds the start of a path of open columns holds all of it. */
  lemma {:induction false} QuietHoldsThePath(ps: seq<Pair>, open: set<ColumnRef>, s: set<ColumnRef>, cols: seq<ColumnRef>, i: nat)
    requires !SpreadSweep(ps, open, s).changed && IsPath(ps, cols) && i < |cols|
    requires cols[0] in s && Elements(cols[1..]) <= open
    ensures cols[i] in s
  {
    if i > 0 {
      QuietHoldsThePath(ps, open, s, cols, i - 1);
      assert cols[1..][i - 1] == cols[i] && cols[i] in Elements(cols[1..]);
      QuietSettles(ps, open, s, Pair(cols[i - 1], cols[i], true));
    }
  }

  lemma {:induction false} QuietSettles(ps: seq<Pair>, open: set<ColumnRef>, s: set<ColumnRef>, p: Pair)
    requires !SpreadSweep(ps, open, s).changed && p in ps
    ensures !SpreadPair(p, open, s).changed
  {
    var most := ps[..|ps| - 1];
    SweepGrows(most, open, s);
    if p != ps[|ps| - 1] {
      assert p in most;
      QuietSettles(most, open, s, p);
    }
  }

  /** The chain run on its own columns comes to rest within n sweeps. */
  predicate Settles(ps: seq<Pair>, cols: seq<ColumnRef>, n: nat)
    requires cols != []
  {
    !SpreadRounds(ps, Elements(cols[1..]), {cols[0]}, n).changed
  }

  ghost predicate EveryChainSettles(ps: seq<Pair>, n: nat) {
    forall cols: seq<ColumnRef> :: IsPath(ps, cols) ==> Settles(ps, cols, n)
  }

  /** A run still moving after n sweeps moves along a chain that, alone, still moves too. */
  lemma MovingHasAChain(ps: seq<Pair>, open: set<ColumnRef>, start: set<ColumnRef>, n: nat)
    requires n > 0 && SpreadRounds(ps, open, start, n).changed
    ensures !EveryChainSettles(ps, n)
  {
    hide SpreadSweep, SpreadRounds, AllReached, Settles, Distinct, Elements;
    var before, after := SpreadRounds(ps, open, start, n - 1).reached, SpreadRounds(ps, open, start, n).reached;
    LastRound(ps, open, start, n - 1);
    var last := SpreadSweep(ps, open, before);
    SweepGrows(ps, open, before);
    var c :| c in last.reached && c !in before;
    StartIsReached(ps, open, start);
    RoundsReach(ps, open, start, start, n - 1);
    SweepReaches(ps, |ps|, open, start, before);
    assert ps[..|ps|] == ps;
    assert ReachedAlong(ps, open, start, last.reached, c) by { ReachedHasAPath(ps, open, start, last.reached, c); }
    var cols: seq<ColumnRef> :| IsPath(ps, cols) && cols[0] in start && cols[|cols| - 1] == c
      && Elements(cols[1..]) <= open && Elements(cols) <= last.reached;
    ChainIsSlower(ps, open, start, cols, n);
    assert IsPath(ps, cols) && !Settles(ps, cols, n);
  }

  lemma ReachedHasAPath(ps: seq<Pair>, open: set<ColumnRef>, start: set<ColumnRef>, s: set<ColumnRef>, c: ColumnRef)
    requires AllReached(ps, open, start, s) && c in s
    ensures ReachedAlong(ps, open, start, s, c)
  {
  }

  lemma ChainIsSlower(ps: seq<Pair>, open: set<ColumnRef>, start: set<ColumnRef>, cols: seq<ColumnRef>, n: nat)
    requires n > 0 && IsPath(ps, cols) && cols[0] in start && Elements(cols[1..]) <= open
    requires cols[|cols| - 1] !in SpreadRounds(ps, open, start, n - 1).reached
    ensures !Settles(ps, cols, n)
  {
    hide SpreadSweep, SpreadRounds, Distinct, Elements;
    var own := Elements(cols[1..]);
    if Settles(ps, cols, n) {
      var r := SpreadRounds(ps, own, {cols[0]}, n - 1).reached;
      LastRound(ps, own, {cols[0]}, n - 1);
      RoundsGrow(ps, own, {cols[0]}, n - 1);
      assert cols[0] in {cols[0]};
      QuietHoldsThePath(ps, own, r, cols, |cols| - 1);
      RoundsAreMonotone(ps, own, {cols[0]}, open, start, n - 1);
    }
  }

  // ---------- exactly when the sweeps suffice ----------

  /** The chain's own columns: the first exempt, the others masked. */
  lemma ChainIsADecision(ps: seq<Pair>, cols: seq<ColumnRef>, exempt: Work, masked: Work, n: nat)
    requires IsPath(ps, cols) && SC.ExemptRoot(exempt, masked)
    ensures ReconcileRounds(ps, SC.Stage(cols, exempt, masked, 0), n).changed <==> !Settles(ps, cols, n)
  {
    var dec := SC.Stage(cols, exempt, masked, 0);
    assert cols[..1] == [cols[0]];
    assert ExemptOf(dec) == {cols[0]};
    assert OpenOf(dec) == Elements(cols[1..]) by {
      forall c | c in Elements(cols[1..]) ensures c in OpenOf(dec) {
        var i :| 0 <= i < |cols| - 1 && cols[1..][i] == c;
        assert c == cols[i + 1];
      }
      forall c | c in OpenOf(dec) ensures c in Elements(cols[1..]) {
        var i :| 0 <= i < |cols| && cols[i] == c;
        assert i > 0 && c == cols[1..][i - 1];
      }
    }
    RoundsSpread(ps, dec, dec, n);
  }

  /** n sweeps end quietly whatever the decisions. */
  ghost predicate AlwaysQuiet(ps: seq<Pair>, n: nat) {
    forall dec: Dec :: QuietAfter(ps, dec, n)
  }

  predicate QuietAfter(ps: seq<Pair>, dec: Dec, n: nat) {
    !ReconcileRounds(ps, dec, n).changed
  }

  /** n sweeps leave no exempt key with a masked child that could share the exemption. */
  ghost predicate AlwaysShared(ps: seq<Pair>, n: nat) {
    forall dec: Dec :: SharedAfter(ps, dec, n)
  }

  ghost predicate SharedAfter(ps: seq<Pair>, dec: Dec, n: nat) {
    forall p :: p in ps ==> ExemptionShared(p, ReconcileRounds(ps, dec, n).dec)
  }

  /** n sweeps end quietly from every state if and only if they do on every chain alone. */
  lemma QuietIffEveryChainSettles(ps: seq<Pair>, n: nat, exempt: Work, masked: Work)
    requires n > 0 && SC.ExemptRoot(exempt, masked)
    ensures AlwaysQuiet(ps, n) <==> EveryChainSettles(ps, n)
  {
    hide Settles, Distinct, ReconcileRounds, SC.Stage, SpreadRounds, ExemptOf, OpenOf;
    if EveryChainSettles(ps, n) {
      forall dec: Dec ensures QuietAfter(ps, dec, n) {
        assert Granted(dec, dec);
        RoundsSpread(ps, dec, dec, n);
        if SpreadRounds(ps, OpenOf(dec), ExemptOf(dec), n).changed {
          MovingHasAChain(ps, OpenOf(dec), ExemptOf(dec), n);
        }
      }
    } else {
      var cols: seq<ColumnRef> :| IsPath(ps, cols) && !Settles(ps, cols, n);
      ChainIsADecision(ps, cols, exempt, masked, n);
      assert !QuietAfter(ps, SC.Stage(cols, exempt, masked, 0), n);
    }
  }

  /** After n sweeps every exemption is shared if and only if one more would end quietly. */
  lemma SharedIffOneMoreIsQuiet(ps: seq<Pair>, dec: Dec, n: nat)
    ensures SharedAfter(ps, dec, n) <==> QuietAfter(ps, dec, n + 1)
  {
    hide ReconcileRounds, ExemptionShared;
    if !ReconcileRounds(ps, dec, n + 1).changed {
      SC.OneRoundToSpare(ps, dec, n);
      QuietExitSharesExemption(ps, dec, n + 1);
    } else {
      MovingIsUnshared(ps, dec, n);
    }
  }

  lemma OneRound(ps: seq<Pair>, dec: Dec)
    ensures ReconcileRounds(ps, dec, 1).changed == ReconcileSweep(ps, dec).changed
  {
  }

  lemma {:induction false} MovingIsUnshared(ps: seq<Pair>, dec: Dec, n: nat)
    requires ReconcileRounds(ps, dec, n + 1).changed
    ensures exists p :: p in ps && !ExemptionShared(p, ReconcileRounds(ps, dec, n).dec)
    decreases n
  {
    hide ExemptionShared;
    var s := ReconcileSweep(ps, dec);
    if n == 0 {
      OneRound(ps, dec);
      MovingSweepIsUnshared(ps, dec);
    } else {
      MovingIsUnshared(ps, s.dec, n - 1);
    }
  }

  lemma {:induction false} MovingSweepIsUnshared(ps: seq<Pair>, dec: Dec)
    requires ReconcileSweep(ps, dec).changed
    ensures exists p :: p in ps && !ExemptionShared(p, dec)
  {
    var most, p := ps[..|ps| - 1], ps[|ps| - 1];
    if ReconcileSweep(most, dec).changed {
      MovingSweepIsUnshared(most, dec);
      var q :| q in most && !ExemptionShared(q, dec);
      assert q in ps;
    } else {
      QuietReconcileSweep(most, dec);
      assert ReconcilePair(p, dec).changed && p in ps;
    }
  }

  lemma AlwaysSharedIff(ps: seq<Pair>, n: nat, m: nat)
    requires m == n + 1
    ensures AlwaysShared(ps, n) <==> AlwaysQuiet(ps, m)
  {
    hide QuietAfter, SharedAfter;
    forall dec: Dec ensures SharedAfter(ps, dec, n) <==> QuietAfter(ps, dec, m) {
      SharedIffOneMoreIsQuiet(ps, dec, n);
    }
  }

  /** keyChildren's cap, for keys in the order given: it ends quietly whatever the decisions
      if and only if every chain alone settles in as many sweeps, and leaves no exempt key
      with a masked child if and only if every chain alone settles in one more. */
  lemma KeyChildrenIff(fks: seq<ForeignKey>, exempt: Work, masked: Work)
    requires SC.ExemptRoot(exempt, masked)
    ensures AlwaysQuiet(AllPairs(fks), |fks| + 1) <==> EveryChainSettles(AllPairs(fks), |fks| + 1)
    ensures AlwaysShared(AllPairs(fks), |fks| + 1) <==> EveryChainSettles(AllPairs(fks), |fks| + 2)
  {
    hide AllPairs, EveryChainSettles, AlwaysShared, AlwaysQuiet;
    var ps, n := AllPairs(fks), |fks| + 1;
    QuietIffEveryChainSettles(ps, n, exempt, masked);
    QuietIffEveryChainSettles(ps, n + 1, exempt, masked);
    AlwaysSharedIff(ps, n, n + 1);
  }
}
