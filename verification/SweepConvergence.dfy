/** When the two capped sweeps end on a quiet one: the cap is the number of
    foreign keys plus one (classify.go, keyChildren and foreignKeys). */
module SweepConvergence {
  import opened Common
  import opened Decisions
  import opened KeyPropagation

  predicate OneParent(ps: seq<Pair>) {
    forall p, q :: p in ps && q in ps && p.child == q.child ==> p.parent == q.parent
  }

  /** rank witnesses that the pairs are acyclic and no chain is longer than depth. */
  predicate Layered(ps: seq<Pair>, rank: ColumnRef -> nat, depth: nat) {
    forall p :: p in ps ==> rank(p.parent) < rank(p.child) <= depth
  }

  predicate Acyclic(ps: seq<Pair>, rank: ColumnRef -> nat) {
    forall p :: p in ps ==> rank(p.parent) < rank(p.child)
  }

  predicate Quiet(r: Rules, p: Pair, dec: Dec) {
    !PropagatePair(r, p, dec).changed
  }

  predicate SameAt(c: ColumnRef, d: Dec, d': Dec) {
    (c in d <==> c in d') && (c in d ==> d[c] == d'[c])
  }

  ghost predicate SameBelow(d: Dec, d': Dec, rank: ColumnRef -> nat, k: nat) {
    forall c :: rank(c) <= k ==> SameAt(c, d, d')
  }

  predicate SettledTo(r: Rules, ps: seq<Pair>, dec: Dec, rank: ColumnRef -> nat, k: nat) {
    forall p :: p in ps && rank(p.child) <= k ==> Quiet(r, p, dec)
  }

  /** A pair's step reads its two ends only, writes the child only, and settles its own edge. */
  lemma StepIsLocal(r: Rules, p: Pair, d: Dec, d': Dec)
    requires SameAt(p.parent, d, d') && SameAt(p.child, d, d')
    ensures Quiet(r, p, d) == Quiet(r, p, d')
    ensures forall c :: c != p.child ==> SameAt(c, d, PropagatePair(r, p, d).dec)
    ensures Quiet(r, p, d) ==> PropagatePair(r, p, d).dec == d
    ensures p.parent != p.child ==> Quiet(r, p, PropagatePair(r, p, d).dec)
  {
  }

  lemma StepSettles(r: Rules, ps: seq<Pair>, p: Pair, dec: Dec, before: Dec, rank: ColumnRef -> nat, k: nat)
    requires OneParent(ps + [p]) && Acyclic(ps + [p], rank)
    requires SettledTo(r, ps + [p], dec, rank, k) && SameBelow(dec, before, rank, k)
    requires SettledTo(r, ps, before, rank, k + 1)
    ensures SameBelow(dec, PropagatePair(r, p, before).dec, rank, k)
    ensures SettledTo(r, ps + [p], PropagatePair(r, p, before).dec, rank, k + 1)
  {
    hide Quiet, PropagatePair;
    var after := PropagatePair(r, p, before).dec;
    assert p in ps + [p] && rank(p.parent) < rank(p.child);
    StepIsLocal(r, p, before, before);
    if rank(p.child) <= k {
      StepIsLocal(r, p, dec, before);
      assert Quiet(r, p, dec) && after == before;
    }
    forall c | rank(c) <= k ensures SameAt(c, dec, after) {
      assert SameAt(c, dec, before) && SameAt(c, before, after);
    }
    forall q | q in ps + [p] && rank(q.child) <= k + 1 ensures Quiet(r, q, after) {
      if q.child == p.child {
        SameEnds(r, p, q, after);
      } else if after != before {
        assert rank(p.child) > k && rank(q.parent) < rank(q.child);
        StepIsLocal(r, q, before, after);
      }
    }
  }

  lemma SameEnds(r: Rules, p: Pair, q: Pair, d: Dec)
    requires p.child == q.child && p.parent == q.parent
    ensures Quiet(r, p, d) == Quiet(r, q, d)
  {
  }

  /** One sweep extends a settled region by one layer. */
  lemma {:induction false} SweepSettlesALayer(r: Rules, ps: seq<Pair>, n: nat, dec: Dec, rank: ColumnRef -> nat, k: nat)
    requires n <= |ps| && OneParent(ps) && Acyclic(ps, rank)
    requires SettledTo(r, ps, dec, rank, k)
    ensures SameBelow(dec, PropagateSweep(r, ps[..n], dec).dec, rank, k)
    ensures SettledTo(r, ps[..n], PropagateSweep(r, ps[..n], dec).dec, rank, k + 1)
  {
    hide Quiet, PropagatePair;
    if n > 0 {
      SweepSettlesALayer(r, ps, n - 1, dec, rank, k);
      assert ps[..n][..n - 1] == ps[..n - 1] && ps[..n] == ps[..n - 1] + [ps[n - 1]];
      assert forall q :: q in ps[..n] ==> q in ps;
      StepSettles(r, ps[..n - 1], ps[n - 1], dec, PropagateSweep(r, ps[..n - 1], dec).dec, rank, k);
    }
  }

  lemma {:induction false} RoundsSettle(r: Rules, ps: seq<Pair>, dec: Dec, rank: ColumnRef -> nat, depth: nat, k: nat, n: nat)
    requires OneParent(ps) && Layered(ps, rank, depth)
    requires k <= depth < k + n
    requires SettledTo(r, ps, dec, rank, k)
    ensures !PropagateRounds(r, ps, dec, n).changed
    decreases n
  {
    var s := PropagateSweep(r, ps, dec);
    if s.changed {
      if k == depth {
        SettledSweepIsQuiet(r, ps, dec);
      } else {
        SweepSettlesALayer(r, ps, |ps|, dec, rank, k);
        assert ps[..|ps|] == ps;
        RoundsSettle(r, ps, s.dec, rank, depth, k + 1, n - 1);
      }
    }
  }

  lemma {:induction false} SettledSweepIsQuiet(r: Rules, ps: seq<Pair>, dec: Dec)
    requires forall p :: p in ps ==> Quiet(r, p, dec)
    ensures PropagateSweep(r, ps, dec) == SweepResult(dec, false)
  {
    if ps != [] {
      SettledSweepIsQuiet(r, ps[..|ps| - 1], dec);
      StepIsLocal(r, ps[|ps| - 1], dec, dec);
    }
  }

  /** foreignKeys: with one parent a child and no chain longer than the number of
      keys, the capped loop ends quietly, so every edge agrees. */
  lemma {:induction false} ForeignKeysConverges(r: Rules, fks: seq<ForeignKey>, dec: Dec, rank: ColumnRef -> nat)
    requires OneParent(AllPairs(fks)) && Layered(AllPairs(fks), rank, |fks|)
    ensures !PropagateRounds(r, AllPairs(fks), dec, |fks| + 1).changed
    ensures forall p :: p in AllPairs(fks) ==> Agrees(r, p, PropagateRounds(r, AllPairs(fks), dec, |fks| + 1).dec)
  {
    RoundsSettle(r, AllPairs(fks), dec, rank, |fks|, 0, |fks| + 1);
    QuietExitAgrees(r, AllPairs(fks), dec, |fks| + 1);
  }

  // ---------- single-column keys: acyclic is enough ----------

  predicate IsChild(ps: seq<Pair>, c: ColumnRef) {
    exists p :: p in ps && p.child == c
  }

  function Children(ps: seq<Pair>): set<ColumnRef> {
    set p | p in ps :: p.child
  }

  /** c and the children on the chain of parents above it. */
  ghost function Chain(ps: seq<Pair>, rank: ColumnRef -> nat, c: ColumnRef): (cs: set<ColumnRef>)
    requires Acyclic(ps, rank)
    ensures cs <= Children(ps)
    ensures forall x :: x in cs ==> rank(x) <= rank(c)
    decreases rank(c)
  {
    if IsChild(ps, c) then
      var p :| p in ps && p.child == c;
      {c} + Chain(ps, rank, p.parent)
    else {}
  }

  lemma ChainStep(ps: seq<Pair>, rank: ColumnRef -> nat, p: Pair)
    requires Acyclic(ps, rank) && OneParent(ps) && p in ps
    ensures |Chain(ps, rank, p.child)| == |Chain(ps, rank, p.parent)| + 1
  {
    assert IsChild(ps, p.child);
    assert p.child !in Chain(ps, rank, p.parent);
    assert Chain(ps, rank, p.child) == {p.child} + Chain(ps, rank, p.parent);
  }

  lemma {:induction false} FewChildren(ps: seq<Pair>)
    ensures |Children(ps)| <= |ps|
  {
    if ps != [] {
      var most := ps[..|ps| - 1];
      FewChildren(most);
      assert ps == most + [ps[|ps| - 1]];
      assert Children(ps) == Children(most) + {ps[|ps| - 1].child};
    }
  }

  /** Single-column keys that form no cycle converge however deep the chain and
      whatever order the keys come in. */
  lemma {:induction false} SingleColumnForeignKeysConverge(r: Rules, fks: seq<ForeignKey>, dec: Dec, rank: ColumnRef -> nat)
    requires SingleColumn(fks) && OneParent(AllPairs(fks)) && Acyclic(AllPairs(fks), rank)
    ensures !PropagateRounds(r, AllPairs(fks), dec, |fks| + 1).changed
    ensures forall p :: p in AllPairs(fks) ==> Agrees(r, p, PropagateRounds(r, AllPairs(fks), dec, |fks| + 1).dec)
  {
    var ps := AllPairs(fks);
    ghost var depth: ColumnRef -> nat := c => |Chain(ps, rank, c)|;
    forall p | p in ps ensures depth(p.parent) < depth(p.child) <= |fks| {
      ChainStep(ps, rank, p);
      FewChildren(ps);
      SubsetIsSmaller(Chain(ps, rank, p.child), Children(ps));
      SingleColumnPairCount(fks);
    }
    ForeignKeysConverges(r, fks, dec, depth);
  }

  // ---------- keyChildren ----------

  /** Checked pairs, each one's child the next one's parent, no column a child twice. */
  ghost predicate IsChain(ps: seq<Pair>, chain: seq<Pair>) {
    && (forall i :: 0 <= i < |chain| ==> chain[i] in ps && chain[i].checked)
    && (forall i :: 0 < i < |chain| ==> chain[i].parent == chain[i - 1].child)
    && (forall i, j :: 0 <= i < j < |chain| ==> chain[i].child != chain[j].child)
  }

  /** No chain of pairs is longer than n; cycles are no longer than their columns. */
  ghost predicate ShortChains(ps: seq<Pair>, n: nat) {
    forall chain: seq<Pair> :: IsChain(ps, chain) ==> |chain| <= n
  }

  predicate Exempt(d: Dec, c: ColumnRef) {
    c in d && d[c].neverMask && d[c].keyExempt
  }

  predicate Fires(p: Pair, d: Dec) {
    ReconcilePair(p, d).changed
  }

  /** The exemption came to c down a chain of at least m pairs. */
  ghost predicate ReachedBy(ps: seq<Pair>, d: Dec, c: ColumnRef, m: nat) {
    exists chain: seq<Pair> :: IsChain(ps, chain) && |chain| >= m && chain != [] && chain[|chain| - 1].child == c && AllNever(chain, d)
  }

  predicate AllNever(chain: seq<Pair>, d: Dec) {
    forall i :: 0 <= i < |chain| ==> chain[i].child in d && d[chain[i].child].neverMask
  }

  lemma FireExtends(ps: seq<Pair>, p: Pair, d: Dec, m: nat)
    requires p in ps && Fires(p, d) && (m == 0 || ReachedBy(ps, d, p.parent, m))
    ensures ReachedBy(ps, ReconcilePair(p, d).dec, p.child, m + 1)
  {
    var after := ReconcilePair(p, d).dec;
    if m == 0 {
      assert IsChain(ps, [p]) && AllNever([p], after);
    } else {
      var chain: seq<Pair> :| IsChain(ps, chain) && |chain| >= m && chain != [] && chain[|chain| - 1].child == p.parent && AllNever(chain, d);
      assert IsChain(ps, chain + [p]) && AllNever(chain + [p], after);
    }
  }

  /** What later steps leave alone: an exemption, a chain already there, a settled pair. */
  lemma LaterKeeps(ps: seq<Pair>, d: Dec, d': Dec)
    requires ExemptsOnly(ps, d, d')
    ensures forall c :: Exempt(d, c) ==> Exempt(d', c)
    ensures forall c, m: nat :: ReachedBy(ps, d, c, m) ==> ReachedBy(ps, d', c, m)
    ensures forall p: Pair :: Exempt(d, p.parent) && !Fires(p, d) ==> !Fires(p, d')
  {
    forall c, m: nat | ReachedBy(ps, d, c, m) ensures ReachedBy(ps, d', c, m) {
      var chain: seq<Pair> :| IsChain(ps, chain) && |chain| >= m && chain != [] && chain[|chain| - 1].child == c && AllNever(chain, d);
      assert AllNever(chain, d');
    }
  }

  /** What the sweep before left: pairs of exemptions it started from are settled, and
      each exemption it granted came down a chain of at least m pairs. */
  ghost predicate Follows(ps: seq<Pair>, prev: Dec, d: Dec, m: nat) {
    && (forall p :: p in ps && Exempt(prev, p.parent) ==> !Fires(p, d))
    && (forall c :: Exempt(d, c) && !Exempt(prev, c) ==> m == 0 || ReachedBy(ps, d, c, m))
  }

  /** One sweep later every chain is one pair longer. */
  lemma {:induction false} SweepLengthensChains(ps: seq<Pair>, n: nat, prev: Dec, d: Dec, m: nat)
    requires n <= |ps| && Follows(ps, prev, d, m)
    ensures var s := ReconcileSweep(ps[..n], d);
      && ExemptsOnly(ps, d, s.dec)
      && Follows(ps[..n], d, s.dec, 0)
      && (forall c :: Exempt(s.dec, c) && !Exempt(d, c) ==> ReachedBy(ps, s.dec, c, m + 1))
      && (s.changed ==> exists c :: Exempt(s.dec, c) && !Exempt(d, c))
  {
    ReconcileSweepExemptsOnly(ps, ps[..n], d);
    if n > 0 {
      SweepLengthensChains(ps, n - 1, prev, d, m);
      assert ps[..n][..n - 1] == ps[..n - 1];
      assert ps[..n] == ps[..n - 1] + [ps[n - 1]];
      var before := ReconcileSweep(ps[..n - 1], d).dec;
      LaterKeeps(ps, d, before);
      OneStepSettles(ps[..n - 1], ps[n - 1], d, before);
      OneStepLengthens(ps, ps[n - 1], prev, d, before, m);
    }
  }

  lemma FiredAtTheEnd(ps: seq<Pair>, p: Pair, prev: Dec, d: Dec, before: Dec, m: nat)
    requires p in ps && Follows(ps, prev, d, m) && Fires(p, before) && (Exempt(d, p.parent) ==> Fires(p, d))
    requires forall c, k: nat :: ReachedBy(ps, d, c, k) ==> ReachedBy(ps, before, c, k)
    requires forall c :: Exempt(before, c) && !Exempt(d, c) ==> ReachedBy(ps, before, c, m + 1)
    ensures ReachedBy(ps, ReconcilePair(p, before).dec, p.child, m + 1)
  {
    hide ReachedBy;
    if Exempt(d, p.parent) {
      FireExtends(ps, p, before, m);
    } else {
      FireExtends(ps, p, before, m + 1);
      LongerReaches(ps, ReconcilePair(p, before).dec, p.child, m + 2, m + 1);
    }
  }

  lemma OneStepSettles(ps: seq<Pair>, p: Pair, d: Dec, before: Dec)
    requires Follows(ps, d, before, 0) && forall c :: Exempt(d, c) ==> Exempt(before, c)
    ensures Follows(ps + [p], d, ReconcilePair(p, before).dec, 0)
  {
    hide ReachedBy, ExemptsOnly;
    ReconcileStepExemptsOnly(ps + [p], p, before);
    LaterKeeps(ps + [p], before, ReconcilePair(p, before).dec);
    assert !Fires(p, ReconcilePair(p, before).dec);
  }

  lemma OneStepLengthens(ps: seq<Pair>, p: Pair, prev: Dec, d: Dec, before: Dec, m: nat)
    requires p in ps && Follows(ps, prev, d, m) && ExemptsOnly(ps, d, before)
    requires forall c :: Exempt(before, c) && !Exempt(d, c) ==> ReachedBy(ps, before, c, m + 1)
    ensures var after := ReconcilePair(p, before).dec;
      && (forall c :: Exempt(after, c) && !Exempt(d, c) ==> ReachedBy(ps, after, c, m + 1))
      && (Fires(p, before) ==> Exempt(after, p.child) && !Exempt(d, p.child))
      && (forall c :: Exempt(before, c) ==> Exempt(after, c))
  {
    hide ReachedBy, ExemptsOnly, Follows, IsKeyFamily;
    ReconcileStepExemptsOnly(ps, p, before);
    LaterKeeps(ps, d, before);
    LaterKeeps(ps, before, ReconcilePair(p, before).dec);
    if Fires(p, before) {
      FiredAtTheEnd(ps, p, prev, d, before, m);
    }
  }

  lemma LongerReaches(ps: seq<Pair>, d: Dec, c: ColumnRef, m: nat, k: nat)
    requires k <= m && ReachedBy(ps, d, c, m)
    ensures ReachedBy(ps, d, c, k)
  {
  }

  lemma SweepFollows(ps: seq<Pair>, prev: Dec, d: Dec, m: nat)
    requires Follows(ps, prev, d, m)
    ensures var s := ReconcileSweep(ps, d);
      Follows(ps, d, s.dec, m + 1) && (s.changed ==> !ShortChains(ps, m))
  {
    hide ReachedBy, ReconcileSweep, ShortChains, ExemptsOnly, Exempt, Fires;
    SweepLengthensChains(ps, |ps|, prev, d, m);
    assert ps[..|ps|] == ps;
    var s := ReconcileSweep(ps, d);
    if s.changed {
      var c :| Exempt(s.dec, c) && !Exempt(d, c);
      ReachedIsLong(ps, s.dec, c, m + 1);
    }
  }

  /** n sweeps that each changed something end on a chain n pairs longer. */
  lemma {:induction false} RoundsLeaveAChain(ps: seq<Pair>, prev: Dec, d: Dec, m: nat, n: nat)
    requires n > 0 && Follows(ps, prev, d, m) && ReconcileRounds(ps, d, n).changed
    ensures !ShortChains(ps, m + n - 1)
    decreases n
  {
    hide Follows, ShortChains;
    SweepFollows(ps, prev, d, m);
    if n > 1 {
      RoundsLeaveAChain(ps, d, ReconcileSweep(ps, d).dec, m + 1, n - 1);
    }
  }

  lemma ReachedIsLong(ps: seq<Pair>, d: Dec, c: ColumnRef, m: nat)
    requires m > 0 && ReachedBy(ps, d, c, m)
    ensures !ShortChains(ps, m - 1)
  {
  }

  lemma RoundsEndQuietly(ps: seq<Pair>, dec: Dec, n: nat)
    requires n > 0 && ShortChains(ps, n - 1)
    ensures !ReconcileRounds(ps, dec, n).changed
  {
    if ReconcileRounds(ps, dec, n).changed {
      assert Follows(ps, map[], dec, 0);
      RoundsLeaveAChain(ps, map[], dec, 0, n);
    }
  }

  /** A loop given one more sweep and quiet at the end left nothing for it to do. */
  lemma {:induction false} OneRoundToSpare(ps: seq<Pair>, dec: Dec, n: nat)
    requires !ReconcileRounds(ps, dec, n + 1).changed
    ensures ReconcileRounds(ps, dec, n).dec == ReconcileRounds(ps, dec, n + 1).dec
    decreases n
  {
    var s := ReconcileSweep(ps, dec);
    if n == 0 {
      QuietReconcileSweep(ps, dec);
    } else if s.changed {
      OneRoundToSpare(ps, s.dec, n - 1);
    }
  }

  /** keyChildren: the loop ends quietly when no chain of pairs is longer than the number
      of keys, and leaves no exempt key with a masked scalar key-family child even when
      one is longer by one, cycles and every order of the keys included. */
  lemma {:induction false} KeyChildrenConverges(fks: seq<ForeignKey>, dec: Dec)
    ensures ShortChains(AllPairs(fks), |fks|) ==> !ReconcileRounds(AllPairs(fks), dec, |fks| + 1).changed
    ensures ShortChains(AllPairs(fks), |fks| + 1) ==>
      forall p :: p in AllPairs(fks) ==> ExemptionShared(p, ReconcileRounds(AllPairs(fks), dec, |fks| + 1).dec)
  {
    var ps := AllPairs(fks);
    if ShortChains(ps, |fks|) {
      RoundsEndQuietly(ps, dec, |fks| + 1);
    }
    if ShortChains(ps, |fks| + 1) {
      RoundsEndQuietly(ps, dec, |fks| + 2);
      OneRoundToSpare(ps, dec, |fks| + 1);
      QuietExitSharesExemption(ps, dec, |fks| + 2);
    }
  }

  lemma {:induction false} ChainChildren(ps: seq<Pair>, chain: seq<Pair>)
    requires IsChain(ps, chain)
    ensures |Children(chain)| == |chain| && Children(chain) <= Children(ps)
  {
    if chain != [] {
      var most, last := chain[..|chain| - 1], chain[|chain| - 1];
      ChainChildren(ps, most);
      assert chain == most + [last];
      assert Children(chain) == Children(most) + {last.child};
      assert last.child !in Children(most);
    }
  }

  /** Single-column keys always meet the condition, cycles included. */
  lemma {:induction false} SingleColumnChainsAreShort(fks: seq<ForeignKey>)
    requires SingleColumn(fks)
    ensures ShortChains(AllPairs(fks), |fks|)
  {
    var ps := AllPairs(fks);
    SingleColumnPairCount(fks);
    FewChildren(ps);
    forall chain: seq<Pair> | IsChain(ps, chain) ensures |chain| <= |fks| {
      ChainChildren(ps, chain);
      SubsetIsSmaller(Children(chain), Children(ps));
    }
  }

  lemma {:induction false} ChainClimbs(ps: seq<Pair>, rank: ColumnRef -> nat, depth: nat, chain: seq<Pair>)
    requires Layered(ps, rank, depth) && IsChain(ps, chain) && chain != []
    ensures |chain| <= rank(chain[|chain| - 1].child) <= depth
  {
    if |chain| > 1 {
      ChainClimbs(ps, rank, depth, chain[..|chain| - 1]);
    }
  }

  /** And so do keys, composite ones too, whose pairs can be layered that deep. */
  lemma {:induction false} LayeredChainsAreShort(ps: seq<Pair>, rank: ColumnRef -> nat, depth: nat)
    requires Layered(ps, rank, depth)
    ensures ShortChains(ps, depth)
  {
    forall chain: seq<Pair> | IsChain(ps, chain) ensures |chain| <= depth {
      if chain != [] {
        ChainClimbs(ps, rank, depth, chain);
      }
    }
  }

  // ---------- where the cap is what stops the loop ----------

  /** A child of two masked keys that no other key decides, of different categories
      its type accepts, never settles: every sweep moves it, however many there are. */
  lemma DisagreeingParentsNeverSettle(r: Rules, ps: seq<Pair>, dec: Dec, p: Pair, q: Pair, n: nat)
    requires p in ps && q in ps && p.child == q.child && p.child in dec
    requires !IsChild(ps, p.parent) && !IsChild(ps, q.parent)
    requires Overrides(r, dec, p.parent) && Overrides(r, dec, q.parent)
    requires dec[p.parent].category != dec[q.parent].category
    requires !dec[p.child].col.generated && !dec[p.child].unmasked
    requires Accepted(r.pack, dec[p.parent].category, dec[p.child].col.family)
    requires Accepted(r.pack, dec[q.parent].category, dec[p.child].col.family)
    ensures PropagateRounds(r, ps, dec, n).changed
  {
    if !PropagateRounds(r, ps, dec, n).changed {
      var end := PropagateRounds(r, ps, dec, n).dec;
      PropagateRoundsMaskMore(r, ps, dec, n);
      assert Raises(dec[p.child], end[p.child]) && end[p.child].unmasked == dec[p.child].unmasked;
      QuietExitAgrees(r, ps, dec, n);
    }
  }

  /** The pairs along a chain of columns, each the parent of the next, taken child first. */
  function ChildFirst(cols: seq<ColumnRef>): (ps: seq<Pair>)
    requires cols != []
    ensures |ps| == |cols| - 1
  {
    seq(|cols| - 1, i requires 0 <= i < |cols| - 1 => Pair(cols[|cols| - 2 - i], cols[|cols| - 1 - i], true))
  }

  /** The first column is exempt, and the exemption went s columns further. */
  function Stage(cols: seq<ColumnRef>, exempt: Work, masked: Work, s: nat): Dec
    requires s < |cols|
  {
    map c | c in cols ::
      if c == cols[0] then exempt
      else if c in cols[..s + 1] then masked.(neverMask := true, keyExempt := true)
      else masked
  }

  /** An exempt root, and columns below it that the exemption would reach. */
  predicate ExemptRoot(exempt: Work, masked: Work) {
    exempt.neverMask && exempt.keyExempt && masked.Masked() && IsKeyFamily(masked.col.family) && !masked.col.isArray
  }

  lemma StageAt(cols: seq<ColumnRef>, exempt: Work, masked: Work, s: nat, i: nat)
    requires Distinct(cols) && ExemptRoot(exempt, masked) && s < |cols| && i < |cols|
    ensures cols[i] in Stage(cols, exempt, masked, s)
    ensures var w := Stage(cols, exempt, masked, s)[cols[i]];
      if i <= s then w.neverMask && w.keyExempt else w == masked
    ensures 0 < i <= s ==> Stage(cols, exempt, masked, s)[cols[i]] == masked.(neverMask := true, keyExempt := true)
  {
    if i <= s {
      assert cols[..s + 1][i] == cols[i];
    }
  }

  lemma StageStep(cols: seq<ColumnRef>, exempt: Work, masked: Work, s: nat, i: nat)
    requires Distinct(cols) && ExemptRoot(exempt, masked) && s < |cols| && i < |cols| - 1
    ensures ReconcilePair(Pair(cols[i], cols[i + 1], true), Stage(cols, exempt, masked, s)) ==
      if i == s then SweepResult(Stage(cols, exempt, masked, s + 1), true)
      else SweepResult(Stage(cols, exempt, masked, s), false)
  {
    StageAt(cols, exempt, masked, s, i);
    StageAt(cols, exempt, masked, s, i + 1);
    if i == s {
      assert cols[..s + 2] == cols[..s + 1] + [cols[s + 1]];
      assert Stage(cols, exempt, masked, s)[cols[i + 1] := masked.(neverMask := true, keyExempt := true)]
        == Stage(cols, exempt, masked, s + 1);
    }
  }

  /** Child first, a sweep moves the exemption one column down. */
  lemma {:induction false} SweepMovesOneDown(cols: seq<ColumnRef>, exempt: Work, masked: Work, s: nat, k: nat)
    requires Distinct(cols) && ExemptRoot(exempt, masked) && s < |cols| && k < |cols|
    ensures ReconcileSweep(ChildFirst(cols)[..k], Stage(cols, exempt, masked, s)) ==
      if |cols| - 2 - k < s < |cols| - 1 then SweepResult(Stage(cols, exempt, masked, s + 1), true)
      else SweepResult(Stage(cols, exempt, masked, s), false)
  {
    hide Stage, ReconcilePair;
    if k > 0 {
      SweepMovesOneDown(cols, exempt, masked, s, k - 1);
      assert ChildFirst(cols)[..k][..k - 1] == ChildFirst(cols)[..k - 1];
      StageStep(cols, exempt, masked, if |cols| - 1 - k < s < |cols| - 1 then s + 1 else s, |cols| - 1 - k);
    }
  }

  lemma {:induction false} RoundsMoveDown(cols: seq<ColumnRef>, exempt: Work, masked: Work, s: nat, n: nat)
    requires Distinct(cols) && ExemptRoot(exempt, masked) && s < |cols|
    ensures ReconcileRounds(ChildFirst(cols), Stage(cols, exempt, masked, s), n) ==
      if s + n < |cols| then SweepResult(Stage(cols, exempt, masked, s + n), true)
      else SweepResult(Stage(cols, exempt, masked, |cols| - 1), false)
    decreases n
  {
    hide Stage, ChildFirst;
    if n > 0 {
      SweepMovesOneDown(cols, exempt, masked, s, |cols| - 1);
      assert ChildFirst(cols)[..|cols| - 1] == ChildFirst(cols);
      if s < |cols| - 1 {
        RoundsMoveDown(cols, exempt, masked, s + 1, n - 1);
      }
    }
  }

  lemma NotSharedBelow(cols: seq<ColumnRef>, exempt: Work, masked: Work, s: nat)
    requires Distinct(cols) && ExemptRoot(exempt, masked) && s + 1 < |cols|
    ensures exists p :: p in ChildFirst(cols) && !ExemptionShared(p, Stage(cols, exempt, masked, s))
  {
    StageAt(cols, exempt, masked, s, s);
    StageAt(cols, exempt, masked, s, s + 1);
    var p := ChildFirst(cols)[|cols| - 2 - s];
    assert p in ChildFirst(cols) && p == Pair(cols[s], cols[s + 1], true);
  }

  /** n sweeps down a chain taken child first: quiet if and only if it has fewer than n
      pairs, shared with all of them if and only if it has at most n. */
  lemma {:induction false} SweepsDownAChain(cols: seq<ColumnRef>, exempt: Work, masked: Work, n: nat)
    requires Distinct(cols) && ExemptRoot(exempt, masked) && cols != []
    ensures var out := ReconcileRounds(ChildFirst(cols), Stage(cols, exempt, masked, 0), n);
      && (!out.changed <==> |cols| - 1 < n)
      && ((forall p :: p in ChildFirst(cols) ==> ExemptionShared(p, out.dec)) <==> |cols| - 1 <= n)
  {
    hide Stage, ChildFirst, ReconcileRounds, ExemptionShared;
    RoundsMoveDown(cols, exempt, masked, 0, n);
    if |cols| - 1 <= n {
      RoundsMoveDown(cols, exempt, masked, 0, n + 1);
      OneRoundToSpare(ChildFirst(cols), Stage(cols, exempt, masked, 0), n);
      QuietExitSharesExemption(ChildFirst(cols), Stage(cols, exempt, masked, 0), n + 1);
    } else {
      NotSharedBelow(cols, exempt, masked, n);
    }
  }

  /** The two thresholds are exact: down a chain taken child first the loop ends quietly
      if and only if the chain has at most as many pairs as there are keys, and shares
      the exemption with all of it if and only if it has at most one more. */
  lemma {:induction false} TheCapIsTight(fks: seq<ForeignKey>, cols: seq<ColumnRef>, exempt: Work, masked: Work)
    requires Distinct(cols) && ExemptRoot(exempt, masked) && cols != [] && AllPairs(fks) == ChildFirst(cols)
    ensures var out := ReconcileRounds(AllPairs(fks), Stage(cols, exempt, masked, 0), |fks| + 1);
      && (!out.changed <==> |cols| - 1 <= |fks|)
      && ((forall p :: p in AllPairs(fks) ==> ExemptionShared(p, out.dec)) <==> |cols| - 1 <= |fks| + 1)
  {
    hide Stage, ChildFirst, ReconcileRounds, ExemptionShared, AllPairs;
    SweepsDownAChain(cols, exempt, masked, |fks| + 1);
  }

  /** The column pairs of one composite key that references its own table, child first. */
  function SelfKey(t: TableRef, a: string, b: string, c: string, d: string): ForeignKey {
    ForeignKey(t, [d, c, b], t, [c, b, a], true, false)
  }

  /** One composite key whose chain is three pairs long outruns keyChildren's two
      sweeps: d is left masked although c, which it references, is exempt. */
  lemma CompositeKeyOutrunsTheCap(t: TableRef, exempt: Work, masked: Work)
    requires ExemptRoot(exempt, masked)
    ensures var fks := [SelfKey(t, "a", "b", "c", "d")];
      var dec := map[ColumnRef(t, "a") := exempt, ColumnRef(t, "b") := masked,
                     ColumnRef(t, "c") := masked, ColumnRef(t, "d") := masked];
      var out := ReconcileRounds(AllPairs(fks), dec, |fks| + 1);
      && out.changed
      && !ExemptionShared(Pair(ColumnRef(t, "c"), ColumnRef(t, "d"), true), out.dec)
  {
    var cols := [ColumnRef(t, "a"), ColumnRef(t, "b"), ColumnRef(t, "c"), ColumnRef(t, "d")];
    SelfKeyIsAChain(t, "a", "b", "c", "d");
    FourColumns(cols[0], cols[1], cols[2], cols[3], exempt, masked);
    hide Stage, ChildFirst, AllPairs, SelfKey, ReconcileRounds;
    RoundsMoveDown(cols, exempt, masked, 0, 2);
    StageAt(cols, exempt, masked, 2, 2);
    StageAt(cols, exempt, masked, 2, 3);
  }

  lemma SelfKeyIsAChain(t: TableRef, a: string, b: string, c: string, d: string)
    ensures AllPairs([SelfKey(t, a, b, c, d)]) == ChildFirst([ColumnRef(t, a), ColumnRef(t, b), ColumnRef(t, c), ColumnRef(t, d)])
  {
    var fk := SelfKey(t, a, b, c, d);
    assert [fk][..0] == [];
    assert AllPairs([fk]) == PairsTo(fk, 3);
  }

  lemma FourColumns(a: ColumnRef, b: ColumnRef, c: ColumnRef, d: ColumnRef, exempt: Work, masked: Work)
    requires Distinct([a, b, c, d])
    ensures Stage([a, b, c, d], exempt, masked, 0) == map[a := exempt, b := masked, c := masked, d := masked]
  {
    var cols := [a, b, c, d];
    var dec := map[a := exempt, b := masked, c := masked, d := masked];
    assert cols[..1] == [a] && cols[0] != cols[1] && cols[0] != cols[2] && cols[0] != cols[3];
    assert Stage(cols, exempt, masked, 0).Keys == dec.Keys;
    forall x | x in dec ensures Stage(cols, exempt, masked, 0)[x] == dec[x] {
    }
  }
}
