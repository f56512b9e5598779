/** Which columns the passes before the propagation mask, said of the decisions base() left,
    and that they end masked (classify.go:255-300, 1887-2212, 2540-2571 and 3121-3144). */
module MaskedColumns {
  import opened Common
  import opened Decisions
  import opened RaisingPasses
  import opened RaisedColumns
  import opened JoinPairing
  import opened UnknownSweep
  import CR = ClassifyRun

  /** The decisions after every pass before unknownColumnsBesideCertain. */
  function Neighboured(ts: seq<Table>, order: seq<ColumnRef>, base: Dec): Dec {
    RaiseEach(RaiseGuessedPhone, order, NeighbourPass(ts, ByteaPass(ts, base)))
  }

  lemma NeighbouredMasksMore(ts: seq<Table>, order: seq<ColumnRef>, base: Dec)
    ensures MasksMore(base, Neighboured(ts, order, base))
    ensures NoneSwept(base) ==> NoneSwept(Neighboured(ts, order, base))
  {
    ByteaPassMasksMore(ts, base);
    NeighbourPassMasksMore(ts, ByteaPass(ts, base));
    RaiseEachMasksMore(RaiseGuessedPhone, order, NeighbourPass(ts, ByteaPass(ts, base)));
    MasksMoreTransitive(base, ByteaPass(ts, base), NeighbourPass(ts, ByteaPass(ts, base)));
    MasksMoreTransitive(base, NeighbourPass(ts, ByteaPass(ts, base)), Neighboured(ts, order, base));
  }

  // ---------- the three raising passes together ----------

  /** c is a column of the k-th table and of the run. */
  predicate Sits(ts: seq<Table>, order: seq<ColumnRef>, base: Dec, k: nat, c: ColumnRef) {
    OwnColumns(ts) && k < |ts| && c in Columns(ts[k]) && c in base && c in order
  }

  predicate GuessedBesideLikely(ts: seq<Table>, base: Dec, k: nat, c: ColumnRef) {
    k < |ts| && c in base && GuessedPhone(base[c]) && AnotherLikely(ts[k], base, c)
  }

  /** The decision the three passes leave on a column, read off the decisions they began with. */
  lemma NeighbouredIff(ts: seq<Table>, order: seq<ColumnRef>, base: Dec, k: nat, c: ColumnRef)
    requires Sits(ts, order, base, k, c)
    ensures var d := Neighboured(ts, order, base);
      && d.Keys == base.Keys
      && d[c] == (if ByteaBesideCertain(ts, base, c) then base[c].(category := Binary, confidence := CONF_POSSIBLE)
                  else if LowBesideLikely(ts, base, c) then base[c].(confidence := CONF_POSSIBLE, source := ByNeighbour)
                  else if GuessedBesideLikely(ts, base, k, c) then base[c].(category := Phone, confidence := CONF_POSSIBLE)
                  else base[c]).(tableHasLikely := AnotherLikely(ts[k], base, c))
  {
    hide Neighboured, ByteaBesideCertain, LowBesideLikely, AnotherLikely, OwnColumns, Columns;
    var b := ByteaPass(ts, base);
    NeighbouredKeys(ts, order, base);
    ByteaPassIff(ts, base, c);
    AnotherLikelyStays(ts, base, k, c);
    LowBesideLikelyStays(ts, base, c);
    NeighbourPassIff(ts, b, c);
    NeighbourPassNotes(ts, b, k, c);
    GuessedLast(ts, order, base, k, c);
    BesideMeans(ts, base, c);
    BesideMeans(ts, b, c);
  }

  lemma NeighbouredKeys(ts: seq<Table>, order: seq<ColumnRef>, base: Dec)
    ensures Neighboured(ts, order, base).Keys == ByteaPass(ts, base).Keys == base.Keys
  {
    NeighbouredMasksMore(ts, order, base);
    ByteaPassMasksMore(ts, base);
  }

  lemma GuessedLast(ts: seq<Table>, order: seq<ColumnRef>, base: Dec, k: nat, c: ColumnRef)
    requires Sits(ts, order, base, k, c)
    ensures var noted, d := NeighbourPass(ts, ByteaPass(ts, base)), Neighboured(ts, order, base);
      c in noted && c in d && d[c] == if GuessedPhone(noted[c]) && AnotherLikely(ts[k], ByteaPass(ts, base), c)
                                      then noted[c].(category := Phone, confidence := CONF_POSSIBLE) else noted[c]
  {
    ByteaPassMasksMore(ts, base);
    GuessedPhonesIff(ts, order, ByteaPass(ts, base), k, c);
  }

  lemma BesideMeans(ts: seq<Table>, dec: Dec, c: ColumnRef)
    ensures ByteaBesideCertain(ts, dec, c) ==> c in dec && dec[c].confidence < CONF_POSSIBLE && !dec[c].neverMask
    ensures LowBesideLikely(ts, dec, c) ==> c in dec && dec[c].confidence == CONF_LOW && !dec[c].neverMask
  {
  }

  lemma AnotherLikelyStays(ts: seq<Table>, base: Dec, k: nat, c: ColumnRef)
    requires k < |ts|
    ensures AnotherLikely(ts[k], ByteaPass(ts, base), c) <==> AnotherLikely(ts[k], base, c)
  {
    ByteaPassMasksMore(ts, base);
    forall x | x in base ensures (ByteaPass(ts, base)[x].confidence >= CONF_LIKELY) == (base[x].confidence >= CONF_LIKELY) {
      ByteaLevels(ts, base, x);
    }
  }

  lemma LowBesideLikelyStays(ts: seq<Table>, base: Dec, c: ColumnRef)
    requires c in base
    ensures LowBesideLikely(ts, ByteaPass(ts, base), c) <==> LowBesideLikely(ts, base, c) && !ByteaBesideCertain(ts, base, c)
  {
    hide ByteaBesideCertain;
    ByteaPassIff(ts, base, c);
    BesideMeans(ts, base, c);
    forall t ensures SomeAtLeast(CONF_LIKELY, Columns(t), ByteaPass(ts, base)) <==> SomeAtLeast(CONF_LIKELY, Columns(t), base) {
      LikelyUnmoved(ts, base, Columns(t));
    }
    hide SomeAtLeast, Columns;
  }

  lemma LikelyUnmoved(ts: seq<Table>, base: Dec, cols: seq<ColumnRef>)
    ensures SomeAtLeast(CONF_LIKELY, cols, ByteaPass(ts, base)) <==> SomeAtLeast(CONF_LIKELY, cols, base)
  {
    ByteaPassMasksMore(ts, base);
    forall x | x in base ensures (ByteaPass(ts, base)[x].confidence >= CONF_LIKELY) == (base[x].confidence >= CONF_LIKELY) {
      ByteaLevels(ts, base, x);
    }
  }

  // ---------- the sweep beside a certain person ----------

  /** A column of the table is certain, and of a category that tells who somebody is. */
  predicate HoldsAPerson(t: Table, base: Dec) {
    exists x :: x in Columns(t) && x in base && base[x].confidence == CONF_CERTAIN
      && base[x].category !in {CatNone, FreeText, Binary, SemiStruct, DerivedText}
  }

  predicate AllRun(order: seq<ColumnRef>, base: Dec) {
    forall c :: c in base ==> c in order
  }

  lemma CertainUnmoved(ts: seq<Table>, order: seq<ColumnRef>, base: Dec, k: nat, c: ColumnRef)
    requires Sits(ts, order, base, k, c)
    ensures c in Neighboured(ts, order, base)
    ensures CertainPerson(Neighboured(ts, order, base)[c]) <==> CertainPerson(base[c])
  {
    NeighbouredIff(ts, order, base, k, c);
    BesideMeans(ts, base, c);
  }

  lemma PersonShapedIff(ts: seq<Table>, order: seq<ColumnRef>, base: Dec, k: nat)
    requires OwnColumns(ts) && k < |ts| && AllRun(order, base)
    ensures PersonShaped(Columns(ts[k]), Neighboured(ts, order, base)) <==> HoldsAPerson(ts[k], base)
  {
    hide Neighboured, OwnColumns, Columns;
    var cols := Columns(ts[k]);
    NeighbouredKeys(ts, order, base);
    forall x | x in cols && x in base
      ensures CertainPerson(Neighboured(ts, order, base)[x]) <==> CertainPerson(base[x])
    {
      CertainUnmoved(ts, order, base, k, x);
    }
    assert forall x :: x in cols ==> exists i :: 0 <= i < |cols| && cols[i] == x;
  }

  /** The sweep of a run: what it holds to, and that it passed no column by. */
  ghost predicate SweptRun(ts: seq<Table>, j: Joins, unique: set<ColumnRef>, noted: Dec, swept: Dec) {
    && SweepHolds(ts, j, unique, noted, swept)
    && forall k :: 0 <= k < |ts| && PersonShaped(Columns(ts[k]), noted) ==> AllAccounted(unique, swept, Columns(ts[k]))
  }

  /** Nothing keeps the sweep from a column that has no signal. */
  predicate OpenToSweep(t: Table, unique: set<ColumnRef>, base: Dec, swept: Dec, c: ColumnRef) {
    && c in base && c in swept && NoSignal(base[c]) && HoldsAPerson(t, base)
    && c !in unique && !base[c].col.spared && swept[c].refusedPartner.None?
  }

  lemma OpenIsRaised(ts: seq<Table>, order: seq<ColumnRef>, j: Joins, unique: set<ColumnRef>, base: Dec, swept: Dec, k: nat, c: ColumnRef)
    requires Sits(ts, order, base, k, c) && AllRun(order, base) && NoneSwept(base)
    requires SweptRun(ts, j, unique, Neighboured(ts, order, base), swept)
    requires OpenToSweep(ts[k], unique, base, swept, c)
    ensures c in swept && swept[c].confidence >= CONF_POSSIBLE && !swept[c].neverMask
  {
    hide SweepHolds, HoldsAPerson, BesideCertain, GuessedBesideLikely, LowBesideLikely, ByteaBesideCertain, OwnColumns, Columns, PersonShaped;
    hide Neighboured, AnotherLikely;
    var noted := Neighboured(ts, order, base);
    NeighbouredMasksMore(ts, order, base);
    NeighbouredIff(ts, order, base, k, c);
    PersonShapedIff(ts, order, base, k);
    BesideMeans(ts, base, c);
    SweptIsFreeText(ts, j, unique, noted, swept, c);
    assert Accounted(unique, swept, c);
  }

  // ---------- what must be masked, and what is ----------

  /** Evidence of its own, a neighbour's, or the sweep's. */
  predicate MustBeMasked(ts: seq<Table>, unique: set<ColumnRef>, base: Dec, swept: Dec, k: nat, c: ColumnRef) {
    && k < |ts| && c in base && c in swept
    && (|| (base[c].confidence >= CONF_POSSIBLE && !base[c].neverMask)
        || ByteaBesideCertain(ts, base, c)
        || LowBesideLikely(ts, base, c)
        || GuessedBesideLikely(ts, base, k, c)
        || swept[c].sweptNoSignal
        || OpenToSweep(ts[k], unique, base, swept, c))
  }

  /** Before the propagation exactly those columns stand at the threshold or above, without an exemption. */
  lemma MaskedBeforeKeysIff(ts: seq<Table>, order: seq<ColumnRef>, j: Joins, unique: set<ColumnRef>, base: Dec, swept: Dec, k: nat, c: ColumnRef)
    requires Sits(ts, order, base, k, c) && AllRun(order, base) && NoneSwept(base)
    requires SweptRun(ts, j, unique, Neighboured(ts, order, base), swept)
    ensures c in swept && (swept[c].confidence >= CONF_POSSIBLE && !swept[c].neverMask <==> MustBeMasked(ts, unique, base, swept, k, c))
    ensures swept[c].unmasked == base[c].unmasked
  {
    hide SweepHolds, HoldsAPerson, BesideCertain, LowBesideLikely, ByteaBesideCertain, OwnColumns, Columns, PersonShaped;
    hide Neighboured, AnotherLikely;
    NeighbouredMasksMore(ts, order, base);
    NeighbouredIff(ts, order, base, k, c);
    BesideMeans(ts, base, c);
    SweptIsFreeText(ts, j, unique, Neighboured(ts, order, base), swept, c);
    if OpenToSweep(ts[k], unique, base, swept, c) {
      OpenIsRaised(ts, order, j, unique, base, swept, k, c);
    }
  }

  /** The two ways a masked column may still be copied: an opt-out that stands, and a checked key's exemption. */
  predicate MayStayClear(prior: Option<Prior>, ps: seq<Pair>, end: Dec, c: ColumnRef) {
    c in end && (CR.OptOutHonoured(prior, c, end[c].col.fingerprint) || CR.KeyChildExempt(ps, end, c))
  }

  lemma StaysMasked(prior: Option<Prior>, ps: seq<Pair>, d: Dec, end: Dec, c: ColumnRef)
    requires c in d && c in end && CR.Held(prior, ps, d, end, c)
    requires d[c].confidence >= CONF_POSSIBLE && !d[c].neverMask && !d[c].unmasked
    ensures || (end[c].confidence >= CONF_POSSIBLE && !end[c].neverMask && !end[c].unmasked)
            || MayStayClear(prior, ps, end, c)
  {
    hide CR.OptOutHonoured, CR.KeyChildExempt;
  }

  /** Every column the passes find to mask is masked in the decisions handed on, or may stay clear. */
  ghost predicate RequiredAreMasked(ts: seq<Table>, order: seq<ColumnRef>, unique: set<ColumnRef>, prior: Option<Prior>,
                                    ps: seq<Pair>, base: Dec, swept: Dec, end: Dec, decisions: map<ColumnRef, Decision>) {
    forall k: nat, c :: Sits(ts, order, base, k, c) && MustBeMasked(ts, unique, base, swept, k, c) ==>
      c in decisions && (decisions[c].masked || MayStayClear(prior, ps, end, c))
  }

  lemma RequiredEndMasked(ts: seq<Table>, order: seq<ColumnRef>, j: Joins, unique: set<ColumnRef>, prior: Option<Prior>,
                          ps: seq<Pair>, base: Dec, swept: Dec, end: Dec, decisions: map<ColumnRef, Decision>)
    requires AllRun(order, base) && NoneSwept(base) && CR.NoneOptedOut(base)
    requires SweptRun(ts, j, unique, Neighboured(ts, order, base), swept)
    requires end.Keys == swept.Keys && forall c :: c in swept ==> CR.Held(prior, ps, swept, end, c)
    requires end.Keys <= decisions.Keys
    requires forall c :: c in end ==>
      decisions[c].masked == (end[c].confidence >= CONF_POSSIBLE && !end[c].neverMask && !end[c].unmasked)
    ensures RequiredAreMasked(ts, order, unique, prior, ps, base, swept, end, decisions)
  {
    hide Sits, SweptRun, Neighboured, CR.Held, MayStayClear;
    forall k: nat, c | Sits(ts, order, base, k, c) && MustBeMasked(ts, unique, base, swept, k, c)
      ensures c in decisions && (decisions[c].masked || MayStayClear(prior, ps, end, c))
    {
      hide MustBeMasked;
      MaskedBeforeKeysIff(ts, order, j, unique, base, swept, k, c);
      StaysMasked(prior, ps, swept, end, c);
    }
  }
}
