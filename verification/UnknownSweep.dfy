/** unknownColumnsBesideCertain's one visit, as a relation between decisions, and
    what a run of visits keeps (classify.go:2132-2212). */
module UnknownSweep {
  import opened Common
  import opened Decisions
  import opened JoinPairing
  import opened RaisingPasses

  function Swept(w: Work): Work {
    w.(category := FreeText, confidence := CONF_POSSIBLE, source := ByNeighbour, sweptNoSignal := true)
  }

  function SweepAll(s: set<ColumnRef>, d: Dec): (d': Dec)
    ensures d'.Keys == d.Keys
  {
    map c | c in d :: if c in s then Swept(d[c]) else d[c]
  }

  /** Both ends of a pair that cannot be raised together name each other. */
  function RefusePair(c: ColumnRef, partner: ColumnRef, d: Dec): Dec
    requires c in d
  {
    var near := d[c := d[c].(refusedPartner := Some(partner))];
    if partner in near then near[partner := near[partner].(refusedPartner := Some(c))] else near
  }

  /** The sweep's own gate: no decision, and no unique index (asked before fkPairs). */
  predicate Sweepable(unique: set<ColumnRef>, c: ColumnRef, d: Dec) {
    c in d && Undecided(d[c]) && c !in unique
  }

  predicate AllRaisable(d: Dec, s: set<ColumnRef>) {
    forall p :: p in s ==> PartnerRaisable(d, p)
  }

  /** A visit that raises c together with the least set its joins demand. */
  ghost predicate Together(j: Joins, c: ColumnRef, d: Dec, d': Dec) {
    exists s: set<ColumnRef> :: LeastClosed(j, c, s) && AllRaisable(d, s)
      && c in d && d' == if d[c].col.spared then d else SweepAll(s + {c}, d)
  }

  ghost predicate MustHold(j: Joins, c: ColumnRef, x: ColumnRef) {
    forall t: set<ColumnRef> :: ClosedAbove(j, c, t) ==> x in t
  }

  /** A visit that refuses: some column every closed set needs cannot be raised. */
  ghost predicate Refusal(j: Joins, c: ColumnRef, d: Dec, d': Dec) {
    exists b: ColumnRef :: MustHold(j, c, b) && !PartnerRaisable(d, b) && c in d && d' == RefusePair(c, b, d)
  }

  ghost predicate Visited(j: Joins, unique: set<ColumnRef>, c: ColumnRef, d: Dec, d': Dec) {
    if !Sweepable(unique, c, d) then d' == d else Together(j, c, d, d') || Refusal(j, c, d, d')
  }

  /** All a run of visits may have done to one column. */
  predicate OnlySwept(w: Work, w': Work) {
    && (w.refusedPartner.Some? ==> w'.refusedPartner.Some?)
    && (w' == w.(refusedPartner := w'.refusedPartner)
        || (Undecided(w) && w' == Swept(w).(refusedPartner := w'.refusedPartner)))
  }

  predicate AllOnlySwept(d: Dec, d': Dec) {
    d.Keys == d'.Keys && forall c :: c in d ==> OnlySwept(d[c], d'[c])
  }

  /** Every checked parent of a swept column is swept with it. */
  predicate SweptWithParents(j: Joins, d: Dec) {
    forall x, y :: x in d && d[x].sweptNoSignal && y in At(j.parents, x) ==> y in d && d[y].sweptNoSignal
  }

  predicate NoneSwept(d: Dec) {
    forall c :: c in d ==> !d[c].sweptNoSignal
  }

  /** A column the sweep has dealt with: decided, spared, refused aloud, or left to its unique index. */
  predicate Accounted(unique: set<ColumnRef>, d: Dec, c: ColumnRef) {
    c in d ==> !Undecided(d[c]) || c in unique || d[c].col.spared || d[c].refusedPartner.Some?
  }

  lemma SweepAllOnlySweeps(s: set<ColumnRef>, d: Dec)
    requires forall p :: p in s ==> PartnerRaisable(d, p)
    ensures AllOnlySwept(d, SweepAll(s, d))
    ensures forall x :: x in s ==> x in d && !Undecided(SweepAll(s, d)[x])
    ensures forall x :: x in d && x !in s ==> SweepAll(s, d)[x] == d[x]
  {
  }

  lemma RefusingOnlySweeps(w: Work, partner: Option<ColumnRef>)
    requires partner.Some?
    ensures OnlySwept(w, w.(refusedPartner := partner)) && w.(refusedPartner := partner).sweptNoSignal == w.sweptNoSignal
    ensures OnlySwept(w, w)
  {
  }

  lemma RefusalOnlySweeps(c: ColumnRef, b: ColumnRef, d: Dec)
    requires c in d
    ensures AllOnlySwept(d, RefusePair(c, b, d)) && RefusePair(c, b, d)[c].refusedPartner.Some?
    ensures forall x :: x in d ==> RefusePair(c, b, d)[x].sweptNoSignal == d[x].sweptNoSignal
  {
    hide OnlySwept;
    var d' := RefusePair(c, b, d);
    forall x | x in d ensures OnlySwept(d[x], d'[x]) && d'[x].sweptNoSignal == d[x].sweptNoSignal {
      RefusingOnlySweeps(d[x], if x == c && x != b then Some(b) else Some(c));
    }
  }

  lemma LeastIsNeeded(j: Joins, c: ColumnRef, s: set<ColumnRef>, x: ColumnRef)
    requires LeastClosed(j, c, s) && x in s
    ensures MustHold(j, c, x)
  {
  }

  lemma VisitOnlySweeps(j: Joins, unique: set<ColumnRef>, c: ColumnRef, d: Dec, d': Dec)
    requires Visited(j, unique, c, d, d')
    ensures AllOnlySwept(d, d')
    ensures Accounted(unique, d', c)
    ensures forall x :: x in d && d'[x].sweptNoSignal && !d[x].sweptNoSignal ==> x == c || MustHold(j, c, x)
  {
    hide SweepAll, RefusePair, MustHold;
    if !Sweepable(unique, c, d) {
    } else if Together(j, c, d, d') {
      var s: set<ColumnRef> :| LeastClosed(j, c, s) && AllRaisable(d, s)
        && d' == if d[c].col.spared then d else SweepAll(s + {c}, d);
      SweepAllOnlySweeps(s + {c}, d);
      forall x | x in s ensures MustHold(j, c, x) {
        LeastIsNeeded(j, c, s, x);
      }
    } else {
      var b: ColumnRef :| MustHold(j, c, b) && d' == RefusePair(c, b, d);
      RefusalOnlySweeps(c, b, d);
    }
  }

  lemma VisitKeepsParents(j: Joins, unique: set<ColumnRef>, c: ColumnRef, d: Dec, d': Dec)
    requires Visited(j, unique, c, d, d') && SweptWithParents(j, d)
    ensures SweptWithParents(j, d')
  {
    if Sweepable(unique, c, d) && Together(j, c, d, d') {
      var s: set<ColumnRef> :| LeastClosed(j, c, s) && AllRaisable(d, s)
        && d' == if d[c].col.spared then d else SweepAll(s + {c}, d);
      forall x, y | x in d' && d'[x].sweptNoSignal && y in At(j.parents, x) ensures y in d' && d'[y].sweptNoSignal {
        if x in s + {c} && d' != d {
          assert y in s + {c};
          assert PartnerRaisable(d, y) || y == c;
        }
      }
    }
  }

  lemma NothingSwept(d: Dec)
    ensures AllOnlySwept(d, d)
  {
  }

  lemma OnlySweptTransitive(a: Dec, b: Dec, c: Dec)
    requires AllOnlySwept(a, b) && AllOnlySwept(b, c)
    ensures AllOnlySwept(a, c)
  {
    forall x | x in a ensures OnlySwept(a[x], c[x]) {
      assert OnlySwept(a[x], b[x]) && OnlySwept(b[x], c[x]);
    }
  }

  /** Sweeping never lowers or unmasks, keeps every certain column, and keeps what is accounted for. */
  lemma OnlySweptKeeps(unique: set<ColumnRef>, d: Dec, d': Dec)
    requires AllOnlySwept(d, d')
    ensures MasksMore(d, d')
    ensures forall c :: Accounted(unique, d, c) ==> Accounted(unique, d', c)
    ensures forall c :: c in d ==> CertainPerson(d[c]) == CertainPerson(d'[c])
  {
    forall c | c in d
      ensures WorkMasksMore(d[c], d'[c]) && CertainPerson(d[c]) == CertainPerson(d'[c])
      ensures Accounted(unique, d, c) ==> Accounted(unique, d', c)
    {
      assert OnlySwept(d[c], d'[c]);
    }
  }

  predicate CertainPerson(w: Work) {
    w.confidence == CONF_CERTAIN && IdentifiesAPerson(w.category)
  }

  /** The table holds a column that is certain to identify a person. */
  predicate PersonShaped(cols: seq<ColumnRef>, d: Dec) {
    exists i :: 0 <= i < |cols| && cols[i] in d && CertainPerson(d[cols[i]])
  }

  lemma PersonShapedSnoc(cols: seq<ColumnRef>, i: nat, d: Dec)
    requires i < |cols|
    ensures PersonShaped(cols[..i + 1], d) <==>
            PersonShaped(cols[..i], d) || (cols[i] in d && CertainPerson(d[cols[i]]))
  {
    if PersonShaped(cols[..i], d) {
      var k :| 0 <= k < i && cols[..i][k] in d && CertainPerson(d[cols[..i][k]]);
      assert cols[..i + 1][k] == cols[k];
    }
    if cols[i] in d && CertainPerson(d[cols[i]]) {
      assert cols[..i + 1][i] == cols[i];
    }
    if PersonShaped(cols[..i + 1], d) {
      var k :| 0 <= k < i + 1 && cols[..i + 1][k] in d && CertainPerson(d[cols[..i + 1][k]]);
      if k < i {
        assert cols[..i][k] == cols[k];
      }
    }
  }

  /** c sits in a table holding a column certain to identify a person. */
  predicate PersonNeighbour(tables: seq<Table>, base: Dec, c: ColumnRef) {
    exists k :: 0 <= k < |tables| && PersonShaped(Columns(tables[k]), base) && c in Columns(tables[k])
  }

  lemma IsNeighbour(tables: seq<Table>, base: Dec, k: nat, i: nat)
    requires k < |tables| && PersonShaped(Columns(tables[k]), base) && i < |Columns(tables[k])|
    ensures PersonNeighbour(tables, base, Columns(tables[k])[i])
  {
  }

  /** x was swept for such a neighbour, that the sweep may open and swept together with every
      column it shares a checked pair with: x is that neighbour or one its joins demand. */
  ghost predicate BesideCertain(tables: seq<Table>, j: Joins, unique: set<ColumnRef>, base: Dec, d: Dec, x: ColumnRef) {
    exists c: ColumnRef :: PersonNeighbour(tables, base, c) && Sweepable(unique, c, base) && !base[c].col.spared
      && (x == c || MustHold(j, c, x)) && SweptWithPartners(j, d, c)
  }

  predicate SweptWithPartners(j: Joins, d: Dec, c: ColumnRef) {
    && c in d && d[c].sweptNoSignal
    && forall p :: p in At(j.partners, c) ==> p in d && d[p].sweptNoSignal
  }

  /** c, beside a certain person, was not raised because its joins demand b, which carries a
      decision of its own or cannot take one. */
  ghost predicate RefusedFor(tables: seq<Table>, j: Joins, unique: set<ColumnRef>, base: Dec, d: Dec, c: ColumnRef, b: ColumnRef) {
    PersonNeighbour(tables, base, c) && Sweepable(unique, c, base) && MustHold(j, c, b) && !PartnerRaisable(d, b)
  }

  ghost predicate NewlyRefused(tables: seq<Table>, j: Joins, unique: set<ColumnRef>, base: Dec, d: Dec, x: ColumnRef) {
    x in d && x in base && d[x].refusedPartner.Some? && d[x].refusedPartner != base[x].refusedPartner ==>
      var y := d[x].refusedPartner.value;
      && (y in d ==> d[y].refusedPartner.Some?)
      && (RefusedFor(tables, j, unique, base, d, x, y) || RefusedFor(tables, j, unique, base, d, y, x))
  }

  /** What every visit of the sweep keeps, from the decisions it began with. */
  ghost predicate SweepHolds(tables: seq<Table>, j: Joins, unique: set<ColumnRef>, base: Dec, d: Dec) {
    && AllOnlySwept(base, d)
    && SweptWithParents(j, d)
    && (forall x :: x in d && d[x].sweptNoSignal && !base[x].sweptNoSignal ==> BesideCertain(tables, j, unique, base, d, x))
    && (forall x :: NewlyRefused(tables, j, unique, base, d, x))
  }

  lemma SweepStarts(tables: seq<Table>, j: Joins, unique: set<ColumnRef>, base: Dec)
    requires SweptWithParents(j, base)
    ensures SweepHolds(tables, j, unique, base, base)
  {
    NothingSwept(base);
  }

  lemma OnlySweeps(tables: seq<Table>, j: Joins, unique: set<ColumnRef>, base: Dec, d: Dec)
    requires SweepHolds(tables, j, unique, base, d)
    ensures AllOnlySwept(base, d)
  {
  }

  /** A text column of two characters or more that base() found nothing about: it can take a
      category, and has none. */
  predicate NoSignal(w: Work) {
    && w.category == CatNone && w.confidence == CONF_NONE
    && !w.neverMask && !w.typeConflict && !w.col.twoLetterCodes
    && w.col.family in {FamText, FamVarchar, FamBpchar, FamCitext}
    && match w.col.declaredLength case None => true case Some(n) => n >= 2
  }

  /** The sweep leaves a column alone, but for naming a partner, or turns one without a signal
      into free text at the threshold. */
  lemma SweptIsFreeText(tables: seq<Table>, j: Joins, unique: set<ColumnRef>, base: Dec, d: Dec, x: ColumnRef)
    requires SweepHolds(tables, j, unique, base, d) && x in base && !base[x].sweptNoSignal
    ensures x in d && if d[x].sweptNoSignal
      then NoSignal(base[x]) && BesideCertain(tables, j, unique, base, d, x)
           && d[x] == base[x].(category := FreeText, confidence := CONF_POSSIBLE, source := ByNeighbour, sweptNoSignal := true,
                               refusedPartner := d[x].refusedPartner)
      else d[x] == base[x].(refusedPartner := d[x].refusedPartner)
  {
    hide BesideCertain, SweptWithParents, NewlyRefused;
    assert OnlySwept(base[x], d[x]);
  }

  predicate AllAccounted(unique: set<ColumnRef>, d: Dec, cols: seq<ColumnRef>) {
    forall i :: 0 <= i < |cols| ==> Accounted(unique, d, cols[i])
  }

  lemma AccountedStays(unique: set<ColumnRef>, d: Dec, d': Dec, cols: seq<ColumnRef>)
    requires AllOnlySwept(d, d') && AllAccounted(unique, d, cols)
    ensures AllAccounted(unique, d', cols)
  {
    OnlySweptKeeps(unique, d, d');
  }

  lemma StaysDecided(d: Dec, d': Dec, c: ColumnRef)
    requires AllOnlySwept(d, d')
    ensures PartnerRaisable(d', c) ==> PartnerRaisable(d, c)
    ensures c in d <==> c in d'
    ensures c in d && d[c].refusedPartner.Some? ==> d'[c].refusedPartner.Some?
  {
    if c in d {
      assert OnlySwept(d[c], d'[c]);
    }
  }

  lemma VisitRefuses(tables: seq<Table>, j: Joins, unique: set<ColumnRef>, c: ColumnRef, base: Dec, d: Dec, d': Dec, x: ColumnRef)
    requires AllOnlySwept(base, d) && AllOnlySwept(d, d') && PersonNeighbour(tables, base, c)
    requires NewlyRefused(tables, j, unique, base, d, x) && Visited(j, unique, c, d, d')
    ensures NewlyRefused(tables, j, unique, base, d', x)
  {
    hide PersonNeighbour, AllOnlySwept, MustHold, PartnerRaisable, LeastClosed, AllRaisable;
    if x in d' && x in d && d'[x].refusedPartner.Some? {
      var y := d'[x].refusedPartner.value;
      if d'[x].refusedPartner == d[x].refusedPartner {
        StaysDecided(d, d', x);
        StaysDecided(d, d', y);
      } else {
        StaysDecided(base, d, c);
        assert !Together(j, c, d, d') by { TogetherRefusesNone(j, c, d, d', x); }
        var b: ColumnRef :| MustHold(j, c, b) && !PartnerRaisable(d, b) && c in d && d' == RefusePair(c, b, d);
        StaysDecided(d, d', b);
        SweepableIsRaisable(unique, c, base);
        SweepableIsRaisable(unique, c, d);
      }
    }
  }

  lemma SweepableIsRaisable(unique: set<ColumnRef>, c: ColumnRef, d: Dec)
    ensures Sweepable(unique, c, d) <==> PartnerRaisable(d, c) && c !in unique
  {
  }

  lemma TogetherRefusesNone(j: Joins, c: ColumnRef, d: Dec, d': Dec, x: ColumnRef)
    requires x in d && x in d' && d'[x].refusedPartner != d[x].refusedPartner
    ensures !Together(j, c, d, d')
  {
  }

  lemma VisitExplains(tables: seq<Table>, j: Joins, unique: set<ColumnRef>, c: ColumnRef, base: Dec, d: Dec, d': Dec)
    requires SweepHolds(tables, j, unique, base, d) && PersonNeighbour(tables, base, c)
    requires Visited(j, unique, c, d, d')
    ensures SweepHolds(tables, j, unique, base, d') && AllOnlySwept(d, d') && Accounted(unique, d', c)
  {
    hide PersonNeighbour, Accounted, MustHold, Visited, NewlyRefused, OnlySwept;
    VisitOnlySweeps(j, unique, c, d, d');
    VisitKeepsParents(j, unique, c, d, d');
    OnlySweptTransitive(base, d, d');
    forall x | x in d' && d'[x].sweptNoSignal && !base[x].sweptNoSignal ensures BesideCertain(tables, j, unique, base, d', x) {
      if d[x].sweptNoSignal {
        var o: ColumnRef :| PersonNeighbour(tables, base, o) && Sweepable(unique, o, base) && !base[o].col.spared
          && (x == o || MustHold(j, o, x)) && SweptWithPartners(j, d, o);
        PartnersStaySwept(j, d, d', o);
      } else {
        assert x == c || MustHold(j, c, x);
        VisitOpens(j, unique, c, base, d, d', x);
      }
    }
    forall x ensures NewlyRefused(tables, j, unique, base, d', x) {
      VisitRefuses(tables, j, unique, c, base, d, d', x);
    }
  }

  /** A visit that sweeps anything was open to it from the start. */
  lemma VisitOpens(j: Joins, unique: set<ColumnRef>, c: ColumnRef, base: Dec, d: Dec, d': Dec, x: ColumnRef)
    requires AllOnlySwept(base, d) && Visited(j, unique, c, d, d')
    requires x in d && x in d' && d'[x].sweptNoSignal && !d[x].sweptNoSignal
    ensures Sweepable(unique, c, base) && !base[c].col.spared && SweptWithPartners(j, d', c)
  {
    hide MustHold;
    assert c in d && c in base && OnlySwept(base[c], d[c]);
    if Refusal(j, c, d, d') {
      var b: ColumnRef :| MustHold(j, c, b) && d' == RefusePair(c, b, d);
      RefusalOnlySweeps(c, b, d);
    } else {
      TogetherSweepsPartners(j, c, d, d');
    }
  }

  lemma TogetherSweepsPartners(j: Joins, c: ColumnRef, d: Dec, d': Dec)
    requires Together(j, c, d, d') && d' != d
    ensures SweptWithPartners(j, d', c)
  {
    var s: set<ColumnRef> :| LeastClosed(j, c, s) && AllRaisable(d, s)
      && d' == if d[c].col.spared then d else SweepAll(s + {c}, d);
    SweepAllSweeps(s + {c}, d);
    assert forall p :: p in At(j.partners, c) ==> p in s + {c};
    assert forall p :: p in s ==> PartnerRaisable(d, p);
  }

  lemma SweepAllSweeps(s: set<ColumnRef>, d: Dec)
    ensures forall p :: p in s && p in d ==> SweepAll(s, d)[p].sweptNoSignal
  {
  }

  lemma PartnersStaySwept(j: Joins, d: Dec, d': Dec, c: ColumnRef)
    requires AllOnlySwept(d, d') && SweptWithPartners(j, d, c)
    ensures SweptWithPartners(j, d', c)
  {
    assert OnlySwept(d[c], d'[c]);
    forall p | p in At(j.partners, c) ensures p in d' && d'[p].sweptNoSignal {
      assert OnlySwept(d[p], d'[p]);
    }
  }

  lemma VisitKeepsSweep(tables: seq<Table>, j: Joins, unique: set<ColumnRef>, cols: seq<ColumnRef>, i: nat, base: Dec, d: Dec, d': Dec)
    requires i < |cols| && PersonNeighbour(tables, base, cols[i])
    requires SweepHolds(tables, j, unique, base, d)
    requires AllAccounted(unique, d, cols[..i])
    requires Visited(j, unique, cols[i], d, d')
    ensures SweepHolds(tables, j, unique, base, d') && AllOnlySwept(d, d')
    ensures AllAccounted(unique, d', cols[..i + 1])
  {
    VisitExplains(tables, j, unique, cols[i], base, d, d');
    hide SweepHolds, AllOnlySwept, Visited, Accounted, PersonNeighbour, AllAccounted;
    AccountedStays(unique, d, d', cols[..i]);
    AccountedOneMore(unique, d', cols, i);
  }

  lemma AccountedOneMore(unique: set<ColumnRef>, d: Dec, cols: seq<ColumnRef>, i: nat)
    requires i < |cols| && AllAccounted(unique, d, cols[..i]) && Accounted(unique, d, cols[i])
    ensures AllAccounted(unique, d, cols[..i + 1])
  {
    hide Accounted;
    var visited := cols[..i + 1];
    forall k | 0 <= k < |visited| ensures Accounted(unique, d, visited[k]) {
      if k < i { assert visited[k] == cols[..i][k]; }
    }
  }
}
