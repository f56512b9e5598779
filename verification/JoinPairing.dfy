/** fkPairs: the columns that have to be raised together with one column so that
    no validated join is left half masked (classify.go:2268-2340). */
module JoinPairing {
  import opened Common
  import opened Decisions

  /** indexFKColumns' two maps: every column at the far end of a checked pair, and
      the parent ends alone. */
  datatype Joins = Joins(partners: map<ColumnRef, seq<ColumnRef>>, parents: map<ColumnRef, seq<ColumnRef>>)

  /** A Go map read: a missing key is the empty list. */
  function At(m: map<ColumnRef, seq<ColumnRef>>, c: ColumnRef): seq<ColumnRef> {
    if c in m then m[c] else []
  }

  function Append(m: map<ColumnRef, seq<ColumnRef>>, c: ColumnRef, x: ColumnRef): map<ColumnRef, seq<ColumnRef>> {
    m[c := At(m, c) + [x]]
  }

  function IndexPair(j: Joins, p: Pair): Joins {
    if !p.checked then j else
      Joins(Append(Append(j.partners, p.parent, p.child), p.child, p.parent), Append(j.parents, p.child, p.parent))
  }

  function Index(ps: seq<Pair>): Joins {
    if ps == [] then Joins(map[], map[]) else IndexPair(Index(ps[..|ps| - 1]), ps[|ps| - 1])
  }

  /** The index holds exactly the checked pairs, both ways round and child to parent. */
  lemma {:induction false} IndexHoldsCheckedPairs(ps: seq<Pair>, x: ColumnRef, y: ColumnRef)
    ensures y in At(Index(ps).parents, x) <==> exists p :: p in ps && p.checked && p.child == x && p.parent == y
    ensures y in At(Index(ps).partners, x) <==>
      exists p :: p in ps && p.checked && ((p.child == x && p.parent == y) || (p.parent == x && p.child == y))
  {
    if ps != [] {
      var most, last := ps[..|ps| - 1], ps[|ps| - 1];
      IndexHoldsCheckedPairs(most, x, y);
      assert ps == most + [last];
      assert forall p :: p in ps <==> p in most || p == last;
    }
  }

  /** minUnknownLen. */
  const SHORTEST_UNKNOWN := 2

  predicate Undecided(w: Work) {
    && !w.neverMask && !w.typeConflict && !w.col.twoLetterCodes
    && w.category == CatNone && w.confidence == CONF_NONE
    && IsCharacterFamily(w.col.family)
    && (w.col.declaredLength.Some? ==> w.col.declaredLength.value >= SHORTEST_UNKNOWN)
  }

  /** fkPartnerRaisable; raisableUnknown asks the same of the column itself. */
  predicate PartnerRaisable(dec: Dec, c: ColumnRef) {
    c in dec && Undecided(dec[c])
  }

  /** s holds c's direct partners and, for c and every member, all their parents. */
  predicate ClosedAbove(j: Joins, c: ColumnRef, s: set<ColumnRef>) {
    && (forall p :: p in At(j.partners, c) && p != c ==> p in s)
    && (forall x, y :: x in s + {c} && y in At(j.parents, x) && y != c ==> y in s)
  }

  ghost predicate LeastClosed(j: Joins, c: ColumnRef, s: set<ColumnRef>) {
    ClosedAbove(j, c, s) && forall t: set<ColumnRef> :: ClosedAbove(j, c, t) ==> s <= t
  }

  datatype Pairing = Together(partners: seq<ColumnRef>) | Blocked(culprit: ColumnRef)

  /** Every column some list of the index names. */
  function Mentioned(m: map<ColumnRef, seq<ColumnRef>>): set<ColumnRef> {
    set k, x | k in m && x in m[k] :: x
  }

  /** What the walk has collected so far: raisable, once each, and no more than any closed set must hold. */
  ghost predicate Gathered(j: Joins, dec: Dec, c: ColumnRef, seen: set<ColumnRef>, partners: seq<ColumnRef>) {
    && seen == Elements(partners) + {c} && Distinct(partners) && c !in partners
    && (forall p :: p in partners ==> PartnerRaisable(dec, p))
    && (forall t: set<ColumnRef> :: ClosedAbove(j, c, t) ==> Elements(partners) <= t)
  }

  /** y is owed to the set: a direct partner, or a parent of a column already seen. */
  predicate Owed(j: Joins, c: ColumnRef, seen: set<ColumnRef>, y: ColumnRef) {
    y in At(j.partners, c) || exists x :: x in seen && y in At(j.parents, x)
  }

  lemma OwedIsInEveryClosedSet(j: Joins, dec: Dec, c: ColumnRef, seen: set<ColumnRef>, partners: seq<ColumnRef>, y: ColumnRef)
    requires Gathered(j, dec, c, seen, partners) && Owed(j, c, seen, y) && y !in seen
    ensures forall t: set<ColumnRef> :: ClosedAbove(j, c, t) ==> y in t
  {
    if y !in At(j.partners, c) {
      var x :| x in seen && y in At(j.parents, x);
      forall t: set<ColumnRef> | ClosedAbove(j, c, t) ensures y in t {
        assert x in t + {c};
      }
    }
  }

  lemma ParentIsOwed(j: Joins, c: ColumnRef, seen: set<ColumnRef>, x: ColumnRef, i: nat)
    requires x in seen && i < |At(j.parents, x)|
    ensures Owed(j, c, seen, At(j.parents, x)[i]) && At(j.parents, x)[i] in Mentioned(j.parents)
  {
    assert x in j.parents && At(j.parents, x)[i] in j.parents[x];
  }

  /** Why a column stops the walk: it cannot be raised, and every closed set holds it. */
  ghost predicate Blocks(j: Joins, dec: Dec, c: ColumnRef, y: ColumnRef) {
    y != c && !PartnerRaisable(dec, y) && forall t: set<ColumnRef> :: ClosedAbove(j, c, t) ==> y in t
  }

  /** One turn of the queue: the parents of x that were not seen yet. */
  method VisitParents(j: Joins, dec: Dec, c: ColumnRef, seen: set<ColumnRef>, partners: seq<ColumnRef>, x: ColumnRef)
    returns (blocked: Option<ColumnRef>, seen': set<ColumnRef>, partners': seq<ColumnRef>, added: seq<ColumnRef>)
    requires Gathered(j, dec, c, seen, partners) && x in seen
    ensures Gathered(j, dec, c, seen', partners')
    ensures blocked.Some? ==> Blocks(j, dec, c, blocked.value)
    ensures blocked.None? ==> seen' == seen + Elements(added) && forall y :: y in At(j.parents, x) ==> y in seen'
    ensures Elements(added) <= Mentioned(j.parents) && Elements(added) !! seen
  {
    hide Gathered, PartnerRaisable, Owed, Mentioned, ClosedAbove;
    seen', partners', added, blocked := seen, partners, [], None;
    var above := At(j.parents, x);
    for i := 0 to |above|
      invariant Gathered(j, dec, c, seen', partners')
      invariant seen' == seen + Elements(added)
      invariant Elements(added) <= Mentioned(j.parents) && Elements(added) !! seen
      invariant forall k :: 0 <= k < i ==> above[k] in seen'
    {
      if above[i] in seen' {
        continue;
      }
      ParentIsOwed(j, c, seen', x, i);
      var ok;
      ok, seen', partners' := Visit(j, dec, c, seen', partners', above[i]);
      if !ok {
        blocked := Some(above[i]);
        return;
      }
      assert Elements(added + [above[i]]) == Elements(added) + {above[i]};
      added := added + [above[i]];
    }
  }

  /** What the walk's queue still has to be asked for. */
  ghost predicate Pending(j: Joins, c: ColumnRef, seen: set<ColumnRef>, queue: seq<ColumnRef>) {
    && (forall p :: p in At(j.partners, c) ==> p in seen)
    && Elements(queue) <= seen
    && (forall x, y :: x in seen && x !in queue && y in At(j.parents, x) ==> y in seen)
  }

  lemma OneLessPending(j: Joins, c: ColumnRef, seen: set<ColumnRef>, queue: seq<ColumnRef>, seen': set<ColumnRef>, added: seq<ColumnRef>)
    requires Pending(j, c, seen, queue) && queue != [] && seen' == seen + Elements(added)
    requires forall y :: y in At(j.parents, queue[0]) ==> y in seen'
    ensures Pending(j, c, seen', queue[1..] + added)
  {
    assert queue == [queue[0]] + queue[1..];
    forall x, y | x in seen' && x !in queue[1..] + added && y in At(j.parents, x) ensures y in seen' {
      if x != queue[0] {
        assert x in seen && x !in queue;
      }
    }
  }

  lemma NothingPending(j: Joins, dec: Dec, c: ColumnRef, seen: set<ColumnRef>, partners: seq<ColumnRef>)
    requires Pending(j, c, seen, []) && Gathered(j, dec, c, seen, partners)
    ensures LeastClosed(j, c, Elements(partners))
  {
  }

  lemma QueueStarts(j: Joins, dec: Dec, c: ColumnRef, seen: set<ColumnRef>, partners: seq<ColumnRef>)
    requires Gathered(j, dec, c, seen, partners) && forall p :: p in At(j.partners, c) ==> p in seen
    ensures Pending(j, c, seen, [c] + partners)
  {
    assert forall x :: x in seen ==> x in [c] + partners;
  }

  /** The visit closure: collects y, or reports that it cannot be raised. */
  method Visit(j: Joins, dec: Dec, c: ColumnRef, seen: set<ColumnRef>, partners: seq<ColumnRef>, y: ColumnRef)
    returns (ok: bool, seen': set<ColumnRef>, partners': seq<ColumnRef>)
    requires Gathered(j, dec, c, seen, partners) && Owed(j, c, seen, y)
    ensures Gathered(j, dec, c, seen', partners')
    ensures ok ==> seen' == seen + {y} && partners' == if y in seen then partners else partners + [y]
    ensures ok <==> y in seen || PartnerRaisable(dec, y)
    ensures !ok ==> y != c && !PartnerRaisable(dec, y) && forall t: set<ColumnRef> :: ClosedAbove(j, c, t) ==> y in t
  {
    if y in seen {
      return true, seen, partners;
    }
    OwedIsInEveryClosedSet(j, dec, c, seen, partners, y);
    if !PartnerRaisable(dec, y) {
      return false, seen, partners;
    }
    assert Elements(partners + [y]) == Elements(partners) + {y};
    return true, seen + {y}, partners + [y];
  }

  method FkPairs(j: Joins, dec: Dec, c: ColumnRef) returns (res: Pairing)
    ensures res.Together? ==> LeastClosed(j, c, Elements(res.partners))
    ensures res.Together? ==> Distinct(res.partners) && c !in res.partners
    ensures res.Together? ==> forall p :: p in res.partners ==> PartnerRaisable(dec, p)
    ensures res.Blocked? ==> res.culprit != c && !PartnerRaisable(dec, res.culprit)
    ensures res.Blocked? ==> forall t: set<ColumnRef> :: ClosedAbove(j, c, t) ==> res.culprit in t
  {
    hide PartnerRaisable, LeastClosed, ClosedAbove, Pending, Mentioned, Distinct;
    var ok, seen, partners := true, {c}, [];
    assert Gathered(j, dec, c, seen, partners) by { NothingGathered(j, dec, c); }
    var direct := At(j.partners, c);
    for i := 0 to |direct|
      invariant Gathered(j, dec, c, seen, partners)
      invariant forall k :: 0 <= k < i ==> direct[k] in seen
    {
      ok, seen, partners := Visit(j, dec, c, seen, partners, direct[i]);
      if !ok {
        return Blocked(direct[i]);
      }
    }
    var queue := [c] + partners;
    QueueStarts(j, dec, c, seen, partners);
    while queue != []
      invariant Gathered(j, dec, c, seen, partners) && Pending(j, c, seen, queue)
      decreases Mentioned(j.parents) - seen, |queue|
    {
      ghost var was, waiting := seen, queue;
      assert queue[0] in seen by { PendingIsSeen(j, c, seen, queue); }
      var blocked, added;
      blocked, seen, partners, added := VisitParents(j, dec, c, seen, partners, queue[0]);
      if blocked.Some? {
        return Blocked(blocked.value);
      }
      OneLessPending(j, c, was, queue, seen, added);
      queue := queue[1..] + added;
      NewIsNew(j, was, added);
    }
    NothingPending(j, dec, c, seen, partners);
    res := Together(partners);
  }

  lemma NothingGathered(j: Joins, dec: Dec, c: ColumnRef)
    ensures Gathered(j, dec, c, {c}, [])
  {
  }

  lemma PendingIsSeen(j: Joins, c: ColumnRef, seen: set<ColumnRef>, queue: seq<ColumnRef>)
    requires Pending(j, c, seen, queue) && queue != []
    ensures queue[0] in seen
  {
    assert queue[0] in Elements(queue);
  }

  /** Whatever is added to the queue leaves fewer columns to add. */
  lemma NewIsNew(j: Joins, was: set<ColumnRef>, added: seq<ColumnRef>)
    requires Elements(added) <= Mentioned(j.parents) && Elements(added) !! was
    ensures added == [] || Mentioned(j.parents) - (was + Elements(added)) < Mentioned(j.parents) - was
    ensures added == [] ==> was + Elements(added) == was
  {
    if added != [] {
      assert added[0] in Elements(added);
    }
  }
}
