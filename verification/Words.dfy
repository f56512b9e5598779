/** The embedded word lists, ordered by length, and the enumeration of word pairs
    that fit a budget (mask/words.go, mask/vocab.go:131-143). Words are ASCII, so
    a character is a byte. */
module Words {
  import opened Common
  import opened Arith

  /** newWordList's order: shorter first, then bytewise. */
  predicate Before(a: string, b: string) {
    if |a| != |b| then |a| < |b| else LexLess(a, b)
  }

  /** Before is a strict weak order whose ties are equal words. */
  lemma BeforeOrders(a: string, b: string, c: string)
    ensures !Before(a, b) && !Before(b, a) ==> a == b
    ensures Before(a, b) ==> !Before(b, a)
    ensures Before(a, b) ==> Before(a, c) || Before(c, b)
  {
    LexTotal(a, b);
    if Before(a, b) && |a| == |b| && |c| == |a| {
      LexSplits(a, b, c);
    }
  }

  predicate Sorted(ws: seq<string>) {
    forall i, j :: 0 <= i < j < |ws| ==> !Before(ws[j], ws[i])
  }

  // ---------- newWordList ----------

  const MAX_FIT := 32

  datatype RawWordList = RawWordList(words: seq<string>, fit: seq<nat>)

  type WordList = w: RawWordList | Valid(w)
    witness RawWordList(["a"], seq(MAX_FIT + 1, m => if m == 0 then 0 else 1))

  /** fit[m] counts the words of at most m bytes, which are the first fit[m]. */
  predicate MarksPrefix(ws: seq<string>, m: nat, n: nat) {
    n <= |ws| && forall i :: 0 <= i < |ws| ==> (|ws[i]| <= m <==> i < n)
  }

  predicate Valid(w: RawWordList) {
    && |w.words| > 0 && Sorted(w.words)
    && (forall i :: 0 <= i < |w.words| ==> 1 <= |w.words[i]| <= MAX_FIT)
    && |w.fit| == MAX_FIT + 1
    && (forall m :: 0 <= m <= MAX_FIT ==> MarksPrefix(w.words, m, w.fit[m]))
  }

  /** sort.Slice with newWordList's comparison. */
  function Insert(x: string, ws: seq<string>): seq<string> {
    if ws == [] || !Before(ws[0], x) then [x] + ws else [ws[0]] + Insert(x, ws[1..])
  }

  lemma {:induction false} InsertSorts(x: string, ws: seq<string>)
    requires Sorted(ws)
    ensures Sorted(Insert(x, ws)) && multiset(Insert(x, ws)) == multiset{x} + multiset(ws)
  {
    if ws != [] {
      assert ws == [ws[0]] + ws[1..];
      if Before(ws[0], x) {
        var rest := Insert(x, ws[1..]);
        InsertSorts(x, ws[1..]);
        forall i | 0 <= i < |rest| ensures !Before(rest[i], ws[0]) {
          assert rest[i] in multiset(rest);
          BeforeOrders(ws[0], x, x);
        }
      } else {
        forall i | 0 <= i < |ws| ensures !Before(ws[i], x) {
          BeforeOrders(ws[i], x, ws[0]);
        }
      }
    }
  }

  function Sort(ws: seq<string>): (r: seq<string>)
    ensures Sorted(r) && multiset(r) == multiset(ws)
  {
    if ws == [] then [] else
    assert ws == [ws[0]] + ws[1..];
    InsertSorts(ws[0], Sort(ws[1..]));
    Insert(ws[0], Sort(ws[1..]))
  }

  method NewWordList(fields: seq<string>) returns (w: WordList)
    requires |fields| > 0 && forall i :: 0 <= i < |fields| ==> 1 <= |fields[i]| <= MAX_FIT
    ensures Valid(w) && multiset(w.words) == multiset(fields)
  {
    var words := Sort(fields);
    assert |words| == |multiset(words)| == |multiset(fields)| == |fields|;
    forall i | 0 <= i < |words| ensures 1 <= |words[i]| <= MAX_FIT {
      assert words[i] in multiset(words);
      assert words[i] in fields;
    }
    var fit: seq<nat> := [];
    for m := 0 to MAX_FIT + 1
      invariant |fit| == m
      invariant forall k :: 0 <= k < m ==> MarksPrefix(words, k, fit[k])
    {
      var n: nat := 0;
      for i := 0 to |words|
        invariant n <= i
        invariant forall k :: 0 <= k < i ==> (|words[k]| <= m <==> k < n)
      {
        if |words[i]| <= m {
          assert n < i ==> !Before(words[i], words[n]);
          n := n + 1;
        }
      }
      fit := fit + [n];
    }
    w := RawWordList(words, fit);
  }

  // ---------- count, longest, shortest, holds ----------

  function Count(w: WordList, budget: int): (n: nat)
    ensures n <= |w.words|
    ensures forall j :: 0 <= j < |w.words| ==> (j < n <==> budget >= 0 && (budget == 0 || |w.words[j]| <= budget))
  {
    if budget < 0 then 0
    else if budget == 0 || budget > MAX_FIT then |w.words|
    else w.fit[budget]
  }

  function Longest(w: WordList): (n: nat)
    ensures forall i :: 0 <= i < |w.words| ==> |w.words[i]| <= n
    ensures exists i :: 0 <= i < |w.words| && |w.words[i]| == n
  {
    assert forall i :: 0 <= i < |w.words| - 1 ==> !Before(w.words[|w.words| - 1], w.words[i]);
    |w.words[|w.words| - 1]|
  }

  function Shortest(w: WordList): (n: nat)
    ensures n >= 1 && forall i :: 0 <= i < |w.words| ==> n <= |w.words[i]|
    ensures n == |w.words[0]|
  {
    assert forall i :: 0 < i < |w.words| ==> !Before(w.words[i], w.words[0]);
    |w.words[0]|
  }

  /** The binary search agrees with membership, within the budget. */
  method Holds(w: WordList, s: string, budget: int) returns (r: bool)
    ensures r <==> s in w.words && (budget > 0 ==> |s| <= budget)
  {
    if budget > 0 && |s| > budget {
      return false;
    }
    var i, j := 0, |w.words|;
    while i < j
      invariant 0 <= i <= j <= |w.words|
      invariant forall k :: 0 <= k < i ==> Before(w.words[k], s)
      invariant forall k :: j <= k < |w.words| ==> !Before(w.words[k], s)
    {
      var h := (i + j) / 2;
      if Before(w.words[h], s) {
        forall k | 0 <= k < h ensures Before(w.words[k], s) {
          BeforeOrders(w.words[h], s, w.words[k]);
        }
        i := h + 1;
      } else {
        forall k | h < k < |w.words| ensures !Before(w.words[k], s) {
          BeforeOrders(w.words[k], s, w.words[h]);
        }
        j := h;
      }
    }
    r := i < |w.words| && w.words[i] == s;
    if s in w.words {
      var k :| 0 <= k < |w.words| && w.words[k] == s;
      BeforeOrders(s, s, s);
      assert k >= i;
      BeforeOrders(w.words[i], s, s);
      if i < k {
        assert !Before(w.words[k], w.words[i]);
      }
    }
  }

  // ---------- pairCount and pairAt ----------

  /** The i-th and j-th words with their separator fit the budget; 0 is unbounded. */
  predicate Fits(a: WordList, b: WordList, sep: nat, budget: int, i: nat, j: nat) {
    && i < |a.words| && j < |b.words| && budget >= 0
    && (budget == 0 || |a.words[i]| + sep + |b.words[j]| <= budget)
  }

  predicate Wide(a: WordList, b: WordList, sep: nat, budget: int) {
    budget == 0 || budget >= Longest(a) + sep + Longest(b)
  }

  /** How many words of b follow the i-th word of a. */
  function Row(a: WordList, b: WordList, sep: nat, budget: int, i: nat): nat
    requires i < |a.words|
  {
    var room := budget - sep - |a.words[i]|;
    if room < Shortest(b) then 0 else Count(b, room)
  }

  function RowsFrom(a: WordList, b: WordList, sep: nat, budget: int, i: nat): nat
    requires i <= |a.words|
    decreases |a.words| - i
  {
    if i == |a.words| then 0 else Row(a, b, sep, budget, i) + RowsFrom(a, b, sep, budget, i + 1)
  }

  function PairCountOf(a: WordList, b: WordList, sep: nat, budget: int): nat {
    if budget < 0 then 0
    else if Wide(a, b, sep, budget) then |a.words| * |b.words|
    else RowsFrom(a, b, sep, budget, 0)
  }

  /** Walks the rows from i to the n-th pair. */
  function Find(a: WordList, b: WordList, sep: nat, budget: int, i: nat, n: nat): (nat, nat)
    requires i <= |a.words| && n < RowsFrom(a, b, sep, budget, i)
    decreases |a.words| - i
  {
    if n < Row(a, b, sep, budget, i) then (i, n)
    else Find(a, b, sep, budget, i + 1, n - Row(a, b, sep, budget, i))
  }

  /** The positions of the n-th pair. */
  function PairIndex(a: WordList, b: WordList, sep: nat, budget: int, n: nat): (nat, nat)
    requires n < PairCountOf(a, b, sep, budget)
  {
    if Wide(a, b, sep, budget) then (n / |b.words|, n % |b.words|)
    else Find(a, b, sep, budget, 0, n)
  }

  /** Where a fitting pair stands in the order: the inverse of PairIndex. */
  function PairRank(a: WordList, b: WordList, sep: nat, budget: int, i: nat, j: nat): int
    requires i < |a.words|
  {
    if Wide(a, b, sep, budget) then i * |b.words| + j
    else RowsFrom(a, b, sep, budget, 0) - RowsFrom(a, b, sep, budget, i) + j
  }

  lemma RowIsFit(a: WordList, b: WordList, sep: nat, budget: int, i: nat, j: nat)
    requires i < |a.words| && budget > 0
    ensures j < Row(a, b, sep, budget, i) <==> Fits(a, b, sep, budget, i, j)
  {
  }

  lemma {:induction false} FindLands(a: WordList, b: WordList, sep: nat, budget: int, i: nat, n: nat)
    requires i <= |a.words| && n < RowsFrom(a, b, sep, budget, i)
    ensures var (x, y) := Find(a, b, sep, budget, i, n);
      i <= x < |a.words| && y < Row(a, b, sep, budget, x)
      && n == RowsFrom(a, b, sep, budget, i) - RowsFrom(a, b, sep, budget, x) + y
    decreases |a.words| - i
  {
    if n >= Row(a, b, sep, budget, i) {
      FindLands(a, b, sep, budget, i + 1, n - Row(a, b, sep, budget, i));
    }
  }

  lemma {:induction false} FindReaches(a: WordList, b: WordList, sep: nat, budget: int, i: nat, x: nat, y: nat)
    requires i <= x < |a.words| && y < Row(a, b, sep, budget, x)
    ensures var n := RowsFrom(a, b, sep, budget, i) - RowsFrom(a, b, sep, budget, x) + y;
      0 <= n < RowsFrom(a, b, sep, budget, i) && Find(a, b, sep, budget, i, n) == (x, y)
    decreases x - i
  {
    if i < x {
      FindReaches(a, b, sep, budget, i + 1, x, y);
    }
  }

  /** pairAt maps [0, pairCount) one to one ... */
  lemma PairAtIsOneToOne(a: WordList, b: WordList, sep: nat, budget: int, n: nat)
    requires n < PairCountOf(a, b, sep, budget)
    ensures var (i, j) := PairIndex(a, b, sep, budget, n);
      Fits(a, b, sep, budget, i, j) && PairRank(a, b, sep, budget, i, j) == n
  {
    if Wide(a, b, sep, budget) {
      DivModBound(n, |a.words|, |b.words|);
    } else {
      FindLands(a, b, sep, budget, 0, n);
      var (i, j) := PairIndex(a, b, sep, budget, n);
      RowIsFit(a, b, sep, budget, i, j);
    }
  }

  /** ... onto exactly the pairs that fit. */
  lemma PairAtIsOnto(a: WordList, b: WordList, sep: nat, budget: int, i: nat, j: nat)
    requires Fits(a, b, sep, budget, i, j)
    ensures var n := PairRank(a, b, sep, budget, i, j);
      0 <= n < PairCountOf(a, b, sep, budget) && PairIndex(a, b, sep, budget, n) == (i, j)
  {
    hide RowsFrom, Row, Find, Valid;
    if Wide(a, b, sep, budget) {
      CellRank(i, j, |a.words|, |b.words|);
    } else {
      RowIsFit(a, b, sep, budget, i, j);
      FindReaches(a, b, sep, budget, 0, i, j);
    }
  }

  lemma {:induction false} WideRows(a: WordList, b: WordList, sep: nat, budget: int, i: nat)
    requires budget > 0 && Wide(a, b, sep, budget) && i <= |a.words|
    ensures RowsFrom(a, b, sep, budget, i) == (|a.words| - i) * |b.words|
    decreases |a.words| - i
  {
    if i < |a.words| {
      WideRows(a, b, sep, budget, i + 1);
      assert Row(a, b, sep, budget, i) == |b.words| by {
        RowIsFit(a, b, sep, budget, i, |b.words| - 1);
      }
      assert (|a.words| - i) * |b.words| == (|a.words| - (i + 1)) * |b.words| + |b.words|;
    }
  }

  /** The two branches agree wherever both could be taken. */
  lemma BranchesAgree(a: WordList, b: WordList, sep: nat, budget: int, n: nat)
    requires budget > 0 && Wide(a, b, sep, budget)
    ensures PairCountOf(a, b, sep, budget) == RowsFrom(a, b, sep, budget, 0)
    ensures n < PairCountOf(a, b, sep, budget) ==> PairIndex(a, b, sep, budget, n) == Find(a, b, sep, budget, 0, n)
  {
    WideRows(a, b, sep, budget, 0);
    if n < PairCountOf(a, b, sep, budget) {
      var (i, j) := PairIndex(a, b, sep, budget, n);
      PairAtIsOneToOne(a, b, sep, budget, n);
      RowIsFit(a, b, sep, budget, i, j);
      WideRows(a, b, sep, budget, i);
      assert i * |b.words| == |a.words| * |b.words| - (|a.words| - i) * |b.words|;
      FindReaches(a, b, sep, budget, 0, i, j);
    }
  }

  lemma {:induction false} NoRoomNoRows(a: WordList, b: WordList, sep: nat, budget: int, i: nat)
    requires i <= |a.words|
    requires i < |a.words| ==> budget - sep - |a.words[i]| < Shortest(b)
    ensures RowsFrom(a, b, sep, budget, i) == 0
    decreases |a.words| - i
  {
    if i < |a.words| {
      if i + 1 < |a.words| {
        assert !Before(a.words[i + 1], a.words[i]);
      }
      NoRoomNoRows(a, b, sep, budget, i + 1);
    }
  }

  method PairCount(a: WordList, b: WordList, sep: nat, budget: int) returns (total: nat)
    ensures total == PairCountOf(a, b, sep, budget)
  {
    if budget < 0 {
      return 0;
    }
    if budget == 0 || budget >= Longest(a) + sep + Longest(b) {
      return |a.words| * |b.words|;
    }
    total := 0;
    for i := 0 to |a.words|
      invariant total + RowsFrom(a, b, sep, budget, i) == RowsFrom(a, b, sep, budget, 0)
    {
      var room := budget - sep - |a.words[i]|;
      if room < Shortest(b) {
        NoRoomNoRows(a, b, sep, budget, i);
        return;
      }
      total := total + Count(b, room);
    }
  }

  /** Past the last pair the narrow branch falls back to the first two words. */
  method PairAt(a: WordList, b: WordList, sep: nat, budget: int, n: nat) returns (x: string, y: string)
    requires budget >= 0 && (Wide(a, b, sep, budget) ==> n < PairCountOf(a, b, sep, budget))
    ensures n < PairCountOf(a, b, sep, budget) ==> IsPair(a, b, PairIndex(a, b, sep, budget, n), x, y)
    ensures n >= PairCountOf(a, b, sep, budget) ==> IsPair(a, b, (0, 0), x, y)
  {
    if budget == 0 || budget >= Longest(a) + sep + Longest(b) {
      var wide := |b.words|;
      DivModBound(n, |a.words|, wide);
      return a.words[n / wide], b.words[n % wide];
    }
    x, y := NarrowPairAt(a, b, sep, budget, n);
  }

  method NarrowPairAt(a: WordList, b: WordList, sep: nat, budget: int, n: nat) returns (x: string, y: string)
    ensures n < RowsFrom(a, b, sep, budget, 0) ==> IsPair(a, b, Find(a, b, sep, budget, 0, n), x, y)
    ensures n >= RowsFrom(a, b, sep, budget, 0) ==> IsPair(a, b, (0, 0), x, y)
  {
    var m: nat := n;
    for i := 0 to |a.words|
      invariant m < RowsFrom(a, b, sep, budget, i) <==> n < RowsFrom(a, b, sep, budget, 0)
      invariant n < RowsFrom(a, b, sep, budget, 0) ==>
        Find(a, b, sep, budget, i, m) == Find(a, b, sep, budget, 0, n)
    {
      var room := budget - sep - |a.words[i]|;
      if room < Shortest(b) {
        NoRoomNoRows(a, b, sep, budget, i);
        break;
      }
      var k := Count(b, room);
      assert k == Row(a, b, sep, budget, i);
      if m < k {
        return a.words[i], b.words[m];
      }
      m := m - k;
    }
    return a.words[0], b.words[0];
  }

  predicate IsPair(a: WordList, b: WordList, at: (nat, nat), x: string, y: string) {
    at.0 < |a.words| && at.1 < |b.words| && x == a.words[at.0] && y == b.words[at.1]
  }
}
