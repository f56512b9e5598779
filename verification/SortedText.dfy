/** Strings in the order sort.Strings gives them. */
module SortedText {
  import opened Common

  /** In order, no key twice. */
  predicate Ordered(s: seq<string>) {
    forall i, j :: 0 <= i < j < |s| ==> LexLess(s[i], s[j])
  }

  lemma ElementsSnoc(s: seq<string>, i: nat)
    requires i < |s|
    ensures Elements(s[..i + 1]) == Elements(s[..i]) + {s[i]} && s[i] in Elements(s) && Elements(s[..i]) <= Elements(s)
  {
    assert s[..i + 1] == s[..i] + [s[i]];
  }

  function Inserted(s: seq<string>, k: string): seq<string> {
    if s == [] then [k]
    else if k == s[0] then s
    else if LexLess(k, s[0]) then [k] + s
    else [s[0]] + Inserted(s[1..], k)
  }

  /** A sorted copy with duplicates compacted. */
  function SortedUnique(s: seq<string>): seq<string> {
    if s == [] then [] else Inserted(SortedUnique(s[..|s| - 1]), s[|s| - 1])
  }

  lemma OrderedCons(h: string, t: seq<string>)
    requires Ordered(t) && forall i :: 0 <= i < |t| ==> LexLess(h, t[i])
    ensures Ordered([h] + t) && Elements([h] + t) == {h} + Elements(t)
  {
    hide LexLess;
  }

  lemma LessThanAll(k: string, s: seq<string>)
    requires Ordered(s) && s != [] && LexLess(k, s[0])
    ensures forall i :: 0 <= i < |s| ==> LexLess(k, s[i])
  {
    hide LexLess;
    forall i | 0 < i < |s| ensures LexLess(k, s[i]) {
      LexTransitive(k, s[0], s[i]);
    }
  }

  lemma OrderedTail(s: seq<string>)
    requires Ordered(s) && s != []
    ensures Ordered(s[1..]) && Elements(s) == {s[0]} + Elements(s[1..])
    ensures forall x :: x in Elements(s[1..]) ==> LexLess(s[0], x)
  {
    hide LexLess;
  }

  lemma {:induction false} InsertedStaysOrdered(s: seq<string>, k: string)
    requires Ordered(s)
    ensures Ordered(Inserted(s, k)) && Elements(Inserted(s, k)) == Elements(s) + {k}
  {
    if s == [] {
      assert Elements([k]) == {k};
      assert Ordered([k]);
    } else if k == s[0] {
      assert k in Elements(s);
    } else {
      hide LexLess, Ordered;
      LexTotal(k, s[0]);
      if LexLess(k, s[0]) {
        LessThanAll(k, s);
        OrderedCons(k, s);
      } else {
        OrderedTail(s);
        InsertedStaysOrdered(s[1..], k);
        var more := Inserted(s[1..], k);
        forall i | 0 <= i < |more| ensures LexLess(s[0], more[i]) {
          assert more[i] in Elements(more);
        }
        OrderedCons(s[0], more);
      }
    }
  }

  lemma {:induction false} SortedUniqueSorts(s: seq<string>)
    ensures Ordered(SortedUnique(s)) && Elements(SortedUnique(s)) == Elements(s)
  {
    if s != [] {
      var most := s[..|s| - 1];
      SortedUniqueSorts(most);
      InsertedStaysOrdered(SortedUnique(most), s[|s| - 1]);
      assert s == most + [s[|s| - 1]];
    }
  }

  lemma {:induction false} OrderedIsUnique(s: seq<string>, t: seq<string>)
    requires Ordered(s) && Ordered(t) && Elements(s) == Elements(t)
    ensures s == t
  {
    if s == [] {
      SomeElement(t);
    } else {
      SomeElement(t);
      assert s[0] in Elements(s);
      assert s[0] in Elements(t) && t[0] in Elements(t);
      LeastIsFirst(s, t[0]);
      LeastIsFirst(t, s[0]);
      LexTotal(s[0], t[0]);
      FirstIsAlone(s);
      FirstIsAlone(t);
      OrderedIsUnique(s[1..], t[1..]);
      assert s == [s[0]] + s[1..] && t == [t[0]] + t[1..];
    }
  }

  lemma SomeElement(s: seq<string>)
    ensures s != [] ==> Elements(s) != {}
  {
    assert s != [] ==> s[0] in Elements(s);
  }

  lemma LeastIsFirst(s: seq<string>, k: string)
    requires Ordered(s) && k in s
    ensures s != [] && (k == s[0] || LexLess(s[0], k))
  {
  }

  lemma FirstIsAlone(s: seq<string>)
    requires Ordered(s) && s != []
    ensures Elements(s[1..]) == Elements(s) - {s[0]}
  {
    forall i | 0 <= i < |s| - 1 ensures s[1..][i] != s[0] {
      LexTotal(s[0], s[i + 1]);
    }
    forall k | k in Elements(s) - {s[0]} ensures k in s[1..] {
      var i :| 0 <= i < |s| && s[i] == k;
      assert s[1..][i - 1] == k;
    }
  }

  /** Sorting a sorted list again changes nothing. */
  lemma SortedUniqueTwice(s: seq<string>)
    ensures SortedUnique(SortedUnique(s)) == SortedUnique(s)
  {
    SortedUniqueSorts(s);
    SortedUniqueSorts(SortedUnique(s));
    OrderedIsUnique(SortedUnique(SortedUnique(s)), SortedUnique(s));
  }

  /** The elements of a set, in order. */
  ghost function InOrder(ks: set<string>): (s: seq<string>)
    ensures Ordered(s) && Elements(s) == ks
  {
    if ks == {} then []
    else
      var k :| k in ks;
      InsertedStaysOrdered(InOrder(ks - {k}), k);
      Inserted(InOrder(ks - {k}), k)
  }

  method SortedElements(ks: set<string>) returns (s: seq<string>)
    ensures s == InOrder(ks)
  {
    s := [];
    var rest := ks;
    while rest != {}
      invariant rest <= ks && Ordered(s) && Elements(s) == ks - rest
      decreases rest
    {
      var k :| k in rest;
      rest := rest - {k};
      InsertedStaysOrdered(s, k);
      s := Inserted(s, k);
    }
    OrderedIsUnique(s, InOrder(ks));
  }
}
