/** What a generator reads: the values its intn calls return, in order
    (mask/stream.go:56-120). A draw sequence stands for one digest. */
module Draws {
  import opened Common
  import opened Arith

  datatype Drawn<+T> = Drawn(value: T, rest: seq<nat>)

  /** intn: no draw for a single choice, and otherwise any value below n. */
  function Intn(ds: seq<nat>, n: nat): (d: Drawn<nat>)
    ensures n > 0 ==> d.value < n
  {
    if n <= 1 || ds == [] then Drawn(0, ds) else Drawn(ds[0] % n, ds[1..])
  }

  /** The draws that make intn(n) return v. */
  function Feed(n: nat, v: nat): seq<nat> {
    if n <= 1 then [] else [v]
  }

  lemma FeedIsRead(n: nat, v: nat, more: seq<nat>)
    requires v < n
    ensures Intn(Feed(n, v) + more, n) == Drawn(v, more)
  {
    if n > 1 {
      assert ([v] + more)[1..] == more;
      SmallMod(v, n);
    }
  }

  datatype Alphabet = Decimal | Hex | Base32 | PostCode | Byte

  function Size(a: Alphabet): (n: nat)
    ensures n > 1
  {
    match a case Decimal => 10 case Hex => 16 case Base32 => 32 case PostCode => 36 case Byte => 256
  }

  /** "0123456789", with abcdef after it, "a..z2..7", "0..9A..Z", and a raw byte. */
  function Symbol(a: Alphabet, v: nat): char
    requires v < Size(a)
  {
    match a
    case Decimal => '0' + v as char
    case Hex => if v < 10 then '0' + v as char else 'a' + (v - 10) as char
    case Base32 => if v < 26 then 'a' + v as char else '2' + (v - 26) as char
    case PostCode => if v < 10 then '0' + v as char else 'A' + (v - 10) as char
    case Byte => v as char
  }

  function Prepend(s: string, d: Drawn<string>): Drawn<string> {
    Drawn(s + d.value, d.rest)
  }

  lemma PrependTwice(s: string, t: string, d: Drawn<string>)
    ensures Prepend(s, Prepend(t, d)) == Prepend(s + t, d)
    ensures Prepend("", d) == d
  {
    assert s + (t + d.value) == (s + t) + d.value;
    assert "" + d.value == d.value;
  }

  /** n symbols, one draw each. */
  function Symbols(a: Alphabet, n: nat, ds: seq<nat>): (d: Drawn<string>)
    ensures |d.value| == n
  {
    if n == 0 then Drawn("", ds) else
    var head := Intn(ds, Size(a));
    var tail := Symbols(a, n - 1, head.rest);
    Drawn([Symbol(a, head.value)] + tail.value, tail.rest)
  }

  /** digits: n decimal digits, the first 1-9 unless leadingZero. */
  function Digits(n: nat, leadingZero: bool, ds: seq<nat>): (d: Drawn<string>)
    ensures |d.value| == n
  {
    if n == 0 then Drawn("", ds)
    else if leadingZero then Symbols(Decimal, n, ds)
    else
      var head := Intn(ds, 9);
      var tail := Symbols(Decimal, n - 1, head.rest);
      Drawn([Symbol(Decimal, 1 + head.value)] + tail.value, tail.rest)
  }

  /** k in base Size(a), least significant symbol first. */
  function Numeral(a: Alphabet, n: nat, k: nat): (s: string)
    ensures |s| == n
  {
    if n == 0 then "" else [Symbol(a, k % Size(a))] + Numeral(a, n - 1, k / Size(a))
  }

  function FeedNumeral(a: Alphabet, n: nat, k: nat): seq<nat> {
    if n == 0 then [] else [k % Size(a)] + FeedNumeral(a, n - 1, k / Size(a))
  }

  lemma {:induction false} NumeralIsRead(a: Alphabet, n: nat, k: nat, more: seq<nat>)
    ensures Symbols(a, n, FeedNumeral(a, n, k) + more) == Drawn(Numeral(a, n, k), more)
  {
    hide Symbol, Size;
    if n == 0 {
      assert FeedNumeral(a, n, k) + more == more;
    } else {
      hide Symbols;
      var low, high := k % Size(a), k / Size(a);
      var tail := FeedNumeral(a, n - 1, high) + more;
      NumeralIsRead(a, n - 1, high, more);
      SymbolIsRead(a, n, low, tail);
      assert FeedNumeral(a, n, k) + more == [low] + tail;
    }
  }

  lemma SymbolIsRead(a: Alphabet, n: pos, v: nat, tail: seq<nat>)
    requires v < Size(a)
    ensures Symbols(a, n, [v] + tail) == Prepend([Symbol(a, v)], Symbols(a, n - 1, tail))
  {
    hide Symbol;
    FeedIsRead(Size(a), v, tail);
  }

  lemma SymbolTells(a: Alphabet, u: nat, v: nat)
    requires u < Size(a) && v < Size(a) && Symbol(a, u) == Symbol(a, v)
    ensures u == v
  {
  }

  /** Different numbers below Size(a)^n are spelled differently. */
  lemma {:induction false} NumeralsDiffer(a: Alphabet, n: nat, j: nat, k: nat)
    requires j < Pow(Size(a), n) && k < Pow(Size(a), n) && Numeral(a, n, j) == Numeral(a, n, k)
    ensures j == k
  {
    if n > 0 {
      hide Symbol, Size, Numeral, Pow;
      var size := Size(a);
      NumeralParts(a, n, j);
      NumeralParts(a, n, k);
      HighPart(a, n, j);
      HighPart(a, n, k);
      SymbolTells(a, j % size, k % size);
      NumeralsDiffer(a, n - 1, j / size, k / size);
      SameQuotients(j, k, size);
    }
  }

  lemma HighPart(a: Alphabet, n: nat, k: nat)
    requires n > 0 && k < Pow(Size(a), n)
    ensures 0 <= k / Size(a) < Pow(Size(a), n - 1) && 0 <= k % Size(a) < Size(a)
  {
    hide Size;
    assert Pow(Size(a), n) == Pow(Size(a), n - 1) * Size(a);
    hide Pow;
    DivModBound(k, Pow(Size(a), n - 1), Size(a));
  }

  lemma NumeralParts(a: Alphabet, n: pos, k: nat)
    ensures Numeral(a, n, k)[0] == Symbol(a, k % Size(a)) && Numeral(a, n, k)[1..] == Numeral(a, n - 1, k / Size(a))
  {
    hide Symbol, Size;
  }

  // ---------- how many outputs ----------

  datatype Outcome = Text(text: string) | NoRoom

  /** feed(0), ..., feed(n-1) are draw sequences with pairwise different outputs. */
  ghost predicate Separates(mask: seq<nat> -> Outcome, feed: nat -> seq<nat>, n: nat) {
    && (forall k: nat :: k < n ==> mask(feed(k)).Text?)
    && (forall j: nat, k: nat :: j < k < n ==> mask(feed(j)) != mask(feed(k)))
  }

  /** Over all draw sequences, the generator has at least n different outputs. */
  ghost predicate EmitsAtLeast(mask: seq<nat> -> Outcome, n: nat) {
    exists feed: nat -> seq<nat> :: Separates(mask, feed, n)
  }

  lemma EmitsFewer(mask: seq<nat> -> Outcome, m: nat, n: nat)
    requires EmitsAtLeast(mask, n) && m <= n
    ensures EmitsAtLeast(mask, m)
  {
    var feed: nat -> seq<nat> :| Separates(mask, feed, n);
    assert Separates(mask, feed, m);
  }

  // ---------- decimal numbers with no leading zero ----------

  /** The digits(n, false) text for 0 <= k < 9 * 10^(n-1), and its draws. */
  function LeadingNumeral(n: pos, k: nat): (s: string)
    ensures |s| == n
  {
    [Symbol(Decimal, 1 + k % 9)] + Numeral(Decimal, n - 1, k / 9)
  }

  function FeedLeading(n: pos, k: nat): seq<nat> {
    [k % 9] + FeedNumeral(Decimal, n - 1, k / 9)
  }

  lemma LeadingIsRead(n: pos, k: nat, more: seq<nat>)
    ensures Digits(n, false, FeedLeading(n, k) + more) == Drawn(LeadingNumeral(n, k), more)
  {
    var tail := FeedNumeral(Decimal, n - 1, k / 9) + more;
    NumeralIsRead(Decimal, n - 1, k / 9, more);
    FeedIsRead(9, k % 9, tail);
    assert FeedLeading(n, k) + more == Feed(9, k % 9) + tail;
  }

  lemma LeadingsDiffer(n: pos, j: nat, k: nat)
    requires j < 9 * Pow(10, n - 1) && k < 9 * Pow(10, n - 1)
    requires LeadingNumeral(n, j) == LeadingNumeral(n, k)
    ensures j == k
  {
    assert LeadingNumeral(n, j)[0] == LeadingNumeral(n, k)[0];
    assert LeadingNumeral(n, j)[1..] == Numeral(Decimal, n - 1, j / 9);
    assert LeadingNumeral(n, k)[1..] == Numeral(Decimal, n - 1, k / 9);
    NumeralsDiffer(Decimal, n - 1, j / 9, k / 9);
  }

  /** A generator that emits prefix + n symbols has Size^n outputs. */
  lemma NumeralsAreMany(a: Alphabet, n: nat, mask: seq<nat> -> Outcome, prefix: string)
    requires forall ds: seq<nat> :: mask(ds) == Text(prefix + Symbols(a, n, ds).value)
    ensures EmitsAtLeast(mask, Pow(Size(a), n))
  {
    var feed := (k: nat) => FeedNumeral(a, n, k);
    forall k: nat ensures mask(feed(k)) == Text(prefix + Numeral(a, n, k)) {
      NumeralIsRead(a, n, k, []);
      assert FeedNumeral(a, n, k) + [] == feed(k);
    }
    forall j: nat, k: nat | j < k < Pow(Size(a), n) ensures mask(feed(j)) != mask(feed(k)) {
      if mask(feed(j)) == mask(feed(k)) {
        assert (prefix + Numeral(a, n, j))[|prefix|..] == Numeral(a, n, j);
        assert (prefix + Numeral(a, n, k))[|prefix|..] == Numeral(a, n, k);
        NumeralsDiffer(a, n, j, k);
      }
    }
    assert Separates(mask, feed, Pow(Size(a), n));
  }

  /** One draw that decides the output: as many outputs as values. */
  lemma OneDrawIsMany(mask: seq<nat> -> Outcome, n: nat, spell: nat -> string)
    requires forall k: nat :: k < n ==> mask(Feed(n, k)) == Text(spell(k))
    requires forall j: nat, k: nat :: j < k < n ==> spell(j) != spell(k)
    ensures EmitsAtLeast(mask, n)
  {
    var feed := (k: nat) => Feed(n, k);
    forall j: nat, k: nat | j < k < n ensures mask(feed(j)) != mask(feed(k)) {
      assert mask(Feed(n, j)) == Text(spell(j)) && mask(Feed(n, k)) == Text(spell(k));
    }
    assert Separates(mask, feed, n);
  }

  // ---------- independent choices ----------

  /** Three independent choices, each below its own bound. */
  datatype Choice = Choice(first: nat, second: nat, third: nat)

  predicate Below(t: Choice, bounds: Choice) {
    t.first < bounds.first && t.second < bounds.second && t.third < bounds.third
  }

  /** Different choices feed draw sequences with different outputs. */
  ghost predicate SeparatesChoices(mask: seq<nat> -> Outcome, feed: Choice -> seq<nat>, bounds: Choice) {
    && (forall t: Choice :: Below(t, bounds) ==> mask(feed(t)).Text?)
    && (forall t: Choice, u: Choice :: Below(t, bounds) && Below(u, bounds) && mask(feed(t)) == mask(feed(u)) ==> t == u)
  }

  /** k as three digits of mixed radix a, b. */
  function Split(k: nat, a: nat, b: nat): Choice
    requires a > 0 && b > 0
  {
    Choice(k % a, k / a % b, k / a / b)
  }

  lemma SplitFits(k: nat, a: nat, b: nat, c: nat)
    requires a > 0 && b > 0 && k < a * b * c
    ensures Below(Split(k, a, b), Choice(a, b, c))
  {
    assert a * b * c == (c * b) * a;
    DivModBound(k, c * b, a);
    DivModBound(k / a, c, b);
  }

  lemma SplitTells(j: nat, k: nat, a: nat, b: nat)
    requires a > 0 && b > 0 && Split(j, a, b) == Split(k, a, b)
    ensures j == k
  {
    SameQuotients(j / a, k / a, b);
    SameQuotients(j, k, a);
  }

  /** Any one-to-one numbering of the choices numbers as many outputs. */
  lemma NumberedAreMany(mask: seq<nat> -> Outcome, feed: Choice -> seq<nat>, bounds: Choice, split: nat -> Choice, n: nat)
    requires SeparatesChoices(mask, feed, bounds)
    requires forall k: nat :: k < n ==> Below(split(k), bounds)
    requires forall j: nat, k: nat :: split(j) == split(k) ==> j == k
    ensures EmitsAtLeast(mask, n)
  {
    var flat := (k: nat) => feed(split(k));
    forall j: nat, k: nat | j < k < n ensures mask(flat(j)) != mask(flat(k)) {
      assert Below(split(j), bounds) && Below(split(k), bounds) && split(j) != split(k);
    }
    assert Separates(mask, flat, n);
  }

  lemma ChoicesAreMany(mask: seq<nat> -> Outcome, feed: Choice -> seq<nat>, bounds: Choice)
    requires bounds.first > 0 && bounds.second > 0 && SeparatesChoices(mask, feed, bounds)
    ensures EmitsAtLeast(mask, bounds.first * bounds.second * bounds.third)
  {
    var Choice(a, b, c) := bounds;
    var split := (k: nat) => Split(k, a, b);
    forall k: nat | k < a * b * c ensures Below(split(k), bounds) {
      SplitFits(k, a, b, c);
    }
    forall j: nat, k: nat | split(j) == split(k) ensures j == k {
      SplitTells(j, k, a, b);
    }
    NumberedAreMany(mask, feed, bounds, split, a * b * c);
  }

  // ---------- the stream seen by a generator's loops ----------

  /** The stream's draws still to come. */
  class Tape {
    var left: seq<nat>

    constructor (ds: seq<nat>)
      ensures left == ds
    {
      left := ds;
    }

    method NextIntn(n: nat) returns (v: nat)
      modifies this
      ensures Drawn(v, left) == Intn(old(left), n)
    {
      var d := Intn(left, n);
      left := d.rest;
      return d.value;
    }

    /** base32, hexdigits and the address code's loop. */
    method NextSymbols(a: Alphabet, n: nat) returns (s: string)
      modifies this
      ensures Drawn(s, left) == Symbols(a, n, old(left))
    {
      s := "";
      ghost var start := left;
      PrependTwice("", "", Symbols(a, n, left));
      for i := 0 to n
        invariant Symbols(a, n, start) == Prepend(s, Symbols(a, n - i, left))
      {
        ghost var so, before := s, left;
        var v := NextIntn(Size(a));
        s := s + [Symbol(a, v)];
        PrependTwice(so, [Symbol(a, v)], Symbols(a, n - i - 1, left));
        assert Symbols(a, n - i, before) == Prepend([Symbol(a, v)], Symbols(a, n - i - 1, left));
      }
      assert s + "" == s;
    }

    method NextDigits(n: nat, leadingZero: bool) returns (s: string)
      modifies this
      ensures Drawn(s, left) == Digits(n, leadingZero, old(left))
    {
      s := "";
      ghost var start := left;
      PrependTwice("", "", Symbols(Decimal, n, left));
      for i := 0 to n
        invariant i == 0 ==> s == "" && left == start
        invariant i > 0 || leadingZero ==> Digits(n, leadingZero, start) == Prepend(s, Symbols(Decimal, n - i, left))
      {
        ghost var so, before := s, left;
        if i == 0 && !leadingZero {
          var v := NextIntn(9);
          s := [Symbol(Decimal, 1 + v)];
        } else {
          var v := NextIntn(10);
          s := s + [Symbol(Decimal, v)];
          PrependTwice(so, [Symbol(Decimal, v)], Symbols(Decimal, n - i - 1, left));
          assert Symbols(Decimal, n - i, before) == Prepend([Symbol(Decimal, v)], Symbols(Decimal, n - i - 1, left));
        }
      }
      assert s + "" == s;
    }
  }
}
