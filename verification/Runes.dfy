/** Letters and digits in order, whatever stands between them: foldEqual and the
    probe that is never fold-equal to its argument (mask/mask.go:622-691). */
module Runes {
  import opened ByteStream

  /** unicode.IsLetter, IsDigit and ToLower; beyond ASCII they stay uninterpreted. */
  datatype Unicode = Unicode(isLetter: nat -> bool, isDigit: nat -> bool, toLower: nat -> nat)

  predicate AsciiLetter(r: nat) {
    0x41 <= r <= 0x5A || 0x61 <= r <= 0x7A
  }

  predicate AsciiDigit(r: nat) {
    0x30 <= r <= 0x39
  }

  ghost predicate KnowsAscii(u: Unicode) {
    forall r: nat :: r < 0x80 ==>
      && u.isLetter(r) == AsciiLetter(r) && u.isDigit(r) == AsciiDigit(r)
      && u.toLower(r) == if 0x41 <= r <= 0x5A then r + 0x20 else r
  }

  // ---------- utf8.DecodeRune ----------

  datatype Decoded = Decoded(rune: nat, width: nat)

  const RUNE_ERROR := Decoded(0xFFFD, 1)

  predicate InRange(s: seq<byte>, i: nat, low: int, high: int) {
    i < |s| && low <= s[i] <= high
  }

  /** A continuation byte's six bits. */
  function Tail(s: seq<byte>, i: nat): nat
    requires i < |s| && s[i] >= 0x80
  {
    s[i] as int - 0x80
  }

  function DecodeRune(s: seq<byte>): (d: Decoded)
    requires s != []
    ensures 1 <= d.width <= |s|
  {
    var b := s[0] as int;
    if b < 0x80 then Decoded(b, 1)
    else if 0xC2 <= b <= 0xDF && InRange(s, 1, 0x80, 0xBF) then
      Decoded((b - 0xC0) * 0x40 + Tail(s, 1), 2)
    else if 0xE0 <= b <= 0xEF
      && InRange(s, 1, if b == 0xE0 then 0xA0 else 0x80, if b == 0xED then 0x9F else 0xBF)
      && InRange(s, 2, 0x80, 0xBF) then
      Decoded((b - 0xE0) * 0x1000 + Tail(s, 1) * 0x40 + Tail(s, 2), 3)
    else if 0xF0 <= b <= 0xF4
      && InRange(s, 1, if b == 0xF0 then 0x90 else 0x80, if b == 0xF4 then 0x8F else 0xBF)
      && InRange(s, 2, 0x80, 0xBF) && InRange(s, 3, 0x80, 0xBF) then
      Decoded((b - 0xF0) * 0x4_0000 + Tail(s, 1) * 0x1000 + Tail(s, 2) * 0x40 + Tail(s, 3), 4)
    else RUNE_ERROR
  }

  // ---------- foldEqual ----------

  predicate Counts(u: Unicode, r: nat) {
    u.isLetter(r) || u.isDigit(r)
  }

  /** The letters and digits of s, lowercased, in order. */
  function Folded(u: Unicode, s: seq<byte>): seq<nat> {
    if s == [] then [] else
    var d := DecodeRune(s);
    if Counts(u, d.rune) then [u.toLower(d.rune)] + Folded(u, s[d.width..]) else Folded(u, s[d.width..])
  }

  /** The next letter or digit, lowercased, and the bytes consumed; -1 when there is none. */
  method NextFoldRune(u: Unicode, s: seq<byte>) returns (r: int, n: nat)
    ensures n <= |s|
    ensures r >= -1 && (r == -1 <==> Folded(u, s) == [])
    ensures r >= 0 ==> Folded(u, s) == [r] + Folded(u, s[n..]) && n > 0
  {
    var i := 0;
    while i < |s|
      invariant 0 <= i <= |s| && Folded(u, s[i..]) == Folded(u, s)
    {
      var d := DecodeRune(s[i..]);
      assert s[i..][d.width..] == s[i + d.width..];
      i := i + d.width;
      if u.isLetter(d.rune) || u.isDigit(d.rune) {
        return u.toLower(d.rune), i;
      }
    }
    return -1, |s|;
  }

  /** FoldEqual decides equality of the folded sequences, so it is an equivalence. */
  method FoldEqual(u: Unicode, a: seq<byte>, b: seq<byte>) returns (same: bool)
    ensures same <==> Folded(u, a) == Folded(u, b)
  {
    var x, y := a, b;
    while true
      invariant Folded(u, x) == Folded(u, y) <==> Folded(u, a) == Folded(u, b)
      decreases |x|
    {
      var ra, na := NextFoldRune(u, x);
      var rb, nb := NextFoldRune(u, y);
      if ra != rb {
        assert Folded(u, x) != Folded(u, y) by {
          if ra >= 0 && rb >= 0 {
            assert Folded(u, x)[0] == ra && Folded(u, y)[0] == rb;
          }
        }
        return false;
      }
      if ra < 0 {
        return true;
      }
      ghost var fx, fy := Folded(u, x), Folded(u, y);
      assert fx[1..] == Folded(u, x[na..]) && fy[1..] == Folded(u, y[nb..]);
      assert fx == [fx[0]] + fx[1..] && fy == [fy[0]] + fy[1..];
      x, y := x[na..], y[nb..];
    }
  }

  // ---------- probeValue's bytes ----------

  /** stepByte: the next letter or digit in its class; any other byte stays. */
  function StepByte(c: byte): (b: byte)
    ensures c < 0x80 <==> b < 0x80
    ensures b != c <==> AsciiLetter(c) || AsciiDigit(c)
    ensures AsciiLetter(c) ==> AsciiLetter(b)
    ensures AsciiDigit(c) ==> AsciiDigit(b)
  {
    if 0x30 <= c <= 0x39 then 0x30 + (c - 0x30 + 1) % 10
    else if 0x61 <= c <= 0x7A then 0x61 + (c - 0x61 + 1) % 26
    else if 0x41 <= c <= 0x5A then 0x41 + (c - 0x41 + 1) % 26
    else c
  }

  function Stepped(s: seq<byte>): (t: seq<byte>)
    ensures |t| == |s| && forall i :: 0 <= i < |s| ==> t[i] == StepByte(s[i])
  {
    seq<byte>(|s|, i requires 0 <= i < |s| => StepByte(s[i]))
  }

  function Probe(s: seq<byte>): seq<byte> {
    if Stepped(s) == s then s + [0x37] else Stepped(s)
  }

  method ProbeBytes(src: seq<byte>) returns (b: seq<byte>)
    ensures b == Probe(src) && b != []
  {
    b := [];
    var changed := false;
    for i := 0 to |src|
      invariant |b| == i && forall k :: 0 <= k < i ==> b[k] == StepByte(src[k])
      invariant changed <==> exists k :: 0 <= k < i && b[k] != src[k]
    {
      b := b + [StepByte(src[i])];
      if b[i] != src[i] {
        changed := true;
      }
    }
    assert b == Stepped(src);
    if !changed {
      b := b + [0x37];
    }
  }

  /** Stepping moves no rune boundary: only ASCII bytes change, and to ASCII ones. */
  lemma StepKeepsRunes(s: seq<byte>)
    requires s != []
    ensures DecodeRune(Stepped(s)) == if s[0] < 0x80 then Decoded(StepByte(s[0]), 1) else DecodeRune(s)
  {
  }

  /** A head that stepping leaves alone leaves the difference to the tail. */
  lemma SameHead(u: Unicode, s: seq<byte>)
    requires s != [] && StepByte(s[0]) == s[0]
    ensures var d := DecodeRune(s);
      && Stepped(s)[d.width..] == Stepped(s[d.width..])
      && (Folded(u, Stepped(s[d.width..])) != Folded(u, s[d.width..]) ==> Folded(u, Stepped(s)) != Folded(u, s))
  {
    var t, d := Stepped(s), DecodeRune(s);
    StepKeepsRunes(s);
    assert t[d.width..] == Stepped(s[d.width..]);
    assert DecodeRune(t) == d;
    var c := u.toLower(d.rune);
    assert ([c] + Folded(u, t[d.width..]))[1..] == Folded(u, t[d.width..]);
    assert ([c] + Folded(u, s[d.width..]))[1..] == Folded(u, s[d.width..]);
  }

  lemma {:induction false} SteppingShows(u: Unicode, s: seq<byte>)
    requires KnowsAscii(u) && Stepped(s) != s
    ensures Folded(u, Stepped(s)) != Folded(u, s)
  {
    if StepByte(s[0]) != s[0] {
      StepKeepsRunes(s);
      assert Folded(u, Stepped(s))[0] == u.toLower(StepByte(s[0])) && Folded(u, s)[0] == u.toLower(s[0]);
      LowerSteps(u, s[0]);
    } else {
      var width := DecodeRune(s).width;
      var i :| 0 <= i < |s| && StepByte(s[i]) != s[i];
      OnlyHeadIsAscii(s, i);
      assert s[width..][i - width] == s[i];
      SteppingShows(u, s[width..]);
      SameHead(u, s);
    }
  }

  /** A rune of more than one byte holds no ASCII byte. */
  lemma OnlyHeadIsAscii(s: seq<byte>, i: nat)
    requires s != [] && i < |s| && StepByte(s[i]) != s[i] && StepByte(s[0]) == s[0]
    ensures i >= DecodeRune(s).width
  {
  }

  lemma LowerSteps(u: Unicode, c: byte)
    requires KnowsAscii(u) && StepByte(c) != c
    ensures u.toLower(StepByte(c)) != u.toLower(c)
  {
    assert c < 0x80 && StepByte(c) < 0x80;
  }

  /** An ASCII byte at the end joins no rune before it. */
  lemma {:induction false} SevenIsAppended(u: Unicode, s: seq<byte>)
    requires KnowsAscii(u)
    ensures Folded(u, s + [0x37]) == Folded(u, s) + [0x37]
  {
    var t := s + [0x37];
    if s == [] {
      assert t[1..] == [];
    } else {
      var d := DecodeRune(s);
      assert DecodeRune(t) == d;
      assert t[d.width..] == s[d.width..] + [0x37];
      SevenIsAppended(u, s[d.width..]);
    }
  }

  /** The probe never carries its argument's letters and digits. */
  lemma ProbeIsDifferent(u: Unicode, s: seq<byte>)
    requires KnowsAscii(u)
    ensures Folded(u, Probe(s)) != Folded(u, s)
  {
    if Stepped(s) == s {
      SevenIsAppended(u, s);
    } else {
      SteppingShows(u, s);
    }
  }
}
