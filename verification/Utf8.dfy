/** What DecodeRune and the folding mean: UTF-8 both ways, and the letters and digits of a
    text whatever their case and whatever stands between them (mask/mask.go:622-660). */
module Utf8 {
  import opened Runes
  import opened ByteStream

  /** The code points UTF-8 spells: all but the surrogates. */
  predicate Scalar(r: nat) {
    r < 0xD800 || 0xE000 <= r < 0x11_0000
  }

  function Continued(v: nat): byte
    requires v < 0x40
  {
    0x80 + v
  }

  /** The shortest spelling of a code point, the only one there is. */
  function Encoded(r: nat): (s: seq<byte>)
    requires Scalar(r)
    ensures 1 <= |s| <= 4
  {
    if r < 0x80 then [r]
    else if r < 0x800 then [0xC0 + r / 0x40, Continued(r % 0x40)]
    else if r < 0x1_0000 then [0xE0 + r / 0x40 / 0x40, Continued(r / 0x40 % 0x40), Continued(r % 0x40)]
    else [0xF0 + r / 0x40 / 0x40 / 0x40, Continued(r / 0x40 / 0x40 % 0x40), Continued(r / 0x40 % 0x40), Continued(r % 0x40)]
  }

  /** r in sixes of bits, the last three of them and what is above. */
  lemma Sixes(r: nat)
    ensures var q := r / 0x40;
      && r == q * 0x40 + r % 0x40 && q == q / 0x40 * 0x40 + q % 0x40
      && q / 0x40 == q / 0x40 / 0x40 * 0x40 + q / 0x40 % 0x40
      && (0x800 <= r ==> q >= 0x20) && (r < 0x800 ==> q < 0x20)
  {
  }

  lemma OneByte(r: nat, more: seq<byte>)
    requires r < 0x80
    ensures DecodeRune(Encoded(r) + more) == Decoded(r, 1)
  {
  }

  lemma TwoBytes(a: nat, b: nat, s: seq<byte>)
    requires 2 <= a < 0x20 && b < 0x40 && |s| >= 2 && s[0] == 0xC0 + a && s[1] == 0x80 + b
    ensures DecodeRune(s) == Decoded(a * 0x40 + b, 2)
  {
  }

  lemma ThreeBytes(a: nat, b: nat, c: nat, s: seq<byte>)
    requires a < 0x10 && b < 0x40 && c < 0x40 && (a == 0 ==> b >= 0x20) && (a == 0xD ==> b < 0x20)
    requires |s| >= 3 && s[0] == 0xE0 + a && s[1] == 0x80 + b && s[2] == 0x80 + c
    ensures DecodeRune(s) == Decoded((a * 0x40 + b) * 0x40 + c, 3)
  {
  }

  lemma FourBytes(a: nat, b: nat, c: nat, e: nat, s: seq<byte>)
    requires a < 5 && b < 0x40 && c < 0x40 && e < 0x40 && (a == 0 ==> b >= 0x10) && (a == 4 ==> b < 0x10)
    requires |s| >= 4 && s[0] == 0xF0 + a && s[1] == 0x80 + b && s[2] == 0x80 + c && s[3] == 0x80 + e
    ensures DecodeRune(s) == Decoded(((a * 0x40 + b) * 0x40 + c) * 0x40 + e, 4)
  {
  }

  lemma EncodedIsDecoded(r: nat, more: seq<byte>)
    requires Scalar(r)
    ensures DecodeRune(Encoded(r) + more) == Decoded(r, |Encoded(r)|)
  {
    hide DecodeRune;
    var s := Encoded(r) + more;
    var q := r / 0x40;
    Sixes(r);
    if r < 0x80 {
      OneByte(r, more);
    } else if r < 0x800 {
      TwoBytes(q, r % 0x40, s);
    } else if r < 0x1_0000 {
      ThreeBytes(q / 0x40, q % 0x40, r % 0x40, s);
    } else {
      FourBytes(q / 0x40 / 0x40, q / 0x40 % 0x40, q % 0x40, r % 0x40, s);
    }
  }

  /** The four shapes a spelling may have. */
  datatype Shape = One | Two | Three | Four | Wrong

  function ShapeOf(s: seq<byte>): Shape
    requires s != []
  {
    if s[0] < 0x80 then One
    else if 0xC2 <= s[0] <= 0xDF && InRange(s, 1, 0x80, 0xBF) then Two
    else if 0xE0 <= s[0] <= 0xEF && InRange(s, 1, 0x80, 0xBF) && InRange(s, 2, 0x80, 0xBF)
      && (s[0] == 0xE0 ==> s[1] >= 0xA0) && (s[0] == 0xED ==> s[1] < 0xA0) then Three
    else if 0xF0 <= s[0] <= 0xF4 && InRange(s, 1, 0x80, 0xBF) && InRange(s, 2, 0x80, 0xBF) && InRange(s, 3, 0x80, 0xBF)
      && (s[0] == 0xF0 ==> s[1] >= 0x90) && (s[0] == 0xF4 ==> s[1] < 0x90) then Four
    else Wrong
  }

  /** Anything else is one byte of error: no overlong spelling, no surrogate, nothing cut short. */
  lemma DecodedOrError(s: seq<byte>)
    requires s != []
    ensures var d := DecodeRune(s);
      d == Decoded(0xFFFD, 1) || (Scalar(d.rune) && d.width == |Encoded(d.rune)| && s[..d.width] == Encoded(d.rune))
  {
    match ShapeOf(s)
    case One =>
    case Wrong =>
    case Two => SpelledTwo(s[0] as int - 0xC0, s[1] as int - 0x80, s);
    case Three => SpelledThree(s[0] as int - 0xE0, s[1] as int - 0x80, s[2] as int - 0x80, s);
    case Four => SpelledFour(s[0] as int - 0xF0, s[1] as int - 0x80, s[2] as int - 0x80, s[3] as int - 0x80, s);
  }

  lemma SpelledTwo(a: nat, b: nat, s: seq<byte>)
    requires 2 <= a < 0x20 && b < 0x40 && |s| >= 2 && s[0] == 0xC0 + a && s[1] == 0x80 + b
    ensures Scalar(a * 0x40 + b) && Encoded(a * 0x40 + b) == s[..2]
    ensures DecodeRune(s) == Decoded(a * 0x40 + b, 2)
  {
    TwoBytes(a, b, s);
  }

  lemma SpelledThree(a: nat, b: nat, c: nat, s: seq<byte>)
    requires a < 0x10 && b < 0x40 && c < 0x40 && (a == 0 ==> b >= 0x20) && (a == 0xD ==> b < 0x20)
    requires |s| >= 3 && s[0] == 0xE0 + a && s[1] == 0x80 + b && s[2] == 0x80 + c
    ensures var r := (a * 0x40 + b) * 0x40 + c; Scalar(r) && Encoded(r) == s[..3]
    ensures DecodeRune(s) == Decoded((a * 0x40 + b) * 0x40 + c, 3)
  {
    hide DecodeRune;
    ThreeBytes(a, b, c, s);
    var q := a * 0x40 + b;
    assert (q * 0x40 + c) / 0x40 == q && q / 0x40 == a;
  }

  lemma SpelledFour(a: nat, b: nat, c: nat, e: nat, s: seq<byte>)
    requires a < 5 && b < 0x40 && c < 0x40 && e < 0x40 && (a == 0 ==> b >= 0x10) && (a == 4 ==> b < 0x10)
    requires |s| >= 4 && s[0] == 0xF0 + a && s[1] == 0x80 + b && s[2] == 0x80 + c && s[3] == 0x80 + e
    ensures var r := ((a * 0x40 + b) * 0x40 + c) * 0x40 + e; Scalar(r) && Encoded(r) == s[..4]
    ensures DecodeRune(s) == Decoded(((a * 0x40 + b) * 0x40 + c) * 0x40 + e, 4)
  {
    hide DecodeRune;
    FourBytes(a, b, c, e, s);
    var q := a * 0x40 + b;
    var p := q * 0x40 + c;
    assert (p * 0x40 + e) / 0x40 == p && p / 0x40 == q && q / 0x40 == a;
  }

  // ---------- the folding ----------

  function EncodedAll(rs: seq<nat>): seq<byte>
    requires forall r :: r in rs ==> Scalar(r)
  {
    if rs == [] then [] else Encoded(rs[0]) + EncodedAll(rs[1..])
  }

  /** The letters and digits among these, in lower case. */
  function Lettered(u: Unicode, rs: seq<nat>): seq<nat> {
    if rs == [] then [] else
    (if u.isLetter(rs[0]) || u.isDigit(rs[0]) then [u.toLower(rs[0])] else []) + Lettered(u, rs[1..])
  }

  /** Of a text spelled in UTF-8 the folding keeps the letters and digits, in lower case, and
      nothing of what stands between them. */
  lemma {:induction false} FoldedKeepsTheLetters(u: Unicode, rs: seq<nat>)
    requires forall r :: r in rs ==> Scalar(r)
    ensures Folded(u, EncodedAll(rs)) == Lettered(u, rs)
  {
    if rs != [] {
      var s, more := EncodedAll(rs), EncodedAll(rs[1..]);
      EncodedIsDecoded(rs[0], more);
      assert s[|Encoded(rs[0])|..] == more;
      FoldedKeepsTheLetters(u, rs[1..]);
    }
  }

  /** In ASCII these are a to z, A to Z and 0 to 9. */
  lemma AsciiIsLettered(u: Unicode, r: nat)
    requires KnowsAscii(u) && r < 0x80
    ensures Lettered(u, [r]) ==
      if 'A' as int <= r <= 'Z' as int then [r + 32]
      else if 'a' as int <= r <= 'z' as int || '0' as int <= r <= '9' as int then [r]
      else []
  {
    assert Lettered(u, []) == [];
    assert [r][1..] == [];
  }
}
