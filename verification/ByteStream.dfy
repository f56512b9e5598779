/** The digest expanded into bytes, and the draws taken from them (mask/stream.go:15-69).
    `block` stands for SHA-256 over the digest and a counter. */
module ByteStream {
  import opened Common
  import opened Arith

  type byte = x: int | 0 <= x < 256

  const BLOCK := 32

  /** The counter is 32 bits wide. */
  const BLOCKS := 0x1_0000_0000

  type BlockFn = nat -> seq<byte>

  ghost predicate Blocks(block: BlockFn) {
    forall i: nat :: |block(i)| == BLOCK
  }

  /** The j-th byte of block(0), block(1), ... laid end to end. */
  function ByteAt(block: BlockFn, j: nat): byte {
    var b := block(j / BLOCK);
    if j % BLOCK < |b| then b[j % BLOCK] else 0
  }

  function Bytes(block: BlockFn, from: nat, n: nat): (s: seq<byte>)
    ensures |s| == n && forall k :: 0 <= k < n ==> s[k] == ByteAt(block, from + k)
  {
    seq<byte>(n, k requires 0 <= k => ByteAt(block, from + k))
  }

  /** binary.BigEndian.Uint64. */
  function BigEndian(s: seq<byte>): (v: nat)
    ensures v < Pow(256, |s|)
  {
    if s == [] then 0 else
    MulOrder(BigEndian(s[..|s| - 1]) + 1, Pow(256, |s| - 1), 256);
    BigEndian(s[..|s| - 1]) * 256 + s[|s| - 1]
  }

  /** The first byte weighs most. */
  lemma {:induction false} FirstByteWeighsMost(s: seq<byte>)
    requires s != []
    ensures BigEndian(s) == s[0] * Pow(256, |s| - 1) + BigEndian(s[1..])
  {
    if |s| == 1 {
      assert BigEndian(s[..0]) == 0 && BigEndian(s[1..]) == 0;
    } else {
      var most, rest := s[..|s| - 1], s[1..];
      FirstByteWeighsMost(most);
      assert most[1..] == rest[..|rest| - 1] && rest[|rest| - 1] == s[|s| - 1];
      LastByteWeighsOne(s);
      LastByteWeighsOne(rest);
      hide BigEndian;
      assert Pow(256, |s| - 1) == 256 * Pow(256, |s| - 2);
      Shifted(s[0], Pow(256, |s| - 2), BigEndian(most[1..]), s[|s| - 1]);
    }
  }

  lemma LastByteWeighsOne(s: seq<byte>)
    requires s != []
    ensures BigEndian(s) == BigEndian(s[..|s| - 1]) * 256 + s[|s| - 1]
  {
  }

  lemma Shifted(b: nat, p: nat, r: nat, last: nat)
    ensures (b * p + r) * 256 + last == b * (256 * p) + (r * 256 + last)
  {
  }

  const MAX_UINT64: nat := 0xffff_ffff_ffff_ffff

  /** The k-th eight-byte word from position p on. */
  function WordAt(block: BlockFn, p: nat, k: nat): nat {
    BigEndian(Bytes(block, p + 8 * k, 8))
  }

  /** intn's rejection limit: the words up to it fall evenly over the residues. */
  function AcceptLimit(n: pos): int {
    MAX_UINT64 - MAX_UINT64 % n - 1
  }

  class Stream {
    const block: BlockFn
    var buf: seq<byte>
    var used: nat
    var ctr: nat

    constructor (block: BlockFn)
      requires Blocks(block)
      ensures this.block == block && Valid() && Position() == 0
    {
      this.block := block;
      buf, used, ctr := seq(BLOCK, _ => 0), BLOCK, 0;
    }

    ghost predicate Valid()
      reads this
    {
      && Blocks(block) && |buf| == BLOCK && used <= BLOCK && ctr <= BLOCKS
      && (ctr == 0 ==> used == BLOCK)
      && (ctr > 0 ==> buf == block(ctr - 1))
    }

    /** How many bytes have been read. */
    function Position(): int
      reads this
    {
      ctr * BLOCK - (BLOCK - used)
        + if ctr == 0 then BLOCK - used else 0
    }

    method Refill()
      requires Valid() && used == BLOCK && ctr < BLOCKS
      modifies this
      ensures Valid() && used == 0 && ctr == old(ctr) + 1 && Position() == old(Position())
    {
      buf := block(ctr);
      ctr := ctr + 1;
      used := 0;
    }

    /** read: the next |p| bytes of the expansion, wherever the reads before it stopped. */
    method Read(p: array<byte>)
      requires Valid() && Position() + p.Length <= BLOCKS * BLOCK
      modifies this, p
      ensures Valid() && Position() == old(Position()) + p.Length
      ensures p[..] == Bytes(block, old(Position()), p.Length)
    {
      var start := Position();
      var done := 0;
      while done < p.Length
        invariant Valid() && 0 <= done <= p.Length && Position() == start + done
        invariant forall k :: 0 <= k < done ==> p[k] == ByteAt(block, start + k)
      {
        if used == BLOCK {
          Refill();
        }
        var n := if p.Length - done <= BLOCK - used then p.Length - done else BLOCK - used;
        CopyOut(p, done, n, start);
        used := used + n;
        done := done + n;
      }
      assert forall k :: 0 <= k < p.Length ==> p[..][k] == Bytes(block, start, p.Length)[k];
    }

    /** copy(p[done:], s.buf[s.used:]). */
    method CopyOut(p: array<byte>, done: nat, n: nat, ghost start: nat)
      requires Valid() && used < BLOCK && n <= BLOCK - used && done + n <= p.Length && Position() == start + done
      requires forall k :: 0 <= k < done ==> p[k] == ByteAt(block, start + k)
      modifies p
      ensures forall k :: 0 <= k < done + n ==> p[k] == ByteAt(block, start + k)
    {
      for i := 0 to n
        invariant forall k :: 0 <= k < done + i ==> p[k] == ByteAt(block, start + k)
      {
        BufferHolds(i);
        p[done + i] := buf[used + i];
      }
    }

    lemma BufferHolds(i: nat)
      requires Valid() && used + i < BLOCK && ctr > 0
      ensures Position() + i >= 0 && buf[used + i] == ByteAt(block, Position() + i)
    {
      DivModOf(ctr - 1, used + i, BLOCK);
    }

    method Uint64() returns (v: nat)
      requires Valid() && Position() + 8 <= BLOCKS * BLOCK
      modifies this
      ensures Valid() && Position() == old(Position()) + 8
      ensures v == WordAt(block, old(Position()), 0) && v <= MAX_UINT64
    {
      var b := new byte[8];
      ghost var at := Position();
      Read(b);
      v := BigEndian(b[..]);
      Pow256To8();
    }

    /** intn: the first accepted word's residue. `tries` bounds where the stream holds an
        accepted word, which is what the loop's termination rests on. */
    method Intn(n: nat, ghost tries: nat) returns (r: nat)
      requires Valid() && 0 < n <= MAX_INT64
      requires Position() + 8 * (tries + 1) <= BLOCKS * BLOCK
      requires n > 1 ==> WordAt(block, Position(), tries) <= AcceptLimit(n)
      modifies this
      ensures Valid() && r < n
      ensures n == 1 ==> r == 0 && Position() == old(Position())
      ensures n > 1 ==> (exists k: nat :: FirstAccepted(block, old(Position()), n, k) && k <= tries
                           && Position() == old(Position()) + 8 * (k + 1) && r == WordAt(block, old(Position()), k) % n)
    {
      hide WordAt, AcceptLimit;
      if n <= 1 {
        return 0;
      }
      var limit := AcceptLimit(n);
      ghost var start: nat := Position();
      ghost var k: nat := 0;
      while true
        invariant Valid() && k <= tries && Position() == start + 8 * k
        invariant forall i: nat :: i < k ==> WordAt(block, start, i) > limit
        decreases tries - k
      {
        var v := Uint64();
        WordsFollow(block, start, k);
        if v <= limit {
          assert FirstAccepted(block, start, n, k);
          return v % n;
        }
        k := k + 1;
      }
    }
  }

  /** The k-th word from p on is the first that intn(n) keeps. */
  predicate FirstAccepted(block: BlockFn, p: nat, n: pos, k: nat) {
    WordAt(block, p, k) <= AcceptLimit(n) && forall i: nat :: i < k ==> WordAt(block, p, i) > AcceptLimit(n)
  }

  lemma WordsFollow(block: BlockFn, p: nat, k: nat)
    ensures WordAt(block, p + 8 * k, 0) == WordAt(block, p, k)
  {
    assert p + 8 * k + 8 * 0 == p + 8 * k;
  }

  lemma Pow256To8()
    ensures Pow(256, 8) == MAX_UINT64 + 1
  {
    assert Pow(256, 4) == 256 * Pow(256, 3) && Pow(256, 3) == 256 * Pow(256, 2) && Pow(256, 2) == 0x1_0000;
    assert Pow(256, 5) == 256 * Pow(256, 4) && Pow(256, 6) == 256 * Pow(256, 5);
    assert Pow(256, 7) == 256 * Pow(256, 6) && Pow(256, 8) == 256 * Pow(256, 7);
  }

  // ---------- no modulo bias ----------

  /** The accepted words with residue r. */
  function Accepted(n: pos, r: nat, bound: nat): set<nat> {
    set v: nat | v < bound && v % n == r
  }

  lemma ResidueWithin(q: nat, v: nat, low: nat, n: nat)
    requires n > 0 && low == q * n && low <= v < low + n
    ensures v % n == v - low
  {
    DivModOf(q, v - low, n);
  }

  /** A further run of n words holds each residue once. */
  lemma OneMoreRun(n: nat, r: nat, q: nat, low: nat)
    requires r < n && low == q * n
    ensures Accepted(n, r, low + n) == Accepted(n, r, low) + {low + r}
  {
    hide *;
    var wide, narrow := Accepted(n, r, low + n), Accepted(n, r, low) + {low + r};
    forall v: nat ensures v in wide <==> v in narrow {
      AcceptedMeans(n, r, low + n, v);
      AcceptedMeans(n, r, low, v);
      if low <= v < low + n {
        ResidueWithin(q, v, low, n);
      }
    }
  }

  lemma AcceptedMeans(n: pos, r: nat, bound: nat, v: nat)
    ensures v in Accepted(n, r, bound) <==> v < bound && v % n == r
  {
  }

  lemma NoneAcceptedYet(n: nat, r: nat)
    requires r < n
    ensures Accepted(n, r, 0) == {}
  {
  }

  lemma OneMoreTimes(q: nat, n: nat)
    requires q > 0
    ensures 0 <= (q - 1) * n && (q - 1) * n + n == q * n && 0 * n == 0
  {
  }

  lemma {:induction false} ResidueCount(n: nat, r: nat, q: nat)
    requires r < n
    ensures |Accepted(n, r, q * n)| == q
  {
    hide Accepted;
    if q == 0 {
      NoneAcceptedYet(n, r);
    } else {
      OneMoreTimes(q, n);
      var low := (q - 1) * n;
      ResidueCount(n, r, q - 1);
      OneMoreRun(n, r, q - 1, low);
      AcceptedMeans(n, r, low, low + r);
    }
  }

  /** Every residue has the same number of accepted 64-bit words. */
  lemma DrawsAreUnbiased(n: nat, r: nat)
    requires 0 < n <= MAX_INT64 && r < n
    ensures AcceptLimit(n) >= 0
    ensures |set v: nat | v <= AcceptLimit(n) && v % n == r| == MAX_UINT64 / n
  {
    var q := MAX_UINT64 / n;
    assert MAX_UINT64 == q * n + MAX_UINT64 % n;
    assert AcceptLimit(n) == q * n - 1;
    MulOrder(1, q, n);
    ResidueCount(n, r, q);
    assert (set v: nat | v <= AcceptLimit(n) && v % n == r) == Accepted(n, r, q * n);
  }
}
