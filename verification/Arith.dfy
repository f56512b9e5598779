/** Division, and the saturating counts of mask/domain.go. */
module Arith {

  lemma MulOrder(a: int, b: int, c: nat)
    requires a <= b
    ensures a * c <= b * c
  {
    assert (b - a) * c >= 0;
  }

  lemma DivModBound(n: nat, rows: nat, width: nat)
    requires width > 0 && n < rows * width
    ensures n / width < rows && n % width < width && n == (n / width) * width + n % width
  {
    if n / width >= rows {
      MulOrder(rows, n / width, width);
    }
  }

  lemma DivModOf(q: nat, r: nat, width: nat)
    requires r < width
    ensures (q * width + r) / width == q && (q * width + r) % width == r
  {
    var n := q * width + r;
    var d := n / width - q;
    assert n == (n / width) * width + n % width;
    assert d * width == (n / width) * width - q * width;
    if d >= 1 {
      MulOrder(1, d, width);
    } else if d <= -1 {
      MulOrder(d, -1, width);
    }
  }

  /** Row i, place j of a grid, and back. */
  lemma CellRank(i: nat, j: nat, rows: nat, width: nat)
    requires i < rows && j < width
    ensures 0 <= i * width + j < rows * width && (i * width + j) / width == i && (i * width + j) % width == j
  {
    DivModOf(i, j, width);
    MulOrder(i + 1, rows, width);
  }

  lemma SameQuotients(m: nat, n: nat, width: nat)
    requires width > 0 && m / width == n / width && m % width == n % width
    ensures m == n
  {
    assert m == (m / width) * width + m % width && n == (n / width) * width + n % width;
  }

  lemma QuotientIsNat(n: nat, width: nat)
    requires width > 0
    ensures n / width >= 0 && 0 <= n % width < width
  {
  }

  lemma SmallMod(r: nat, n: nat)
    requires r < n
    ensures r % n == r
  {
    DivModOf(0, r, n);
  }

  // ---------- satMul, satPow, satAdd ----------

  const MAX_INT64: nat := 0x7fff_ffff_ffff_ffff

  function Pow(base: nat, exp: nat): nat {
    if exp == 0 then 1 else base * Pow(base, exp - 1)
  }

  function SatMul(a: int, b: int): (r: nat)
    ensures a >= 0 && b >= 0 ==> r == if a * b <= MAX_INT64 then a * b else MAX_INT64
    ensures r <= MAX_INT64 || a <= 0 || b <= 0
  {
    if a <= 0 || b <= 0 then 0
    else
      SatMulGuard(a, b);
      if a > MAX_INT64 / b then MAX_INT64 else a * b
  }

  /** The overflow test by division decides exactly whether the product overflows. */
  lemma {:induction false} SatMulGuard(a: nat, b: nat)
    requires b > 0
    ensures a > MAX_INT64 / b <==> a * b > MAX_INT64
  {
    var q := MAX_INT64 / b;
    assert MAX_INT64 == q * b + MAX_INT64 % b;
    if a > q {
      MulOrder(q + 1, a, b);
    } else {
      MulOrder(a, q, b);
    }
  }

  function SatAdd(a: nat, b: nat): (r: nat)
    requires a <= MAX_INT64 && b <= MAX_INT64
    ensures r == if a + b <= MAX_INT64 then a + b else MAX_INT64
  {
    if a > MAX_INT64 - b then MAX_INT64 else a + b
  }

  lemma {:induction false} PowPositive(base: nat, exp: nat)
    requires base > 0
    ensures Pow(base, exp) > 0
  {
    if exp > 0 {
      PowPositive(base, exp - 1);
    }
  }

  lemma {:induction false} PowGrows(base: nat, i: nat, j: nat)
    requires base > 0 && i <= j
    ensures Pow(base, i) <= Pow(base, j)
    decreases j
  {
    if i < j {
      PowGrows(base, i, j - 1);
      MulOrder(1, base, Pow(base, j - 1));
    }
  }

  /** satPow's loop: the power, or the ceiling once it passes it. */
  method SatPow(base: nat, exp: nat) returns (r: nat)
    requires 0 < base <= MAX_INT64
    ensures r == SatPowOf(base, exp)
  {
    r := 1;
    PowPositive(base, 0);
    for i := 0 to exp
      invariant r == SatPowOf(base, i)
    {
      PowPositive(base, i);
      if Pow(base, i) > MAX_INT64 {
        MulOrder(1, base, Pow(base, i));
        MulOrder(1, base, r);
      }
      r := SatMul(r, base);
      assert Pow(base, i + 1) == Pow(base, i) * base;
      if r == MAX_INT64 {
        PowGrows(base, i + 1, exp);
        return;
      }
    }
  }

  function SatPowOf(base: nat, exp: nat): (r: nat)
    ensures r <= Pow(base, exp) && r <= MAX_INT64
  {
    if Pow(base, exp) <= MAX_INT64 then Pow(base, exp) else MAX_INT64
  }
}
