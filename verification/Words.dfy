/** Machine integers, failure values and powers of two shared by every model. */
module Words {

  datatype Option<+T> = None | Some(value: T)

  datatype Result<+T, +E> = Ok(value: T) | Err(error: E)

  const U32_LIMIT: nat := 0x1_0000_0000
  const U64_LIMIT: nat := 0x1_0000_0000_0000_0000
  const U128_LIMIT: nat := U64_LIMIT * U64_LIMIT
  const I64_LIMIT: int := 0x8000_0000_0000_0000

  type u8 = x: nat | x < 256
  type u32 = x: nat | x < U32_LIMIT
  type u64 = x: nat | x < U64_LIMIT
  type u128 = x: nat | x < U128_LIMIT
  type i64 = x: int | 0 - I64_LIMIT <= x < I64_LIMIT

  function Pow2(e: nat): (p: nat)
    ensures p >= 1
  {
    if e == 0 then 1 else 2 * Pow2(e - 1)
  }

  lemma {:induction false} Pow2Sum(a: nat, b: nat)
    ensures Pow2(a + b) == Pow2(a) * Pow2(b)
  {
    if a > 0 {
      Pow2Sum(a - 1, b);
      assert Pow2(a + b) == 2 * Pow2(a - 1 + b);
    }
  }

  /** `x.div_ceil(8)`. */
  function CeilDiv8(x: nat): (q: nat)
    ensures 8 * q >= x && 8 * q < x + 8
  {
    (x + 7) / 8
  }

  lemma {:induction false} Pow2Monotone(a: nat, b: nat)
    requires a <= b
    ensures Pow2(a) <= Pow2(b)
  {
    if a < b {
      Pow2Monotone(a, b - 1);
    }
  }

  lemma Pow2ThirtyTwo()
    ensures Pow2(32) == U32_LIMIT
  {
    assert Pow2(8) == 256;
    Pow2Sum(8, 8);
    Pow2Sum(16, 16);
  }

  function Min(a: nat, b: nat): nat {
    if a < b then a else b
  }

  lemma MulLe(a: nat, b: nat, m: nat)
    requires a <= b
    ensures a * m <= b * m
  {}

  lemma DivUnique(x: nat, d: nat, q: nat, r: nat)
    requires d > 0 && x == q * d + r && r < d
    ensures x / d == q && x % d == r
  {
    var e := x / d;
    assert x == e * d + x % d;
    if e < q {
      MulLe(e + 1, q, d);
    } else if e > q {
      MulLe(q + 1, e, d);
    }
  }

  lemma DivDiv(x: nat, p: nat)
    requires p > 0
    ensures x / (2 * p) == (x / p) / 2
  {
    var q := x / p;
    var r := x % p;
    assert x == q * p + r;
    var h, o := q / 2, q % 2;
    assert q == 2 * h + o;
    assert q * p == h * (2 * p) + o * p by { MulSplit(h, o, p); }
    DivUnique(x, 2 * p, h, o * p + r);
  }

  lemma MulSplit(h: nat, o: nat, p: nat)
    ensures (2 * h + o) * p == h * (2 * p) + o * p
  {}

  lemma DivAtLeast(x: nat, y: nat, d: nat)
    requires d > 0 && x * d <= y
    ensures x <= y / d
  {
    assert y == y / d * d + y % d;
    if y / d < x {
      MulLe(y / d + 1, x, d);
    }
  }

  lemma DivAtMost(x: nat, y: nat, d: nat)
    requires d > 0 && y < (x + 1) * d
    ensures y / d <= x
  {
    assert y == y / d * d + y % d;
    if x < y / d {
      MulLe(x + 1, y / d, d);
    }
  }

  lemma DivMonotone(x: nat, y: nat, d: nat)
    requires d > 0 && x <= y
    ensures x / d <= y / d
  {
    assert x == x / d * d + x % d;
    DivAtLeast(x / d, y, d);
  }
}
