/** 256-bit difficulty targets: the big-endian comparison and the five-limb multiply and divide. */
module Target {
  import opened Words

  /** `[u8; 32]`, big-endian. */
  type Bytes32 = s: seq<u8> | |s| == 32 witness seq(32, _ => 0)

  const LIMB: nat := U64_LIMIT
  const TARGET_LIMIT: nat := LIMB * LIMB * LIMB * LIMB
  const MAX_TARGET: nat := TARGET_LIMIT - 1

  // ---- Big-endian numbers ------------------------------------------------------------------

  function ToNat(s: seq<u8>): nat {
    if s == [] then 0 else 256 * ToNat(s[..|s| - 1]) + s[|s| - 1]
  }

  function Pow256(n: nat): (p: nat)
    ensures p > 0
  {
    if n == 0 then 1 else 256 * Pow256(n - 1)
  }

  /** `to_be_bytes` on `n` bytes. */
  function ToBytes(x: nat, n: nat): (s: seq<u8>)
    ensures |s| == n
  {
    if n == 0 then [] else ToBytes(x / 256, n - 1) + [x % 256]
  }

  lemma {:induction false} ToNatBound(s: seq<u8>)
    ensures ToNat(s) < Pow256(|s|)
  {
    if s != [] {
      ToNatBound(s[..|s| - 1]);
    }
  }

  lemma {:induction false} BytesToNat(x: nat, n: nat)
    requires x < Pow256(n)
    ensures ToNat(ToBytes(x, n)) == x
  {
    if n > 0 {
      BytesToNat(x / 256, n - 1);
      var s := ToBytes(x, n);
      assert s[..n - 1] == ToBytes(x / 256, n - 1);
    }
  }

  lemma {:induction false} NatToBytes(s: seq<u8>)
    ensures ToBytes(ToNat(s), |s|) == s
  {
    if s != [] {
      NatToBytes(s[..|s| - 1]);
      assert ToNat(s) / 256 == ToNat(s[..|s| - 1]);
    }
  }

  lemma {:induction false} ToNatConcat(a: seq<u8>, b: seq<u8>)
    ensures ToNat(a + b) == ToNat(a) * Pow256(|b|) + ToNat(b)
  {
    if b == [] {
      assert a + b == a;
    } else {
      var b' := b[..|b| - 1];
      assert (a + b)[..|a + b| - 1] == a + b';
      ToNatConcat(a, b');
      MulAssoc(ToNat(a), Pow256(|b'|));
    }
  }

  lemma MulAssoc(x: nat, p: nat)
    ensures 256 * (x * p) == x * (256 * p)
  {}

  lemma EightBytes()
    ensures Pow256(8) == LIMB
  {
    assert Pow256(4) == 0x1_0000_0000;
  }

  lemma LimbBound(s: seq<u8>)
    requires |s| == 8
    ensures ToNat(s) < LIMB
  {
    ToNatBound(s);
    EightBytes();
  }

  /** Four limbs make a 256-bit number. */
  function FromLimbs(a: nat, b: nat, c: nat, d: nat): nat {
    ((a * LIMB + b) * LIMB + c) * LIMB + d
  }

  lemma TargetLimbs(t: Bytes32)
    ensures ToNat(t) == FromLimbs(ToNat(t[0..8]), ToNat(t[8..16]), ToNat(t[16..24]), ToNat(t[24..32]))
    ensures ToNat(t[0..8]) < LIMB && ToNat(t[8..16]) < LIMB && ToNat(t[16..24]) < LIMB && ToNat(t[24..32]) < LIMB
  {
    EightBytes();
    LimbBound(t[0..8]);
    LimbBound(t[8..16]);
    LimbBound(t[16..24]);
    LimbBound(t[24..32]);
    ToNatConcat(t[0..8], t[8..16]);
    ToNatConcat(t[0..8] + t[8..16], t[16..24]);
    ToNatConcat(t[0..8] + t[8..16] + t[16..24], t[24..32]);
    assert t == t[0..8] + t[8..16] + t[16..24] + t[24..32];
  }

  lemma TargetBound(t: Bytes32)
    ensures ToNat(t) <= MAX_TARGET
  {
    TargetLimbs(t);
  }

  lemma WholeTarget()
    ensures Pow256(32) == TARGET_LIMIT
  {
    EightBytes();
    PowSum(8, 8);
    PowSum(16, 16);
  }

  lemma {:induction false} PowSum(a: nat, b: nat)
    ensures Pow256(a + b) == Pow256(a) * Pow256(b)
  {
    if b > 0 {
      PowSum(a, b - 1);
      assert Pow256(a + b) == 256 * Pow256(a + (b - 1));
      MulAssoc(Pow256(a), Pow256(b - 1));
    }
  }

  /** The target with a given value. */
  function TargetOf(x: nat): (t: Bytes32) {
    ToBytes(x, 32)
  }

  lemma TargetOfValue(x: nat)
    requires x <= MAX_TARGET
    ensures ToNat(TargetOf(x)) == x
  {
    WholeTarget();
    BytesToNat(x, 32);
  }

  lemma TargetsByValue(a: Bytes32, b: Bytes32)
    ensures ToNat(a) == ToNat(b) ==> a == b
  {
    NatToBytes(a);
    NatToBytes(b);
  }

  // ---- Comparison --------------------------------------------------------------------------

  /** Accepted: the hash, as a number, is below the target. */
  predicate HashUnder(hash: Bytes32, target: Bytes32) {
    ToNat(hash) < ToNat(target)
  }

  /** `hash_under_target`: the byte loop decides the numeric comparison. */
  method HashUnderTarget(hash: Bytes32, target: Bytes32) returns (under: bool)
    ensures under <==> HashUnder(hash, target)
  {
    for i := 0 to 32
      invariant hash[..i] == target[..i]
    {
      FirstDifferenceDecides(hash, target, i);
      if hash[i] < target[i] {
        return true;
      }
      if hash[i] > target[i] {
        return false;
      }
    }
    assert hash[..32] == hash && target[..32] == target;
    return false;
  }

  lemma FirstDifferenceDecides(a: Bytes32, b: Bytes32, i: nat)
    requires i < 32 && a[..i] == b[..i]
    ensures a[i] < b[i] ==> ToNat(a) < ToNat(b)
    ensures a[i] > b[i] ==> ToNat(a) > ToNat(b)
  {
    DigitAt(a, i);
    DigitAt(b, i);
    LargerHeadIsLarger(a, b, i + 1);
    LargerHeadIsLarger(b, a, i + 1);
  }

  lemma LargerHeadIsLarger(a: Bytes32, b: Bytes32, i: nat)
    requires i <= 32
    ensures ToNat(a[..i]) < ToNat(b[..i]) ==> ToNat(a) < ToNat(b)
  {
    assert a == a[..i] + a[i..] && b == b[..i] + b[i..];
    ToNatConcat(a[..i], a[i..]);
    ToNatConcat(b[..i], b[i..]);
    ToNatBound(a[i..]);
    LargerHead(ToNat(a[..i]), ToNat(b[..i]), Pow256(|a[i..]|), ToNat(a[i..]), ToNat(b[i..]));
  }

  lemma DigitAt(a: seq<u8>, i: nat)
    requires i < |a|
    ensures ToNat(a[..i + 1]) == 256 * ToNat(a[..i]) + a[i]
  {
    assert a[..i + 1][..i] == a[..i];
  }

  lemma LargerHead(x: nat, y: nat, p: nat, lx: nat, ly: nat)
    requires lx < p
    ensures x < y ==> x * p + lx < y * p + ly
  {
    if x < y {
      MulLe(x + 1, y, p);
    }
  }

  // ---- Scaling -----------------------------------------------------------------------------

  /** The value a target is scaled to: floor(value * num / den), saturating. */
  function ScaledValue(value: nat, num: nat, den: nat): (v: nat)
    requires den > 0
    ensures v <= MAX_TARGET
  {
    Min(MAX_TARGET, value * num / den)
  }

  function ScaleTarget(t: Bytes32, num: u64, den: u64): (r: Bytes32)
    requires den > 0
  {
    TargetOf(ScaledValue(ToNat(t), num, den))
  }

  lemma ScaleTargetValue(t: Bytes32, num: u64, den: u64)
    requires den > 0
    ensures ToNat(ScaleTarget(t, num, den)) == ScaledValue(ToNat(t), num, den)
  {
    TargetOfValue(ScaledValue(ToNat(t), num, den));
  }

  /** Value of the first `n` of five limbs, most significant first. */
  function Prefix(acc: seq<nat>, n: nat): nat
    requires n <= |acc|
  {
    if n == 0 then 0 else Prefix(acc, n - 1) * LIMB + acc[n - 1]
  }

  lemma Prefix5(acc: seq<nat>)
    requires |acc| == 5
    ensures Prefix(acc, 5) == (((acc[0] * LIMB + acc[1]) * LIMB + acc[2]) * LIMB + acc[3]) * LIMB + acc[4]
  {
    assert Prefix(acc, 1) == acc[0];
    assert Prefix(acc, 2) == Prefix(acc, 1) * LIMB + acc[1];
    assert Prefix(acc, 3) == Prefix(acc, 2) * LIMB + acc[2];
    assert Prefix(acc, 4) == Prefix(acc, 3) * LIMB + acc[3];
    assert Prefix(acc, 5) == Prefix(acc, 4) * LIMB + acc[4];
  }

  /** A limb times a 64-bit factor fits 128 bits with room to spare. */
  lemma ProductBound(x: nat, n: nat)
    requires x < LIMB && n < LIMB
    ensures x * n <= (LIMB - 1) * (LIMB - 1)
  {
    MulLe(x, LIMB - 1, n);
    MulLe(n, LIMB - 1, LIMB - 1);
  }

  lemma LimbProduct(a: nat, b: nat, c: nat, d: nat, n: nat)
    ensures FromLimbs(a, b, c, d) * n == FromLimbs(a * n, b * n, c * n, d * n)
  {
    Distribute(a, b, n);
    Distribute(a * LIMB + b, c, n);
    Distribute((a * LIMB + b) * LIMB + c, d, n);
  }

  lemma Distribute(x: nat, y: nat, n: nat)
    ensures (x * LIMB + y) * n == (x * n) * LIMB + y * n
  {}

  /** High and low halves of the four products, aligned, have the value of the products. */
  lemma AlignedProducts(acc: seq<nat>, p0: nat, p1: nat, p2: nat, p3: nat)
    requires |acc| == 5 && acc[0] == p0 / LIMB && acc[1] == p0 % LIMB + p1 / LIMB && acc[2] == p1 % LIMB + p2 / LIMB
    requires acc[3] == p2 % LIMB + p3 / LIMB && acc[4] == p3 % LIMB
    ensures Prefix(acc, 5) == FromLimbs(p0, p1, p2, p3)
  {
    Prefix5(acc);
    Aligned(p0 / LIMB, p0 % LIMB, p1 / LIMB, p1 % LIMB, p2 / LIMB, p2 % LIMB, p3 / LIMB, p3 % LIMB);
  }

  lemma Aligned(h0: nat, l0: nat, h1: nat, l1: nat, h2: nat, l2: nat, h3: nat, l3: nat)
    ensures (((h0 * LIMB + (l0 + h1)) * LIMB + (l1 + h2)) * LIMB + (l2 + h3)) * LIMB + l3
         == FromLimbs(h0 * LIMB + l0, h1 * LIMB + l1, h2 * LIMB + l2, h3 * LIMB + l3)
  {}

  lemma TargetProduct(t: Bytes32, num: nat, a: nat, b: nat, c: nat, d: nat)
    requires a == ToNat(t[0..8]) && b == ToNat(t[8..16]) && c == ToNat(t[16..24]) && d == ToNat(t[24..32])
    ensures FromLimbs(a * num, b * num, c * num, d * num) == ToNat(t) * num
  {
    TargetLimbs(t);
    LimbProduct(a, b, c, d, num);
  }

  /** The schoolbook product as five limbs before carries: its value is `t * num`. */
  method MultiplyLimbs(t: Bytes32, num: u64, acc: array<u128>)
    requires acc.Length == 5
    modifies acc
    ensures Prefix(acc[..], 5) == ToNat(t) * num
    ensures acc[0] < LIMB - 1 && forall i :: 0 < i < 5 ==> acc[i] < 2 * LIMB - 2
  {
    var limb0, limb1, limb2, limb3 := ReadLimbs(t);
    TargetProduct(t, num, limb0, limb1, limb2, limb3);
    var p0 := WideProduct(limb0, num);
    var p1 := WideProduct(limb1, num);
    var p2 := WideProduct(limb2, num);
    var p3 := WideProduct(limb3, num);
    StoreProducts(p0, p1, p2, p3, acc);
  }

  method ReadLimbs(t: Bytes32) returns (limb0: u64, limb1: u64, limb2: u64, limb3: u64)
    ensures limb0 == ToNat(t[0..8]) && limb1 == ToNat(t[8..16])
    ensures limb2 == ToNat(t[16..24]) && limb3 == ToNat(t[24..32])
  {
    TargetLimbs(t);
    limb0, limb1, limb2, limb3 := ToNat(t[0..8]), ToNat(t[8..16]), ToNat(t[16..24]), ToNat(t[24..32]);
  }

  method WideProduct(limb: u64, num: u64) returns (p: u128)
    ensures p == limb * num <= (LIMB - 1) * (LIMB - 1)
  {
    ProductBound(limb, num);
    p := limb * num;
  }

  /** "p0 occupies acc[0..2], p1 occupies acc[1..3]" and so on. */
  method StoreProducts(p0: u128, p1: u128, p2: u128, p3: u128, acc: array<u128>)
    requires acc.Length == 5
    requires p0 <= (LIMB - 1) * (LIMB - 1) && p1 <= (LIMB - 1) * (LIMB - 1)
    requires p2 <= (LIMB - 1) * (LIMB - 1) && p3 <= (LIMB - 1) * (LIMB - 1)
    modifies acc
    ensures Prefix(acc[..], 5) == FromLimbs(p0, p1, p2, p3)
    ensures acc[0] < LIMB - 1 && forall i :: 0 < i < 5 ==> acc[i] < 2 * LIMB - 2
  {
    acc[0] := p0 / LIMB;
    acc[1] := p0 % LIMB + p1 / LIMB;
    acc[2] := p1 % LIMB + p2 / LIMB;
    acc[3] := p2 % LIMB + p3 / LIMB;
    acc[4] := p3 % LIMB;
    AlignedProducts(acc[..], p0, p1, p2, p3);
  }

  lemma CarryStep(before: seq<u128>, after: seq<u128>, i: nat)
    requires |before| == |after| == 5 && 1 <= i < 5
    requires forall j :: 0 <= j < 5 && j != i && j != i - 1 ==> after[j] == before[j]
    requires after[i] == before[i] % LIMB && after[i - 1] == before[i - 1] + before[i] / LIMB
    ensures Prefix(after, 5) == Prefix(before, 5)
  {
    Prefix5(before);
    Prefix5(after);
    assert before[i] == before[i] / LIMB * LIMB + before[i] % LIMB;
  }

  /** Carries go from the least significant limb up; the value stays, every limb ends below 2^64. */
  method PropagateCarries(acc: array<u128>)
    requires acc.Length == 5
    requires acc[0] < LIMB - 1 && forall i :: 0 < i < 5 ==> acc[i] < 2 * LIMB - 2
    modifies acc
    ensures Prefix(acc[..], 5) == old(Prefix(acc[..], 5))
    ensures forall i :: 0 <= i < 5 ==> acc[i] < LIMB
  {
    for i := 5 downto 1
      invariant Prefix(acc[..], 5) == old(Prefix(acc[..], 5))
      invariant forall j :: i <= j < 5 ==> acc[j] < LIMB
      invariant forall j :: 0 < j < i - 1 ==> acc[j] < 2 * LIMB - 2
      invariant i > 1 ==> acc[i - 1] <= 2 * LIMB - 2
      invariant i > 1 ==> acc[0] < LIMB - 1
      invariant acc[0] < LIMB
    {
      ghost var before := acc[..];
      var carry := acc[i] / LIMB;
      acc[i] := acc[i] % LIMB;
      acc[i - 1] := acc[i - 1] + carry;
      CarryStep(before, acc[..], i);
    }
  }

  lemma DivisionStep(value: nat, quotient: nat, rem: nat, limb: nat, d: nat, digit: nat, rem': nat)
    requires value == quotient * d + rem && rem * LIMB + limb == digit * d + rem'
    ensures value * LIMB + limb == (quotient * LIMB + digit) * d + rem'
  {
    Distribute(quotient, digit, d);
    assert (quotient * d + rem) * LIMB == quotient * d * LIMB + rem * LIMB;
  }

  /** A remainder below the divisor and one more limb: the quotient digit fits 64 bits. */
  lemma DigitFits(rem: nat, limb: nat, d: nat, digit: nat, rem': nat)
    requires rem < d < LIMB && limb < LIMB
    requires rem * LIMB + limb == digit * d + rem' && rem' < d
    ensures digit < LIMB
  {
    assert rem * LIMB + limb < d * LIMB;
    if digit >= LIMB {
      MulLe(LIMB, digit, d);
    }
  }

  /** `(rem << 64) | limb` divided by `d`. */
  method DivideStep(rem: u128, limb: u128, d: u64) returns (digit: u64, rem': u128)
    requires rem < d && limb < LIMB
    ensures rem * LIMB + limb == digit * d + rem' && rem' < d
  {
    var cur: u128 := rem * LIMB + limb;
    ghost var wide := cur / d;
    assert cur == wide * d + cur % d;
    DigitFits(rem, limb, d, wide, cur % d);
    digit := cur / d;
    rem' := cur % d;
  }

  /** Long division, most significant limb first. No step overflows 128 bits and no digit is cut. */
  method DivideLimbs(acc: array<u128>, d: u64, q: array<u64>)
    requires acc.Length == 5 && q.Length == 5 && d > 0
    requires forall i :: 0 <= i < 5 ==> acc[i] < LIMB
    modifies q
    ensures Prefix(q[..], 5) == Prefix(acc[..], 5) / d
  {
    var rem: u128 := 0;
    var i := 0;
    ghost var value, quotient := 0, 0;
    while i < 5
      invariant i <= 5 && rem < d
      invariant value == Prefix(acc[..], i) && quotient == Prefix(q[..], i)
      invariant value == quotient * d + rem
    {
      ghost var q0 := q[..];
      var digit, rem' := DivideStep(rem, acc[i], d);
      DivisionStep(value, quotient, rem, acc[i], d, digit, rem');
      q[i], rem := digit, rem';
      PrefixFrame(q0, q[..], i);
      value, quotient := value * LIMB + acc[i], quotient * LIMB + q[i];
      i := i + 1;
    }
    assert i == 5;
    DivUnique(value, d, quotient, rem);
  }

  lemma {:induction false} PrefixFrame(a: seq<nat>, b: seq<nat>, n: nat)
    requires n <= |a| && n <= |b| && forall i :: 0 <= i < n ==> a[i] == b[i]
    ensures Prefix(a, n) == Prefix(b, n)
  {
    if n > 0 {
      PrefixFrame(a, b, n - 1);
    }
  }

  /** The source's 256-bit scaling: min(2^256 - 1, floor(t * num / den)) for every target and ratio. */
  method ScaleTargetLimbs(t: Bytes32, num: u64, den: u64) returns (r: Bytes32)
    requires den > 0
    ensures r == ScaleTarget(t, num, den)
  {
    ghost var product := ToNat(t) * num;
    if num == den {
      DivUnique(product, den, ToNat(t), 0);
      TargetBound(t);
      NatToBytes(t);
      return t;
    }
    var acc := new u128[5](_ => 0);
    MultiplyLimbs(t, num, acc);
    PropagateCarries(acc);
    if acc[0] >= den * LIMB {
      assert false; // the product of a 256-bit and a 64-bit number never reaches this guard
    }
    var q := new u64[5](_ => 0);
    DivideLimbs(acc, den, q);
    r := QuotientBytes(q);
  }

  /** The low four quotient limbs, saturated when the fifth is not zero. */
  method QuotientBytes(q: array<u64>) returns (r: Bytes32)
    requires q.Length == 5
    ensures r == TargetOf(Min(MAX_TARGET, Prefix(q[..], 5)))
  {
    Prefix5(q[..]);
    if q[0] != 0 {
      MaxBytes();
      return seq(32, _ => 0xFF);
    }
    r := ToBytes(q[1], 8) + ToBytes(q[2], 8) + ToBytes(q[3], 8) + ToBytes(q[4], 8);
    LimbsOfResult(r, q[1], q[2], q[3], q[4]);
    NatToBytes(r);
  }

  lemma MaxBytes()
    ensures TargetOf(MAX_TARGET) == seq(32, _ => 0xFF)
  {
    WholeTarget();
    AllOnes(32);
  }

  lemma {:induction false} AllOnes(n: nat)
    ensures ToBytes(Pow256(n) - 1, n) == seq(n, _ => 0xFF)
  {
    if n > 0 {
      AllOnes(n - 1);
      assert Pow256(n) - 1 == 256 * (Pow256(n - 1) - 1) + 255;
      assert seq(n, _ => 0xFF) == seq(n - 1, _ => 0xFF) + [0xFF];
    }
  }

  lemma LimbsOfResult(r: Bytes32, a: u64, b: u64, c: u64, d: u64)
    requires r == ToBytes(a, 8) + ToBytes(b, 8) + ToBytes(c, 8) + ToBytes(d, 8)
    ensures ToNat(r) == FromLimbs(a, b, c, d)
  {
    TargetLimbs(r);
    assert r[0..8] == ToBytes(a, 8) && r[8..16] == ToBytes(b, 8) && r[16..24] == ToBytes(c, 8) && r[24..32] == ToBytes(d, 8);
    LimbOfBytes(a);
    LimbOfBytes(b);
    LimbOfBytes(c);
    LimbOfBytes(d);
  }

  lemma LimbOfBytes(x: u64)
    ensures ToNat(ToBytes(x, 8)) == x
  {
    EightBytes();
    BytesToNat(x, 8);
  }

  // ---- What scaling does -------------------------------------------------------------------

  lemma ScaledMonotone(x: nat, y: nat, num: nat, num': nat, den: nat)
    requires den > 0 && x <= y && num <= num'
    ensures ScaledValue(x, num, den) <= ScaledValue(y, num', den)
  {
    MulLe(x, y, num);
    MulLe(num, num', y);
    DivMonotone(x * num, y * num', den);
  }

  /** Scaling back by the inverse ratio loses at most ceil((d - 1) / n), and nothing when d is 1. */
  lemma ScaleNearlyUndone(t: nat, n: nat, d: nat)
    requires 0 < n && 0 < d && t <= MAX_TARGET && t * n / d <= MAX_TARGET
    ensures var back := ScaledValue(ScaledValue(t, n, d), d, n);
            && back <= t <= back + (d - 1 + (n - 1)) / n
            && (d == 1 ==> back == t)
  {
    DivMod(t * n, d);
    NearlyUndone(t, n, d, t * n / d, t * n % d);
  }

  lemma DivMod(x: nat, d: nat)
    requires d > 0
    ensures x == x / d * d + x % d && x % d < d
  {}

  lemma NearlyUndone(t: nat, n: nat, d: nat, q: nat, r: nat)
    requires 0 < n && t * n == q * d + r && r < d && t <= MAX_TARGET
    ensures var back := ScaledValue(q, d, n);
            && back <= t <= back + (d - 1 + (n - 1)) / n
            && (d == 1 ==> back == t)
  {
    UndoneAtMost(t, n, d, q, r);
    UndoneAtLeast(t, n, d, q, r);
    DivUnique(n - 1, n, 0, n - 1);
  }

  lemma UndoneAtMost(t: nat, n: nat, d: nat, q: nat, r: nat)
    requires 0 < n && t * n == q * d + r
    ensures q * d / n <= t
  {
    DivAtMost(t, q * d, n);
  }

  lemma UndoneAtLeast(t: nat, n: nat, d: nat, q: nat, r: nat)
    requires 0 < n && t * n == q * d + r && r < d
    ensures t <= q * d / n + (d - 1 + (n - 1)) / n
  {
    var k := (d - 1 + (n - 1)) / n;
    CeilReaches(d - 1, n, k);
    if t >= k {
      LessTimes(t, k, n);
      DivAtLeast(t - k, q * d, n);
    }
  }

  lemma CeilReaches(x: nat, n: nat, k: nat)
    requires n > 0 && k == (x + (n - 1)) / n
    ensures k * n >= x
  {
    assert x + (n - 1) == k * n + (x + (n - 1)) % n;
  }

  lemma LessTimes(t: nat, k: nat, n: nat)
    requires k <= t
    ensures (t - k) * n == t * n - k * n
  {}
}
