/** Difficulty retargeting: the next target as a function of the last window's length. */
module Retarget {
  import opened Schedule
  import opened Target
  import opened Words

  function SaturatingMul(a: u64, b: u64): u64 {
    Min(U64_LIMIT - 1, a * b)
  }

  /** `next_target`, branch for branch. */
  function NextTarget(target: Bytes32, actual: u64): Bytes32 {
    var expected := RETARGET_TARGET_SECONDS;
    if actual == 0 then
      ScaleTarget(target, RETARGET_MIN_NUM, RETARGET_MIN_DEN)
    else if SaturatingMul(actual, RETARGET_MIN_DEN) < SaturatingMul(expected, RETARGET_MIN_NUM) then
      ScaleTarget(target, RETARGET_MIN_NUM, RETARGET_MIN_DEN)
    else if SaturatingMul(actual, RETARGET_MAX_DEN) > SaturatingMul(expected, RETARGET_MAX_NUM) then
      ScaleTarget(target, RETARGET_MAX_NUM, RETARGET_MAX_DEN)
    else
      ScaleTarget(target, actual, expected)
  }

  /** The window's length held between half and twice the intended hour. */
  function Clamped(actual: nat): nat {
    if actual < 1800 then 1800 else if actual > 7200 then 7200 else actual
  }

  /** The four branches are one formula: scale by the clamped length over 3600, rounding down. */
  lemma NextTargetValue(t: Bytes32, actual: u64)
    ensures ToNat(NextTarget(t, actual)) == ScaledValue(ToNat(t), Clamped(actual), 3600)
  {
    if actual < 1800 {
      ScaleTargetValue(t, 1, 2);
      HalfAsRatio(ToNat(t));
    } else if actual > 7200 {
      ScaleTargetValue(t, 2, 1);
      DoubleAsRatio(ToNat(t));
    } else {
      ScaleTargetValue(t, actual, 3600);
    }
  }

  lemma HalfAsRatio(v: nat)
    ensures v * 1800 / 3600 == v * 1 / 2
  {}

  lemma DoubleAsRatio(v: nat)
    ensures v * 7200 / 3600 == v * 2 / 1
  {}

  /** A longer window or an easier old target never gives a harder new one. */
  lemma NextTargetMonotone(s: Bytes32, t: Bytes32, a: u64, b: u64)
    requires ToNat(s) <= ToNat(t) && a <= b
    ensures ToNat(NextTarget(s, a)) <= ToNat(NextTarget(t, b))
  {
    NextTargetValue(s, a);
    NextTargetValue(t, b);
    MulLe(ToNat(s), ToNat(t), Clamped(a));
    MulLe(Clamped(a), Clamped(b), ToNat(t));
    DivMonotone(ToNat(s) * Clamped(a), ToNat(t) * Clamped(b), 3600);
  }

  /** So a hash accepted after a short window is accepted after any longer one. */
  lemma LongerWindowAcceptsMore(hash: Bytes32, t: Bytes32, a: u64, b: u64)
    requires a <= b
    ensures HashUnder(hash, NextTarget(t, a)) ==> HashUnder(hash, NextTarget(t, b))
  {
    NextTargetMonotone(t, t, a, b);
  }

  /** One retarget moves the target by at most a factor of two either way. */
  lemma NextTargetBounds(t: Bytes32, actual: u64)
    ensures ToNat(t) / 2 <= ToNat(NextTarget(t, actual)) <= Min(MAX_TARGET, 2 * ToNat(t))
  {
    NextTargetValue(t, actual);
    TargetBound(t);
    var v, c := ToNat(t), Clamped(actual);
    MulLe(1800, c, v);
    MulLe(c, 7200, v);
    HalfAsRatio(v);
    DoubleAsRatio(v);
    DivMonotone(v * 1800, v * c, 3600);
    DivMonotone(v * c, v * 7200, 3600);
  }

  /** A window of exactly the intended length changes nothing. */
  lemma IntendedWindowKeepsTarget(t: Bytes32)
    ensures NextTarget(t, RETARGET_TARGET_SECONDS) == t
  {
    NextTargetValue(t, RETARGET_TARGET_SECONDS);
    TargetBound(t);
    DivUnique(ToNat(t) * 3600, 3600, ToNat(t), 0);
    TargetsByValue(NextTarget(t, RETARGET_TARGET_SECONDS), t);
  }

  /** The target becomes zero, after which no hash passes, exactly from zero or from one by a short window. */
  lemma NextTargetZero(t: Bytes32, actual: u64)
    ensures ToNat(NextTarget(t, actual)) == 0 <==> ToNat(t) == 0 || (ToNat(t) == 1 && actual < 3600)
  {
    NextTargetValue(t, actual);
    if ToNat(t) >= 2 {
      NextTargetBounds(t, actual);
    } else {
      ScaledZeroOrOne(ToNat(t), Clamped(actual));
    }
  }

  lemma ScaledZeroOrOne(v: nat, c: nat)
    requires v <= 1 && 1800 <= c <= 7200
    ensures ScaledValue(v, c, 3600) == 0 <==> v == 0 || c < 3600
  {
    assert v * c == if v == 0 then 0 else c;
  }

  lemma ZeroTargetAcceptsNothing(t: Bytes32)
    ensures ToNat(t) == 0 <==> forall h: Bytes32 :: !HashUnder(h, t)
  {
    if ToNat(t) > 0 {
      TargetOfValue(0);
      assert HashUnder(TargetOf(0), t);
    }
  }

  // ---- Several retargets -------------------------------------------------------------------

  /** At most `j` halvings down and `j` doublings up, short of saturation. */
  ghost predicate WithinDrift(from: nat, to: nat, j: nat) {
    from / Pow2(j) <= to <= Min(MAX_TARGET, from * Pow2(j))
  }

  lemma NoDrift(t: Bytes32)
    ensures WithinDrift(ToNat(t), ToNat(t), 0)
  {
    TargetBound(t);
    DivUnique(ToNat(t), Pow2(0), ToNat(t), 0);
  }

  lemma DriftGrows(from: nat, t: Bytes32, actual: u64, j: nat)
    requires WithinDrift(from, ToNat(t), j)
    ensures WithinDrift(from, ToNat(NextTarget(t, actual)), j + 1)
  {
    NextTargetBounds(t, actual);
    DriftStep(from, Pow2(j), ToNat(t), ToNat(NextTarget(t, actual)));
  }

  lemma DriftStep(from: nat, p: nat, mid: nat, to: nat)
    requires p > 0 && from / p <= mid <= from * p && mid / 2 <= to <= 2 * mid
    ensures from / (2 * p) <= to <= from * (2 * p)
  {
    DivDiv(from, p);
    DivMonotone(from / p, mid, 2);
    TwiceAgain(from, p);
  }

  lemma TwiceAgain(x: nat, p: nat)
    ensures x * (2 * p) == 2 * (x * p)
  {}
}
