/** Motion-based passive liveness: the mean absolute pixel difference of two frames. */
module Liveness {
  import opened Types

  const MOTION_THRESHOLD: real := 5.0

  function Abs(x: int): nat
  {
    if x < 0 then -x else x
  }

  /** The sum of the absolute per-pixel differences of two frames of one length. */
  function AbsDiffSum(f1: Frame, f2: Frame): (s: nat)
    requires |f1| == |f2|
    ensures f1 == f2 ==> s == 0
  {
    if f1 == [] then 0 else Abs(f1[0] - f2[0]) + AbsDiffSum(f1[1..], f2[1..])
  }

  /** Every value is an 8-bit intensity. */
  predicate IsUint8(f: Frame)
  {
    forall i :: 0 <= i < |f| ==> 0 <= f[i] <= 255
  }

  /** `np.mean(np.abs(f1 - f2))` for frames of one non-zero length. */
  function MeanDiff(f1: Frame, f2: Frame): real
    requires |f1| == |f2| > 0
  {
    AbsDiffSum(f1, f2) as real / |f1| as real
  }

  /** `liveness_check(f1, f2)`. Frames of different lengths make the subtraction raise; the mean of no pixels is NaN, which compares false. */
  function LivenessCheck(f1: Frame, f2: Frame): (r: Result<bool>)
    ensures |f1| != |f2| <==> r.Raised?
    ensures |f1| == |f2| && |f1| > 0 ==> r == Ok(MeanDiff(f1, f2) > MOTION_THRESHOLD)
    ensures |f1| == |f2| == 0 ==> r == Ok(false)
    ensures f1 == f2 ==> r == Ok(false)
  {
    if |f1| != |f2| then Raised("operands could not be broadcast together")
    else if |f1| == 0 then Ok(false)
    else Ok(MeanDiff(f1, f2) > MOTION_THRESHOLD)
  }

  /** |a - b| = |b - a| pixel by pixel, so the summed difference is symmetric. */
  lemma {:induction false} AbsDiffSumSymmetric(f1: Frame, f2: Frame)
    requires |f1| == |f2|
    ensures AbsDiffSum(f1, f2) == AbsDiffSum(f2, f1)
  {
    if f1 != [] {
      AbsDiffSumSymmetric(f1[1..], f2[1..]);
    }
  }

  /** The liveness verdict does not depend on the order of the two frames. */
  lemma LivenessSymmetric(f1: Frame, f2: Frame)
    ensures LivenessCheck(f1, f2) == LivenessCheck(f2, f1)
  {
    if |f1| == |f2| {
      AbsDiffSumSymmetric(f1, f2);
    }
  }

  /** For 8-bit frames the per-pixel difference is at most 255, so the mean difference lies in [0, 255]. */
  lemma {:induction false} DiffBounded(f1: Frame, f2: Frame)
    requires |f1| == |f2|
    requires IsUint8(f1) && IsUint8(f2)
    ensures AbsDiffSum(f1, f2) <= 255 * |f1|
  {
    if f1 != [] {
      assert IsUint8(f1[1..]) && IsUint8(f2[1..]) by {
        forall i | 0 <= i < |f1| - 1 ensures 0 <= f1[1..][i] <= 255 && 0 <= f2[1..][i] <= 255 {
          assert f1[1..][i] == f1[i + 1] && f2[1..][i] == f2[i + 1];
        }
      }
      DiffBounded(f1[1..], f2[1..]);
    }
  }

  /** The mean difference of two non-empty 8-bit frames is in [0, 255]. */
  lemma MeanDiffInRange(f1: Frame, f2: Frame)
    requires |f1| == |f2| > 0
    requires IsUint8(f1) && IsUint8(f2)
    ensures 0.0 <= MeanDiff(f1, f2) <= 255.0
  {
    DiffBounded(f1, f2);
    IntBoundToReal(AbsDiffSum(f1, f2), |f1|);
    DivAtMost(AbsDiffSum(f1, f2) as real, |f1| as real, 255.0);
  }

  lemma IntBoundToReal(sum: nat, n: nat)
    requires sum <= 255 * n
    ensures sum as real <= 255.0 * (n as real)
  {
  }

  lemma DivAtMost(a: real, b: real, c: real)
    requires b > 0.0 && 0.0 <= a <= c * b
    ensures 0.0 <= a / b <= c
  {
    var q := a / b;
    assert q * b == a;
    if q > c {
      assert q * b > c * b;
    }
  }
}
