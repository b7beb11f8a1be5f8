/**
 The contrast improvement index: the ratio of the global standard deviation
 of the enhanced image to that of the original, both taken over gray
 samples, with 0 returned when the original has no spread at all.

 The standard deviation is numpy's population form: the square root of the
 mean squared deviation from the mean. sqrt is a parameter: SqrtLike states
 the facts about it that the proofs use.
 */
module Contrast {
  import opened Sums
  import opened Images

  /** The facts about the square root that the proofs use. */
  ghost predicate SqrtLike(sqrt: real -> real)
  {
    forall x :: x >= 0.0 ==> sqrt(x) >= 0.0 && (sqrt(x) == 0.0 <==> x == 0.0)
  }

  /** The population variance: the mean squared deviation from the mean. */
  function PopVariance(x: seq<real>): real
    requires |x| > 0
  {
    Sum(Dev(x, Mean(x))) / (|x| as real)
  }

  /** numpy's `std`: the square root of the population variance. */
  function Std(x: seq<real>, sqrt: real -> real): real
    requires |x| > 0
  {
    sqrt(PopVariance(x))
  }

  /** The samples of an image, in gray and as reals, row after row. */
  function Values(img: Image, luma: Bgr -> Byte): seq<real>
  {
    Flat(AsReal(ToGray(img, luma)))
  }

  /**
   The contrast improvement index of an enhanced image over the original.
   It is never negative when sqrt is a square root.
   */
  function CalculateCii(original: Image, enhanced: Image, luma: Bgr -> Byte, sqrt: real -> real): (r: real)
    requires |Values(original, luma)| > 0 && |Values(enhanced, luma)| > 0
    ensures SqrtLike(sqrt) ==> r >= 0.0
  {
    var cOrig := Std(Values(original, luma), sqrt);
    var cEnh := Std(Values(enhanced, luma), sqrt);
    StdNonNeg(Values(original, luma), sqrt);
    StdNonNeg(Values(enhanced, luma), sqrt);
    if cOrig == 0.0 then 0.0 else DivNonNeg(cEnh, cOrig); cEnh / cOrig
  }

  /** Every value of the row equals the first: the row has no spread. */
  predicate Constant(x: seq<real>)
  {
    forall k :: 0 <= k < |x| ==> x[k] == x[0]
  }

  // ---------------------------------------------------------------------

  /** The mean of a constant row is its value. */
  lemma MeanConstant(x: seq<real>)
    requires |x| > 0 && Constant(x)
    ensures Mean(x) == x[0]
  {
    SumBounds(x, x[0], x[0]);
    ProdDiv(|x| as real, x[0]);
  }

  lemma SquareZero(d: real)
    ensures Prod(d, d) == 0.0 <==> d == 0.0
  {
    if d < 0.0 {
      ProdPositive(-d, -d);
      assert Prod(d, d) == Prod(-d, -d);
    } else if d > 0.0 {
      ProdPositive(d, d);
    }
  }

  lemma ZeroIffDivZero(a: real, n: real)
    requires n > 0.0
    ensures a / n == 0.0 <==> a == 0.0
  {
  }

  /** The population variance is never negative. */
  lemma PopVarianceNonNeg(x: seq<real>)
    requires |x| > 0
    ensures PopVariance(x) >= 0.0
  {
    var d := Dev(x, Mean(x));
    forall k | 0 <= k < |d| ensures d[k] >= 0.0 {
      DevNonNeg(x, Mean(x), k);
    }
    SumNonNegZero(d);
  }

  /** The population variance is 0 exactly when the row is constant. */
  lemma PopVarianceZeroIffConstant(x: seq<real>)
    requires |x| > 0
    ensures PopVariance(x) == 0.0 <==> Constant(x)
  {
    var m := Mean(x);
    var d := Dev(x, m);
    forall k | 0 <= k < |d| ensures d[k] >= 0.0 && (d[k] == 0.0 <==> x[k] == m) {
      DevNonNeg(x, m, k);
      DevAt(x, m, k);
      SquareZero(x[k] - m);
    }
    SumNonNegZero(d);
    ZeroIffDivZero(Sum(d), |x| as real);
    if Constant(x) {
      MeanConstant(x);
    }
  }

  /** Under SqrtLike the standard deviation is non-negative, and 0 exactly for a constant row. */
  lemma StdZeroIffConstant(x: seq<real>, sqrt: real -> real)
    requires |x| > 0 && SqrtLike(sqrt)
    ensures Std(x, sqrt) >= 0.0
    ensures Std(x, sqrt) == 0.0 <==> Constant(x)
  {
    PopVarianceNonNeg(x);
    PopVarianceZeroIffConstant(x);
  }

  /**
   The zero guard: the index is 0 when the original has no spread, and
   otherwise the ratio of the two standard deviations, whose divisor is
   then positive.
   */
  lemma CiiCases(original: Image, enhanced: Image, luma: Bgr -> Byte, sqrt: real -> real)
    requires |Values(original, luma)| > 0 && |Values(enhanced, luma)| > 0 && SqrtLike(sqrt)
    ensures Constant(Values(original, luma)) ==> CalculateCii(original, enhanced, luma, sqrt) == 0.0
    ensures !Constant(Values(original, luma)) ==>
      Std(Values(original, luma), sqrt) > 0.0 &&
      CalculateCii(original, enhanced, luma, sqrt) == Std(Values(enhanced, luma), sqrt) / Std(Values(original, luma), sqrt)
  {
    StdZeroIffConstant(Values(original, luma), sqrt);
  }

  /** When sqrt is a square root, the standard deviation is never negative. */
  lemma StdNonNeg(x: seq<real>, sqrt: real -> real)
    requires |x| > 0
    ensures SqrtLike(sqrt) ==> Std(x, sqrt) >= 0.0
  {
    PopVarianceNonNeg(x);
  }

  lemma DivNonNeg(a: real, b: real)
    ensures a >= 0.0 && b > 0.0 ==> a / b >= 0.0
  {
  }

  /** An image with non-zero spread compared with itself has index exactly 1. */
  lemma CiiSelf(img: Image, luma: Bgr -> Byte, sqrt: real -> real)
    requires |Values(img, luma)| > 0 && SqrtLike(sqrt) && !Constant(Values(img, luma))
    ensures CalculateCii(img, img, luma, sqrt) == 1.0
  {
    StdZeroIffConstant(Values(img, luma), sqrt);
    SelfDiv(Std(Values(img, luma), sqrt));
  }

  /** The values the index measures are the gray samples, in row-major order. */
  lemma ValuesAreSamples(img: Image, luma: Bgr -> Byte)
    ensures |Values(img, luma)| == |Flat<Byte>(ToGray(img, luma))|
    ensures forall k :: 0 <= k < |Values(img, luma)| ==> Values(img, luma)[k] == Flat<Byte>(ToGray(img, luma))[k] as real
  {
    FlatAsReal(ToGray(img, luma));
  }
}
