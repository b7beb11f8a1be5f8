/**
 The windowed structural similarity index of two images.

 Both images are brought to gray and to reals. Local statistics are taken
 with an 11 x 11 window, the outer product of a 1-D kernel g with itself:
 the local means mu, the local second moments E[I*I] and E[I1*I2], and from
 them, by the moment method, the local variances and the covariance. The
 filter output is cropped by 5 pixels on every side, so every kept value is
 the weighted sum of a window that lies inside the image; this is modelled
 directly as a valid-region correlation, with no border handling. The SSIM
 map combines the five local maps pixel by pixel, and the index is its mean.

 The kernel g (a Gaussian of width 11 and sigma 1.5 in the source) is a
 parameter; ValidKernel states the properties of it that the proofs use.
 */
module Ssim {
  import opened Sums
  import opened Images

  /** Stabilising constants (K * L)^2 for the 8-bit range L = 255. */
  const C1: real := (0.01 * 255.0) * (0.01 * 255.0)
  const C2: real := (0.03 * 255.0) * (0.03 * 255.0)

  /** A Gaussian-like kernel: 11 non-negative, symmetric weights of total 1. */
  predicate ValidKernel(g: seq<real>)
  {
    && |g| == 11
    && (forall k :: 0 <= k < 11 ==> g[k] >= 0.0)
    && Sum(g) == 1.0
    && (forall k :: 0 <= k < 11 ==> g[k] == g[10 - k])
  }

  /** numpy's outer product: row a is h scaled by g[a]. */
  function Outer(g: seq<real>, h: seq<real>): (R: seq<seq<real>>)
    ensures Rect(R, |g|, |h|)
  {
    if |g| == 0 then [] else [Scale(g[0], h)] + Outer(g[1..], h)
  }

  /** The 11 x 11 window, the outer product of the kernel with itself. */
  function Window(g: seq<real>): (R: seq<seq<real>>)
    requires |g| == 11
    ensures Rect(R, 11, 11)
  {
    Outer(g, g)
  }

  /** The 11 x 11 block of X whose top-left corner is (i, j). */
  function Patch(X: seq<seq<real>>, i: nat, j: nat): (P: seq<seq<real>>)
    requires i + 11 <= |X| && forall r :: 0 <= r < |X| ==> j + 11 <= |X[r]|
    ensures Rect(P, 11, 11)
  {
    seq(11, a requires 0 <= a < 11 => X[i + a][j .. j + 11])
  }

  /**
   The correlation of an h x w image X with the window, cropped by 5 on
   every side: entry (i, j) is the window's weighted sum of the block at
   (i, j), which is the filter output at the block's centre (i + 5, j + 5).
   */
  function Filtered(g: seq<real>, X: seq<seq<real>>, h: nat, w: nat): (M: seq<seq<real>>)
    requires |g| == 11 && Rect(X, h, w) && h >= 11 && w >= 11
    ensures Rect(M, h - 10, w - 10)
  {
    seq(h - 10, i requires 0 <= i < h - 10 =>
      seq(w - 10, j requires 0 <= j < w - 10 => Dot2(Window(g), Patch(X, i, j))))
  }

  /**
   The local covariance map: the filtered product X * Y minus the product of
   the two local mean maps. With Y = X it is the local variance map.
   */
  function SigmaMap(g: seq<real>, X: seq<seq<real>>, Y: seq<seq<real>>, h: nat, w: nat): (M: seq<seq<real>>)
    requires |g| == 11 && Rect(X, h, w) && Rect(Y, h, w) && h >= 11 && w >= 11
    ensures Rect(M, h - 10, w - 10)
  {
    Sub2(Filtered(g, Mul2(X, Y), h, w), Mul2(Filtered(g, X, h, w), Filtered(g, Y, h, w)))
  }

  /**
   The closed-form SSIM of one pixel from its local statistics: the squared
   means m11, m22, the product of means m12, the variances s11, s22 and the
   covariance s12.
   */
  function SsimRatio(m11: real, m22: real, m12: real, s11: real, s22: real, s12: real): real
    requires m11 + m22 >= 0.0 && s11 + s22 >= 0.0
  {
    ProdPositive(m11 + m22 + C1, s11 + s22 + C2);
    Prod(2.0 * m12 + C1, 2.0 * s12 + C2) / Prod(m11 + m22 + C1, s11 + s22 + C2)
  }

  /**
   The SSIM map of two real h x w images: the local statistics maps,
   combined pixel by pixel.
   */
  function SsimMap(g: seq<real>, X: seq<seq<real>>, Y: seq<seq<real>>, h: nat, w: nat): (M: seq<seq<real>>)
    requires ValidKernel(g) && Rect(X, h, w) && Rect(Y, h, w) && h >= 11 && w >= 11
    ensures Rect(M, h - 10, w - 10)
  {
    var mu1 := Filtered(g, X, h, w);
    var mu2 := Filtered(g, Y, h, w);
    var mu1Sq := Mul2(mu1, mu1);
    var mu2Sq := Mul2(mu2, mu2);
    var mu1Mu2 := Mul2(mu1, mu2);
    var sigma1Sq := SigmaMap(g, X, X, h, w);
    var sigma2Sq := SigmaMap(g, Y, Y, h, w);
    var sigma12 := SigmaMap(g, X, Y, h, w);
    seq(h - 10, i requires 0 <= i < h - 10 =>
      seq(w - 10, j requires 0 <= j < w - 10 =>
        PixelStatsNonNeg(g, X, Y, h, w, i, j);
        SsimRatio(mu1Sq[i][j], mu2Sq[i][j], mu1Mu2[i][j], sigma1Sq[i][j], sigma2Sq[i][j], sigma12[i][j])))
  }

  /**
   The structural similarity of two images of h rows and w columns: both are
   converted to gray, the SSIM map is built and the mean of its entries
   returned. Since every entry of the map lies in [-1, 1], so does the index.
   */
  function CalculateSsim(img1: Image, img2: Image, g: seq<real>, luma: Bgr -> Byte, h: nat, w: nat): (r: real)
    requires ValidKernel(g) && ImageRect(img1, h, w) && ImageRect(img2, h, w) && h >= 11 && w >= 11
    ensures -1.0 <= r <= 1.0
  {
    GrayRealShape(img1, luma, h, w);
    GrayRealShape(img2, luma, h, w);
    var X1, X2 := AsReal(ToGray(img1, luma)), AsReal(ToGray(img2, luma));
    var M := SsimMap(g, X1, X2, h, w);
    SsimMapBound(g, X1, X2, h, w);
    FlatNonEmpty(M, h - 10, w - 10);
    FlatBounds(M, -1.0, 1.0);
    MeanBounds(Flat(M), -1.0, 1.0);
    Mean(Flat(M))
  }

  // ---------------------------------------------------------------------
  // Scalar facts about one pixel.

  lemma ConstantsPositive()
    ensures C1 > 0.0 && C2 > 0.0
  {
  }

  /** The pixel formula is symmetric in the two images. */
  lemma SsimRatioSymmetric(m11: real, m22: real, m12: real, s11: real, s22: real, s12: real)
    requires m11 + m22 >= 0.0 && s11 + s22 >= 0.0
    ensures SsimRatio(m11, m22, m12, s11, s22, s12) == SsimRatio(m22, m11, m12, s22, s11, s12)
  {
    assert m11 + m22 + C1 == m22 + m11 + C1;
    assert s11 + s22 + C2 == s22 + s11 + C2;
  }

  /** For equal statistics (identical images) the pixel formula is exactly 1. */
  lemma SsimRatioIdentity(m: real, s: real)
    requires m >= 0.0 && s >= 0.0
    ensures SsimRatio(m, m, m, s, s, s) == 1.0
  {
    var a, b := m + m + C1, s + s + C2;
    assert 2.0 * m + C1 == a && 2.0 * s + C2 == b;
    ProdPositive(a, b);
    assert Prod(2.0 * m + C1, 2.0 * s + C2) == Prod(a, b);
    assert SsimRatio(m, m, m, s, s, s) == Prod(a, b) / Prod(a, b);
  }

  /** |a| <= b and |c| <= d give |a c| <= b d. */
  lemma ProdBound(a: real, b: real, c: real, d: real)
    requires -b <= a <= b && -d <= c <= d
    ensures -Prod(b, d) <= Prod(a, c) <= Prod(b, d)
  {
    if a >= 0.0 {
      if c >= 0.0 {
        assert a * c <= b * c <= b * d;
      } else {
        assert a * c >= a * (-d) >= -(b * d);
      }
    } else {
      if c >= 0.0 {
        assert a * c >= (-b) * c >= -(b * d);
      } else {
        assert a * c <= (-b) * c <= b * d;
      }
    }
  }

  /** |x| <= y with y > 0 gives -1 <= x / y <= 1. */
  lemma RatioBound(x: real, y: real)
    requires y > 0.0 && -y <= x <= y
    ensures -1.0 <= x / y <= 1.0
  {
  }

  /**
   Bounded statistics give a bounded pixel value: when |2 m12| <= m11 + m22
   and |2 s12| <= s11 + s22, the pixel formula lies in [-1, 1].
   */
  lemma SsimRatioBound(m11: real, m22: real, m12: real, s11: real, s22: real, s12: real)
    requires m11 + m22 >= 0.0 && s11 + s22 >= 0.0
    requires -(m11 + m22) <= 2.0 * m12 <= m11 + m22
    requires -(s11 + s22) <= 2.0 * s12 <= s11 + s22
    ensures -1.0 <= SsimRatio(m11, m22, m12, s11, s22, s12) <= 1.0
  {
    ProdBound(2.0 * m12 + C1, m11 + m22 + C1, 2.0 * s12 + C2, s11 + s22 + C2);
    ProdPositive(m11 + m22 + C1, s11 + s22 + C2);
    RatioBound(Prod(2.0 * m12 + C1, 2.0 * s12 + C2), Prod(m11 + m22 + C1, s11 + s22 + C2));
  }

  /** 2 a b lies between -(a^2 + b^2) and a^2 + b^2. */
  lemma TwoProdBound(a: real, b: real)
    ensures -(Prod(a, a) + Prod(b, b)) <= 2.0 * Prod(a, b) <= Prod(a, a) + Prod(b, b)
  {
    SquareOfSum(a + b, a, b);
    SquareOfDifference(a - b, a, b);
    SquareNonNeg(a + b);
    SquareNonNeg(a - b);
  }

  // ---------------------------------------------------------------------
  // The window.

  lemma {:induction false} OuterAt(g: seq<real>, h: seq<real>, a: nat, b: nat)
    requires a < |g| && b < |h|
    ensures Outer(g, h)[a][b] == Prod(g[a], h[b])
  {
    if a > 0 {
      OuterAt(g[1..], h, a - 1, b);
    } else {
      ScaleAt(g[0], h, b);
    }
  }

  /** The entries of the outer product sum to the product of the sums. */
  lemma {:induction false} SumOuter(g: seq<real>, h: seq<real>)
    ensures Sum2(Outer(g, h)) == Prod(Sum(g), Sum(h))
  {
    if |g| > 0 {
      SumOuter(g[1..], h);
      SumScale(g[0], h);
      ProdOverSumLeft(Sum(h), g[0], Sum(g[1..]), Sum(g));
    }
  }

  /** The weighted sums of the rows of P, each with weights k. */
  function RowDots(k: seq<real>, P: seq<seq<real>>): (r: seq<real>)
    requires forall a :: 0 <= a < |P| ==> |P[a]| == |k|
    ensures |r| == |P|
  {
    if |P| == 0 then [] else [Dot(k, P[0])] + RowDots(k, P[1..])
  }

  /** Weighting by a scaled row scales the weighted sum. */
  lemma {:induction false} DotScale(c: real, k: seq<real>, x: seq<real>)
    requires |k| == |x|
    ensures Dot(Scale(c, k), x) == Prod(c, Dot(k, x))
  {
    if |k| > 0 {
      DotScale(c, k[1..], x[1..]);
      ProdAssoc(c, k[0], x[0]);
      ProdOverSum(c, Prod(k[0], x[0]), Dot(k[1..], x[1..]), Dot(k, x));
    }
  }

  /**
   Weighting a grid by an outer product g x k is separable: weight each row
   by k, then the row results by g.
   */
  lemma {:induction false} DotOuter(g: seq<real>, k: seq<real>, P: seq<seq<real>>)
    requires |P| == |g| && forall a :: 0 <= a < |P| ==> |P[a]| == |k|
    ensures SameShape(Outer(g, k), P)
    ensures Dot2(Outer(g, k), P) == Dot(g, RowDots(k, P))
  {
    if |g| > 0 {
      DotOuter(g[1..], k, P[1..]);
      DotScale(g[0], k, P[0]);
    }
  }

  /** The window weights are g[a] * g[b], non-negative, and of total 1. */
  lemma WindowConvex(g: seq<real>)
    requires ValidKernel(g)
    ensures forall a, b :: 0 <= a < 11 && 0 <= b < 11 ==> Window(g)[a][b] == Prod(g[a], g[b])
    ensures Convex(Window(g))
  {
    var W := Window(g);
    forall a, b | 0 <= a < 11 && 0 <= b < 11 ensures W[a][b] == Prod(g[a], g[b]) {
      OuterAt(g, g, a, b);
    }
    forall a, b | 0 <= a < |W| && 0 <= b < |W[a]| ensures W[a][b] >= 0.0 {
      ProdNonNeg(g[a], g[b]);
    }
    SumOuter(g, g);
  }

  /**
   The window is symmetric under transposition and under a half-turn, so
   correlating with it is the same as convolving with it.
   */
  lemma WindowSymmetric(g: seq<real>)
    requires ValidKernel(g)
    ensures forall a, b :: 0 <= a < 11 && 0 <= b < 11 ==> Window(g)[a][b] == Window(g)[b][a]
    ensures forall a, b, a', b' :: 0 <= a < 11 && 0 <= b < 11 && a + a' == 10 && b + b' == 10 ==> Window(g)[a'][b'] == Window(g)[a][b]
  {
    var W := Window(g);
    forall a, b | 0 <= a < 11 && 0 <= b < 11 ensures W[a][b] == W[b][a] {
      OuterAt(g, g, a, b);
      OuterAt(g, g, b, a);
      ProdComm(g[a], g[b]);
    }
    forall a, b, a', b' | 0 <= a < 11 && 0 <= b < 11 && a + a' == 10 && b + b' == 10 ensures W[a'][b'] == W[a][b] {
      OuterAt(g, g, a, b);
      OuterAt(g, g, a', b');
      assert g[a'] == g[a] && g[b'] == g[b];
    }
  }

  // ---------------------------------------------------------------------
  // Patches and local statistics.

  /** Patch (i, j) holds the pixels of rows i..i+10 and columns j..j+10. */
  lemma PatchAt(X: seq<seq<real>>, i: nat, j: nat)
    requires i + 11 <= |X| && forall r :: 0 <= r < |X| ==> j + 11 <= |X[r]|
    ensures forall a, b :: 0 <= a < 11 && 0 <= b < 11 ==> Patch(X, i, j)[a][b] == X[i + a][j + b]
  {
  }

  /** A slice of an elementwise product is the product of the slices. */
  lemma MulSlice(x: seq<real>, y: seq<real>, lo: nat, hi: nat)
    requires |x| == |y| && lo <= hi <= |x|
    ensures Mul(x, y)[lo .. hi] == Mul(x[lo .. hi], y[lo .. hi])
  {
    forall k | 0 <= k < hi - lo ensures Mul(x, y)[lo .. hi][k] == Mul(x[lo .. hi], y[lo .. hi])[k] {
      MulAt(x, y, lo + k);
      MulAt(x[lo .. hi], y[lo .. hi], k);
    }
  }

  /** The patch of a product image is the product of the patches. */
  lemma PatchMul(X: seq<seq<real>>, Y: seq<seq<real>>, h: nat, w: nat, i: nat, j: nat)
    requires Rect(X, h, w) && Rect(Y, h, w) && i + 11 <= h && j + 11 <= w
    ensures Patch(Mul2(X, Y), i, j) == Mul2(Patch(X, i, j), Patch(Y, i, j))
  {
    var P := Patch(Mul2(X, Y), i, j);
    var Q := Mul2(Patch(X, i, j), Patch(Y, i, j));
    forall a | 0 <= a < 11 ensures P[a] == Q[a] {
      Mul2At(X, Y, i + a);
      MulSlice(X[i + a], Y[i + a], j, j + 11);
      Mul2At(Patch(X, i, j), Patch(Y, i, j), a);
    }
  }

  /**
   Each kept local mean is separable: the rows of the window at (i, j) are
   weighted by g, then the row results by g again. The weights are
   g[a] * g[b] on the pixels X[i + a][j + b], all inside the image.
   */
  lemma FilteredAt(g: seq<real>, X: seq<seq<real>>, h: nat, w: nat, i: nat, j: nat)
    requires |g| == 11 && Rect(X, h, w) && h >= 11 && w >= 11 && i < h - 10 && j < w - 10
    ensures Filtered(g, X, h, w)[i][j] == Dot(g, RowPass(g, X, i, j))
    ensures forall a, b :: 0 <= a < 11 && 0 <= b < 11 ==>
      Window(g)[a][b] == Prod(g[a], g[b]) && Patch(X, i, j)[a][b] == X[i + a][j + b] && i + a < h && j + b < w
  {
    DotOuter(g, g, Patch(X, i, j));
    PatchRowDots(g, X, i, j);
    forall a, b | 0 <= a < 11 && 0 <= b < 11 ensures Window(g)[a][b] == Prod(g[a], g[b]) {
      OuterAt(g, g, a, b);
    }
    PatchAt(X, i, j);
  }

  /** The horizontal pass at (i, j): row i + a of X, columns j .. j + 10, weighted by g. */
  function RowPass(g: seq<real>, X: seq<seq<real>>, i: nat, j: nat): (r: seq<real>)
    requires |g| == 11 && i + 11 <= |X| && forall r :: 0 <= r < |X| ==> j + 11 <= |X[r]|
    ensures |r| == 11
  {
    seq(11, a requires 0 <= a < 11 => Dot(g, X[i + a][j .. j + 11]))
  }

  /** Weighting the rows of the patch at (i, j) by g is the horizontal pass. */
  lemma PatchRowDots(g: seq<real>, X: seq<seq<real>>, i: nat, j: nat)
    requires |g| == 11 && i + 11 <= |X| && forall r :: 0 <= r < |X| ==> j + 11 <= |X[r]|
    ensures RowDots(g, Patch(X, i, j)) == RowPass(g, X, i, j)
  {
    var P := Patch(X, i, j);
    forall a | 0 <= a < 11 ensures RowDots(g, P)[a] == RowPass(g, X, i, j)[a] {
      RowDotsAt(g, P, a);
    }
  }

  lemma {:induction false} RowDotsAt(k: seq<real>, P: seq<seq<real>>, a: nat)
    requires a < |P| && forall r :: 0 <= r < |P| ==> |P[r]| == |k|
    ensures RowDots(k, P)[a] == Dot(k, P[a])
  {
    if a > 0 {
      RowDotsAt(k, P[1..], a - 1);
    }
  }

  /** Each entry of the covariance map is the window covariance of the two patches. */
  lemma LocalCovariance(g: seq<real>, X: seq<seq<real>>, Y: seq<seq<real>>, h: nat, w: nat, i: nat, j: nat)
    requires |g| == 11 && Rect(X, h, w) && Rect(Y, h, w) && h >= 11 && w >= 11 && i < h - 10 && j < w - 10
    ensures SigmaMap(g, X, Y, h, w)[i][j] == Covariance(Window(g), Patch(X, i, j), Patch(Y, i, j))
  {
    var mu1 := Filtered(g, X, h, w);
    var mu2 := Filtered(g, Y, h, w);
    var f := Filtered(g, Mul2(X, Y), h, w);
    Sub2At(f, Mul2(mu1, mu2), i);
    SubAt(f[i], Mul2(mu1, mu2)[i], j);
    MeanProduct(g, X, Y, h, w, i, j);
    PatchMul(X, Y, h, w, i, j);
  }

  /** Each entry of the product of two mean maps is the product of the two window means. */
  lemma MeanProduct(g: seq<real>, X: seq<seq<real>>, Y: seq<seq<real>>, h: nat, w: nat, i: nat, j: nat)
    requires |g| == 11 && Rect(X, h, w) && Rect(Y, h, w) && h >= 11 && w >= 11 && i < h - 10 && j < w - 10
    ensures Mul2(Filtered(g, X, h, w), Filtered(g, Y, h, w))[i][j] == Prod(Dot2(Window(g), Patch(X, i, j)), Dot2(Window(g), Patch(Y, i, j)))
  {
    var mu1 := Filtered(g, X, h, w);
    var mu2 := Filtered(g, Y, h, w);
    Mul2At(mu1, mu2, i);
    MulAt(mu1[i], mu2[i], j);
  }

  /** Under a valid kernel every entry of the variance map is non-negative. */
  lemma LocalVarianceNonNeg(g: seq<real>, X: seq<seq<real>>, h: nat, w: nat, i: nat, j: nat)
    requires ValidKernel(g) && Rect(X, h, w) && h >= 11 && w >= 11 && i < h - 10 && j < w - 10
    ensures SigmaMap(g, X, X, h, w)[i][j] >= 0.0
  {
    LocalCovariance(g, X, X, h, w, i, j);
    WindowConvex(g);
    WeightedVarianceNonNeg(Window(g), Patch(X, i, j));
  }

  /** The squared means and the variances at a pixel are non-negative. */
  lemma PixelStatsNonNeg(g: seq<real>, X: seq<seq<real>>, Y: seq<seq<real>>, h: nat, w: nat, i: nat, j: nat)
    requires ValidKernel(g) && Rect(X, h, w) && Rect(Y, h, w) && h >= 11 && w >= 11 && i < h - 10 && j < w - 10
    ensures Mul2(Filtered(g, X, h, w), Filtered(g, X, h, w))[i][j] >= 0.0
    ensures Mul2(Filtered(g, Y, h, w), Filtered(g, Y, h, w))[i][j] >= 0.0
    ensures SigmaMap(g, X, X, h, w)[i][j] >= 0.0
    ensures SigmaMap(g, Y, Y, h, w)[i][j] >= 0.0
  {
    MeanProduct(g, X, X, h, w, i, j);
    MeanProduct(g, Y, Y, h, w, i, j);
    SquareNonNeg(Dot2(Window(g), Patch(X, i, j)));
    SquareNonNeg(Dot2(Window(g), Patch(Y, i, j)));
    LocalVarianceNonNeg(g, X, h, w, i, j);
    LocalVarianceNonNeg(g, Y, h, w, i, j);
  }

  // ---------------------------------------------------------------------
  // Properties of the SSIM map and of the index.

  /**
   The SSIM of two patches P and Q under the window weights W: the pixel
   formula applied to their weighted means, variances and covariance.
   */
  function PatchSsim(W: seq<seq<real>>, P: seq<seq<real>>, Q: seq<seq<real>>): real
    requires Convex(W) && SameShape(W, P) && SameShape(P, Q)
  {
    var m1, m2 := Dot2(W, P), Dot2(W, Q);
    WeightedVarianceNonNeg(W, P);
    WeightedVarianceNonNeg(W, Q);
    SquareNonNeg(m1);
    SquareNonNeg(m2);
    SsimRatio(Prod(m1, m1), Prod(m2, m2), Prod(m1, m2), Variance(W, P), Variance(W, Q), Covariance(W, P, Q))
  }

  /** Swapping the two patches leaves their SSIM unchanged. */
  lemma PatchSsimSymmetric(W: seq<seq<real>>, P: seq<seq<real>>, Q: seq<seq<real>>)
    requires Convex(W) && SameShape(W, P) && SameShape(P, Q)
    ensures PatchSsim(W, P, Q) == PatchSsim(W, Q, P)
  {
    var m1, m2 := Dot2(W, P), Dot2(W, Q);
    WeightedVarianceNonNeg(W, P);
    WeightedVarianceNonNeg(W, Q);
    SquareNonNeg(m1);
    SquareNonNeg(m2);
    ProdComm(m1, m2);
    CovarianceSymmetric(W, P, Q);
    SsimRatioSymmetric(Prod(m1, m1), Prod(m2, m2), Prod(m1, m2), Variance(W, P), Variance(W, Q), Covariance(W, P, Q));
  }

  /** A patch compared with itself has SSIM exactly 1. */
  lemma PatchSsimIdentical(W: seq<seq<real>>, P: seq<seq<real>>)
    requires Convex(W) && SameShape(W, P)
    ensures PatchSsim(W, P, P) == 1.0
  {
    var m := Dot2(W, P);
    WeightedVarianceNonNeg(W, P);
    SquareNonNeg(m);
    SsimRatioIdentity(Prod(m, m), Variance(W, P));
  }

  /** Under convex weights the SSIM of two patches lies in [-1, 1]. */
  lemma PatchSsimBound(W: seq<seq<real>>, P: seq<seq<real>>, Q: seq<seq<real>>)
    requires Convex(W) && SameShape(W, P) && SameShape(P, Q)
    ensures -1.0 <= PatchSsim(W, P, Q) <= 1.0
  {
    var m1, m2 := Dot2(W, P), Dot2(W, Q);
    WeightedVarianceNonNeg(W, P);
    WeightedVarianceNonNeg(W, Q);
    SquareNonNeg(m1);
    SquareNonNeg(m2);
    CovarianceBound(W, P, Q);
    TwoProdBound(m1, m2);
    SsimRatioBound(Prod(m1, m1), Prod(m2, m2), Prod(m1, m2), Variance(W, P), Variance(W, Q), Covariance(W, P, Q));
  }

  /**
   Every entry of the SSIM map is the SSIM of the two 11 x 11 patches at
   that position under the window.
   */
  lemma SsimMapAt(g: seq<real>, X: seq<seq<real>>, Y: seq<seq<real>>, h: nat, w: nat, i: nat, j: nat)
    requires ValidKernel(g) && Rect(X, h, w) && Rect(Y, h, w) && h >= 11 && w >= 11 && i < h - 10 && j < w - 10
    ensures Convex(Window(g))
    ensures SsimMap(g, X, Y, h, w)[i][j] == PatchSsim(Window(g), Patch(X, i, j), Patch(Y, i, j))
  {
    WindowConvex(g);
    MeanProduct(g, X, X, h, w, i, j);
    MeanProduct(g, Y, Y, h, w, i, j);
    MeanProduct(g, X, Y, h, w, i, j);
    LocalCovariance(g, X, X, h, w, i, j);
    LocalCovariance(g, Y, Y, h, w, i, j);
    LocalCovariance(g, X, Y, h, w, i, j);
    PixelStatsNonNeg(g, X, Y, h, w, i, j);
  }

  /** Swapping the two images leaves every entry of the SSIM map unchanged. */
  lemma SsimMapSymmetric(g: seq<real>, X: seq<seq<real>>, Y: seq<seq<real>>, h: nat, w: nat)
    requires ValidKernel(g) && Rect(X, h, w) && Rect(Y, h, w) && h >= 11 && w >= 11
    ensures SsimMap(g, X, Y, h, w) == SsimMap(g, Y, X, h, w)
  {
    var A, B := SsimMap(g, X, Y, h, w), SsimMap(g, Y, X, h, w);
    forall i, j | 0 <= i < h - 10 && 0 <= j < w - 10 ensures A[i][j] == B[i][j] {
      SsimMapAt(g, X, Y, h, w, i, j);
      SsimMapAt(g, Y, X, h, w, i, j);
      PatchSsimSymmetric(Window(g), Patch(X, i, j), Patch(Y, i, j));
    }
    forall i | 0 <= i < h - 10 ensures A[i] == B[i] {
    }
  }

  /** For identical inputs every entry of the SSIM map is exactly 1. */
  lemma SsimMapIdentical(g: seq<real>, X: seq<seq<real>>, h: nat, w: nat)
    requires ValidKernel(g) && Rect(X, h, w) && h >= 11 && w >= 11
    ensures forall i, j :: 0 <= i < h - 10 && 0 <= j < w - 10 ==> SsimMap(g, X, X, h, w)[i][j] == 1.0
  {
    forall i, j | 0 <= i < h - 10 && 0 <= j < w - 10 ensures SsimMap(g, X, X, h, w)[i][j] == 1.0 {
      SsimMapAt(g, X, X, h, w, i, j);
      PatchSsimIdentical(Window(g), Patch(X, i, j));
    }
  }

  /** Under a valid kernel every entry of the SSIM map lies in [-1, 1]. */
  lemma SsimMapBound(g: seq<real>, X: seq<seq<real>>, Y: seq<seq<real>>, h: nat, w: nat)
    requires ValidKernel(g) && Rect(X, h, w) && Rect(Y, h, w) && h >= 11 && w >= 11
    ensures forall i, j :: 0 <= i < h - 10 && 0 <= j < w - 10 ==> -1.0 <= SsimMap(g, X, Y, h, w)[i][j] <= 1.0
  {
    forall i, j | 0 <= i < h - 10 && 0 <= j < w - 10 ensures -1.0 <= SsimMap(g, X, Y, h, w)[i][j] <= 1.0 {
      SsimMapAt(g, X, Y, h, w, i, j);
      PatchSsimBound(Window(g), Patch(X, i, j), Patch(Y, i, j));
    }
  }

  /** The gray real images SSIM compares are h x w. */
  lemma GrayRealShape(img: Image, luma: Bgr -> Byte, h: nat, w: nat)
    requires ImageRect(img, h, w)
    ensures Rect(AsReal(ToGray(img, luma)), h, w)
  {
    ToGrayShape(img, luma, h, w);
    AsRealShape(ToGray(img, luma), h, w);
  }

  /** calculate_ssim(A, B) == calculate_ssim(B, A). */
  lemma SsimSymmetric(img1: Image, img2: Image, g: seq<real>, luma: Bgr -> Byte, h: nat, w: nat)
    requires ValidKernel(g) && ImageRect(img1, h, w) && ImageRect(img2, h, w) && h >= 11 && w >= 11
    ensures CalculateSsim(img1, img2, g, luma, h, w) == CalculateSsim(img2, img1, g, luma, h, w)
  {
    GrayRealShape(img1, luma, h, w);
    GrayRealShape(img2, luma, h, w);
    SsimMapSymmetric(g, AsReal(ToGray(img1, luma)), AsReal(ToGray(img2, luma)), h, w);
  }

  /** calculate_ssim(A, A) == 1. */
  lemma SsimIdentical(img: Image, g: seq<real>, luma: Bgr -> Byte, h: nat, w: nat)
    requires ValidKernel(g) && ImageRect(img, h, w) && h >= 11 && w >= 11
    ensures CalculateSsim(img, img, g, luma, h, w) == 1.0
  {
    GrayRealShape(img, luma, h, w);
    var X := AsReal(ToGray(img, luma));
    var M := SsimMap(g, X, X, h, w);
    SsimMapIdentical(g, X, h, w);
    FlatNonEmpty(M, h - 10, w - 10);
    FlatBounds(M, 1.0, 1.0);
    MeanBounds(Flat(M), 1.0, 1.0);
  }
}
