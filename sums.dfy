/**
 Real-valued sums and weighted sums over sequences and rectangular grids.
 These are the arithmetic the metrics are built from: a plain sum, a
 weighted sum (dot product) of weights with values, the 2-D weighted sum of
 a window with an image patch, and the weighted moments (mean, variance,
 covariance) computed from them by the moment method.

 Elementwise operations are defined head first (`[x[0] op y[0]] + ...`) so
 that the inductive proofs below unfold them one element at a time.
 Products go through the named function `Prod`, so that the algebra lemmas
 can state an identity about a product once and have it apply wherever the
 same two factors are multiplied.
 */
module Sums {

  /** Real multiplication. */
  function Prod(a: real, b: real): real
  {
    a * b
  }

  /** Sum of the elements, first element first. */
  function Sum(s: seq<real>): real
  {
    if |s| == 0 then 0.0 else s[0] + Sum(s[1..])
  }

  /** Sum of natural-number counts. */
  function SumNat(s: seq<nat>): nat
  {
    if |s| == 0 then 0 else s[0] + SumNat(s[1..])
  }

  /** Weighted sum: the sum over k of w[k] * x[k]. */
  function Dot(w: seq<real>, x: seq<real>): real
    requires |w| == |x|
  {
    if |w| == 0 then 0.0 else Prod(w[0], x[0]) + Dot(w[1..], x[1..])
  }

  /** Elementwise product of two rows. */
  function Mul(x: seq<real>, y: seq<real>): (r: seq<real>)
    requires |x| == |y|
    ensures |r| == |x|
  {
    if |x| == 0 then [] else [Prod(x[0], y[0])] + Mul(x[1..], y[1..])
  }

  /** Elementwise sum of two rows. */
  function Add(x: seq<real>, y: seq<real>): (r: seq<real>)
    requires |x| == |y|
    ensures |r| == |x|
  {
    if |x| == 0 then [] else [x[0] + y[0]] + Add(x[1..], y[1..])
  }

  /** Elementwise difference of two rows. */
  function Sub(x: seq<real>, y: seq<real>): (r: seq<real>)
    requires |x| == |y|
    ensures |r| == |x|
  {
    if |x| == 0 then [] else [x[0] - y[0]] + Sub(x[1..], y[1..])
  }

  /** Every element of a row multiplied by c. */
  function Scale(c: real, x: seq<real>): (r: seq<real>)
    ensures |r| == |x|
  {
    if |x| == 0 then [] else [Prod(c, x[0])] + Scale(c, x[1..])
  }

  /** Squared deviations (x[k] - c)^2 of a row from a point c. */
  function Dev(x: seq<real>, c: real): (r: seq<real>)
    ensures |r| == |x|
  {
    if |x| == 0 then [] else [Prod(x[0] - c, x[0] - c)] + Dev(x[1..], c)
  }

  /** Both grids have the same number of rows, and row by row the same length. */
  predicate SameShape(a: seq<seq<real>>, b: seq<seq<real>>)
  {
    |a| == |b| && forall r :: 0 <= r < |a| ==> |a[r]| == |b[r]|
  }

  /** A rectangular grid of h rows of w values each. */
  predicate Rect<T>(img: seq<seq<T>>, h: nat, w: nat)
  {
    |img| == h && forall r :: 0 <= r < h ==> |img[r]| == w
  }

  /** Every entry of a grid is non-negative. */
  predicate NonNeg2(W: seq<seq<real>>)
  {
    forall r, c :: 0 <= r < |W| && 0 <= c < |W[r]| ==> W[r][c] >= 0.0
  }

  /** Sum of every entry of a grid. */
  function Sum2(a: seq<seq<real>>): real
  {
    if |a| == 0 then 0.0 else Sum(a[0]) + Sum2(a[1..])
  }

  /** 2-D weighted sum: the sum over (r, c) of W[r][c] * X[r][c]. */
  function Dot2(W: seq<seq<real>>, X: seq<seq<real>>): real
    requires SameShape(W, X)
  {
    if |W| == 0 then 0.0 else Dot(W[0], X[0]) + Dot2(W[1..], X[1..])
  }

  /** Elementwise product of two grids (numpy's `a * b`, and `a ** 2` when b is a). */
  function Mul2(X: seq<seq<real>>, Y: seq<seq<real>>): (R: seq<seq<real>>)
    requires SameShape(X, Y)
    ensures SameShape(R, X)
  {
    if |X| == 0 then [] else [Mul(X[0], Y[0])] + Mul2(X[1..], Y[1..])
  }

  /** Elementwise sum of two grids. */
  function Add2(X: seq<seq<real>>, Y: seq<seq<real>>): (R: seq<seq<real>>)
    requires SameShape(X, Y)
    ensures SameShape(R, X)
  {
    if |X| == 0 then [] else [Add(X[0], Y[0])] + Add2(X[1..], Y[1..])
  }

  /** Elementwise difference of two grids. */
  function Sub2(X: seq<seq<real>>, Y: seq<seq<real>>): (R: seq<seq<real>>)
    requires SameShape(X, Y)
    ensures SameShape(R, X)
  {
    if |X| == 0 then [] else [Sub(X[0], Y[0])] + Sub2(X[1..], Y[1..])
  }

  /** The entries of a grid, row after row (numpy's row-major order). */
  function Flat<T>(X: seq<seq<T>>): seq<T>
  {
    if |X| == 0 then [] else X[0] + Flat(X[1..])
  }

  /** The arithmetic mean of a non-empty row. */
  function Mean(x: seq<real>): real
    requires |x| > 0
  {
    Sum(x) / (|x| as real)
  }

  // ---------------------------------------------------------------------
  // Scalar identities about Prod.

  lemma ProdComm(a: real, b: real)
    ensures Prod(a, b) == Prod(b, a)
  {
  }

  /** Prod(a, s) distributes over s = b + c. */
  lemma ProdOverSum(a: real, b: real, c: real, s: real)
    requires s == b + c
    ensures Prod(a, s) == Prod(a, b) + Prod(a, c)
  {
  }

  /** Prod(a, s) distributes over s = b - c. */
  lemma ProdOverDifference(a: real, b: real, c: real, s: real)
    requires s == b - c
    ensures Prod(a, s) == Prod(a, b) - Prod(a, c)
  {
  }

  /** (a + b)^2 = a^2 + 2ab + b^2. */
  lemma SquareOfSum(p: real, a: real, b: real)
    requires p == a + b
    ensures Prod(p, p) == Prod(a, a) + 2.0 * Prod(a, b) + Prod(b, b)
  {
  }

  /** (a - b)^2 = a^2 - 2ab + b^2. */
  lemma SquareOfDifference(p: real, a: real, b: real)
    requires p == a - b
    ensures Prod(p, p) == Prod(a, a) - 2.0 * Prod(a, b) + Prod(b, b)
  {
  }

  /** Prod(s, a) distributes over s = b + c. */
  lemma ProdOverSumLeft(a: real, b: real, c: real, s: real)
    requires s == b + c
    ensures Prod(s, a) == Prod(b, a) + Prod(c, a)
  {
  }

  lemma ProdAssoc(a: real, b: real, c: real)
    ensures Prod(Prod(a, b), c) == Prod(a, Prod(b, c))
  {
  }

  lemma SquareNonNeg(a: real)
    ensures Prod(a, a) >= 0.0
  {
  }

  lemma ProdPositive(a: real, b: real)
    requires a > 0.0 && b > 0.0
    ensures Prod(a, b) > 0.0
  {
  }

  lemma ProdNonNeg(a: real, b: real)
    requires a >= 0.0 && b >= 0.0
    ensures Prod(a, b) >= 0.0
  {
  }

  lemma DivMonotone(x: real, y: real, n: real)
    requires n > 0.0 && x <= y
    ensures x / n <= y / n
  {
  }

  lemma SelfDiv(t: real)
    requires t > 0.0
    ensures t / t == 1.0
  {
  }

  lemma ProdDiv(n: real, x: real)
    requires n > 0.0
    ensures Prod(n, x) / n == x
  {
  }

  // ---------------------------------------------------------------------
  // Indexing into the elementwise operations.

  lemma {:induction false} MulAt(x: seq<real>, y: seq<real>, k: nat)
    requires |x| == |y| && k < |x|
    ensures Mul(x, y)[k] == Prod(x[k], y[k])
  {
    if k > 0 {
      MulAt(x[1..], y[1..], k - 1);
    }
  }

  lemma {:induction false} Mul2At(X: seq<seq<real>>, Y: seq<seq<real>>, r: nat)
    requires SameShape(X, Y) && r < |X|
    ensures Mul2(X, Y)[r] == Mul(X[r], Y[r])
  {
    if r > 0 {
      Mul2At(X[1..], Y[1..], r - 1);
    }
  }

  lemma {:induction false} SubAt(x: seq<real>, y: seq<real>, k: nat)
    requires |x| == |y| && k < |x|
    ensures Sub(x, y)[k] == x[k] - y[k]
  {
    if k > 0 {
      SubAt(x[1..], y[1..], k - 1);
    }
  }

  lemma {:induction false} Sub2At(X: seq<seq<real>>, Y: seq<seq<real>>, r: nat)
    requires SameShape(X, Y) && r < |X|
    ensures Sub2(X, Y)[r] == Sub(X[r], Y[r])
  {
    if r > 0 {
      Sub2At(X[1..], Y[1..], r - 1);
    }
  }

  lemma {:induction false} DevAt(x: seq<real>, c: real, k: nat)
    requires k < |x|
    ensures Dev(x, c)[k] == Prod(x[k] - c, x[k] - c)
  {
    if k > 0 {
      DevAt(x[1..], c, k - 1);
    }
  }

  lemma {:induction false} ScaleAt(c: real, x: seq<real>, k: nat)
    requires k < |x|
    ensures Scale(c, x)[k] == Prod(c, x[k])
  {
    if k > 0 {
      ScaleAt(c, x[1..], k - 1);
    }
  }

  lemma {:induction false} DevNonNeg(x: seq<real>, c: real, k: nat)
    requires k < |x|
    ensures Dev(x, c)[k] >= 0.0
  {
    if k > 0 {
      DevNonNeg(x[1..], c, k - 1);
    } else {
      SquareNonNeg(x[0] - c);
    }
  }

  lemma {:induction false} MulComm(x: seq<real>, y: seq<real>)
    requires |x| == |y|
    ensures Mul(x, y) == Mul(y, x)
  {
    if |x| > 0 {
      ProdComm(x[0], y[0]);
      MulComm(x[1..], y[1..]);
    }
  }

  /** The elementwise product of grids is commutative. */
  lemma {:induction false} Mul2Comm(X: seq<seq<real>>, Y: seq<seq<real>>)
    requires SameShape(X, Y)
    ensures Mul2(X, Y) == Mul2(Y, X)
  {
    if |X| > 0 {
      MulComm(X[0], Y[0]);
      Mul2Comm(X[1..], Y[1..]);
    }
  }

  // ---------------------------------------------------------------------
  // Sums of sequences.

  /** Sum is additive over concatenation. */
  lemma {:induction false} SumAppend(a: seq<real>, b: seq<real>)
    ensures Sum(a + b) == Sum(a) + Sum(b)
  {
    if |a| > 0 {
      assert (a + b)[1..] == a[1..] + b;
      SumAppend(a[1..], b);
    } else {
      assert a + b == b;
    }
  }

  /** Changing one count changes the total by the difference. */
  lemma {:induction false} SumNatUpdate(s: seq<nat>, k: nat, v: nat)
    requires k < |s|
    ensures SumNat(s[k := v]) + s[k] == SumNat(s) + v
  {
    if k > 0 {
      assert s[k := v][1..] == s[1..][k - 1 := v];
      SumNatUpdate(s[1..], k - 1, v);
    } else {
      assert s[k := v][1..] == s[1..];
    }
  }

  /** A sequence of zeros sums to zero. */
  lemma {:induction false} SumZero(s: seq<real>)
    requires forall m :: 0 <= m < |s| ==> s[m] == 0.0
    ensures Sum(s) == 0.0
  {
    if |s| > 0 {
      SumZero(s[1..]);
    }
  }

  /** Non-negative values sum to something non-negative, and to zero only if all are zero. */
  lemma {:induction false} SumNonNegZero(s: seq<real>)
    requires forall m :: 0 <= m < |s| ==> s[m] >= 0.0
    ensures Sum(s) >= 0.0
    ensures Sum(s) == 0.0 <==> forall m :: 0 <= m < |s| ==> s[m] == 0.0
  {
    if |s| > 0 {
      SumNonNegZero(s[1..]);
      if Sum(s) == 0.0 {
        forall m | 0 <= m < |s| ensures s[m] == 0.0 {
          if m > 0 {
            assert s[m] == s[1..][m - 1];
          }
        }
      } else {
        assert s[0] != 0.0 || Sum(s[1..]) != 0.0;
      }
    } else {
      SumZero(s);
    }
  }

  /** Scaling a row scales its sum. */
  lemma {:induction false} SumScale(c: real, x: seq<real>)
    ensures Sum(Scale(c, x)) == Prod(c, Sum(x))
  {
    if |x| > 0 {
      SumScale(c, x[1..]);
      ProdOverSum(c, x[0], Sum(x[1..]), Sum(x));
    }
  }

  /** Entries between lo and hi sum to between lo and hi times the length. */
  lemma {:induction false} SumBounds(s: seq<real>, lo: real, hi: real)
    requires forall m :: 0 <= m < |s| ==> lo <= s[m] <= hi
    ensures Prod(|s| as real, lo) <= Sum(s) <= Prod(|s| as real, hi)
  {
    if |s| > 0 {
      SumBounds(s[1..], lo, hi);
      ProdOverSumLeft(lo, 1.0, (|s| - 1) as real, |s| as real);
      ProdOverSumLeft(hi, 1.0, (|s| - 1) as real, |s| as real);
    }
  }

  /** The mean of a non-empty row whose entries lie in [lo, hi] lies in [lo, hi]. */
  lemma MeanBounds(x: seq<real>, lo: real, hi: real)
    requires |x| > 0
    requires forall k :: 0 <= k < |x| ==> lo <= x[k] <= hi
    ensures lo <= Mean(x) <= hi
  {
    SumBounds(x, lo, hi);
    var n := |x| as real;
    ProdDiv(n, lo);
    ProdDiv(n, hi);
    DivMonotone(Prod(n, lo), Sum(x), n);
    DivMonotone(Sum(x), Prod(n, hi), n);
  }

  // ---------------------------------------------------------------------
  // Algebra of weighted sums of one row.

  /** Non-negative weights against non-negative values give a non-negative sum. */
  lemma {:induction false} DotNonNeg(w: seq<real>, x: seq<real>)
    requires |w| == |x|
    requires forall k :: 0 <= k < |w| ==> w[k] >= 0.0 && x[k] >= 0.0
    ensures Dot(w, x) >= 0.0
  {
    if |w| > 0 {
      ProdNonNeg(w[0], x[0]);
      DotNonNeg(w[1..], x[1..]);
    }
  }

  lemma {:induction false} DotAdd(w: seq<real>, x: seq<real>, y: seq<real>)
    requires |w| == |x| == |y|
    ensures Dot(w, Add(x, y)) == Dot(w, x) + Dot(w, y)
  {
    if |w| > 0 {
      DotAdd(w[1..], x[1..], y[1..]);
      ProdOverSum(w[0], x[0], y[0], Add(x, y)[0]);
    }
  }

  lemma {:induction false} DotSub(w: seq<real>, x: seq<real>, y: seq<real>)
    requires |w| == |x| == |y|
    ensures Dot(w, Sub(x, y)) == Dot(w, x) - Dot(w, y)
  {
    if |w| > 0 {
      DotSub(w[1..], x[1..], y[1..]);
      ProdOverDifference(w[0], x[0], y[0], Sub(x, y)[0]);
    }
  }

  /** The head term of DotMulAdd: w (x + y)^2 = w x^2 + 2 w x y + w y^2. */
  lemma WeightedSquareOfSum(w0: real, x0: real, y0: real, s0: real)
    requires s0 == x0 + y0
    ensures Prod(w0, Prod(s0, s0)) == Prod(w0, Prod(x0, x0)) + 2.0 * Prod(w0, Prod(x0, y0)) + Prod(w0, Prod(y0, y0))
  {
    SquareOfSum(s0, x0, y0);
  }

  /** The head term of DotMulSub: w (x - y)^2 = w x^2 - 2 w x y + w y^2. */
  lemma WeightedSquareOfDifference(w0: real, x0: real, y0: real, s0: real)
    requires s0 == x0 - y0
    ensures Prod(w0, Prod(s0, s0)) == Prod(w0, Prod(x0, x0)) - 2.0 * Prod(w0, Prod(x0, y0)) + Prod(w0, Prod(y0, y0))
  {
    SquareOfDifference(s0, x0, y0);
  }

  /** Weighted second moment of a sum: E[(x+y)^2] = E[xx] + 2 E[xy] + E[yy]. */
  lemma {:induction false} DotMulAdd(w: seq<real>, x: seq<real>, y: seq<real>)
    requires |w| == |x| == |y|
    ensures Dot(w, Mul(Add(x, y), Add(x, y))) == Dot(w, Mul(x, x)) + 2.0 * Dot(w, Mul(x, y)) + Dot(w, Mul(y, y))
  {
    if |w| > 0 {
      DotMulAdd(w[1..], x[1..], y[1..]);
      WeightedSquareOfSum(w[0], x[0], y[0], Add(x, y)[0]);
    }
  }

  /** Weighted second moment of a difference: E[(x-y)^2] = E[xx] - 2 E[xy] + E[yy]. */
  lemma {:induction false} DotMulSub(w: seq<real>, x: seq<real>, y: seq<real>)
    requires |w| == |x| == |y|
    ensures Dot(w, Mul(Sub(x, y), Sub(x, y))) == Dot(w, Mul(x, x)) - 2.0 * Dot(w, Mul(x, y)) + Dot(w, Mul(y, y))
  {
    if |w| > 0 {
      DotMulSub(w[1..], x[1..], y[1..]);
      WeightedSquareOfDifference(w[0], x[0], y[0], Sub(x, y)[0]);
    }
  }

  /** The head term of DotDev: w (x - c)^2 = w x^2 - 2 c (w x) + c^2 w. */
  lemma WeightedDeviation(w0: real, x0: real, c: real, d: real)
    requires d == x0 - c
    ensures Prod(w0, Prod(d, d)) == Prod(w0, Prod(x0, x0)) - 2.0 * Prod(c, Prod(w0, x0)) + Prod(Prod(c, c), w0)
  {
  }

  /**
   Expansion of the weighted sum of squared deviations from c:
     sum w (x - c)^2 = E[xx] - 2 c E[x] + c^2 sum w.
   */
  lemma {:induction false} DotDev(w: seq<real>, x: seq<real>, c: real)
    requires |w| == |x|
    ensures Dot(w, Dev(x, c)) == Dot(w, Mul(x, x)) - 2.0 * Prod(c, Dot(w, x)) + Prod(Prod(c, c), Sum(w))
  {
    if |w| > 0 {
      DotDev(w[1..], x[1..], c);
      WeightedDeviation(w[0], x[0], c, x[0] - c);
      ProdOverSum(c, Prod(w[0], x[0]), Dot(w[1..], x[1..]), Dot(w, x));
      ProdOverSum(Prod(c, c), w[0], Sum(w[1..]), Sum(w));
    }
  }

  /**
   Under non-negative weights the moment form of the weighted sum of squared
   deviations from any point c is non-negative.
   */
  lemma SpreadNonNeg(w: seq<real>, x: seq<real>, c: real)
    requires |w| == |x|
    requires forall k :: 0 <= k < |w| ==> w[k] >= 0.0
    ensures Dot(w, Mul(x, x)) - 2.0 * Prod(c, Dot(w, x)) + Prod(Prod(c, c), Sum(w)) >= 0.0
  {
    DotDev(w, x, c);
    forall k | 0 <= k < |w| ensures w[k] >= 0.0 && Dev(x, c)[k] >= 0.0 {
      DevNonNeg(x, c, k);
    }
    DotNonNeg(w, Dev(x, c));
  }

  // ---------------------------------------------------------------------
  // The same algebra lifted to grids, row by row.

  lemma {:induction false} Dot2Add(W: seq<seq<real>>, X: seq<seq<real>>, Y: seq<seq<real>>)
    requires SameShape(W, X) && SameShape(X, Y)
    ensures Dot2(W, Add2(X, Y)) == Dot2(W, X) + Dot2(W, Y)
  {
    if |W| > 0 {
      DotAdd(W[0], X[0], Y[0]);
      Dot2Add(W[1..], X[1..], Y[1..]);
    }
  }

  lemma {:induction false} Dot2Sub(W: seq<seq<real>>, X: seq<seq<real>>, Y: seq<seq<real>>)
    requires SameShape(W, X) && SameShape(X, Y)
    ensures Dot2(W, Sub2(X, Y)) == Dot2(W, X) - Dot2(W, Y)
  {
    if |W| > 0 {
      DotSub(W[0], X[0], Y[0]);
      Dot2Sub(W[1..], X[1..], Y[1..]);
    }
  }

  lemma {:induction false} Dot2MulAdd(W: seq<seq<real>>, X: seq<seq<real>>, Y: seq<seq<real>>)
    requires SameShape(W, X) && SameShape(X, Y)
    ensures Dot2(W, Mul2(Add2(X, Y), Add2(X, Y))) == Dot2(W, Mul2(X, X)) + 2.0 * Dot2(W, Mul2(X, Y)) + Dot2(W, Mul2(Y, Y))
  {
    if |W| > 0 {
      DotMulAdd(W[0], X[0], Y[0]);
      Dot2MulAdd(W[1..], X[1..], Y[1..]);
    }
  }

  lemma {:induction false} Dot2MulSub(W: seq<seq<real>>, X: seq<seq<real>>, Y: seq<seq<real>>)
    requires SameShape(W, X) && SameShape(X, Y)
    ensures Dot2(W, Mul2(Sub2(X, Y), Sub2(X, Y))) == Dot2(W, Mul2(X, X)) - 2.0 * Dot2(W, Mul2(X, Y)) + Dot2(W, Mul2(Y, Y))
  {
    if |W| > 0 {
      DotMulSub(W[0], X[0], Y[0]);
      Dot2MulSub(W[1..], X[1..], Y[1..]);
    }
  }

  // ---------------------------------------------------------------------
  // Flattening a grid into one row, row after row.

  lemma {:induction false} DotAppend(w: seq<real>, x: seq<real>, v: seq<real>, y: seq<real>)
    requires |w| == |x| && |v| == |y|
    ensures Dot(w + v, x + y) == Dot(w, x) + Dot(v, y)
  {
    if |w| > 0 {
      assert (w + v)[0] == w[0] && (x + y)[0] == x[0];
      assert (w + v)[1..] == w[1..] + v && (x + y)[1..] == x[1..] + y;
      DotAppend(w[1..], x[1..], v, y);
    } else {
      assert w + v == v && x + y == y;
    }
  }

  lemma {:induction false} MulAppend(x: seq<real>, y: seq<real>, u: seq<real>, v: seq<real>)
    requires |x| == |y| && |u| == |v|
    ensures Mul(x + u, y + v) == Mul(x, y) + Mul(u, v)
  {
    if |x| > 0 {
      assert (x + u)[0] == x[0] && (y + v)[0] == y[0];
      assert (x + u)[1..] == x[1..] + u && (y + v)[1..] == y[1..] + v;
      MulAppend(x[1..], y[1..], u, v);
    } else {
      assert x + u == u && y + v == v;
    }
  }

  /** The position of row i, column j in the row-major listing of rows of width w. */
  function Offset(i: nat, w: nat, j: nat): nat
  {
    i * w + j
  }

  /** Inside an h x w grid the offset is below h * w; past the first row it is w further on than in the rows below it. */
  lemma OffsetStep(h: nat, w: nat, i: nat, j: nat)
    requires i < h && j < w
    ensures Offset(i, w, j) < h * w
    ensures i > 0 ==> Offset(i, w, j) == w + Offset(i - 1, w, j)
  {
    assert i * w + w == (i + 1) * w;
    assert (i + 1) * w <= h * w;
  }

  /** A grid of h rows of w entries has h * w entries. */
  lemma {:induction false} FlatLength<T>(s: seq<seq<T>>, h: nat, w: nat)
    requires Rect(s, h, w)
    ensures |Flat(s)| == h * w
  {
    if h > 0 {
      assert Rect(s[1..], h - 1, w);
      FlatLength(s[1..], h - 1, w);
    }
  }

  /** Entry Offset(i, w, j) of the row-major listing is the entry in row i, column j. */
  lemma {:induction false} FlatAt<T>(s: seq<seq<T>>, h: nat, w: nat)
    requires Rect(s, h, w)
    ensures |Flat(s)| == h * w
    ensures forall i, j :: 0 <= i < h && 0 <= j < w ==> Offset(i, w, j) < |Flat(s)| && Flat(s)[Offset(i, w, j)] == s[i][j]
  {
    FlatLength(s, h, w);
    if h > 0 {
      var t := s[1..];
      assert Rect(t, h - 1, w);
      FlatAt(t, h - 1, w);
      assert Flat(s) == s[0] + Flat(t);
      forall i, j | 0 <= i < h && 0 <= j < w ensures Offset(i, w, j) < |Flat(s)| && Flat(s)[Offset(i, w, j)] == s[i][j] {
        OffsetStep(h, w, i, j);
        if i > 0 {
          assert t[i - 1] == s[i];
          assert Flat(t)[Offset(i - 1, w, j)] == s[i][j];
        }
      }
    }
  }

  /** A grid of at least one row and one column flattens to a non-empty row. */
  lemma FlatNonEmpty<T>(s: seq<seq<T>>, h: nat, w: nat)
    requires Rect(s, h, w) && h > 0 && w > 0
    ensures |Flat(s)| > 0
  {
    FlatLength(s, h, w);
    assert h * w >= w;
  }

  /** Every entry of the flattened grid lies in [lo, hi] when every entry of the grid does. */
  lemma {:induction false} FlatBounds(W: seq<seq<real>>, lo: real, hi: real)
    requires forall r, c :: 0 <= r < |W| && 0 <= c < |W[r]| ==> lo <= W[r][c] <= hi
    ensures forall k :: 0 <= k < |Flat(W)| ==> lo <= Flat(W)[k] <= hi
  {
    if |W| > 0 {
      assert forall r, c :: 0 <= r < |W[1..]| && 0 <= c < |W[1..][r]| ==> W[1..][r][c] == W[r + 1][c];
      FlatBounds(W[1..], lo, hi);
      forall k | 0 <= k < |Flat(W)| ensures lo <= Flat(W)[k] <= hi {
        if k >= |W[0]| {
          assert Flat(W)[k] == Flat(W[1..])[k - |W[0]|];
        } else {
          assert Flat(W)[k] == W[0][k];
        }
      }
    }
  }

  lemma {:induction false} FlatShape(W: seq<seq<real>>, X: seq<seq<real>>)
    requires SameShape(W, X)
    ensures |Flat(W)| == |Flat(X)|
  {
    if |W| > 0 {
      FlatShape(W[1..], X[1..]);
    }
  }

  /** Every entry of the flattened grid is an entry of the grid. */
  lemma {:induction false} FlatNonNeg(W: seq<seq<real>>)
    requires NonNeg2(W)
    ensures forall k :: 0 <= k < |Flat(W)| ==> Flat(W)[k] >= 0.0
  {
    if |W| > 0 {
      assert NonNeg2(W[1..]) by {
        forall r, c | 0 <= r < |W| - 1 && 0 <= c < |W[1..][r]| ensures W[1..][r][c] >= 0.0 {
          assert W[1..][r] == W[r + 1];
        }
      }
      FlatNonNeg(W[1..]);
      forall k | 0 <= k < |Flat(W)| ensures Flat(W)[k] >= 0.0 {
        if k >= |W[0]| {
          assert Flat(W)[k] == Flat(W[1..])[k - |W[0]|];
        } else {
          assert Flat(W)[k] == W[0][k];
        }
      }
    }
  }

  /** A 2-D weighted sum is the 1-D weighted sum of the flattened grids. */
  lemma {:induction false} Dot2Flat(W: seq<seq<real>>, X: seq<seq<real>>)
    requires SameShape(W, X)
    ensures |Flat(W)| == |Flat(X)| && Dot2(W, X) == Dot(Flat(W), Flat(X))
  {
    if |W| > 0 {
      FlatShape(W[1..], X[1..]);
      Dot2Flat(W[1..], X[1..]);
      DotAppend(W[0], X[0], Flat(W[1..]), Flat(X[1..]));
    }
  }

  lemma {:induction false} Sum2Flat(W: seq<seq<real>>)
    ensures Sum2(W) == Sum(Flat(W))
  {
    if |W| > 0 {
      Sum2Flat(W[1..]);
      SumAppend(W[0], Flat(W[1..]));
    }
  }

  lemma {:induction false} Mul2Flat(X: seq<seq<real>>, Y: seq<seq<real>>)
    requires SameShape(X, Y)
    ensures |Flat(X)| == |Flat(Y)| && Flat(Mul2(X, Y)) == Mul(Flat(X), Flat(Y))
  {
    if |X| > 0 {
      FlatShape(X[1..], Y[1..]);
      Mul2Flat(X[1..], Y[1..]);
      MulAppend(X[0], Y[0], Flat(X[1..]), Flat(Y[1..]));
    }
  }

  // ---------------------------------------------------------------------
  // Weighted moments under a convex weighting (non-negative, summing to 1).

  /** A convex weighting: non-negative weights of total 1. */
  predicate Convex(W: seq<seq<real>>)
  {
    NonNeg2(W) && Sum2(W) == 1.0
  }

  /** The weighted variance E[X*X] - E[X]^2, by the moment method. */
  function Variance(W: seq<seq<real>>, X: seq<seq<real>>): real
    requires SameShape(W, X)
  {
    Dot2(W, Mul2(X, X)) - Prod(Dot2(W, X), Dot2(W, X))
  }

  /** The weighted covariance E[X*Y] - E[X] E[Y], by the moment method. */
  function Covariance(W: seq<seq<real>>, X: seq<seq<real>>, Y: seq<seq<real>>): real
    requires SameShape(W, X) && SameShape(X, Y)
  {
    Dot2(W, Mul2(X, Y)) - Prod(Dot2(W, X), Dot2(W, Y))
  }

  /** The scalar step of WeightedVarianceNonNeg, at c = m and total weight 1. */
  lemma CentredAtMean(a: real, m: real, e: real, s: real)
    requires a - 2.0 * Prod(m, e) + Prod(Prod(m, m), s) >= 0.0
    requires e == m && s == 1.0
    ensures a - Prod(m, m) >= 0.0
  {
  }

  /**
   Under a convex weighting the weighted variance E[X*X] - E[X]^2 is
   non-negative: it equals the weighted sum of squared deviations from E[X].
   */
  lemma WeightedVarianceNonNeg(W: seq<seq<real>>, X: seq<seq<real>>)
    requires SameShape(W, X) && Convex(W)
    ensures Variance(W, X) >= 0.0
  {
    Dot2Flat(W, X);
    Dot2Flat(W, Mul2(X, X));
    Mul2Flat(X, X);
    Sum2Flat(W);
    FlatNonNeg(W);
    SpreadNonNeg(Flat(W), Flat(X), Dot2(W, X));
    CentredAtMean(Dot2(W, Mul2(X, X)), Dot2(W, X), Dot(Flat(W), Flat(X)), Sum(Flat(W)));
  }

  /** Covariance is symmetric in its two images. */
  lemma CovarianceSymmetric(W: seq<seq<real>>, X: seq<seq<real>>, Y: seq<seq<real>>)
    requires SameShape(W, X) && SameShape(X, Y)
    ensures Covariance(W, X, Y) == Covariance(W, Y, X)
  {
    Mul2Comm(X, Y);
    ProdComm(Dot2(W, X), Dot2(W, Y));
  }

  /** var(X + Y) = var(X) + 2 cov(X, Y) + var(Y). */
  lemma VarianceOfSum(W: seq<seq<real>>, X: seq<seq<real>>, Y: seq<seq<real>>)
    requires SameShape(W, X) && SameShape(X, Y)
    ensures Variance(W, Add2(X, Y)) == Variance(W, X) + 2.0 * Covariance(W, X, Y) + Variance(W, Y)
  {
    Dot2MulAdd(W, X, Y);
    Dot2Add(W, X, Y);
    SquareOfSum(Dot2(W, Add2(X, Y)), Dot2(W, X), Dot2(W, Y));
  }

  /** var(X - Y) = var(X) - 2 cov(X, Y) + var(Y). */
  lemma VarianceOfDifference(W: seq<seq<real>>, X: seq<seq<real>>, Y: seq<seq<real>>)
    requires SameShape(W, X) && SameShape(X, Y)
    ensures Variance(W, Sub2(X, Y)) == Variance(W, X) - 2.0 * Covariance(W, X, Y) + Variance(W, Y)
  {
    Dot2MulSub(W, X, Y);
    Dot2Sub(W, X, Y);
    SquareOfDifference(Dot2(W, Sub2(X, Y)), Dot2(W, X), Dot2(W, Y));
  }

  /**
   Under a convex weighting the weighted covariance is bounded by the two
   weighted variances:
     |2 cov(X, Y)| <= var(X) + var(Y),
   because var(X + Y) >= 0 and var(X - Y) >= 0.
   */
  lemma CovarianceBound(W: seq<seq<real>>, X: seq<seq<real>>, Y: seq<seq<real>>)
    requires SameShape(W, X) && SameShape(X, Y) && Convex(W)
    ensures -(Variance(W, X) + Variance(W, Y)) <= 2.0 * Covariance(W, X, Y) <= Variance(W, X) + Variance(W, Y)
  {
    WeightedVarianceNonNeg(W, Add2(X, Y));
    WeightedVarianceNonNeg(W, Sub2(X, Y));
    VarianceOfSum(W, X, Y);
    VarianceOfDifference(W, X, Y);
  }
}
