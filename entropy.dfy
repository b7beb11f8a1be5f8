/**
 Shannon entropy of an image's gray-level histogram, in bits.

 The image is brought to gray; its samples are counted into 256 bins, one
 per value 0..255; the counts are divided by their total to give
 probabilities; the empty bins are dropped; and the entropy is the sum of
 -p * log2(p) over the bins that remain.

 log2 is a parameter: Log2Like states the two facts about it that the
 proofs use.
 */
module Entropy {
  import opened Sums
  import opened Images

  /** The facts about the base-2 logarithm that the entropy proofs use. */
  ghost predicate Log2Like(log2: real -> real)
  {
    && log2(1.0) == 0.0
    && forall p :: 0.0 < p <= 1.0 ==> log2(p) <= 0.0
  }

  /** 256 empty bins. */
  function EmptyBins(): (h: seq<nat>)
    ensures |h| == 256
  {
    seq(256, _ => 0)
  }

  /** The 256-bin histogram of the samples, counted one sample at a time. */
  function Histogram(px: seq<Byte>): (h: seq<nat>)
    ensures |h| == 256
  {
    if |px| == 0 then EmptyBins()
    else
      var h := Histogram(px[..|px| - 1]);
      var v := px[|px| - 1];
      h[v := h[v] + 1]
  }

  /** Counts divided by the total t: `hist / hist.sum()`. */
  function Normalize(h: seq<nat>, t: nat): (p: seq<real>)
    requires t > 0
    ensures |p| == |h|
  {
    if |h| == 0 then [] else [h[0] as real / t as real] + Normalize(h[1..], t)
  }

  /** The strictly positive entries, in order: `hist[hist > 0]`. */
  function Positive(p: seq<real>): (q: seq<real>)
    ensures |q| <= |p|
  {
    if |p| == 0 then []
    else if p[0] > 0.0 then [p[0]] + Positive(p[1..])
    else Positive(p[1..])
  }

  /** log2 of every entry: `np.log2(hist)`. */
  function Log2Map(q: seq<real>, log2: real -> real): (r: seq<real>)
    ensures |r| == |q|
    ensures forall k :: 0 <= k < |q| ==> r[k] == log2(q[k])
  {
    if |q| == 0 then [] else [log2(q[0])] + Log2Map(q[1..], log2)
  }

  /**
   The probabilities of the non-empty bins of a gray array. With no
   samples at all every bin is 0 / 0, which is not a number, and the
   positive filter keeps none of them: nothing is left.
   */
  function Probabilities(gray: seq<seq<Byte>>): seq<real>
  {
    var px := Flat<Byte>(gray);
    if |px| == 0 then [] else Positive(Normalize(Histogram(px), |px|))
  }

  /**
   The entropy of an image. An image without pixels has entropy 0: no bin
   passes the filter.
   */
  function CalculateEntropy(img: Image, luma: Bgr -> Byte, log2: real -> real): (r: real)
    ensures |Flat<Byte>(ToGray(img, luma))| == 0 ==> r == 0.0
  {
    var q := Probabilities(ToGray(img, luma));
    -Dot(q, Log2Map(q, log2))
  }

  // ---------------------------------------------------------------------
  // The histogram.

  lemma SumNatEmptyBins()
    ensures SumNat(EmptyBins()) == 0
  {
    SumNatZeros(EmptyBins());
  }

  lemma {:induction false} SumNatZeros(s: seq<nat>)
    requires forall k :: 0 <= k < |s| ==> s[k] == 0
    ensures SumNat(s) == 0
  {
    if |s| > 0 {
      SumNatZeros(s[1..]);
    }
  }

  /** Bin v holds the number of samples equal to v. */
  lemma {:induction false} HistogramCounts(px: seq<Byte>)
    ensures forall v: Byte :: Histogram(px)[v] == multiset(px)[v]
  {
    if |px| > 0 {
      var init := px[..|px| - 1];
      HistogramCounts(init);
      assert px == init + [px[|px| - 1]];
      assert multiset(px) == multiset(init) + multiset{px[|px| - 1]};
    }
  }

  /** The counts add up to the number of samples. */
  lemma {:induction false} HistogramMass(px: seq<Byte>)
    ensures SumNat(Histogram(px)) == |px|
  {
    if |px| == 0 {
      SumNatEmptyBins();
    } else {
      var init := px[..|px| - 1];
      var v := px[|px| - 1];
      HistogramMass(init);
      SumNatUpdate(Histogram(init), v, Histogram(init)[v] + 1);
    }
  }

  /** The counts of an h x w gray array add up to its h * w pixels. */
  lemma HistogramPixels(gray: seq<seq<Byte>>, h: nat, w: nat)
    requires Rect(gray, h, w)
    ensures SumNat(Histogram(Flat<Byte>(gray))) == h * w
  {
    HistogramMass(Flat<Byte>(gray));
    FlatLength(gray, h, w);
  }

  /** No bin holds more than the total. */
  lemma {:induction false} BinAtMostTotal(h: seq<nat>, k: nat)
    requires k < |h|
    ensures h[k] <= SumNat(h)
  {
    if k > 0 {
      BinAtMostTotal(h[1..], k - 1);
    }
  }

  // ---------------------------------------------------------------------
  // Probabilities.

  lemma DivAdd(a: real, b: real, t: real)
    requires t > 0.0
    ensures a / t + b / t == (a + b) / t
  {
  }

  lemma {:induction false} NormalizeAt(h: seq<nat>, t: nat, k: nat)
    requires t > 0 && k < |h|
    ensures Normalize(h, t)[k] == h[k] as real / t as real
  {
    if k > 0 {
      NormalizeAt(h[1..], t, k - 1);
    }
  }

  /** The normalised counts sum to the total count over t. */
  lemma {:induction false} NormalizeSum(h: seq<nat>, t: nat)
    requires t > 0
    ensures Sum(Normalize(h, t)) == SumNat(h) as real / t as real
  {
    if |h| > 0 {
      NormalizeSum(h[1..], t);
      DivAdd(h[0] as real, SumNat(h[1..]) as real, t as real);
    }
  }

  /** Counts that add up to t give values in [0, 1]. */
  lemma NormalizeInUnit(h: seq<nat>, t: nat)
    requires t > 0 && SumNat(h) == t
    ensures forall k :: 0 <= k < |h| ==> 0.0 <= Normalize(h, t)[k] <= 1.0
  {
    forall k | 0 <= k < |h| ensures 0.0 <= Normalize(h, t)[k] <= 1.0 {
      NormalizeAt(h, t, k);
      BinAtMostTotal(h, k);
      UnitFraction(h[k] as real, t as real);
    }
  }

  lemma UnitFraction(a: real, t: real)
    requires t > 0.0 && 0.0 <= a <= t
    ensures 0.0 <= a / t <= 1.0
  {
  }

  /**
   Dropping the non-positive entries keeps exactly the positive ones, each
   as often as it occurs.
   */
  lemma {:induction false} PositiveMembers(p: seq<real>)
    ensures forall x :: x in Positive(p) <==> x in p && x > 0.0
    ensures forall x :: multiset(Positive(p))[x] == if x > 0.0 then multiset(p)[x] else 0
  {
    if |p| > 0 {
      PositiveMembers(p[1..]);
      assert p == [p[0]] + p[1..];
    }
  }

  /** Dropping entries that are zero does not change the sum. */
  lemma {:induction false} PositiveSum(p: seq<real>)
    requires forall k :: 0 <= k < |p| ==> p[k] >= 0.0
    ensures Sum(Positive(p)) == Sum(p)
  {
    if |p| > 0 {
      PositiveSum(p[1..]);
    }
  }

  /** The histogram's probabilities sum to 1, before and after the empty bins are dropped. */
  lemma ProbabilitiesSumToOne(gray: seq<seq<Byte>>)
    requires |Flat<Byte>(gray)| > 0
    ensures Sum(Normalize(Histogram(Flat<Byte>(gray)), |Flat<Byte>(gray)|)) == 1.0
    ensures Sum(Probabilities(gray)) == 1.0
  {
    var px := Flat<Byte>(gray);
    var h := Histogram(px);
    var p := Normalize(h, |px|);
    HistogramMass(px);
    NormalizeSum(h, |px|);
    SelfDiv(|px| as real);
    assert Sum(p) == 1.0;
    NormalizeInUnit(h, |px|);
    PositiveSum(p);
  }


  /** Every retained probability lies in (0, 1]. */
  lemma ProbabilitiesInUnit(gray: seq<seq<Byte>>)
    ensures forall k :: 0 <= k < |Probabilities(gray)| ==> 0.0 < Probabilities(gray)[k] <= 1.0
  {
    var px := Flat<Byte>(gray);
    if |px| > 0 {
      var p := Normalize(Histogram(px), |px|);
      HistogramMass(px);
      NormalizeInUnit(Histogram(px), |px|);
      PositiveMembers(p);
      forall k | 0 <= k < |Positive(p)| ensures 0.0 < Positive(p)[k] <= 1.0 {
        assert Positive(p)[k] in Positive(p);
      }
    }
  }

  // ---------------------------------------------------------------------
  // Entropy.

  /** Values in (0, 1] have a non-positive sum of p * log2(p). */
  lemma {:induction false} PLogPNonPos(q: seq<real>, log2: real -> real)
    requires Log2Like(log2)
    requires forall k :: 0 <= k < |q| ==> 0.0 < q[k] <= 1.0
    ensures Dot(q, Log2Map(q, log2)) <= 0.0
  {
    if |q| > 0 {
      PLogPNonPos(q[1..], log2);
      assert log2(q[0]) <= 0.0;
      ProdNonPos(q[0], log2(q[0]));
    }
  }

  lemma ProdNonPos(a: real, b: real)
    requires a >= 0.0 && b <= 0.0
    ensures Prod(a, b) <= 0.0
  {
  }

  /** Entropy is never negative. */
  lemma EntropyNonNeg(img: Image, luma: Bgr -> Byte, log2: real -> real)
    requires Log2Like(log2)
    ensures CalculateEntropy(img, luma, log2) >= 0.0
  {
    ProbabilitiesInUnit(ToGray(img, luma));
    PLogPNonPos(Probabilities(ToGray(img, luma)), log2);
  }

  /** The samples of a constant image: all n of them in bin v, none elsewhere. */
  lemma {:induction false} ConstantCounts(px: seq<Byte>, v: Byte)
    requires forall k :: 0 <= k < |px| ==> px[k] == v
    ensures multiset(px)[v] == |px|
    ensures forall u: Byte :: u != v ==> multiset(px)[u] == 0
  {
    if |px| > 0 {
      var init := px[..|px| - 1];
      ConstantCounts(init, v);
      assert px == init + [px[|px| - 1]];
      assert multiset(px) == multiset(init) + multiset{v};
    }
  }

  /** A sequence with a single positive entry keeps only that entry. */
  lemma {:induction false} PositiveSingle(p: seq<real>, k: nat)
    requires k < |p| && p[k] > 0.0
    requires forall m :: 0 <= m < |p| && m != k ==> p[m] <= 0.0
    ensures Positive(p) == [p[k]]
  {
    if k > 0 {
      PositiveSingle(p[1..], k - 1);
    } else {
      PositiveNone(p[1..]);
    }
  }

  lemma {:induction false} PositiveNone(p: seq<real>)
    requires forall m :: 0 <= m < |p| ==> p[m] <= 0.0
    ensures Positive(p) == []
  {
    if |p| > 0 {
      PositiveNone(p[1..]);
    }
  }

  /** A constant run of samples puts all of them in one bin. */
  lemma ConstantHistogram(px: seq<Byte>, v: Byte)
    requires forall k :: 0 <= k < |px| ==> px[k] == v
    ensures Histogram(px)[v] == |px|
    ensures forall u: Byte :: u != v ==> Histogram(px)[u] == 0
  {
    HistogramCounts(px);
    ConstantCounts(px, v);
  }

  /** A constant gray array leaves one bin, with probability 1. */
  lemma ConstantProbabilities(gray: seq<seq<Byte>>, v: Byte)
    requires |Flat<Byte>(gray)| > 0
    requires forall k :: 0 <= k < |Flat<Byte>(gray)| ==> Flat<Byte>(gray)[k] == v
    ensures Probabilities(gray) == [1.0]
  {
    var px := Flat<Byte>(gray);
    var n := |px|;
    var h := Histogram(px);
    var p := Normalize(h, n);
    ConstantHistogram(px, v);
    forall m | 0 <= m < 256 && m != v ensures p[m] == 0.0 {
      NormalizeAt(h, n, m);
    }
    NormalizeAt(h, n, v);
    SelfDiv(n as real);
    PositiveSingle(p, v);
  }

  /** The entropy of a constant image is 0: one bin survives, with probability 1. */
  lemma EntropyConstant(img: Image, luma: Bgr -> Byte, log2: real -> real, v: Byte)
    requires |Flat<Byte>(ToGray(img, luma))| > 0 && Log2Like(log2)
    requires forall k :: 0 <= k < |Flat<Byte>(ToGray(img, luma))| ==> Flat<Byte>(ToGray(img, luma))[k] == v
    ensures CalculateEntropy(img, luma, log2) == 0.0
  {
    ConstantProbabilities(ToGray(img, luma), v);
    assert Log2Map([1.0], log2) == [0.0];
    assert Dot([1.0], [0.0]) == Prod(1.0, 0.0);
  }

  /** The samples of a two-level image: every one in bin a or bin b, none elsewhere. */
  lemma {:induction false} TwoLevelCounts(px: seq<Byte>, a: Byte, b: Byte)
    requires a != b
    requires forall k :: 0 <= k < |px| ==> px[k] == a || px[k] == b
    ensures multiset(px)[a] + multiset(px)[b] == |px|
    ensures forall u: Byte :: u != a && u != b ==> multiset(px)[u] == 0
  {
    if |px| > 0 {
      var init := px[..|px| - 1];
      TwoLevelCounts(init, a, b);
      assert px == init + [px[|px| - 1]];
      assert multiset(px) == multiset(init) + multiset{px[|px| - 1]};
    }
  }

  /** A sequence with exactly two positive entries, at a < b, keeps those two, in order. */
  lemma {:induction false} PositivePair(p: seq<real>, a: nat, b: nat)
    requires a < b < |p| && p[a] > 0.0 && p[b] > 0.0
    requires forall m :: 0 <= m < |p| && m != a && m != b ==> p[m] <= 0.0
    ensures Positive(p) == [p[a], p[b]]
  {
    if a > 0 {
      PositivePair(p[1..], a - 1, b - 1);
    } else {
      PositiveSingle(p[1..], b - 1);
    }
  }

  lemma Half(c: real, n: real)
    requires c > 0.0 && n == c + c
    ensures c / n == 0.5
  {
  }

  /** Two equal bins a < b holding every count normalise, once filtered, to two halves. */
  lemma TwoEqualBins(h: seq<nat>, n: nat, a: Byte, b: Byte)
    requires |h| == 256 && a < b && h[a] > 0 && h[b] == h[a] && n == h[a] + h[b]
    requires forall u: Byte :: u != a && u != b ==> h[u] == 0
    ensures Positive(Normalize(h, n)) == [0.5, 0.5]
  {
    var p := Normalize(h, n);
    forall m | 0 <= m < 256 && m != a && m != b ensures p[m] == 0.0 {
      NormalizeAt(h, n, m);
    }
    NormalizeAt(h, n, a);
    NormalizeAt(h, n, b);
    Half(h[a] as real, n as real);
    PositivePair(p, a, b);
  }

  /** A two-level gray array, half and half, leaves two bins of probability 1/2. */
  lemma TwoLevelProbabilities(gray: seq<seq<Byte>>, a: Byte, b: Byte)
    requires |Flat<Byte>(gray)| > 0 && a < b
    requires forall k :: 0 <= k < |Flat<Byte>(gray)| ==> Flat<Byte>(gray)[k] in {a, b}
    requires multiset(Flat<Byte>(gray))[a] == multiset(Flat<Byte>(gray))[b]
    ensures Probabilities(gray) == [0.5, 0.5]
  {
    var px := Flat<Byte>(gray);
    var h := Histogram(px);
    HistogramCounts(px);
    TwoLevelCounts(px, a, b);
    var m := multiset(px);
    assert h[a] == m[a] && h[b] == m[b];
    assert h[a] + h[b] == |px| > 0;
    TwoEqualBins(h, |px|, a, b);
  }

  /**
   An image that takes two gray values, each on exactly half of its
   pixels, has entropy exactly 1 bit (given log2(1/2) = -1).
   */
  lemma EntropyTwoLevels(img: Image, luma: Bgr -> Byte, log2: real -> real, a: Byte, b: Byte)
    requires |Flat<Byte>(ToGray(img, luma))| > 0 && log2(0.5) == -1.0
    requires a < b
    requires forall k :: 0 <= k < |Flat<Byte>(ToGray(img, luma))| ==> Flat<Byte>(ToGray(img, luma))[k] in {a, b}
    requires multiset(Flat<Byte>(ToGray(img, luma)))[a] == multiset(Flat<Byte>(ToGray(img, luma)))[b]
    ensures CalculateEntropy(img, luma, log2) == 1.0
  {
    TwoLevelProbabilities(ToGray(img, luma), a, b);
    assert Log2Map([0.5, 0.5], log2) == [-1.0, -1.0];
    assert Dot([0.5, 0.5], [-1.0, -1.0]) == Prod(0.5, -1.0) + Prod(0.5, -1.0);
  }
}
