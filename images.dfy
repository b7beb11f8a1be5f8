/**
 Images as the metrics receive them: either a 2-D gray image of 8-bit
 samples, or a 3-D image of blue-green-red pixels. Every metric starts
 with the same branch: a 3-channel image is converted to gray, a 2-D image
 is used as it is. The per-pixel colour-to-gray conversion is a parameter
 (`luma`); only the branch around it is modelled.
 */
module Images {
  import opened Sums

  /** An 8-bit sample. */
  type Byte = x: int | 0 <= x < 256

  /** One pixel of a 3-channel image, in blue, green, red order. */
  datatype Bgr = Bgr(b: Byte, g: Byte, r: Byte)

  /** A 2-D (gray) array of samples, or a 3-D (colour) array of pixels. */
  datatype Image = Gray(samples: seq<seq<Byte>>) | Color(pixels: seq<seq<Bgr>>)

  /** The image, of either kind, has h rows of w pixels. */
  predicate ImageRect(img: Image, h: nat, w: nat)
  {
    match img
    case Gray(s) => Rect(s, h, w)
    case Color(p) => Rect(p, h, w)
  }

  /** Every pixel of a colour array converted to gray by `luma`. */
  function GrayOf(p: seq<seq<Bgr>>, luma: Bgr -> Byte): (r: seq<seq<Byte>>)
    ensures |r| == |p|
    ensures forall i :: 0 <= i < |p| ==> |r[i]| == |p[i]|
    ensures forall i, j :: 0 <= i < |p| && 0 <= j < |p[i]| ==> r[i][j] == luma(p[i][j])
  {
    seq(|p|, i requires 0 <= i < |p| => seq(|p[i]|, j requires 0 <= j < |p[i]| => luma(p[i][j])))
  }

  /** The shared first step of every metric: colour is converted to gray, gray is kept. */
  function ToGray(img: Image, luma: Bgr -> Byte): seq<seq<Byte>>
  {
    match img
    case Color(p) => GrayOf(p, luma)
    case Gray(s) => s
  }

  /** numpy's `astype(float64)`: exact, since every sample is a small integer. */
  function AsReal(s: seq<seq<Byte>>): (r: seq<seq<real>>)
    ensures |r| == |s|
    ensures forall i :: 0 <= i < |s| ==> |r[i]| == |s[i]|
    ensures forall i, j :: 0 <= i < |s| && 0 <= j < |s[i]| ==> r[i][j] == s[i][j] as real
  {
    seq(|s|, i requires 0 <= i < |s| => seq(|s[i]|, j requires 0 <= j < |s[i]| => s[i][j] as real))
  }

  // ---------------------------------------------------------------------

  /** A gray image is passed through unchanged. */
  lemma GrayKept(s: seq<seq<Byte>>, luma: Bgr -> Byte)
    ensures ToGray(Gray(s), luma) == s
  {
  }

  /**
   Converting a colour image replaces every pixel by its gray value, in
   place: the result has the shape of the input.
   */
  lemma ColorConverted(p: seq<seq<Bgr>>, luma: Bgr -> Byte, h: nat, w: nat)
    requires Rect(p, h, w)
    ensures Rect(ToGray(Color(p), luma), h, w)
    ensures forall i, j :: 0 <= i < h && 0 <= j < w ==> ToGray(Color(p), luma)[i][j] == luma(p[i][j])
  {
  }

  /** Conversion keeps the shape of an image of either kind. */
  lemma ToGrayShape(img: Image, luma: Bgr -> Byte, h: nat, w: nat)
    requires ImageRect(img, h, w)
    ensures Rect(ToGray(img, luma), h, w)
  {
  }

  /** The real image has the shape of the gray one. */
  lemma AsRealShape(s: seq<seq<Byte>>, h: nat, w: nat)
    requires Rect(s, h, w)
    ensures Rect(AsReal(s), h, w)
  {
  }

  /** The flattened real image lists the same values as the flattened samples. */
  lemma {:induction false} FlatAsReal(s: seq<seq<Byte>>)
    ensures |Flat(AsReal(s))| == |Flat<Byte>(s)|
    ensures forall k :: 0 <= k < |Flat<Byte>(s)| ==> Flat(AsReal(s))[k] == Flat<Byte>(s)[k] as real
  {
    if |s| > 0 {
      assert AsReal(s)[1..] == AsReal(s[1..]);
      FlatAsReal(s[1..]);
      assert AsReal(s)[0] == seq(|s[0]|, j requires 0 <= j < |s[0]| => s[0][j] as real);
    }
  }
}
