# Retinal image-quality metrics, modelled in Dafny

This project models the three image-quality metrics of the retinal
enhancement tool's `src/utils.py` and proves their properties. The metrics
are modelled over Dafny's mathematical `real`, not IEEE doubles.

- **Structural similarity (`calculate_ssim`).**
  - Both images are brought to gray and to reals.
  - Local statistics are taken with an 11 x 11 window, the outer product of
    a 1-D kernel `g` with itself.
  - The local means, second moments and cross moment each come from one
    window correlation. The local variances and the covariance then follow
    by the moment method: `E[I*I] - mu^2` and `E[I1*I2] - mu1*mu2`.
  - The filter output is cropped by 5 pixels on every side.
  - The closed-form SSIM ratio is taken pixel by pixel, and the result is
    the mean of that map.
  - After the crop, each kept value comes from a window that lies wholly
    inside the image. The filter is therefore modelled as a valid-region
    correlation (`Ssim.Filtered`), and the filter's border handling never
    enters.
- **Histogram entropy (`calculate_entropy`).**
  - A 256-bin histogram of the gray samples.
  - Normalised by the pixel count, then the empty bins are dropped.
  - The result is the sum of `-p * log2 p`.
- **Contrast improvement index (`calculate_cii`).**
  - The ratio of the population standard deviations of the enhanced and the
    original gray images.
  - It is 0 when the original's standard deviation is 0.
- **The shared branch.** All three metrics first convert a 3-channel
  (blue-green-red) image to gray and use a 2-D image as it is.

Modules:

- `Sums` (sums.dfy): sums, weighted sums and elementwise operations over rows
  and grids, and the weighted moments with their algebra. It proves that the
  moment-method variance is non-negative under convex weights, and that
  `|2 cov| <= var + var`.
- `Images` (images.dfy): 8-bit samples, gray and colour images, the branch
  to gray, and the conversion to reals.
- `Ssim` (ssim.dfy): the window, patches, the cropped filter, the statistics
  maps, the SSIM map and the index.
- `Entropy` (entropy.dfy): the histogram, probabilities, the positive filter
  and the entropy.
- `Contrast` (contrast.dfy): mean, population variance, standard deviation
  and the index.

Four things the code computes or calls are parameters of the model:

- the Gaussian kernel `g`, constrained by `Ssim.ValidKernel`: 11 weights,
  non-negative, summing to 1, symmetric;
- the colour-to-gray function `luma`, any map from a pixel to 0..255;
- `log2`, constrained by `Entropy.Log2Like`: `log2(1) = 0`, and `log2 p <= 0`
  on `(0, 1]`;
- `sqrt`, constrained by `Contrast.SqrtLike`: non-negative on `x >= 0`, and
  0 exactly at 0.

The code performs no input checks. Three conditions are preconditions
rather than error results:

- for SSIM, two images of the same height h and width w: the docstring of
  `calculate_ssim` (src/utils.py:22) lets it assume equal sizes;
- for SSIM, h, w >= 11: otherwise the cropped map is empty and its mean is
  NaN;
- for the contrast index, at least one pixel in each image: otherwise the
  standard deviation is NaN.

An image with no pixels is not excluded from the entropy. Every bin is
then 0 / 0, which is NaN, so the positive filter drops every bin and the sum
over nothing is 0. The model gives 0 for that case (`Entropy.CalculateEntropy`).

## Model

| member | source | states |
|---|---|---|
| `Images.GrayKept` | src/utils.py:59-62 | a 2-D (gray) image is used as it is |
| `Images.ColorConverted` | src/utils.py:25-28 | a 3-channel image is replaced pixel by pixel by its gray value and keeps its h x w shape |
| `Images.ToGrayShape` | src/utils.py:79-87 | the branch to gray keeps the shape of an image of either kind |
| `Images.AsRealShape` | src/utils.py:30-31 | the conversion to float keeps the h x w shape |
| `Images.FlatAsReal` | src/utils.py:89-90 | the flattened float image lists the gray samples, in row-major order, as reals |
| `Images.ToGray` | src/utils.py:79-87 | the shared first step: a 3-channel image goes pixel by pixel through `luma`, a 2-D image is returned as it is; its properties are `Images.GrayKept`, `Images.ColorConverted` and `Images.ToGrayShape` |
| `Images.AsReal` | src/utils.py:30-31 | `astype(float64)`: same shape, and every entry is the sample's value as a real |
| `Sums.FlatLength` | src/utils.py:64 | an h x w array flattens to exactly h * w entries, which are the samples the histogram counts |
| `Sums.FlatAt` | src/utils.py:64 | entry `i * w + j` of the row-major listing is the pixel in row i, column j |
| `Sums.WeightedVarianceNonNeg` | src/utils.py:44-49 | under non-negative window weights of total 1, the moment-method variance `E[X*X] - E[X]^2` is >= 0 |
| `Sums.DotDev` | src/utils.py:44-49 | the weighted sum of squared deviations from c equals `E[XX] - 2c E[X] + c^2 (total weight)`, which links the moment method to the centred form |
| `Sums.CovarianceSymmetric` | src/utils.py:50 | the moment-method covariance is symmetric in the two images |
| `Sums.VarianceOfSum` | src/utils.py:48-50 | `var(X+Y) = var X + 2 cov(X,Y) + var Y` |
| `Sums.VarianceOfDifference` | src/utils.py:48-50 | `var(X-Y) = var X - 2 cov(X,Y) + var Y` |
| `Sums.CovarianceBound` | src/utils.py:48-50 | under convex weights, `-(var X + var Y) <= 2 cov(X,Y) <= var X + var Y` |
| `Ssim.WindowConvex` | src/utils.py:38-39 | the window entries are `g[a]*g[b]`, non-negative, and of total 1 |
| `Ssim.WindowSymmetric` | src/utils.py:38-39 | the window is symmetric under transposition and under a half-turn, so correlating with it is the same as convolving with it |
| `Ssim.SumOuter` | src/utils.py:39 | the entries of an outer product sum to the product of the two sums |
| `Ssim.Filtered` | src/utils.py:41-42 | a cropped filtered map of an h x w image has exactly (h-10) x (w-10) entries |
| `Ssim.DotOuter` | src/utils.py:39-42 | weighting a grid by the outer product `g x k` is separable: weight each row by k, then the row results by g |
| `Ssim.FilteredAt` | src/utils.py:41-42 | the kept mean at (i, j) is `sum_a g[a] * (sum_b g[b] * X[i+a][j+b])`, which is the window-weighted sum with weights `g[a]*g[b]` of the pixels `X[i+a][j+b]`, all inside the image |
| `Ssim.PatchAt` | src/utils.py:41-42 | patch (i, j) holds rows i..i+10 and columns j..j+10 of the image |
| `Ssim.PatchMul` | src/utils.py:48-50 | the patch of `img1 * img2` is the elementwise product of the two patches |
| `Ssim.SigmaMap` | src/utils.py:48-50 | each variance and covariance map has exactly (h-10) x (w-10) entries |
| `Ssim.LocalCovariance` | src/utils.py:48-50 | each entry of `filter(X*Y) - mu_X*mu_Y` is the window covariance of the two patches |
| `Ssim.LocalVarianceNonNeg` | src/utils.py:44-49 | under a valid kernel every local variance is >= 0 |
| `Ssim.MeanProduct` | src/utils.py:44-46 | each entry of `mu1*mu2`, `mu1**2` and `mu2**2` is the product of the two window means |
| `Ssim.SsimMap` | src/utils.py:52-53 | the SSIM map has exactly (h-10) x (w-10) entries |
| `Ssim.SsimMapAt` | src/utils.py:41-53 | each SSIM map entry is the SSIM formula applied to the window statistics (means, variances, covariance) of the two 11 x 11 patches at that position |
| `Ssim.SsimRatioSymmetric` | src/utils.py:52-53 | the pixel formula is unchanged when the roles of the two images are swapped |
| `Ssim.SsimRatioIdentity` | src/utils.py:52-53 | with equal statistics the numerator and denominator coincide and the formula is exactly 1 |
| `Ssim.SsimRatioBound` | src/utils.py:52-53 | when `|2 mu1 mu2| <= mu1^2 + mu2^2` and `|2 sigma12| <= sigma1^2 + sigma2^2`, the formula lies in [-1, 1] |
| `Ssim.ConstantsPositive` | src/utils.py:34-35 | C1 and C2 are positive, so every denominator is positive |
| `Ssim.PatchSsimSymmetric` | src/utils.py:44-53 | the SSIM of two patches is symmetric |
| `Ssim.PatchSsimIdentical` | src/utils.py:44-53 | a patch compared with itself has SSIM exactly 1 |
| `Ssim.PatchSsimBound` | src/utils.py:44-53 | under convex weights the SSIM of two patches lies in [-1, 1] |
| `Ssim.SsimMapSymmetric` | src/utils.py:44-53 | swapping the two images leaves every entry of the SSIM map unchanged |
| `Ssim.SsimMapIdentical` | src/utils.py:44-53 | for identical inputs every SSIM map entry is exactly 1 |
| `Ssim.SsimMapBound` | src/utils.py:44-53 | every SSIM map entry lies in [-1, 1] |
| `Sums.MeanBounds` | src/utils.py:55 | the mean of a non-empty row whose entries lie in [lo, hi] lies in [lo, hi] |
| `Sums.FlatBounds` | src/utils.py:55 | a grid whose entries lie in [lo, hi] flattens to a row whose entries lie in [lo, hi] |
| `Ssim.SsimSymmetric` | src/utils.py:19-55 | `calculate_ssim(A, B) == calculate_ssim(B, A)` |
| `Ssim.SsimIdentical` | src/utils.py:19-55 | `calculate_ssim(A, A) == 1` |
| `Ssim.CalculateSsim` | src/utils.py:19-55 | `calculate_ssim`: gray, reals, the SSIM map, then the mean of its entries; the result lies in [-1, 1] |
| `Ssim.SsimRatio` | src/utils.py:52-53 | the closed-form SSIM of one pixel from its two means squared, their product, the two variances and the covariance; its denominator is positive, and its properties are the `SsimRatio…` rows |
| `Entropy.Histogram` | src/utils.py:64 | the histogram has 256 bins, one per gray value 0..255 |
| `Entropy.HistogramCounts` | src/utils.py:64 | bin v holds the number of samples equal to v |
| `Entropy.HistogramMass` | src/utils.py:64 | the counts sum to the number of samples |
| `Entropy.HistogramPixels` | src/utils.py:64 | the counts of an h x w gray array sum to h * w |
| `Entropy.NormalizeSum` | src/utils.py:65 | the normalised counts sum to (total count) / (divisor) |
| `Entropy.NormalizeInUnit` | src/utils.py:65 | counts divided by their own total lie in [0, 1] |
| `Entropy.PositiveMembers` | src/utils.py:68 | the filter keeps exactly the positive values, each as many times as it occurs, and nothing else |
| `Entropy.PositiveSum` | src/utils.py:68 | dropping the zero bins does not change the sum |
| `Entropy.ProbabilitiesSumToOne` | src/utils.py:64-68 | the probabilities sum to 1, before and after the zero bins are dropped |
| `Entropy.ProbabilitiesInUnit` | src/utils.py:64-68 | every retained probability lies in (0, 1] |
| `Entropy.PLogPNonPos` | src/utils.py:70 | values in (0, 1] have a non-positive sum of `p * log2 p` |
| `Entropy.EntropyNonNeg` | src/utils.py:57-70 | the entropy of every image, an empty one included, is >= 0 |
| `Entropy.CalculateEntropy` | src/utils.py:57-70 | `calculate_entropy`: the negated sum of `p * log2 p` over the probabilities; an image with no pixels has entropy 0, because all its bins are NaN and the positive filter keeps none of them |
| `Entropy.Probabilities` | src/utils.py:64-68 | histogram, divided by the pixel count, empty bins dropped, and nothing at all for an image with no pixels; its properties are the `Probabilities…` rows |
| `Entropy.Normalize` | src/utils.py:65 | every count divided by the total, one probability per bin |
| `Entropy.Positive` | src/utils.py:68 | `hist[hist > 0]`: at most as many entries as the input; its content is `Entropy.PositiveMembers` |
| `Entropy.Log2Map` | src/utils.py:70 | `np.log2(hist)`: entry k is `log2` of entry k of the input |
| `Entropy.ConstantProbabilities` | src/utils.py:64-68 | a constant image leaves one bin, of probability 1 |
| `Entropy.EntropyConstant` | src/utils.py:57-70 | a constant image has entropy 0 |
| `Entropy.TwoEqualBins` | src/utils.py:65-68 | two equal bins holding all the counts become, after normalising and dropping empty bins, two probabilities of 1/2 |
| `Entropy.TwoLevelProbabilities` | src/utils.py:64-68 | an image split half and half between two gray values leaves two bins of probability 1/2 |
| `Entropy.EntropyTwoLevels` | src/utils.py:57-70 | such an image has entropy exactly 1 bit |
| `Contrast.CalculateCii` | src/utils.py:72-93 | `calculate_cii`: 0 when the original's standard deviation is 0, otherwise the enhanced over the original deviation; when sqrt is a square root the index is >= 0 |
| `Contrast.PopVariance` | src/utils.py:89-90 | the mean squared deviation from the mean (`np.std` with its default ddof = 0, squared); its properties are the `PopVariance…` rows |
| `Contrast.Std` | src/utils.py:89-90 | sqrt of the population variance; its properties are `Contrast.StdNonNeg` and `Contrast.StdZeroIffConstant` |
| `Contrast.StdNonNeg` | src/utils.py:89-90 | when sqrt is a square root, the standard deviation is >= 0 |
| `Sums.Mean` | src/utils.py:89 | the arithmetic mean, shared by `.mean()` of the SSIM map and the mean inside `np.std`; see `Sums.MeanBounds` and `Contrast.MeanConstant` |
| `Contrast.MeanConstant` | src/utils.py:89 | the mean of a constant image is its value |
| `Contrast.PopVarianceNonNeg` | src/utils.py:89-90 | the population variance is >= 0 |
| `Contrast.PopVarianceZeroIffConstant` | src/utils.py:89-90 | the population variance is 0 if and only if all samples are equal |
| `Contrast.StdZeroIffConstant` | src/utils.py:89-90 | the standard deviation is >= 0, and is 0 if and only if the image is constant |
| `Contrast.CiiCases` | src/utils.py:92-93 | the index is exactly 0 when the original is constant; otherwise the original's deviation is positive and the index is `c_enh / c_orig` |
| `Contrast.CiiSelf` | src/utils.py:72-93 | an image with non-zero spread compared with itself has index exactly 1 |
| `Contrast.ValuesAreSamples` | src/utils.py:79-90 | the values whose deviation is taken are the gray samples, as reals |

## Left out

- `load_image` and `save_image` (src/utils.py:5-14): file-system and codec I/O.
- `calculate_psnr` (src/utils.py:16-17): a call to the library's PSNR, whose formula and identical-image behaviour are not visible.
- `generate_synthetic_fundus` (src/utils.py:95-113): random drawing, blurring and noise inside the imaging library.
- `src/pipeline.py` and `main.py` are not part of this model. They hold library image filters, argument parsing, printing and plotting.
- Gaussian kernel construction (`cv2.getGaussianKernel(11, 1.5)`): the kernel is the parameter `g`, subject to `ValidKernel`. Its exact values, which come from `exp`, are not modelled.
- Colour-to-gray conversion: the library's fixed-point weights and rounding are not visible. `luma` is any function from a pixel to 0..255. Only the 3-D/2-D branch is modelled. A colour pixel here always has three channels, so 4-channel input, which the conversion also accepts, is not modelled.
- `log2` and `sqrt` are parameters with only the stated facts. Consequently the entropy upper bound of 8 bits, and how close a uniform histogram comes to it, are not proved.
- float32 and float64 rounding, overflow and NaN: everything is exact arithmetic over `real`. The histogram from `calcHist` is float32 (src/utils.py:64), so the normalisation, `log2` and the sum at src/utils.py:65-70 run in float32, where bin counts above 2^24 are no longer exact. The SSIM and CII paths run in float64. Images with fewer than 11 rows or columns (SSIM) and images with no pixels (CII) give NaN in the code; here those cases are preconditions. For the entropy, the model assumes that the histogram routine accepts an empty image and returns 256 empty bins.
- `Contrast.CalculateCii` returns the real 0.0 at the zero guard. The code returns the integer 0 there; the value is the same.
- The filter's border mode is not modelled. Every value kept after the 5-pixel crop comes from a window wholly inside the image, so the border mode has no effect on the result.
