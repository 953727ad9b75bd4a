# Verified model of the AppComputerVision pixel operators

This project is a Dafny model of the image-processing core of the
AppComputerVision workbench, a JavaFX desktop application for teaching
computer vision. It covers the stateless services that take a raster,
allocate a fresh result and fill it pixel by pixel:

- **point operators**: grayscale, channel extraction, brightness, contrast and binarisation;
- **colour-space converters** to CMY, CMYK, YIQ, HSI and HSV tensors, and the images rebuilt from them;
- **the ARGB split** of the colour-space model, which packs a rendition image and four channel images;
- **the histogram service**: counts, probabilities, cumulative distribution, moments and the look-up tables of the histogram transformations;
- **logical and relational operations** on binarised images;
- **geometric inverse mapping**: translation, rotation and scaling;
- **the kernel catalogue**: Kirsch, Frei-Chen, Sobel and sharpening masks, and the mean and Gaussian generators;
- **convolution** with edge replication, the low- and high-pass filters, and the Canny edge detector;
- **binary morphology** and salt-and-pepper noise;
- **complex arithmetic and the radix-2 Fourier transform**, with the quadrant swap and the quantised spectrum and reconstruction views;
- **the Kirsch, Frei-Chen and Harris detectors**;
- **the two synthetic test images**.

## How the model is built

- **Images.** An image is an `array2<Color>` indexed `[x, y]`, like JavaFX's `getColor(x, y)`.
  - `Color` holds four `real` channels. A valid image has positive sides and every channel in [0,1].
  - The source's `double[height][width]` grids are `array2<real>` indexed `[y, x]`, as in the source.
  - Its `double[h][w][c]` tensors are `array3<real>`.
  - The colour-space model works on packed 32-bit ARGB words (`array2<int>`).
- **Operators.** Every operator that fills an image in nested loops is a `method` with the same loops.
  - Each method is proved against a per-pixel specification function: `out[x, y] == ConvolvedPixel(img, k, x, y)`.
  - The properties of the operator are proved as lemmas about that function.
  - Row-by-row helper methods (`...Row`, `...Set`) keep each loop's proof small.
- **Errors.** `KernelProvider` throws on an even kernel size, and `FourierService.fft` throws on invalid dimensions. These become a `Result` whose failure case holds exactly when the source throws.
- **Numeric functions.** `sqrt`, `log`, `exp`, `sin`, `cos`, `acos` and `atan2` are function parameters. Each is constrained only by the range facts a proof needs, such as a square root that is non-negative or an exponential that is positive.
- **Modules.** There is one module per source file. `Raster` holds the colour type, the constants and the clamping, truncation and rounding used everywhere.

## Model

| member | source | states |
|---|---|---|
| Raster.GrayColor | vision-core/src/main/java/com/vision/service/ConvolutionService.java:137 | Color.gray(v) of an intensity in [0,1] is an opaque valid colour |
| Raster.GrayRgb | vision-core/src/main/java/com/vision/service/FourierService.java:82 | Color.grayRgb(n) of an 8-bit level is the opaque gray of intensity n/255 |
| Raster.Clamp | vision-core/src/main/java/com/vision/service/ImageProcessingService.java:104-106 | the clamp lies in [lo,hi], is the identity inside it and saturates at the bound that was crossed |
| Raster.Clamp01 | vision-core/src/main/java/com/vision/service/ConvolutionService.java:40 | the clamp into [0,1] always yields a channel value and leaves channel values unchanged |
| Raster.ClampIndex | vision-core/src/main/java/com/vision/service/ConvolutionService.java:33-34 | a clamped neighbour index lies inside the image and is unchanged when already inside |
| Raster.Trunc | vision-core/src/main/java/com/vision/service/GeometricTransformationService.java:31-32 | Java's (int) cast truncates toward zero: it is the floor for non-negative values and the ceiling for negative ones |
| Raster.Round | vision-core/src/main/java/com/vision/service/HistogramService.java:135 | Math.round gives the nearest integer, halves going up |
| Raster.TruncMonotone | vision-core/src/main/java/com/vision/service/HistogramService.java:33 | the truncating cast is monotone on non-negative values |
| Raster.RoundMonotone | vision-core/src/main/java/com/vision/service/HistogramService.java:135 | Math.round is monotone |
| Raster.RatioInUnit | vision-core/src/main/java/com/vision/service/CornerDetectionService.java:71 | a part between 0 and a positive whole divides into [0,1] |
| ImageProcessing.GrayscalePixel | vision-core/src/main/java/com/vision/service/ImageProcessingService.java:24-26 | the gray of a valid colour is a valid colour whose level lies between the smallest and the largest channel |
| ImageProcessing.ChannelPixel | vision-core/src/main/java/com/vision/service/ImageProcessingService.java:68-80 | keeping one channel of a valid colour gives a valid colour |
| ImageProcessing.BrightnessPixel | vision-core/src/main/java/com/vision/service/ImageProcessingService.java:102-108 | a brightness shift always yields a valid colour, whatever the shift |
| ImageProcessing.ContrastPixel | vision-core/src/main/java/com/vision/service/ImageProcessingService.java:129-135 | a contrast stretch about 0.5 always yields a valid colour, whatever the factor |
| ImageProcessing.BinarizePixel | vision-core/src/main/java/com/vision/service/ImageProcessingService.java:162-163 | a pixel becomes white exactly when its gray level reaches the threshold, and black otherwise |
| ImageProcessing.ConvertToGrayscale | vision-core/src/main/java/com/vision/service/ImageProcessingService.java:14-32 | a fresh valid image of the same size whose every pixel is the channel average with the original opacity |
| ImageProcessing.ExtractChannel | vision-core/src/main/java/com/vision/service/ImageProcessingService.java:58-87 | a fresh valid image of the same size keeping only the chosen channel and the opacity at every pixel |
| ImageProcessing.ExtractRedChannel | vision-core/src/main/java/com/vision/service/ImageProcessingService.java:37-39 | every pixel keeps its red channel and opacity, green and blue become 0 |
| ImageProcessing.ExtractGreenChannel | vision-core/src/main/java/com/vision/service/ImageProcessingService.java:44-46 | every pixel keeps its green channel and opacity, red and blue become 0 |
| ImageProcessing.ExtractBlueChannel | vision-core/src/main/java/com/vision/service/ImageProcessingService.java:51-53 | every pixel keeps its blue channel and opacity, red and green become 0 |
| ImageProcessing.AdjustBrightness | vision-core/src/main/java/com/vision/service/ImageProcessingService.java:92-114 | a fresh valid image of the same size, each pixel shifted by the brightness and clamped |
| ImageProcessing.AdjustContrast | vision-core/src/main/java/com/vision/service/ImageProcessingService.java:119-141 | a fresh valid image of the same size, each pixel stretched about mid-gray and clamped |
| ImageProcessing.Binarize | vision-core/src/main/java/com/vision/service/ImageProcessingService.java:151-168 | a fresh valid image of the same size whose pixels are white where the gray level reaches the threshold and black elsewhere |
| ImageProcessing.BrightnessZeroIsIdentity | vision-core/src/main/java/com/vision/service/ImageProcessingService.java:104-108 | a zero brightness shift leaves every valid colour unchanged |
| ImageProcessing.ContrastOneIsIdentity | vision-core/src/main/java/com/vision/service/ImageProcessingService.java:131-135 | a contrast factor of 1 leaves every valid colour unchanged |
| ImageProcessing.ContrastFixesMidGray | vision-core/src/main/java/com/vision/service/ImageProcessingService.java:131 | mid-gray 0.5 is the fixed point of every contrast factor |
| ImageProcessing.BinarizeIdempotent | vision-core/src/main/java/com/vision/service/ImageProcessingService.java:151-168 | binarizing a binarized pixel again with the same threshold changes nothing |
| ImageProcessing.BinarizeThresholdScenario | vision-core/src/main/java/com/vision/service/ImageProcessingService.java:163 | levels just above and just below a 0.5 threshold go white and black |
| ImageProcessing.BrightnessClampScenario | vision-core/src/main/java/com/vision/service/ImageProcessingService.java:104-106 | channels pushed past 1 saturate at 1 while the others shift |
| ColorSpace.CmyOf | src/main/java/com/vision/service/ColorSpaceService.java:25-27 | the three inks of a valid colour are its complements and lie in [0,1] |
| ColorSpace.CmykOf | src/main/java/com/vision/service/ColorSpaceService.java:48-59 | the key is one minus the largest channel, pure black (key 1) has no ink, and for a valid colour all four components lie in [0,1] |
| ColorSpace.YiqOf | src/main/java/com/vision/service/ColorSpaceService.java:84-86 | the luma and the biased, clamped I and Q of a valid colour all lie in [0,1] |
| ColorSpace.HsiOf | src/main/java/com/vision/service/ColorSpaceService.java:111-129 | hue, saturation and intensity of a valid colour lie in [0,1] whenever the supplied acos angle, divided by 2 pi, lies in [0,1/2] |
| ColorSpace.HsvOf | src/main/java/com/vision/service/ColorSpaceService.java:154-176 | the value component is the largest channel |
| ColorSpace.CmyToRgb | src/main/java/com/vision/service/ColorSpaceService.java:194-203 | the channels rebuilt from any three inks form an opaque valid colour |
| ColorSpace.InkToChannel | src/main/java/com/vision/service/ColorSpaceService.java:227-234 | a channel rebuilt from an ink and the key is clamped into [0,1] |
| ColorSpace.CmykToRgb | src/main/java/com/vision/service/ColorSpaceService.java:222-236 | the colour rebuilt from any four CMYK components is an opaque valid colour |
| ColorSpace.CmyRoundTrip | src/main/java/com/vision/service/ColorSpaceService.java:25-27 | converting a valid colour to CMY and back gives its channels again, made opaque |
| ColorSpace.CmykRoundTrip | src/main/java/com/vision/service/ColorSpaceService.java:48-59 | converting a valid colour to CMYK and back gives its channels again, made opaque, including pure black |
| ColorSpace.InkRoundTrip | src/main/java/com/vision/service/ColorSpaceService.java:51-53 | an ink rescaled by one minus the key, scaled back, is the channel again |
| ColorSpace.CmykOfBlack | src/main/java/com/vision/service/ColorSpaceService.java:50-59 | pure black has key 1 and no cyan, magenta or yellow |
| ColorSpace.HsvSaturationValue | src/main/java/com/vision/service/ColorSpaceService.java:171-172 | saturation is zero for black and delta over max otherwise; saturation and value lie in [0,1] |
| ColorSpace.JavaRemSmall | src/main/java/com/vision/service/ColorSpaceService.java:161 | Java's remainder by 6 leaves any value in [-1,1] unchanged |
| ColorSpace.HueDegreesInRange | src/main/java/com/vision/service/ColorSpaceService.java:159-168 | the hue in degrees of a chromatic pixel lies in [0,360) |
| ColorSpace.HsvHueInRange | src/main/java/com/vision/service/ColorSpaceService.java:158-174 | the normalised hue lies in [0,1), and is 0 for a gray pixel |
| ColorSpace.HsvInUnit | src/main/java/com/vision/service/ColorSpaceService.java:174-176 | all three HSV components of a valid colour lie in [0,1] |
| ColorSpace.HsiComponents | src/main/java/com/vision/service/ColorSpaceService.java:111-127 | intensity is the channel mean; saturation is 0 for black and otherwise one minus min over intensity, in [0,1]; an unsaturated pixel has hue 0 |
| ColorSpace.ConvertRgbToCmy | src/main/java/com/vision/service/ColorSpaceService.java:14-32 | a fresh height x width x 3 tensor, every entry in [0,1], holding the CMY inks of the pixel at that row and column |
| ColorSpace.ConvertRgbToCmyk | src/main/java/com/vision/service/ColorSpaceService.java:37-64 | a fresh height x width x 4 tensor, every entry in [0,1], holding the CMYK components of each pixel |
| ColorSpace.ConvertRgbToYiq | src/main/java/com/vision/service/ColorSpaceService.java:69-91 | a fresh height x width x 3 tensor, every entry in [0,1], holding the YIQ components of each pixel |
| ColorSpace.ConvertRgbToHsi | src/main/java/com/vision/service/ColorSpaceService.java:96-134 | a fresh height x width x 3 tensor, every entry in [0,1], holding the HSI components of each pixel |
| ColorSpace.ConvertRgbToHsv | src/main/java/com/vision/service/ColorSpaceService.java:139-181 | a fresh height x width x 3 tensor, every entry in [0,1], holding the HSV components of each pixel |
| ColorSpace.FillRow | src/main/java/com/vision/service/ColorSpaceService.java:21-29 | one row of the tensor receives the components of that row's pixels and no other row changes |
| ColorSpace.CreateCmyImage | src/main/java/com/vision/service/ColorSpaceService.java:186-209 | a fresh valid image, width and height swapped back from the tensor, whose every pixel is rebuilt from its three inks |
| ColorSpace.CreateCmykImage | src/main/java/com/vision/service/ColorSpaceService.java:214-242 | a fresh valid image whose every pixel is rebuilt from its four CMYK components |
| ColorSpace.CreateChannelImage | src/main/java/com/vision/service/ColorSpaceService.java:247-262 | a fresh valid image whose every pixel is the opaque gray of the chosen tensor channel |
| ColorSpaceModelling.RedOf | src/main/java/com/vision/model/ColorSpaceModel.java:130 | the red field of an ARGB word is a byte |
| ColorSpaceModelling.GreenOf | src/main/java/com/vision/model/ColorSpaceModel.java:131 | the green field of an ARGB word is a byte |
| ColorSpaceModelling.BlueOf | src/main/java/com/vision/model/ColorSpaceModel.java:132 | the blue field of an ARGB word is a byte |
| ColorSpaceModelling.AlphaOf | src/main/java/com/vision/model/ColorSpaceModel.java:133 | the alpha field of an ARGB word is a byte |
| ColorSpaceModelling.Pack | src/main/java/com/vision/model/ColorSpaceModel.java:133 | three bytes packed under alpha 0xFF form a 32-bit word |
| ColorSpaceModelling.PackUnpack | src/main/java/com/vision/model/ColorSpaceModel.java:130-133 | unpacking a packed word gives back its three bytes, and its alpha is 0xFF |
| ColorSpaceModelling.DivMod | src/main/java/com/vision/model/ColorSpaceModel.java:130-132 | a quotient and an in-range remainder determine integer division, so shifted-and-masked fields can be read back |
| ColorSpaceModelling.MulAtLeast | src/main/java/com/vision/model/ColorSpaceModel.java:130-132 | a positive multiple of a positive divisor is at least the divisor |
| ColorSpaceModelling.GrayLevel | src/main/java/com/vision/model/ColorSpaceModel.java:141 | the truncated BT.601 luma of three bytes is again a byte |
| ColorSpaceModelling.OpaqueWordKeepsColour | src/main/java/com/vision/model/ColorSpaceModel.java:133-134 | the RGB rendition of a pixel keeps its red, green and blue bytes and is fully opaque |
| ColorSpaceModelling.GrayWordReplicates | src/main/java/com/vision/model/ColorSpaceModel.java:135-140 | a channel pixel repeats its byte in all three colour positions and is fully opaque |
| ColorSpaceModelling.LumaWordReplicates | src/main/java/com/vision/model/ColorSpaceModel.java:141-143 | the gray channel pixel holds the luma in all three colour positions with no spill into neighbouring bytes, and is fully opaque |
| ColorSpaceModelling.PixelDerivedUnpacks | src/main/java/com/vision/model/ColorSpaceModel.java:129-143 | the five words derived from a source pixel read back as its colour bytes, its red, green and blue bytes repeated, and its luma repeated, all opaque |
| ColorSpaceModelling.SplitPixel | src/main/java/com/vision/model/ColorSpaceModel.java:129-143 | the five words computed for one pixel are its opaque rendition and its four channel pixels |
| ColorSpaceModelling.SplitImage | src/main/java/com/vision/model/ColorSpaceModel.java:120-145 | five fresh images of the source's size, each pixel derived from the source pixel at the same position |
| ColorSpaceModelling.SplitRow | src/main/java/com/vision/model/ColorSpaceModel.java:128-144 | row y of the five images is derived from row y of the source and every other row is unchanged |
| ColorSpaceModelling.ColorSpaceModel.constructor | src/main/java/com/vision/model/ColorSpaceModel.java:14-25 | a new model holds no image, no channel images and no transformation name, with brightness 0 and contrast 1 |
| ColorSpaceModelling.ColorSpaceModel.ApplyRgbTransformation | src/main/java/com/vision/model/ColorSpaceModel.java:118-150 | without an original image nothing changes; with one, fresh rendition and channel images derived from it and the name "RGB"; the image and the adjustments are kept |
| ColorSpaceModelling.ColorSpaceModel.SetOriginalImage | src/main/java/com/vision/model/ColorSpaceModel.java:157-161 | the image is stored, the adjustments reset to 0 and 1, and a non-null image is at once split into its rendition and channel images |
| ColorSpaceModelling.ColorSpaceModel.ResetAdjustments | src/main/java/com/vision/model/ColorSpaceModel.java:233-236 | brightness returns to 0 and contrast to 1; nothing else changes |
| ColorSpaceModelling.ColorSpaceModel.SetBrightness | src/main/java/com/vision/model/ColorSpaceModel.java:202-205 | only the brightness changes, to the given value |
| ColorSpaceModelling.ColorSpaceModel.SetContrast | src/main/java/com/vision/model/ColorSpaceModel.java:211-214 | only the contrast changes, to the given value |
| ColorSpaceModelling.ColorSpaceModel.SetCurrentTransformation | src/main/java/com/vision/model/ColorSpaceModel.java:184-187 | only the transformation name changes, to the given name |
| ColorSpaceModelling.ColorSpaceModel.SetTransformedImage | src/main/java/com/vision/model/ColorSpaceModel.java:167-170 | only the rendition changes; the channel images are kept as they were |
| ColorSpaceModelling.ColorSpaceModel.SetChannelImages | src/main/java/com/vision/model/ColorSpaceModel.java:176-178 | only the channel images change, to the given ones |
| Histogram.GrayLevelOf | vision-core/src/main/java/com/vision/service/HistogramService.java:33 | the level read from a pixel, its red channel times 255 truncated, is a valid index in [0,255] |
| Histogram.RowLevels | vision-core/src/main/java/com/vision/service/HistogramService.java:32-35 | the levels read along the first n pixels of a row number n |
| Histogram.RowLevelsInRange | vision-core/src/main/java/com/vision/service/HistogramService.java:33 | every level read from a row lies in [0,255] |
| Histogram.LevelsInRange | vision-core/src/main/java/com/vision/service/HistogramService.java:31-35 | every level read from the image, row after row, lies in [0,255], so no bucket index is out of bounds |
| Histogram.Tally | vision-core/src/main/java/com/vision/service/HistogramService.java:26 | there are 256 buckets |
| Histogram.TallyCounts | vision-core/src/main/java/com/vision/service/HistogramService.java:34 | each bucket holds exactly the number of occurrences of its level |
| Histogram.CountSumIncrement | vision-core/src/main/java/com/vision/service/HistogramService.java:34 | raising one bucket by one raises the total count by one |
| Histogram.CountSumOfEmpty | vision-core/src/main/java/com/vision/service/HistogramService.java:26 | freshly zeroed buckets add up to zero |
| Histogram.TallyTotal | vision-core/src/main/java/com/vision/service/HistogramService.java:31-36 | the bucket counts add up to the number of levels counted |
| Histogram.LevelsLength | vision-core/src/main/java/com/vision/service/HistogramService.java:31-32 | the image contributes width times height levels |
| Histogram.HistogramTotal | vision-core/src/main/java/com/vision/service/HistogramService.java:25-38 | the counts of an image's histogram add up to width times height |
| Histogram.TallyAppend | vision-core/src/main/java/com/vision/service/HistogramService.java:34 | counting one more level raises exactly its own bucket by one |
| Histogram.GetHistogram | vision-core/src/main/java/com/vision/service/HistogramService.java:25-38 | a fresh 256-entry array holding the bucket counts of the image's levels |
| Histogram.CountRow | vision-core/src/main/java/com/vision/service/HistogramService.java:32-35 | counting one row adds that row's levels to the counts already held |
| Histogram.RowLevelsAt | vision-core/src/main/java/com/vision/service/HistogramService.java:33 | entry x of a row's levels is the level of pixel (x, y) |
| Histogram.Probability | vision-core/src/main/java/com/vision/service/HistogramService.java:41-45 | the probability vector has 256 entries |
| Histogram.Cdf | vision-core/src/main/java/com/vision/service/HistogramService.java:49-53 | the cumulative distribution has 256 entries |
| Histogram.ProbabilityPrefix | vision-core/src/main/java/com/vision/service/HistogramService.java:43 | any prefix of the probabilities sums to the prefix of the counts over the total |
| Histogram.ProbabilitySumsToOne | vision-core/src/main/java/com/vision/service/HistogramService.java:72 | when the total is the number of pixels counted, the probabilities sum to 1 |
| Histogram.ProbabilityNonNegative | vision-core/src/main/java/com/vision/service/HistogramService.java:43 | probabilities of non-negative counts over a positive total are non-negative |
| Histogram.PrefixSumMonotone | vision-core/src/main/java/com/vision/service/HistogramService.java:52 | a running sum of non-negative terms never decreases |
| Histogram.CdfMonotone | vision-core/src/main/java/com/vision/service/HistogramService.java:48-55 | the cumulative distribution is non-decreasing and its last entry is the sum of all probabilities |
| Histogram.CdfOfImageInUnit | vision-core/src/main/java/com/vision/service/HistogramService.java:48-55 | for a probability vector summing to 1 every cumulative value lies in [0,1] |
| Histogram.GetHistogramProbability | vision-core/src/main/java/com/vision/service/HistogramService.java:40-46 | a fresh array whose entry i is count i over the total |
| Histogram.GetCumulativeDistribution | vision-core/src/main/java/com/vision/service/HistogramService.java:48-55 | a fresh array whose entry i is the sum of the first i+1 probabilities |
| Histogram.CalculateStats | vision-core/src/main/java/com/vision/service/HistogramService.java:59-66 | mean, variance, skewness, energy and entropy are the five sums over the 256 levels and the deviation is the root of the variance |
| Histogram.Mean | vision-core/src/main/java/com/vision/service/HistogramService.java:60 | the loop's result is the sum of i times p[i] |
| Histogram.CentralMoment | vision-core/src/main/java/com/vision/service/HistogramService.java:61-62 | the loop's result is the sum of (i - mean)^k times p[i] |
| Histogram.Energy | vision-core/src/main/java/com/vision/service/HistogramService.java:63 | the loop's result is the sum of the squared probabilities |
| Histogram.Entropy | vision-core/src/main/java/com/vision/service/HistogramService.java:64 | the loop's result is minus the sum of p log2 p over the positive probabilities |
| Histogram.MeanSumBounds | vision-core/src/main/java/com/vision/service/HistogramService.java:60 | the weighted level sum lies between 0 and the top level times the probability mass |
| Histogram.MeanInRange | vision-core/src/main/java/com/vision/service/HistogramService.java:60 | for a probability distribution the mean lies in [0,255] |
| Histogram.VarianceNonNegative | vision-core/src/main/java/com/vision/service/HistogramService.java:61 | the variance is never negative |
| Histogram.SquareInUnit | vision-core/src/main/java/com/vision/service/HistogramService.java:63 | the square of a probability lies between 0 and the probability |
| Histogram.EnergySumBounds | vision-core/src/main/java/com/vision/service/HistogramService.java:63 | the energy lies between 0 and the probability mass |
| Histogram.EnergyInUnit | vision-core/src/main/java/com/vision/service/HistogramService.java:63 | for a probability distribution the energy lies in [0,1] |
| Histogram.ExponentialAlpha | vision-core/src/main/java/com/vision/service/HistogramService.java:102-104 | the exponential rate is positive: the given one when positive, 1 otherwise |
| Histogram.RootPower | vision-core/src/main/java/com/vision/service/HistogramService.java:118-119 | the root exponent is positive: the given one when positive, 2 otherwise |
| Histogram.BelowOne | vision-core/src/main/java/com/vision/service/HistogramService.java:106 | a CDF value pulled below 1 keeps the logarithm's argument positive and leaves values below 1 alone |
| Histogram.NewValue | vision-core/src/main/java/com/vision/service/HistogramService.java:97-134 | every transformation sends a CDF value of 0 to the lowest level 0 (given log 1 = 0, exp 0 = 1, sqrt 0 = 0 and 0 to a positive power = 0), and the uniform and hyperbolic-log transformations send a CDF value of 1 to the highest level 255 |
| Histogram.LutEntry | vision-core/src/main/java/com/vision/service/HistogramService.java:95-135 | whatever the transformation and parameters, each table entry is a valid gray level in [0,255] |
| Histogram.CreateLut | vision-core/src/main/java/com/vision/service/HistogramService.java:90-138 | a fresh 256-entry table whose entry i is the transformed, clamped and rounded CDF value i |
| Histogram.UniformLutIsRoundedCdf | vision-core/src/main/java/com/vision/service/HistogramService.java:98-99 | the uniform transformation maps a CDF value c in [0,1] to round(255 c) |
| Histogram.UniformLutMonotone | vision-core/src/main/java/com/vision/service/HistogramService.java:98-99 | the uniform table never decreases along a non-decreasing CDF |
| Histogram.ImageCdf | vision-core/src/main/java/com/vision/service/HistogramService.java:71-73 | the image's cumulative distribution has 256 entries |
| Histogram.TransformImage | vision-core/src/main/java/com/vision/service/HistogramService.java:68-88 | a fresh valid image of the same size in which each pixel is the gray table entry of its level, the table built from the image's own CDF |
| Histogram.ApplyLut | vision-core/src/main/java/com/vision/service/HistogramService.java:80-86 | a fresh valid image of the same size in which each pixel is the gray table entry of its level |
| LogicalOperations.RelationalOperatorsCompareBits | vision-core/src/main/java/com/vision/service/LogicalOperationsService.java:57-79 | the relational operators compare the two pixels as bits (white 1, black 0), and not-equal is xor |
| LogicalOperations.FromBool | vision-core/src/main/java/com/vision/service/LogicalOperationsService.java:102 | the written pixel is a valid colour, and white exactly when the result is true |
| LogicalOperations.IsOnMeansBright | vision-core/src/main/java/com/vision/service/LogicalOperationsService.java:86-100 | a pixel reads as true exactly when its channel average reaches the 0.5 threshold |
| LogicalOperations.NotTwiceIsBinarize | vision-core/src/main/java/com/vision/service/LogicalOperationsService.java:38-53 | applying not twice gives the binarized pixel back |
| LogicalOperations.IsOnFromBool | vision-core/src/main/java/com/vision/service/LogicalOperationsService.java:99-102 | a written white or black pixel reads back as the Boolean it stands for |
| LogicalOperations.DeMorgan | vision-core/src/main/java/com/vision/service/LogicalOperationsService.java:26-53 | not (A and B) is (not A) or (not B), and not (A or B) is (not A) and (not B), pixel by pixel |
| LogicalOperations.SelfComparison | vision-core/src/main/java/com/vision/service/LogicalOperationsService.java:34-71 | an image compared with itself gives all black for xor and greater-than, and all white for equality and greater-or-equal |
| LogicalOperations.ComplementPairs | vision-core/src/main/java/com/vision/service/LogicalOperationsService.java:34-79 | not-equal equals xor, equality is its complement, greater-or-equal is the complement of less-than and less-or-equal that of greater-than |
| LogicalOperations.Chessboard | vision-core/src/main/java/com/vision/service/LogicalOperationsService.java:99 | a chessboard square is white or black, and reads as true exactly on the squares of its phase |
| LogicalOperations.ComplementaryChessboards | vision-core/src/main/java/com/vision/service/LogicalOperationsService.java:26-36 | two complementary chessboards give all black for and, and all white for or and xor |
| LogicalOperations.ApplyLogic | vision-core/src/main/java/com/vision/service/LogicalOperationsService.java:85-106 | a fresh valid image over the overlap of the two sizes, white exactly where the operator holds for the two binarized pixels, black elsewhere |
| LogicalOperations.LogicRow | vision-core/src/main/java/com/vision/service/LogicalOperationsService.java:98-103 | row y of the result is the operator's pixel for row y of both operands and no other row changes |
| LogicalOperations.Not | vision-core/src/main/java/com/vision/service/LogicalOperationsService.java:38-53 | a fresh valid image of the same size, black or white, white exactly where the binarized input is black |
| Geometry.Fetch | vision-core/src/main/java/com/vision/service/GeometricTransformationService.java:73-78 | a back-mapped position inside the image reads the pixel at its truncated coordinates; any other position gives transparent |
| Geometry.Translate | vision-core/src/main/java/com/vision/service/GeometricTransformationService.java:22-43 | a fresh image of the same size whose pixel (x, y) is the source pixel at the truncated (x - tx, y - ty), or transparent when that falls outside; every output pixel is a valid colour |
| Geometry.TranslateByWholePixels | vision-core/src/main/java/com/vision/service/GeometricTransformationService.java:29-40 | a whole-pixel shift moves pixel (x - dx, y - dy) to (x, y), and what enters from outside is transparent |
| Geometry.TranslateFractionKeepsColumnZero | vision-core/src/main/java/com/vision/service/GeometricTransformationService.java:31 | since the cast truncates toward zero, a shift right by less than one pixel still shows source column 0 in column 0 |
| Geometry.Rotate | vision-core/src/main/java/com/vision/service/GeometricTransformationService.java:52-82 | a fresh image of the same size whose pixel (x, y) is the source pixel at (x, y) turned about the centre, or transparent when that falls outside; every output pixel is a valid colour |
| Geometry.RotateByZeroIsIdentity | vision-core/src/main/java/com/vision/service/GeometricTransformationService.java:67-75 | a rotation with sine 0 and cosine 1 leaves every pixel in place |
| Geometry.RotateHalfTurn | vision-core/src/main/java/com/vision/service/GeometricTransformationService.java:58-78 | a half turn maps column x to width - x: row 0 and column 0 become transparent and every other pixel shows its mirror shifted by one |
| Geometry.Scale | vision-core/src/main/java/com/vision/service/GeometricTransformationService.java:92-116 | a fresh image of the same size whose pixel (x, y) is the source pixel at (x, y) scaled back about the centre, or transparent when that falls outside or a factor is zero; every output pixel is a valid colour |
| Geometry.ScaleByOneIsIdentity | vision-core/src/main/java/com/vision/service/GeometricTransformationService.java:104-109 | scaling by 1 in both directions leaves every pixel in place |
| Geometry.ScaleFixesCentre | vision-core/src/main/java/com/vision/service/GeometricTransformationService.java:99-109 | for even sides, the centre pixel stays in place under any non-zero scaling |
| Kernels.RowTotal3 | vision-core/src/main/java/com/vision/util/KernelProvider.java:21-41 | a row of three entries sums to those three entries |
| Kernels.KernelTotal3 | vision-core/src/main/java/com/vision/util/KernelProvider.java:21-41 | a 3 x 3 mask sums to its nine entries |
| Kernels.KirschMasksAreRotations | vision-core/src/main/java/com/vision/util/KernelProvider.java:21-29 | the eight Kirsch masks are one mask turned 45 degrees at a time, each with a zero centre and a zero total |
| Kernels.FreiChenRootMasks | vision-core/src/main/java/com/vision/util/KernelProvider.java:33-36 | the four masks that carry the square root of 2 are 3 x 3 whatever value stands in for it |
| Kernels.FreiChenRootMasksSumToZero | vision-core/src/main/java/com/vision/util/KernelProvider.java:32-36 | those four masks sum to 0 whatever value stands in for the root, and with the rounded root they are F1 to F4 |
| Kernels.FreiChenMasksOrthogonalToMean | vision-core/src/main/java/com/vision/util/KernelProvider.java:33-42 | the nine Frei-Chen masks are 3 x 3; the eight edge and line masks are orthogonal to the averaging mask F9 and sum to 0, and F9 sums to 9 |
| Kernels.FreiChenEdgeMasksOrthogonal | vision-core/src/main/java/com/vision/util/KernelProvider.java:33-36 | the edge masks F1 to F4 are mutually orthogonal |
| Kernels.FreiChenLineMasksOrthogonal | vision-core/src/main/java/com/vision/util/KernelProvider.java:37-40 | the line masks F5 to F8 are mutually orthogonal and orthogonal to every edge mask |
| Kernels.SobelPair | vision-core/src/main/java/com/vision/util/KernelProvider.java:94-104 | the Sobel masks are 3 x 3, SOBEL_Y is SOBEL_X transposed, and both sum to 0 |
| Kernels.SharpeningPreservesFlat | vision-core/src/main/java/com/vision/util/KernelProvider.java:55-69 | every sharpening mask is 3 x 3 and sums to 1, so flat regions keep their level |
| Kernels.MeanKernel | vision-core/src/main/java/com/vision/util/KernelProvider.java:84-90 | the averaging table of a given size is square of that size |
| Kernels.GetLowPassKernel | vision-core/src/main/java/com/vision/util/KernelProvider.java:50-74 | the 7, 11 and 15 averaging kernels are square of their named size |
| Kernels.ConstantRowTotal | vision-core/src/main/java/com/vision/util/KernelProvider.java:85-89 | a row of n equal entries v sums to n v |
| Kernels.EqualRowsTotal | vision-core/src/main/java/com/vision/util/KernelProvider.java:86-90 | rows that each sum to t add up to the number of rows times t |
| Kernels.MeanKernelSumsToOne | vision-core/src/main/java/com/vision/util/KernelProvider.java:80-92 | every averaging kernel sums to 1 |
| Kernels.CreateMeanKernel | vision-core/src/main/java/com/vision/util/KernelProvider.java:80-92 | an even size is refused with the source's message; an odd size gives a fresh size x size table of 1/size^2 |
| Kernels.RawGaussian | vision-core/src/main/java/com/vision/util/KernelProvider.java:113-119 | the raw weight table is size x size, row i and column j holding the weight at offset (j - half, i - half) |
| Kernels.Normalize | vision-core/src/main/java/com/vision/util/KernelProvider.java:121-125 | normalising keeps the table's shape |
| Kernels.PositiveRowTotal | vision-core/src/main/java/com/vision/util/KernelProvider.java:117 | a row of positive weights has a positive sum |
| Kernels.PositiveKernelTotal | vision-core/src/main/java/com/vision/util/KernelProvider.java:111-119 | a table of positive weights has a positive total |
| Kernels.GaussianWeightPositive | vision-core/src/main/java/com/vision/util/KernelProvider.java:115 | with a positive exponential, every Gaussian weight is positive |
| Kernels.CoefficientPositive | vision-core/src/main/java/com/vision/util/KernelProvider.java:115 | the factor 2 pi sigma^2 is positive for every non-zero sigma |
| Kernels.GaussianWeightSymmetric | vision-core/src/main/java/com/vision/util/KernelProvider.java:115 | a weight depends only on the squared distance from the centre: swapping or mirroring the offsets keeps it |
| Kernels.RawGaussianTotalPositive | vision-core/src/main/java/com/vision/util/KernelProvider.java:111-119 | the raw weights have a positive total, so the normalising division is defined |
| Kernels.RowTotalDivided | vision-core/src/main/java/com/vision/util/KernelProvider.java:123 | dividing every entry of a row by t divides its sum by t |
| Kernels.NormalizeTotal | vision-core/src/main/java/com/vision/util/KernelProvider.java:121-125 | normalising by t divides the total by t |
| Kernels.GaussianKernelSumsToOne | vision-core/src/main/java/com/vision/util/KernelProvider.java:106-127 | the normalised Gaussian kernel sums to 1 |
| Kernels.GaussianKernelSymmetric | vision-core/src/main/java/com/vision/util/KernelProvider.java:113-125 | the normalised Gaussian is symmetric about the diagonal and about its middle row |
| Kernels.CreateGaussianKernel | vision-core/src/main/java/com/vision/util/KernelProvider.java:106-127 | an even size is refused; an odd size gives a fresh table equal to the raw weights divided by their positive total |
| Kernels.GaussianWeights | vision-core/src/main/java/com/vision/util/KernelProvider.java:110-119 | the first pass fills in every raw weight and returns their total |
| Kernels.GaussianRow | vision-core/src/main/java/com/vision/util/KernelProvider.java:114-118 | one row of the first pass writes that row's weights, adds them to the running sum and leaves the other rows alone |
| Kernels.DivideAll | vision-core/src/main/java/com/vision/util/KernelProvider.java:121-125 | the second pass divides every entry by the total |
| Convolution.LumaInUnit | vision-core/src/main/java/com/vision/service/ImageProcessingService.java:24-26 | the value convolution reads from the grayscale copy is the channel average of the original pixel and lies in [0,1] |
| Convolution.ConvolvedPixel | vision-core/src/main/java/com/vision/service/ConvolutionService.java:40-41 | every convolved pixel is an opaque valid gray, whatever the kernel |
| Convolution.ConvolveAt | vision-core/src/main/java/com/vision/service/ConvolutionService.java:27-39 | the kernel-weighted sum over the clamped neighbourhood, read from the grayscale copy, equals the row-by-row response of the original image |
| Convolution.AccumulateRow | vision-core/src/main/java/com/vision/service/ConvolutionService.java:29-38 | one kernel row adds exactly its products over clamped neighbours to the running sum |
| Convolution.Convolve | vision-core/src/main/java/com/vision/service/ConvolutionService.java:14-45 | the result is a fresh image of the input's size holding at every pixel the gray of the clamped kernel response |
| Convolution.ConvolveRow | vision-core/src/main/java/com/vision/service/ConvolutionService.java:26-42 | row y receives the convolved pixels and every other row is left untouched |
| Convolution.ApplyLowPassFilter | vision-core/src/main/java/com/vision/service/ConvolutionService.java:47-49 | the low-pass filter is convolution with the averaging kernel of the chosen size |
| Convolution.ApplyHighPassFilter | vision-core/src/main/java/com/vision/service/ConvolutionService.java:51-53 | the high-pass filter is convolution with the chosen sharpening kernel |
| Convolution.FlatRowResponse | vision-core/src/main/java/com/vision/service/ConvolutionService.java:28-38 | on an image of one gray level v, a kernel row contributes v times its row total |
| Convolution.FlatResponsePrefix | vision-core/src/main/java/com/vision/service/ConvolutionService.java:28-38 | on an image of one gray level v, the first m kernel rows contribute v times their total |
| Convolution.FlatTap | vision-core/src/main/java/com/vision/service/ConvolutionService.java:30-37 | on an image of one gray level v, each product is v times its kernel cell, wherever the index clamp lands |
| Convolution.FlatResponse | vision-core/src/main/java/com/vision/service/ConvolutionService.java:27-39 | on an image of one gray level v the response is v times the kernel total |
| Convolution.FiltersKeepFlatImages | vision-core/src/main/java/com/vision/service/ConvolutionService.java:47-53 | low-pass and high-pass filters both leave an image of one gray level unchanged |
| Convolution.GaussianKeepsFlatImages | vision-core/src/main/java/com/vision/service/ConvolutionService.java:56-57 | the detector's Gaussian blur leaves an image of one gray level unchanged |
| Convolution.ZeroRowResponse | vision-core/src/main/java/com/vision/service/ConvolutionService.java:29-38 | a kernel row of zeros contributes nothing |
| Convolution.CentreKernelGivesGrayscale | vision-core/src/main/java/com/vision/service/ConvolutionService.java:14-45 | the identity kernel returns the grayscale of the input |
| Convolution.BoundedRowResponse | vision-core/src/main/java/com/vision/service/ConvolutionService.java:29-38 | with a non-negative kernel, a row's contribution lies between 0 and the row total |
| Convolution.TapBounded | vision-core/src/main/java/com/vision/service/ConvolutionService.java:36-37 | with a non-negative cell, a product lies between 0 and the cell |
| Convolution.WeightedBelowWeight | vision-core/src/main/java/com/vision/service/ConvolutionService.java:37 | a gray level in [0,1] times a non-negative weight lies between 0 and the weight |
| Convolution.BoundedResponsePrefix | vision-core/src/main/java/com/vision/service/ConvolutionService.java:28-39 | with a non-negative kernel, the first m rows contribute between 0 and their total |
| Convolution.AveragingNeedsNoClamp | vision-core/src/main/java/com/vision/service/ConvolutionService.java:40 | with a non-negative kernel summing to 1 the response already lies in [0,1], so the clamp changes nothing |
| Convolution.LowPassNeedsNoClamp | vision-core/src/main/java/com/vision/service/ConvolutionService.java:47-49 | the averaging filters never reach the clamp |
| Convolution.SameLumaRowResponse | vision-core/src/main/java/com/vision/service/ConvolutionService.java:29-38 | two images with the same channel averages give the same row contributions |
| Convolution.SameLumaResponse | vision-core/src/main/java/com/vision/service/ConvolutionService.java:27-39 | two images with the same channel averages give the same response |
| Convolution.GrayscaleFirstChangesNothing | vision-core/src/main/java/com/vision/service/ConvolutionService.java:15 | convolving an image already converted to grayscale gives the same result as convolving the original |
| Convolution.SignedConvolve | vision-core/src/main/java/com/vision/service/ConvolutionService.java:64-65 | the Sobel responses are taken at every pixel, in a [y][x] grid, as the unclamped weighted sums |
| Convolution.SignedConvolveRow | vision-core/src/main/java/com/vision/service/ConvolutionService.java:71-79 | row y receives the unclamped sums and every other row is left untouched |
| Convolution.GradientRow | vision-core/src/main/java/com/vision/service/ConvolutionService.java:72-78 | row y receives sqrt(gx^2+gy^2) and atan2(gy, gx) at every column, the running maximum bounds the row and only grows, and a raised maximum is attained in the row |
| Convolution.ComputeGradients | vision-core/src/main/java/com/vision/service/ConvolutionService.java:61-79 | magnitude and direction hold sqrt(gx^2+gy^2) and atan2(gy, gx) at every pixel; maxMag is non-negative, bounds every magnitude and is 0 or attained |
| Convolution.NormalizeMagnitude | vision-core/src/main/java/com/vision/service/ConvolutionService.java:81-87 | when the maximum is positive every magnitude is divided by it, otherwise nothing changes |
| Convolution.NormalizedMagnitudeInUnit | vision-core/src/main/java/com/vision/service/ConvolutionService.java:84 | a magnitude between 0 and a positive maximum divides into [0,1] |
| Convolution.NonMaximumSuppression | vision-core/src/main/java/com/vision/service/ConvolutionService.java:94-124 | interior cells hold the magnitude when it is at least both neighbours across the quantised direction and 0 otherwise; border cells are 0 |
| Convolution.SuppressionKeepsOrZeroes | vision-core/src/main/java/com/vision/service/ConvolutionService.java:116-120 | suppression either keeps the magnitude or writes 0, so it never raises a non-negative value |
| Convolution.FoldedAngleInRange | vision-core/src/main/java/com/vision/service/ConvolutionService.java:101-102 | an atan2 angle in [-pi, pi] folds into [0, 180] degrees |
| Convolution.DirectionBinsCoverFoldedAngles | vision-core/src/main/java/com/vision/service/ConvolutionService.java:106-114 | the four direction bins cover every folded angle, so the 255 default never applies to an atan2 result |
| Convolution.LocalMaximumSurvives | vision-core/src/main/java/com/vision/service/ConvolutionService.java:99-121 | a magnitude at least every 8-neighbour survives suppression |
| Convolution.ThresholdPixel | vision-core/src/main/java/com/vision/service/ConvolutionService.java:135-138 | the class of a value is always a valid colour |
| Convolution.ThresholdMonotone | vision-core/src/main/java/com/vision/service/ConvolutionService.java:136-138 | a larger value never gets a weaker class, and with low < high exactly the values in [low, high) are weak |
| Convolution.DoubleThreshold | vision-core/src/main/java/com/vision/service/ConvolutionService.java:126-142 | the result, indexed [x][y], holds the white/weak/black class of every value |
| Convolution.PromoteWeak | vision-core/src/main/java/com/vision/service/ConvolutionService.java:164-172 | the output pixel becomes white when its 3 x 3 neighbourhood in the input holds a white pixel and is otherwise left as it was; nothing else changes |
| Convolution.Hysteresis | vision-core/src/main/java/com/vision/service/ConvolutionService.java:144-177 | every output pixel is the hysteresis class of the input pixel, comparing exact colours (see Left out on the stored weak gray) |
| Convolution.HysteresisProperties | vision-core/src/main/java/com/vision/service/ConvolutionService.java:152-175 | the output is black or white; white stays white and black stays black; border pixels are white only when white before; a weak interior pixel turns white exactly when it has a white neighbour |
| Convolution.KernelRows | vision-core/src/main/java/com/vision/service/ConvolutionService.java:56 | a square kernel array read row by row is a square kernel of the same size |
| Convolution.GaussianKernelRows | vision-core/src/main/java/com/vision/service/ConvolutionService.java:56 | the 5 x 5 kernel built for the detector, read row by row, is the Gaussian kernel of size 5 and sigma 1.4, and is square |
| Convolution.ApplyCannyEdgeDetector | vision-core/src/main/java/com/vision/service/ConvolutionService.java:55-92 | each stage is exposed and tied to the next: the blur is the convolution with the size-5, sigma-1.4 Gaussian; gx and gy are the signed Sobel sums of the blur; magnitude and direction are sqrt(gx^2+gy^2) and atan2(gy, gx), the magnitude divided by its maximum when that is positive; suppression and double thresholding (at low/255 and high/255) are applied to those; every output pixel is the hysteresis class of the thresholded image. The result is black and white, its border is black when the high threshold is positive, and an image of one gray level has no edges |
| Convolution.BlurredGradients | vision-core/src/main/java/com/vision/service/ConvolutionService.java:56-65 | the blur is the Gaussian convolution of the input and gx, gy are its signed Sobel sums at every pixel; on an image of one gray level both are zero everywhere |
| Convolution.ScaledMagnitudes | vision-core/src/main/java/com/vision/service/ConvolutionService.java:69-87 | magnitude and direction hold, at every pixel, sqrt(gx^2+gy^2) divided by the maximum (left alone when the maximum is 0) and atan2(gy, gx); the maximum bounds every magnitude and is 0 or attained; zero gradients give zero magnitudes |
| Convolution.EdgesFromMagnitudes | vision-core/src/main/java/com/vision/service/ConvolutionService.java:89-91 | the suppressed grid is the suppression of the magnitudes, the thresholded image its double threshold, and each output pixel the hysteresis class of that image; the output is black and white with a black border when the high threshold is positive, and zero magnitudes give no edges |
| Convolution.FlatImageHasNoGradients | vision-core/src/main/java/com/vision/service/ConvolutionService.java:56-65 | blurring an image of one gray level and taking the signed Sobel sums gives zero gradients everywhere |
| Convolution.ZeroGradientsHaveNoMagnitude | vision-core/src/main/java/com/vision/service/ConvolutionService.java:75 | zero gradients give zero magnitudes |
| Convolution.NothingSurvivesZeroMagnitude | vision-core/src/main/java/com/vision/service/ConvolutionService.java:94-124 | suppression of all-zero magnitudes is all zero |
| Convolution.FlatImageGradientAsWritten | vision-core/src/main/java/com/vision/service/ConvolutionService.java:73-74 | as written, the clamped Sobel sums of a flat image read back as the gradient (-1, -1) at every pixel |
| Convolution.FlatImageHasNoSignedGradient | vision-core/src/main/java/com/vision/service/ConvolutionService.java:64-65 | read unclamped, both Sobel responses of a flat image are 0 |
| CornerDetection.Responses | vision-core/src/main/java/com/vision/service/CornerDetectionService.java:25-28 | one gray response per kernel, each in [0,1] |
| CornerDetection.Reds | vision-core/src/main/java/com/vision/service/CornerDetectionService.java:33-34 | one red value per convolved image |
| CornerDetection.ConvolveAll | vision-core/src/main/java/com/vision/service/CornerDetectionService.java:25-28 | one fresh convolved image per kernel, in kernel order, each holding the convolution of the grayscale image with its kernel |
| CornerDetection.RedsAreResponses | vision-core/src/main/java/com/vision/service/CornerDetectionService.java:33-34 | the values read back from the convolved grayscale images are the responses of the original image |
| CornerDetection.MaxResponseIsMax | vision-core/src/main/java/com/vision/service/CornerDetectionService.java:32-38 | the running maximum started at 0 is at least 0 and every response, is 0 or one of the responses, and stays at most 1 when they do |
| CornerDetection.MaxAt | vision-core/src/main/java/com/vision/service/CornerDetectionService.java:32-38 | the loop over the convolved images computes the running maximum of their red values |
| CornerDetection.KirschWellFormed | vision-core/src/main/java/com/vision/util/KernelProvider.java:21-29 | there are eight Kirsch masks and each can be convolved |
| CornerDetection.KirschResponses | vision-core/src/main/java/com/vision/service/CornerDetectionService.java:25-28 | one response per Kirsch mask |
| CornerDetection.KirschAt | vision-core/src/main/java/com/vision/service/CornerDetectionService.java:32-38 | the value at one pixel is the Kirsch value of the original image |
| CornerDetection.KirschValue | vision-core/src/main/java/com/vision/service/CornerDetectionService.java:32-39 | the Kirsch value is a channel value in [0,1] |
| CornerDetection.KirschValueIsMax | vision-core/src/main/java/com/vision/service/CornerDetectionService.java:32-38 | the Kirsch value bounds all eight mask responses and is 0 or one of them |
| CornerDetection.ApplyKirsch | vision-core/src/main/java/com/vision/service/CornerDetectionService.java:18-43 | the result is a fresh valid image of the input's size whose pixels are the opaque gray of the Kirsch value |
| CornerDetection.KirschRow | vision-core/src/main/java/com/vision/service/CornerDetectionService.java:31-40 | row y receives the Kirsch pixels and every other row is left untouched |
| CornerDetection.KirschSet | vision-core/src/main/java/com/vision/service/CornerDetectionService.java:39 | one pixel receives its Kirsch gray and nothing else changes |
| CornerDetection.SquareSumNonNegative | vision-core/src/main/java/com/vision/service/CornerDetectionService.java:62 | a sum of squares is never negative |
| CornerDetection.SquareSumGrows | vision-core/src/main/java/com/vision/service/CornerDetectionService.java:59-69 | the energy of the first n masks lies between 0 and the energy of all masks |
| CornerDetection.EdgeShareInUnit | vision-core/src/main/java/com/vision/service/CornerDetectionService.java:71 | the edge-subspace share of a positive total energy lies in [0,1] |
| CornerDetection.FreiChenValueInUnit | vision-core/src/main/java/com/vision/service/CornerDetectionService.java:71 | with a square root that keeps [0,1] the response lies in [0,1], and all-zero responses give 0 |
| CornerDetection.AllZeroSquareSum | vision-core/src/main/java/com/vision/service/CornerDetectionService.java:65-69 | all-zero responses have no energy |
| CornerDetection.FreiChenAt | vision-core/src/main/java/com/vision/service/CornerDetectionService.java:59-71 | the two loops compute the square root of the edge share, or 0 when there is no energy |
| CornerDetection.FreiChenWellFormed | vision-core/src/main/java/com/vision/util/KernelProvider.java:32-42 | there are nine Frei-Chen masks and each can be convolved |
| CornerDetection.FreiChenResponse | vision-core/src/main/java/com/vision/service/CornerDetectionService.java:71 | the Frei-Chen response of a pixel lies in [0,1] |
| CornerDetection.FreiChenPixel | vision-core/src/main/java/com/vision/service/CornerDetectionService.java:59-71 | the value at one pixel is the Frei-Chen response of the original image, in [0,1] |
| CornerDetection.ApplyFreiChen | vision-core/src/main/java/com/vision/service/CornerDetectionService.java:45-76 | the result is a fresh valid image of the input's size whose pixels are the opaque gray of the Frei-Chen response |
| CornerDetection.FreiChenRow | vision-core/src/main/java/com/vision/service/CornerDetectionService.java:58-73 | row y receives the Frei-Chen pixels and every other row is left untouched |
| CornerDetection.FreiChenSet | vision-core/src/main/java/com/vision/service/CornerDetectionService.java:72 | one pixel receives its Frei-Chen gray and nothing else changes |
| CornerDetection.WindowAt | vision-core/src/main/java/com/vision/service/CornerDetectionService.java:150-158 | the loop computes the kernel-weighted sum of the grid over the clamped neighbourhood |
| CornerDetection.ApplyGaussianWindow | vision-core/src/main/java/com/vision/service/CornerDetectionService.java:141-162 | every cell of the fresh result is the Gaussian-weighted sum of the grid around it, and the raw Gaussian weights have a positive total |
| CornerDetection.WindowRowInto | vision-core/src/main/java/com/vision/service/CornerDetectionService.java:149-159 | row y receives the window sums and every other row is left untouched |
| CornerDetection.ConstantTap | vision-core/src/main/java/com/vision/service/CornerDetectionService.java:153-155 | on a constant grid v, each product is v times its kernel cell |
| CornerDetection.ConstantWindowRow | vision-core/src/main/java/com/vision/service/CornerDetectionService.java:152-156 | on a constant grid v, a kernel row contributes v times its row total |
| CornerDetection.ConstantWindowSum | vision-core/src/main/java/com/vision/service/CornerDetectionService.java:151-157 | on a constant grid v, the first m kernel rows contribute v times their total |
| CornerDetection.GaussianWindowKeepsConstant | vision-core/src/main/java/com/vision/service/CornerDetectionService.java:141-162 | the Gaussian window leaves a constant grid unchanged |
| CornerDetection.GradientProducts | vision-core/src/main/java/com/vision/service/CornerDetectionService.java:86-101 | the three fresh [y][x] grids hold ix*ix, iy*iy and ix*iy of the gradients read back as red - 0.5 |
| CornerDetection.GradientProductsRow | vision-core/src/main/java/com/vision/service/CornerDetectionService.java:94-100 | row y receives the three products and every other row is left untouched |
| CornerDetection.HarrisClassifies | vision-core/src/main/java/com/vision/service/CornerDetectionService.java:111-114 | the measure det - k trace^2 is 0 without gradient, negative for a gradient along one axis (an edge) and positive for equal gradients along both axes (a corner), for 0 < k < 1/4 |
| CornerDetection.HarrisResponses | vision-core/src/main/java/com/vision/service/CornerDetectionService.java:107-118 | every cell holds det - k trace^2 of its smoothed products; maxR is at least 0 and every response, and is 0 or attained |
| CornerDetection.HarrisRow | vision-core/src/main/java/com/vision/service/CornerDetectionService.java:110-117 | row y receives det - k trace^2 at every column, the running maximum bounds the row and only grows, a raised maximum is attained in the row, and every other row is left untouched |
| CornerDetection.IsLocalMax | vision-core/src/main/java/com/vision/service/CornerDetectionService.java:164-172 | true exactly when no cell of the 3 x 3 neighbourhood exceeds the centre |
| CornerDetection.CornerMarkingRule | vision-core/src/main/java/com/vision/service/CornerDetectionService.java:129-137 | a pixel that changes is red, interior, a local maximum and above the threshold share of maxR; border pixels, and every pixel when maxR is not positive, keep their original colour |
| CornerDetection.MarkCorners | vision-core/src/main/java/com/vision/service/CornerDetectionService.java:120-137 | the fresh result is the input with the interior local maxima above the threshold share marked red |
| CornerDetection.SobelOfGray | vision-core/src/main/java/com/vision/service/CornerDetectionService.java:83-84 | convolving the grayscale copy with a Sobel mask gives the convolution of the original image |
| CornerDetection.HarrisProducts | vision-core/src/main/java/com/vision/service/CornerDetectionService.java:79-101 | the two Sobel images are the convolutions of the input, and the product grids hold their read-back products |
| CornerDetection.ApplyHarris | vision-core/src/main/java/com/vision/service/CornerDetectionService.java:78-139 | the response at each cell is the Harris measure of the Gaussian-smoothed gradient products, maxR is their positive maximum or 0, and the output is the input with the corners marked by the rule above |
| Morphology.AddNoise | vision-core/src/main/java/com/vision/service/MorphologicalService.java:23-41 | each pixel of the fresh result is the noise colour when its draw falls below the percentage and the original pixel otherwise |
| Morphology.AddSaltNoise | vision-core/src/main/java/com/vision/service/MorphologicalService.java:15-17 | salt noise replaces the selected pixels with white |
| Morphology.AddPepperNoise | vision-core/src/main/java/com/vision/service/MorphologicalService.java:19-21 | pepper noise replaces the selected pixels with black |
| Morphology.NoiseExtremes | vision-core/src/main/java/com/vision/service/MorphologicalService.java:33-37 | a noisy pixel is the original or the noise colour; a percentage of 0 or less changes nothing and one of 1 or more replaces every pixel |
| Morphology.HalfKernel | vision-core/src/main/java/com/vision/service/MorphologicalService.java:69 | the half size is kernelSize / 2 truncated toward zero, so a non-negative size covers 2h+1 or 2h+2 columns |
| Morphology.MorphPixel | vision-core/src/main/java/com/vision/service/MorphologicalService.java:97 | every pixel of a morphological result is black or white |
| Morphology.Probe | vision-core/src/main/java/com/vision/service/MorphologicalService.java:73-96 | the early-exit scan returns for erosion whether every in-image neighbour within the half size is white, and for dilation whether any is |
| Morphology.ApplyMorphologicalOperation | vision-core/src/main/java/com/vision/service/MorphologicalService.java:63-101 | each pixel of the fresh result is white exactly when the erosion (or dilation) test over its clipped neighbourhood holds |
| Morphology.Erode | vision-core/src/main/java/com/vision/service/MorphologicalService.java:43-46 | each output pixel is the all-white test over its neighbourhood in the input binarised at 0.5 |
| Morphology.Dilate | vision-core/src/main/java/com/vision/service/MorphologicalService.java:48-51 | each output pixel is the any-white test over its neighbourhood in the input binarised at 0.5 |
| Morphology.Open | vision-core/src/main/java/com/vision/service/MorphologicalService.java:53-56 | each output pixel is the dilation test over the erosion of the binarised input; opening never adds white |
| Morphology.Close | vision-core/src/main/java/com/vision/service/MorphologicalService.java:58-61 | each output pixel is the erosion test over the dilation of the binarised input; closing never removes white |
| Morphology.ErosionInsideDilationOutside | vision-core/src/main/java/com/vision/service/MorphologicalService.java:73-96 | erosion only keeps white pixels and dilation keeps every white pixel |
| Morphology.OpeningShrinks | vision-core/src/main/java/com/vision/service/MorphologicalService.java:53-56 | dilating an erosion gives white only where the original was white |
| Morphology.ClosingGrows | vision-core/src/main/java/com/vision/service/MorphologicalService.java:58-61 | eroding a dilation keeps every originally white pixel white |
| Morphology.Complement | vision-core/src/main/java/com/vision/service/MorphologicalService.java:79 | the complement is white exactly when the colour is not white |
| Morphology.ErosionDilationDuality | vision-core/src/main/java/com/vision/service/MorphologicalService.java:80-90 | erosion is the complement of the dilation of the complement |
| Morphology.SingleDotScenario | vision-core/src/main/java/com/vision/service/MorphologicalService.java:63-101 | on a 5 x 5 image with one white dot, a 3 x 3 erosion removes it and a 3 x 3 dilation grows it into a 3 x 3 square |
| ComplexNumbers.Magnitude | vision-core/src/main/java/com/vision/core/math/Complex.java:34-36 | the magnitude is never negative when the square root is not |
| ComplexNumbers.GetReal | vision-core/src/main/java/com/vision/core/math/Complex.java:12-14 | the real part, put back with the imaginary part, rebuilds the number |
| ComplexNumbers.GetImag | vision-core/src/main/java/com/vision/core/math/Complex.java:16-18 | the imaginary part, put back with the real part, rebuilds the number |
| ComplexNumbers.Plus | vision-core/src/main/java/com/vision/core/math/Complex.java:20-22 | subtracting either summand from the sum gives the other |
| ComplexNumbers.Minus | vision-core/src/main/java/com/vision/core/math/Complex.java:24-26 | the difference is zero exactly when the two numbers are equal |
| ComplexNumbers.Times | vision-core/src/main/java/com/vision/core/math/Complex.java:28-32 | a zero factor gives zero and a factor of one, on either side, gives the other factor |
| ComplexNumbers.Conjugate | vision-core/src/main/java/com/vision/service/FourierService.java:158 | the conjugate has the same squared modulus, and adding it to the number gives twice the real part |
| ComplexNumbers.TimesConjugateIsNorm | vision-core/src/main/java/com/vision/service/FourierService.java:157-165 | a number times its conjugate is the real number equal to its squared modulus |
| ComplexNumbers.GettersReturnArguments | vision-core/src/main/java/com/vision/core/math/Complex.java:7-18 | the getters return the parts the number was built from |
| ComplexNumbers.PlusCommutative | vision-core/src/main/java/com/vision/core/math/Complex.java:20-22 | addition is commutative |
| ComplexNumbers.PlusAssociative | vision-core/src/main/java/com/vision/core/math/Complex.java:20-22 | addition is associative |
| ComplexNumbers.ZeroIsPlusIdentity | vision-core/src/main/java/com/vision/core/math/Complex.java:20-22 | adding zero changes nothing |
| ComplexNumbers.MinusUndoesPlus | vision-core/src/main/java/com/vision/core/math/Complex.java:20-26 | subtracting b undoes adding b |
| ComplexNumbers.TimesCommutative | vision-core/src/main/java/com/vision/core/math/Complex.java:28-32 | multiplication is commutative |
| ComplexNumbers.TimesDistributesOverPlus | vision-core/src/main/java/com/vision/core/math/Complex.java:20-32 | multiplication distributes over addition |
| ComplexNumbers.ConjugateInvolutive | vision-core/src/main/java/com/vision/service/FourierService.java:157-165 | conjugating twice, as the inverse transform does around the forward one, gives the number back |
| ComplexNumbers.FromPolar | vision-core/src/main/java/com/vision/core/math/Complex.java:38-40 | with cos^2 + sin^2 = 1 the built number has modulus equal to the given magnitude, squared |
| ComplexNumbers.Norm | vision-core/src/main/java/com/vision/core/math/Complex.java:35 | the quantity under the square root is never negative and is 0 for zero |
| ComplexNumbers.NormMultiplicative | vision-core/src/main/java/com/vision/core/math/Complex.java:28-36 | the squared modulus of a product is the product of the squared moduli |
| ComplexNumbers.ConjugateOfProduct | vision-core/src/main/java/com/vision/core/math/Complex.java:20-32 | conjugation commutes with multiplication, addition and subtraction |
| ComplexNumbers.UnitFactorKeepsNorm | vision-core/src/main/java/com/vision/service/FourierService.java:145-148 | multiplying by a twiddle factor of modulus 1 keeps the modulus |
| Fourier.BitAndSelf | vision-core/src/main/java/com/vision/service/FourierService.java:20 | a number and'ed with itself is itself |
| Fourier.PowerOfTwoBitTrick | vision-core/src/main/java/com/vision/service/FourierService.java:20 | for a positive w, w & (w - 1) == 0 holds exactly when w is a power of two |
| Fourier.IsValidDimensions | vision-core/src/main/java/com/vision/service/FourierService.java:14-21 | an image is accepted exactly when it exists, is square and its side is a positive power of two |
| Fourier.Evens | vision-core/src/main/java/com/vision/service/FourierService.java:133-138 | the even-indexed samples are half as many as the input |
| Fourier.Odds | vision-core/src/main/java/com/vision/service/FourierService.java:133-138 | the odd-indexed samples are half as many as the input |
| Fourier.Butterfly | vision-core/src/main/java/com/vision/service/FourierService.java:143-150 | combining two half transforms gives a sequence twice as long |
| Fourier.FftSpec | vision-core/src/main/java/com/vision/service/FourierService.java:129-151 | the recursive transform of a power-of-two sequence has the same length |
| Fourier.Conjugates | vision-core/src/main/java/com/vision/service/FourierService.java:157-159 | conjugation keeps the length |
| Fourier.ScaledConjugates | vision-core/src/main/java/com/vision/service/FourierService.java:163-165 | the scaled conjugation keeps the length |
| Fourier.IfftSpec | vision-core/src/main/java/com/vision/service/FourierService.java:153-167 | the inverse transform of a power-of-two sequence has the same length |
| Fourier.Split | vision-core/src/main/java/com/vision/service/FourierService.java:133-138 | the two fresh arrays hold the even- and odd-indexed samples |
| Fourier.Combine | vision-core/src/main/java/com/vision/service/FourierService.java:143-150 | the fresh array holds q[k] + w_k r[k] in the first half and q[k] - w_k r[k] in the second |
| Fourier.Fft1D | vision-core/src/main/java/com/vision/service/FourierService.java:129-151 | the fresh result is the radix-2 transform of the input |
| Fourier.Ifft1D | vision-core/src/main/java/com/vision/service/FourierService.java:153-167 | the fresh result is the conjugate of the forward transform of the conjugate, divided by n |
| Fourier.Conjugate | vision-core/src/main/java/com/vision/service/FourierService.java:155-159 | the fresh array holds the conjugate of every sample |
| Fourier.ScaleConjugate | vision-core/src/main/java/com/vision/service/FourierService.java:163-165 | every element is replaced, in place, by its conjugate divided by n |
| Fourier.SumSplit | vision-core/src/main/java/com/vision/service/FourierService.java:133-138 | the sum of all samples is the sum of the even ones plus the sum of the odd ones |
| Fourier.DcTermIsSum | vision-core/src/main/java/com/vision/service/FourierService.java:129-151 | the first coefficient of the transform is the sum of the samples |
| Fourier.ButterflyHead | vision-core/src/main/java/com/vision/service/FourierService.java:145-147 | the first combined coefficient is q[0] + r[0], since the first twiddle is 1 |
| Fourier.SingleSampleIsFixed | vision-core/src/main/java/com/vision/service/FourierService.java:131 | one sample is its own transform and its own inverse transform |
| Fourier.TwoSampleRoundTrip | vision-core/src/main/java/com/vision/service/FourierService.java:129-167 | the inverse transform of the transform of two samples gives them back |
| Fourier.GridOf | vision-core/src/main/java/com/vision/service/FourierService.java:29 | the values of a square array form a square grid of the same side |
| Fourier.GridOfPointwise | vision-core/src/main/java/com/vision/service/FourierService.java:29 | an array equal cell by cell to a grid reads back as that grid |
| Fourier.Transform | vision-core/src/main/java/com/vision/service/FourierService.java:129-167 | a forward or inverse transform keeps the length |
| Fourier.RowsTransformed | vision-core/src/main/java/com/vision/service/FourierService.java:39-41 | transforming every row keeps the grid square |
| Fourier.Column | vision-core/src/main/java/com/vision/service/FourierService.java:44-47 | a column of an n x n grid has n samples |
| Fourier.ColumnsTransformed | vision-core/src/main/java/com/vision/service/FourierService.java:43-52 | transforming every column keeps the grid square |
| Fourier.Transform2D | vision-core/src/main/java/com/vision/service/FourierService.java:38-52 | rows then columns keeps the grid square |
| Fourier.Transform1D | vision-core/src/main/java/com/vision/service/FourierService.java:40 | the fresh result is the forward or inverse transform of the input |
| Fourier.TransformRow | vision-core/src/main/java/com/vision/service/FourierService.java:40 | row y is replaced by its transform and every other row is left untouched |
| Fourier.CopyRow | vision-core/src/main/java/com/vision/service/FourierService.java:40 | the fresh array holds row y |
| Fourier.StoreRow | vision-core/src/main/java/com/vision/service/FourierService.java:40 | row y receives the array and every other row is left untouched |
| Fourier.TransformColumn | vision-core/src/main/java/com/vision/service/FourierService.java:43-52 | column x is replaced by its transform and every other column is left untouched |
| Fourier.CopyColumn | vision-core/src/main/java/com/vision/service/FourierService.java:44-47 | the fresh array holds column x |
| Fourier.StoreColumn | vision-core/src/main/java/com/vision/service/FourierService.java:49-51 | column x receives the array and every other column is left untouched |
| Fourier.Transform2DInPlace | vision-core/src/main/java/com/vision/service/FourierService.java:38-52 | the grid is replaced by its row-then-column transform |
| Fourier.Samples | vision-core/src/main/java/com/vision/service/FourierService.java:32-36 | the samples of a square image form a square grid |
| Fourier.Fft | vision-core/src/main/java/com/vision/service/FourierService.java:23-54 | the call fails exactly when the dimensions are invalid, and otherwise returns a fresh n x n grid holding the 2-D transform of the gray levels times 255 |
| Fourier.ReconstructedLevel | vision-core/src/main/java/com/vision/service/FourierService.java:81 | the gray level is in [0,255] and, for a value in range, is the nearest integer |
| Fourier.CopyGrid | vision-core/src/main/java/com/vision/service/FourierService.java:58-63 | the fresh grid holds the same values |
| Fourier.Reconstruct | vision-core/src/main/java/com/vision/service/FourierService.java:76-84 | each pixel of the fresh image is the gray of the rounded, clamped real part |
| Fourier.InverseFft | vision-core/src/main/java/com/vision/service/FourierService.java:56-86 | each pixel is the gray of the rounded, clamped real part of the inverse 2-D transform |
| Fourier.ShiftIndex | vision-core/src/main/java/com/vision/service/FourierService.java:123 | the shifted index stays inside the grid |
| Fourier.ShiftIndexInvolution | vision-core/src/main/java/com/vision/service/FourierService.java:119-123 | for an even side, shifting an index twice gives it back |
| Fourier.ModInRange | vision-core/src/main/java/com/vision/service/FourierService.java:123 | (i + half) % n is i + half or i + half - n |
| Fourier.FftShift | vision-core/src/main/java/com/vision/service/FourierService.java:117-127 | each cell of the fresh grid is the cell half a side away, wrapping around, in both directions |
| Fourier.FftShiftTwiceIsIdentity | vision-core/src/main/java/com/vision/service/FourierService.java:117-127 | for an even side, shifting twice gives the original grid back |
| Fourier.SpectrumLevel | vision-core/src/main/java/com/vision/service/FourierService.java:110 | the gray level of a log-magnitude is in [0,255] and is 255 at the maximum |
| Fourier.LogMagnitudes | vision-core/src/main/java/com/vision/service/FourierService.java:97-104 | the fresh grid holds log(1 + magnitude) of every cell; the returned value bounds them all and is 0 or one of them, so it is their maximum |
| Fourier.LogMagnitudeNonNegative | vision-core/src/main/java/com/vision/service/FourierService.java:99 | log(1 + magnitude) is never negative |
| Fourier.Quantize | vision-core/src/main/java/com/vision/service/FourierService.java:108-113 | each pixel of the fresh image is the gray of the truncated share of the maximum |
| Fourier.ShiftPreimage | vision-core/src/main/java/com/vision/service/FourierService.java:117-127 | every index of a grid is the shifted index of some index of the grid |
| Fourier.GetSpectrumView | vision-core/src/main/java/com/vision/service/FourierService.java:88-115 | each pixel is the gray level of the log-magnitude of the quadrant-swapped coefficient divided by the scale; the scale is the largest log-magnitude of the spectrum, or 1 when every log-magnitude is 0 |
| DefaultImages.Intensity | src/main/java/com/vision/util/DefaultImageGenerator.java:49 | the column share x / 300 lies in [0,1) and times the width gives the column back |
| DefaultImages.GradientColor | src/main/java/com/vision/util/DefaultImageGenerator.java:25-29 | a gradient pixel is an opaque valid colour whose red is x / 300, green y / 200, and blue the sine of (x + y) / 50 moved into [0,1] |
| DefaultImages.BandColor | src/main/java/com/vision/util/DefaultImageGenerator.java:49-60 | a band pixel is an opaque valid colour whose channels sum to the column share |
| DefaultImages.CreateDefaultImage | src/main/java/com/vision/util/DefaultImageGenerator.java:18-35 | the fresh 300 x 200 valid image holds the gradient colour at every pixel |
| DefaultImages.CreateRgbBandsImage | src/main/java/com/vision/util/DefaultImageGenerator.java:40-67 | the fresh 300 x 200 valid image holds the band colour at every pixel |
| DefaultImages.Primary | src/main/java/com/vision/util/DefaultImageGenerator.java:51-60 | a primary colour has only its own channel set |
| DefaultImages.BandIsRowOverBandHeight | src/main/java/com/vision/util/DefaultImageGenerator.java:44-60 | a row lies in band y / 66, the two leftover rows joining the blue band |
| DefaultImages.BandHeights | src/main/java/com/vision/util/DefaultImageGenerator.java:44-60 | the bands are 66, 66 and 68 rows tall |
| DefaultImages.BandBrightensRightward | src/main/java/com/vision/util/DefaultImageGenerator.java:49-60 | within a band the colour brightens from left to right, starting from black |

## Left out

- The JavaFX user interface is not part of this model: every view, `ImageDisplayPanel`, the application class and both main controllers. They handle widget layout, file choosers, image loading and alert dialogs.
- The module controllers are not modelled either, because they only dispatch to the services. Two of their input guards are not carried over, since the services themselves accept any value: Canny's `low < high` and Harris's `k > 0`, `threshold > 0`.
- `ColorSpaceModel`'s listener list, `addListener`, `removeListener` and the `notify*` methods are left out. They post events to the GUI thread through `Platform.runLater`.
- The getters, `transformedData`, `brightnessImage` and `contrastImage` of `ColorSpaceModel` are left out. They only store and return a reference.
- `ServiceProvider` (a synchronised singleton) and `LogicalOperationsModel` (observable properties) are not modelled. They are glue code.
- `Complex.toString` is left out because it only formats text.
- Channels are exact reals. IEEE-754 rounding is not modelled, and neither is the 8-bit quantisation JavaFX applies when a pixel is stored. The round trips and sums to 1 hold exactly in this abstraction.
- `java.util.Random` in `addNoise` is replaced by an array of draws passed in, one per pixel.
- Transcendental functions are parameters with range facts only, so numeric values such as the FFT twiddles, the HSI hue and the Gaussian weights are not computed:
  - `Math.toRadians` and the rotation's sine and cosine are parameters;
  - the Gaussian weights only assume a positive exponential.
- `Histogram.Tally` ignores a level outside [0,255]. No image produces one: `Histogram.LevelsInRange` proves every level read from a valid image is in range.
- `Histogram.GetHistogramProbability` requires a non-zero total. With a zero total Java divides by zero and produces NaN or infinities, which reals cannot represent.
- `Histogram.CalculateStats` requires `log(2) != 0` for the base-2 entropy.
- `Kernels.CreateMeanKernel` requires a non-negative size. For a negative odd size Java throws `NegativeArraySizeException` while allocating.
- `Kernels.CreateGaussianKernel` requires a non-zero sigma. For sigma 0 Java divides by zero inside the exponent.
- `Kernels.CreateGaussianKernel` also requires a non-negative size. For a negative odd size Java throws `NegativeArraySizeException` while allocating.
- `Fourier.InverseFft` requires a square grid whose side is a power of two, which every grid `Fourier.Fft` returns has. Java fails on any other side. For a side that is not a power of two, `fft1D` leaves null entries at odd lengths above 1, and reading them throws a `NullPointerException`. For side 0, `WritableImage` rejects the empty size.
- `ColorSpace.CreateChannelImage` requires the chosen channel to lie in [0,1]. The JavaFX `Color` constructor throws otherwise, and every converter is proved to produce values in that range.
- `CornerDetection.ApplyHarris` reads the Sobel images back as `red - 0.5`, as written:
  - the clamp inside `convolve` loses negative gradients, so every negative response reads as -0.5;
  - the model states the response and marking rule over that read-back and claims nothing about corner quality;
  - on a flat image this read-back gives r = -k/4, so nothing is marked.
- `Convolution.ApplyCannyEdgeDetector` uses the corrected signed Sobel sums instead of the clamped read-back (see Findings). Every stage is returned as a ghost output, tied to its input by a per-pixel predicate.
- `Convolution.Hysteresis` compares exact colours. JavaFX stores `Color.gray(0.5)` in 8 bits, as 128/255, so in the program a weak pixel read back never equals `Color.gray(0.5)`. There, hysteresis never promotes a weak pixel, and every weak pixel ends black. The model promotes a weak pixel next to a strong one, as the code evidently intends.
- `ComplexNumbers.Norm` does not state the converse, that a zero norm means the number is zero.
- `ComplexNumbers.Magnitude` states only that the magnitude is non-negative; the square root is a parameter.
- `Fourier.TwoSampleRoundTrip`: the inverse of the forward transform is proved to return the input only for one and two samples. The general round trip needs the trigonometric identities of the twiddle factors, which the parameters do not carry.
- `Fourier.SpectrumLevel` states the range [0,255] and the level 255 at the maximum, not monotonicity.
- `Fourier.Fft` models the gray sample `red * 255` read from the grayscale copy. The thrown exception becomes a failure result.

## Findings

| source | as written | input that shows it | evidently intended | confidence | as-written member | corrected member |
|---|---|---|---|---|---|---|
| vision-core/src/main/java/com/vision/service/ConvolutionService.java:73-74 | the Sobel responses come from `convolve`, which clamps each sum into [0,1] (line 40), and are then read back as `(red - 0.5) * 2` | any image of one flat gray level: both Sobel sums are 0, so both read back as -1, giving a gradient of magnitude sqrt(2) at every pixel, so that after normalisation and suppression every interior pixel is a strong edge | the signed Sobel sums, which are 0 on a flat image, so it has no gradient and no edges | not executed | Convolution.FlatImageGradientAsWritten | Convolution.FlatImageHasNoSignedGradient |
