/**
 * The `scaleToFit` extension on `ImageFormats.Image`: the fitting algorithm
 * of `ComicImage.scaleToFit` written out again for an image whose width and
 * height are whole pixel counts, converted to reals before any arithmetic.
 * `FittingAgrees` proves that the two compute the same scale, so every lemma
 * proved in `ComicImages` holds here. The pixel data plays no part and is not
 * modelled.
 */
module Images {
  import opened SwiftInt
  import opened ComicImages

  /** The first step: the scale that brings both sides up to `minSize`, else 1. */
  function MinimumSizeScale(width: real, height: real, minSize: real): (scale: real)
    requires width > 0.0 && height > 0.0
    ensures scale == PreFitScale(width, height, minSize)
  {
    if width < minSize || height < minSize then Max(minSize / width, minSize / height) else 1.0
  }

  /**
   * The second step, from the scale the first chose: shrink to fit when the
   * image overflows and the shrink is allowed, or else grow to fit up to
   * `upScaleLimit`.
   */
  function FitFrom(width: real, height: real, scale: real, availableWidth: real, availableHeight: real,
                   minSize: real, downScaleLimit: real, upScaleLimit: UpScaleLimit): real
    requires width > 0.0 && height > 0.0 && scale > 0.0
  {
    PositiveProduct(width, scale);
    PositiveProduct(height, scale);
    if width * scale > availableWidth || height * scale > availableHeight then
      var downScale := Min(availableWidth / (width * scale), availableHeight / (height * scale));
      if downScale >= downScaleLimit && width * scale * downScale >= minSize && height * scale * downScale >= minSize
      then scale * downScale
      else scale
    else
      var upScale := Min(availableWidth / (width * scale), availableHeight / (height * scale));
      var grown := scale * upScale;
      if upScaleLimit.Bounded? && grown > upScaleLimit.value then upScaleLimit.value else grown
  }

  /** The fitting step computes what `ComicImage`'s does, whatever the scale. */
  lemma FitFromAgrees(width: real, height: real, scale: real, availableWidth: real, availableHeight: real,
                      minSize: real, downScaleLimit: real, upScaleLimit: UpScaleLimit)
    requires width > 0.0 && height > 0.0 && scale > 0.0
    ensures FitFrom(width, height, scale, availableWidth, availableHeight, minSize, downScaleLimit, upScaleLimit)
         == FitFromScale(width, height, scale, availableWidth, availableHeight, minSize, downScaleLimit, upScaleLimit)
  {
    PositiveProduct(width, scale);
    PositiveProduct(height, scale);
    assert Min(availableWidth / (width * scale), availableHeight / (height * scale))
        == FitRatio(width * scale, height * scale, availableWidth, availableHeight);
  }

  /** Both steps on real dimensions: the body of `scaleToFit` after the conversion. */
  function Fitting(width: real, height: real, availableWidth: real, availableHeight: real,
                   minSize: real, downScaleLimit: real, upScaleLimit: UpScaleLimit): real
    requires width > 0.0 && height > 0.0
  {
    var scale := MinimumSizeScale(width, height, minSize);
    FitFrom(width, height, scale, availableWidth, availableHeight, minSize, downScaleLimit, upScaleLimit)
  }

  /** `Fitting` computes the same scale as `ComicImage.scaleToFit` on the same dimensions. */
  lemma FittingAgrees(width: real, height: real, availableWidth: real, availableHeight: real,
                      minSize: real, downScaleLimit: real, upScaleLimit: UpScaleLimit)
    requires width > 0.0 && height > 0.0
    ensures Fitting(width, height, availableWidth, availableHeight, minSize, downScaleLimit, upScaleLimit)
            == ComicImage([], width, height).ScaleToFit(availableWidth, availableHeight, minSize, downScaleLimit, upScaleLimit)
  {
    FitFromAgrees(width, height, MinimumSizeScale(width, height, minSize), availableWidth, availableHeight,
                  minSize, downScaleLimit, upScaleLimit);
  }

  datatype Image = Image(width: Int, height: Int) {

    /**
     * `scaleToFit(availableWidth:availableHeight:minSize:downScaleLimit:upScaleLimit:)`:
     * converts the pixel counts to reals, then fits.
     */
    function ScaleToFit(
      availableWidth: real,
      availableHeight: real,
      minSize: real := 250.0,
      downScaleLimit: real := 0.70,
      upScaleLimit: UpScaleLimit := Bounded(4.0)
    ): (scale: real)
      requires width > 0 && height > 0
      ensures scale == ComicImage([], width as real, height as real)
                         .ScaleToFit(availableWidth, availableHeight, minSize, downScaleLimit, upScaleLimit)
    {
      var width, height := width as real, height as real;
      FittingAgrees(width, height, availableWidth, availableHeight, minSize, downScaleLimit, upScaleLimit);
      Fitting(width, height, availableWidth, availableHeight, minSize, downScaleLimit, upScaleLimit)
    }
  }

  /** The defaults are those of `ComicImage.scaleToFit`: 250, 0.70 and 4. */
  lemma DefaultsAgree(img: Image, availableWidth: real, availableHeight: real)
    requires img.width > 0 && img.height > 0
    ensures img.ScaleToFit(availableWidth, availableHeight)
            == ComicImage([], img.width as real, img.height as real).ScaleToFit(availableWidth, availableHeight)
  {
  }
}
