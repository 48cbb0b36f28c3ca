/**
 * `ComicImage.scaleToFit`: the scale factor that fits an image into the space
 * its parent view offers. The image first grows to a minimum size, then either
 * shrinks to fit (within limits) or grows to fit (up to a limit).
 *
 * Doubles are modelled as exact reals; an unbounded `upScaleLimit`
 * (`.infinity`) is the `Unbounded` case, which never clamps.
 */
module ComicImages {

  datatype UpScaleLimit = Bounded(value: real) | Unbounded

  const DefaultMinSize: real := 250.0
  const DefaultDownScaleLimit: real := 0.70
  const DefaultUpScaleLimit: UpScaleLimit := Bounded(4.0)

  function Min(a: real, b: real): real {
    if a <= b then a else b
  }

  function Max(a: real, b: real): real {
    if a >= b then a else b
  }

  lemma PositiveProduct(a: real, b: real)
    requires a > 0.0 && b > 0.0
    ensures a * b > 0.0
  {
  }

  /** The image drawn at `scale` is wider or taller than the space. */
  predicate Overflows(width: real, height: real, scale: real, availableWidth: real, availableHeight: real) {
    width * scale > availableWidth || height * scale > availableHeight
  }

  /** The image drawn at `scale` fits the space. */
  predicate FitsIn(width: real, height: real, scale: real, availableWidth: real, availableHeight: real) {
    width * scale <= availableWidth && height * scale <= availableHeight
  }

  /** Both sides of the image drawn at `scale` are at least `minSize`. */
  predicate ReachesMinSize(width: real, height: real, scale: real, minSize: real) {
    width * scale >= minSize && height * scale >= minSize
  }

  /** The scale after the first step: grow until both sides reach `minSize`, otherwise 1. */
  function PreFitScale(width: real, height: real, minSize: real): (scale: real)
    requires width > 0.0 && height > 0.0
    ensures scale > 0.0
  {
    if width < minSize || height < minSize then Max(minSize / width, minSize / height) else 1.0
  }

  /** The factor that makes an image drawn at the given size exactly fit the tighter dimension. */
  function FitRatio(scaledWidth: real, scaledHeight: real, availableWidth: real, availableHeight: real): real
    requires scaledWidth > 0.0 && scaledHeight > 0.0
  {
    Min(availableWidth / scaledWidth, availableHeight / scaledHeight)
  }

  /**
   * The rest of the algorithm, once the first step has chosen `scale`: if the
   * image drawn at `scale` overflows the available space, shrink it to fit
   * unless that goes below `downScaleLimit` or leaves a side below `minSize`;
   * otherwise grow it to fit and clamp the result to `upScaleLimit`.
   */
  function FitFromScale(width: real, height: real, scale: real, availableWidth: real, availableHeight: real,
                        minSize: real, downScaleLimit: real, upScaleLimit: UpScaleLimit): (r: real)
    requires width > 0.0 && height > 0.0 && scale > 0.0
    ensures !Overflows(width, height, scale, availableWidth, availableHeight) && upScaleLimit.Bounded? ==>
      r <= upScaleLimit.value
    ensures Overflows(width, height, scale, availableWidth, availableHeight) && r != scale ==>
      r == scale * FitRatio(width * scale, height * scale, availableWidth, availableHeight) && ReachesMinSize(width, height, r, minSize)
  {
    PositiveProduct(width, scale);
    PositiveProduct(height, scale);
    if width * scale > availableWidth || height * scale > availableHeight then
      var downScale := FitRatio(width * scale, height * scale, availableWidth, availableHeight);
      if downScale >= downScaleLimit
         && width * scale * downScale >= minSize
         && height * scale * downScale >= minSize
      then scale * downScale
      else scale
    else
      var upScale := FitRatio(width * scale, height * scale, availableWidth, availableHeight);
      var grown := scale * upScale;
      if upScaleLimit.Bounded? && grown > upScaleLimit.value then upScaleLimit.value else grown
  }

  /** Image data for a comic, with its original width and height. */
  datatype ComicImage = ComicImage(data: seq<bv8>, width: real, height: real) {

    /**
     * `scaleToFit(availableWidth:availableHeight:minSize:downScaleLimit:upScaleLimit:)`.
     * When the image grown to `minSize` overflows the space, both final sides
     * stay at `minSize` or more, and a scale that changed shrank and fits.
     * Otherwise the image ends up fitting the space, within `upScaleLimit`.
     */
    function ScaleToFit(
      availableWidth: real,
      availableHeight: real,
      minSize: real := DefaultMinSize,
      downScaleLimit: real := DefaultDownScaleLimit,
      upScaleLimit: UpScaleLimit := DefaultUpScaleLimit
    ): (scale: real)
      requires width > 0.0 && height > 0.0
      ensures var s := PreFitScale(width, height, minSize);
        Overflows(width, height, s, availableWidth, availableHeight) ==>
          && ReachesMinSize(width, height, scale, minSize)
          && (scale != s ==> scale < s && FitsIn(width, height, scale, availableWidth, availableHeight))
      ensures var s := PreFitScale(width, height, minSize);
        !Overflows(width, height, s, availableWidth, availableHeight) ==>
          && FitsIn(width, height, scale, availableWidth, availableHeight)
          && (upScaleLimit.Bounded? ==> scale <= upScaleLimit.value)
    {
      var s := PreFitScale(width, height, minSize);
      PreFitScaleAtLeastMinSize(width, height, minSize);
      FitFromScaleBounds(width, height, s, availableWidth, availableHeight, minSize, downScaleLimit, upScaleLimit);
      FitFromScale(width, height, s, availableWidth, availableHeight, minSize, downScaleLimit, upScaleLimit)
    }
  }

  /** `OverflowBranch` and `FitBranch` together, from any scale that reaches `minSize`. */
  lemma FitFromScaleBounds(width: real, height: real, scale: real, availableWidth: real, availableHeight: real,
                           minSize: real, downScaleLimit: real, upScaleLimit: UpScaleLimit)
    requires width > 0.0 && height > 0.0 && scale > 0.0
    requires ReachesMinSize(width, height, scale, minSize)
    ensures var r := FitFromScale(width, height, scale, availableWidth, availableHeight, minSize, downScaleLimit, upScaleLimit);
      Overflows(width, height, scale, availableWidth, availableHeight) ==>
        && ReachesMinSize(width, height, r, minSize)
        && (r != scale ==> r < scale && FitsIn(width, height, r, availableWidth, availableHeight))
    ensures var r := FitFromScale(width, height, scale, availableWidth, availableHeight, minSize, downScaleLimit, upScaleLimit);
      !Overflows(width, height, scale, availableWidth, availableHeight) ==>
        && FitsIn(width, height, r, availableWidth, availableHeight)
        && (upScaleLimit.Bounded? ==> r <= upScaleLimit.value)
  {
    if width * scale > availableWidth || height * scale > availableHeight {
      OverflowBranch(width, height, scale, availableWidth, availableHeight, minSize, downScaleLimit, upScaleLimit);
    } else {
      FitBranch(width, height, scale, availableWidth, availableHeight, minSize, downScaleLimit, upScaleLimit);
    }
  }

  lemma MulLeft(c: real, a: real, b: real)
    requires c > 0.0 && a <= b
    ensures c * a <= c * b
  {
  }

  lemma MulLeftStrict(c: real, a: real, b: real)
    requires c > 0.0 && a < b
    ensures c * a < c * b
  {
  }

  /** Scaling `size` by `target / size` gives exactly `target`. */
  lemma DivCancel(size: real, target: real)
    requires size > 0.0
    ensures size * (target / size) == target
  {
  }

  /** Scaling `size` by at most `available / size` keeps it within `available`. */
  lemma WithinRatio(size: real, available: real, factor: real)
    requires size > 0.0 && factor <= available / size
    ensures size * factor <= available
  {
    MulLeft(size, factor, available / size);
  }

  /** Reaching at least `target` from `size` takes a factor of at least `target / size`. */
  lemma AtLeastRatio(size: real, target: real, factor: real)
    requires size > 0.0 && factor >= target / size
    ensures size * factor >= target
  {
    MulLeft(size, target / size, factor);
  }

  /** The ratio of a larger to a smaller positive amount exceeds 1, and the reverse is below 1. */
  lemma RatioAgainstOne(size: real, available: real)
    requires size > 0.0
    ensures available > size ==> available / size > 1.0
    ensures available < size ==> available / size < 1.0
    ensures available >= size ==> available / size >= 1.0
  {
    if available / size <= 1.0 { MulLeft(size, available / size, 1.0); }
    if available / size >= 1.0 { MulLeft(size, 1.0, available / size); }
  }

  /**
   * The minimum-size step: when a side is below `minSize`, the scale is the
   * larger of the two ratios, it enlarges the image, and both sides reach `minSize`.
   */
  lemma PreFitScaleReachesMinSize(width: real, height: real, minSize: real)
    requires width > 0.0 && height > 0.0
    requires width < minSize || height < minSize
    ensures PreFitScale(width, height, minSize) == Max(minSize / width, minSize / height)
    ensures PreFitScale(width, height, minSize) > 1.0
    ensures width * PreFitScale(width, height, minSize) >= minSize
    ensures height * PreFitScale(width, height, minSize) >= minSize
  {
    var s := PreFitScale(width, height, minSize);
    AtLeastRatio(width, minSize, s);
    AtLeastRatio(height, minSize, s);
    RatioAgainstOne(width, minSize);
    RatioAgainstOne(height, minSize);
  }

  /** When the first step grows the image, the side that sets the scale ends exactly at `minSize`. */
  lemma PreFitScaleTouchesMinSize(width: real, height: real, minSize: real)
    requires width > 0.0 && height > 0.0
    requires width < minSize || height < minSize
    ensures width * PreFitScale(width, height, minSize) == minSize
            || height * PreFitScale(width, height, minSize) == minSize
  {
    DivCancel(width, minSize);
    DivCancel(height, minSize);
  }

  /** Whatever the first step does, both sides of the image are at least `minSize` afterwards. */
  lemma PreFitScaleAtLeastMinSize(width: real, height: real, minSize: real)
    requires width > 0.0 && height > 0.0
    ensures width * PreFitScale(width, height, minSize) >= minSize
    ensures height * PreFitScale(width, height, minSize) >= minSize
  {
    if width < minSize || height < minSize {
      PreFitScaleReachesMinSize(width, height, minSize);
    }
  }

  lemma Associate(a: real, b: real, c: real)
    ensures a * (b * c) == (a * b) * c
  {
  }

  /**
   * The overflow branch, for any scale at which both sides are at least
   * `minSize`: the downscale is applied exactly when it is at least
   * `downScaleLimit` and keeps both sides at `minSize` or more; when applied,
   * the image fits the available space and the scale strictly decreases;
   * either way both final sides stay at `minSize` or more.
   */
  lemma OverflowBranch(width: real, height: real, scale: real, availableWidth: real, availableHeight: real,
                       minSize: real, downScaleLimit: real, upScaleLimit: UpScaleLimit)
    requires width > 0.0 && height > 0.0 && scale > 0.0
    requires width * scale >= minSize && height * scale >= minSize
    requires width * scale > availableWidth || height * scale > availableHeight
    ensures
      var d := FitRatio(width * scale, height * scale, availableWidth, availableHeight);
      var r := FitFromScale(width, height, scale, availableWidth, availableHeight, minSize, downScaleLimit, upScaleLimit);
      && (if d >= downScaleLimit && width * scale * d >= minSize && height * scale * d >= minSize
          then r == scale * d else r == scale)
      && (r != scale ==> r < scale && width * r <= availableWidth && height * r <= availableHeight)
      && width * r >= minSize && height * r >= minSize
  {
    var ws, hs := width * scale, height * scale;
    var d := FitRatio(ws, hs, availableWidth, availableHeight);
    var r := FitFromScale(width, height, scale, availableWidth, availableHeight, minSize, downScaleLimit, upScaleLimit);
    WithinRatio(ws, availableWidth, d);
    WithinRatio(hs, availableHeight, d);
    RatioAgainstOne(ws, availableWidth);
    RatioAgainstOne(hs, availableHeight);
    if r != scale {
      assert r == scale * d;
      Associate(width, scale, d);
      Associate(height, scale, d);
      MulLeft(scale, d, 1.0);
    }
  }

  /**
   * The fit branch: the growth factor is at least 1, the result is the grown
   * scale clamped to `upScaleLimit`, and the image still fits the available space.
   */
  lemma FitBranch(width: real, height: real, scale: real, availableWidth: real, availableHeight: real,
                  minSize: real, downScaleLimit: real, upScaleLimit: UpScaleLimit)
    requires width > 0.0 && height > 0.0 && scale > 0.0
    requires width * scale <= availableWidth && height * scale <= availableHeight
    ensures
      var u := FitRatio(width * scale, height * scale, availableWidth, availableHeight);
      var r := FitFromScale(width, height, scale, availableWidth, availableHeight, minSize, downScaleLimit, upScaleLimit);
      && u >= 1.0
      && r == (if upScaleLimit.Bounded? then Min(scale * u, upScaleLimit.value) else scale * u)
      && (upScaleLimit.Bounded? ==> r <= upScaleLimit.value)
      && width * r <= availableWidth && height * r <= availableHeight
  {
    var ws, hs := width * scale, height * scale;
    var u := FitRatio(ws, hs, availableWidth, availableHeight);
    var r := FitFromScale(width, height, scale, availableWidth, availableHeight, minSize, downScaleLimit, upScaleLimit);
    WithinRatio(ws, availableWidth, u);
    WithinRatio(hs, availableHeight, u);
    RatioAgainstOne(ws, availableWidth);
    RatioAgainstOne(hs, availableHeight);
    assert r <= scale * u;
    MulLeft(width, r, scale * u);
    MulLeft(height, r, scale * u);
    Associate(width, scale, u);
    Associate(height, scale, u);
  }

  /**
   * The minimum size does not win over `upScaleLimit` in the fit branch: when
   * the first step grew the image and the grown image fits, a limit below that
   * grown scale pulls the result under it, and some side ends below `minSize`.
   */
  lemma UpScaleLimitCanUndercutMinSize(width: real, height: real, availableWidth: real, availableHeight: real,
                                       minSize: real, downScaleLimit: real, limit: real)
    requires width > 0.0 && height > 0.0
    requires width < minSize || height < minSize
    requires FitsIn(width, height, PreFitScale(width, height, minSize), availableWidth, availableHeight)
    requires limit < PreFitScale(width, height, minSize)
    ensures var r := ComicImage([], width, height).ScaleToFit(availableWidth, availableHeight, minSize, downScaleLimit, Bounded(limit));
      r < PreFitScale(width, height, minSize) && !ReachesMinSize(width, height, r, minSize)
  {
    var s := PreFitScale(width, height, minSize);
    var r := ComicImage([], width, height).ScaleToFit(availableWidth, availableHeight, minSize, downScaleLimit, Bounded(limit));
    assert r < s by {
      assert !Overflows(width, height, s, availableWidth, availableHeight);
    }
    assert width * s == minSize || height * s == minSize by {
      PreFitScaleTouchesMinSize(width, height, minSize);
    }
    BelowFloorUndercuts(width, height, s, r, minSize);
  }

  /** Below a scale at which one side is exactly `minSize`, that side is under `minSize`. */
  lemma BelowFloorUndercuts(width: real, height: real, scale: real, r: real, minSize: real)
    requires width > 0.0 && height > 0.0 && r < scale
    requires width * scale == minSize || height * scale == minSize
    ensures !ReachesMinSize(width, height, r, minSize)
  {
    MulLeftStrict(width, r, scale);
    MulLeftStrict(height, r, scale);
  }

  /**
   * The same happens with the default limits: a 50 by 50 image in 1000 by
   * 1000 first grows to 250 by 250, then the clamp to 4 leaves it at 200 by 200.
   */
  lemma DefaultUpScaleLimitUndercutsMinSize()
    ensures
      var img := ComicImage([], 50.0, 50.0);
      var r := img.ScaleToFit(1000.0, 1000.0);
      r == 4.0 && img.width * r < DefaultMinSize
  {
    assert PreFitScale(50.0, 50.0, 250.0) == 5.0;
    assert FitRatio(250.0, 250.0, 1000.0, 1000.0) == 4.0;
  }

  /**
   * An image that already meets the minimum size and fits is not left at
   * scale 1: it grows by the fit ratio, clamped to `upScaleLimit`, so it ends
   * above 1 whenever it has room on both sides and the limit allows growth.
   */
  lemma FittingImageGrows(width: real, height: real, availableWidth: real, availableHeight: real,
                          minSize: real, downScaleLimit: real, upScaleLimit: UpScaleLimit)
    requires width > 0.0 && height > 0.0 && width >= minSize && height >= minSize
    requires width <= availableWidth && height <= availableHeight
    ensures var r := ComicImage([], width, height).ScaleToFit(availableWidth, availableHeight, minSize, downScaleLimit, upScaleLimit);
      var grown := FitRatio(width, height, availableWidth, availableHeight);
      && grown >= 1.0
      && r == (if upScaleLimit.Bounded? then Min(grown, upScaleLimit.value) else grown)
      && (width < availableWidth && height < availableHeight && (upScaleLimit.Bounded? ==> upScaleLimit.value > 1.0) ==> r > 1.0)
  {
    assert PreFitScale(width, height, minSize) == 1.0;
    assert width * 1.0 == width && height * 1.0 == height;
    FitBranch(width, height, 1.0, availableWidth, availableHeight, minSize, downScaleLimit, upScaleLimit);
    RatioAgainstOne(width, availableWidth);
    RatioAgainstOne(height, availableHeight);
  }

  /** The image-resizing unit tests, case by case. */
  lemma ResizingTests()
    ensures ComicImage([], 100.0, 400.0).ScaleToFit(400.0, 400.0, minSize := 200.0) == 2.0
    ensures ComicImage([], 400.0, 100.0).ScaleToFit(400.0, 400.0, minSize := 200.0) == 2.0
    ensures ComicImage([], 400.0, 100.0).ScaleToFit(400.0, 400.0, minSize := 200.0, upScaleLimit := Bounded(1.0)) == 2.0
    ensures ComicImage([], 500.0, 400.0).ScaleToFit(400.0, 400.0, minSize := 0.0, downScaleLimit := 0.0) == 0.8
    ensures ComicImage([], 400.0, 500.0).ScaleToFit(400.0, 400.0, minSize := 0.0, downScaleLimit := 0.0) == 0.8
    ensures ComicImage([], 600.0, 400.0).ScaleToFit(400.0, 400.0, minSize := 0.0, downScaleLimit := 0.8) == 1.0
    ensures ComicImage([], 400.0, 600.0).ScaleToFit(400.0, 400.0, minSize := 0.0, downScaleLimit := 0.8) == 1.0
    ensures ComicImage([], 600.0, 200.0).ScaleToFit(400.0, 400.0, minSize := 200.0, downScaleLimit := 0.0) == 1.0
    ensures ComicImage([], 200.0, 600.0).ScaleToFit(400.0, 400.0, minSize := 200.0, downScaleLimit := 0.0) == 1.0
    ensures ComicImage([], 200.0, 100.0).ScaleToFit(400.0, 400.0, minSize := 0.0, upScaleLimit := Unbounded) == 2.0
    ensures ComicImage([], 100.0, 200.0).ScaleToFit(400.0, 400.0, minSize := 0.0, upScaleLimit := Unbounded) == 2.0
    ensures ComicImage([], 100.0, 50.0).ScaleToFit(400.0, 400.0, minSize := 0.0, upScaleLimit := Bounded(2.0)) == 2.0
    ensures ComicImage([], 50.0, 100.0).ScaleToFit(400.0, 400.0, minSize := 0.0, upScaleLimit := Bounded(2.0)) == 2.0
  {
  }
}
