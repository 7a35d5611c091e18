/**
 * Render geometry of the aura: how many rings ("spread levels") there are,
 * the size of the render target, the letterbox clip in pixels, the per-axis
 * ratio and the scale of every ring. JavaScript numbers are exact reals here.
 */
module Geometry {

  /** `Math.round`: the nearest integer, halves rounded up. */
  function Round(x: real): (r: int)
    ensures x - 0.5 < r as real <= x + 0.5
  {
    (x + 0.5).Floor
  }

  lemma RoundMonotone(x: real, y: real)
    requires x <= y
    ensures Round(x) <= Round(y)
  {
  }

  function MinReal(a: real, b: real): real
  {
    if a <= b then a else b
  }

  lemma DivMulCancel(a: real, b: real)
    requires b != 0.0
    ensures (a / b) * b == a
  {
  }

  lemma DivAtLeast(a: real, b: real, c: real)
    requires b > 0.0 && a >= c * b
    ensures a / b >= c
  {
    var q := a / b;
    DivMulCancel(a, b);
    assert (q - c) * b == a - c * b;
    if q < c { assert (c - q) * b > 0.0; }
  }

  lemma DivExact(a: real, b: real, c: real)
    requires b != 0.0 && a == c * b
    ensures a / b == c
  {
    DivMulCancel(a, b);
    assert (a / b - c) * b == 0.0;
  }

  /** `a / n < b / n` inside (0, 1] for `0 < a < b <= n`. */
  lemma FractionsOrdered(a: int, b: int, n: int)
    requires 0 < a < b <= n
    ensures 0.0 < a as real / n as real < b as real / n as real <= 1.0
  {
    DivAtLeast(a as real, n as real, 0.0);
    assert a as real / n as real != 0.0;
    var d := b as real / n as real - a as real / n as real;
    DivMulCancel(a as real, n as real);
    DivMulCancel(b as real, n as real);
    assert d * n as real == (b - a) as real;
    assert d > 0.0;
    DivAtLeast(n as real, n as real, 1.0);
    assert b as real <= n as real;
  }

  lemma MulNonNeg(a: real, b: real)
    requires a >= 0.0 && b >= 0.0
    ensures a * b >= 0.0
  {
  }

  /** `Math.max(2, Math.round(spread / edge) + innerStrength + 1)`. */
  function SpreadLevels(spread: real, edge: real, innerStrength: int): (levels: int)
    requires edge > 0.0
    ensures levels >= 2
    ensures levels >= Round(spread / edge) + innerStrength + 1
    ensures levels == 2 || levels == Round(spread / edge) + innerStrength + 1
  {
    var n := Round(spread / edge) + innerStrength + 1;
    if n < 2 then 2 else n
  }

  /** More spread never means fewer rings. */
  lemma SpreadLevelsMonotone(spread1: real, spread2: real, edge: real, innerStrength: int)
    requires edge > 0.0 && spread1 <= spread2
    ensures SpreadLevels(spread1, edge, innerStrength) <= SpreadLevels(spread2, edge, innerStrength)
  {
    assert spread1 / edge <= spread2 / edge;
    RoundMonotone(spread1 / edge, spread2 / edge);
  }

  /** The defaults (spread 20, edge 20) with the fixed inner strength 2 give four rings. */
  lemma DefaultSpreadLevels()
    ensures SpreadLevels(20.0, 20.0, 2) == 4
  {
  }

  datatype Size = Size(w: int, h: int)

  /** The smallest side the render target aims for. */
  const MinSize: int := 512
  /** The largest downscale of the source. */
  const MaxScale: real := 4.0

  /** `scale = min(min(w / 512, 4), min(h / 512, 4))`. */
  function RenderScale(videoWidth: int, videoHeight: int): (scale: real)
    ensures scale <= MaxScale
    ensures scale <= videoWidth as real / MinSize as real
    ensures scale <= videoHeight as real / MinSize as real
    ensures scale == MaxScale || scale == videoWidth as real / MinSize as real || scale == videoHeight as real / MinSize as real
  {
    MinReal(MinReal(videoWidth as real / MinSize as real, MaxScale), MinReal(videoHeight as real / MinSize as real, MaxScale))
  }

  /** The share of the source height left once a fraction `clip` is cut at the top and at the bottom. */
  function ClipFactor(clip: real): (f: real)
    ensures 0.0 <= clip <= 0.49 ==> 0.02 <= f <= 1.0
    ensures clip == 0.0 ==> f == 1.0
  {
    1.0 - clip * 2.0
  }

  /** The render target `p` for a source of the given size and letterbox fraction `clip`. */
  function RenderSize(videoWidth: int, videoHeight: int, clip: real): (p: Size)
  {
    var scale := RenderScale(videoWidth, videoHeight);
    if scale < 1.0 then Size(MinSize, MinSize)
    else Size(Round(videoWidth as real / scale), Round(videoHeight as real * ClipFactor(clip) / scale))
  }

  /** Both sides of the render target once the scale is at least 1. */
  lemma RenderSizeSides(videoWidth: int, videoHeight: int, clip: real)
    requires RenderScale(videoWidth, videoHeight) >= 1.0
    ensures RenderSize(videoWidth, videoHeight, clip).w == Round(videoWidth as real / RenderScale(videoWidth, videoHeight))
    ensures RenderSize(videoWidth, videoHeight, clip).h == Round(videoHeight as real * ClipFactor(clip) / RenderScale(videoWidth, videoHeight))
  {
  }

  /**
   * The scale drops below 1 exactly when a side of the source is under 512
   * pixels, and such a source renders at 512 x 512 whatever the clip.
   */
  lemma RenderSizeSmallSource(videoWidth: int, videoHeight: int, clip: real)
    ensures RenderScale(videoWidth, videoHeight) < 1.0 <==> videoWidth < MinSize || videoHeight < MinSize
    ensures videoWidth < MinSize || videoHeight < MinSize ==> RenderSize(videoWidth, videoHeight, clip) == Size(MinSize, MinSize)
  {
    var w, h := videoWidth as real, videoHeight as real;
    DivMulCancel(w, 512.0);
    DivMulCancel(h, 512.0);
    if videoWidth >= MinSize && videoHeight >= MinSize {
      DivAtLeast(w, 512.0, 1.0);
      DivAtLeast(h, 512.0, 1.0);
    }
  }

  /** Otherwise the width is never below 512, nor the height when nothing is clipped. */
  lemma RenderSizeAtLeastMin(videoWidth: int, videoHeight: int, clip: real)
    requires RenderScale(videoWidth, videoHeight) >= 1.0
    ensures RenderSize(videoWidth, videoHeight, clip).w >= MinSize
    ensures clip == 0.0 ==> RenderSize(videoWidth, videoHeight, clip).h >= MinSize
  {
    var scale := RenderScale(videoWidth, videoHeight);
    var w, h := videoWidth as real, videoHeight as real;
    RenderSizeSides(videoWidth, videoHeight, clip);
    DivMulCancel(w, 512.0);
    ScaledSideAtLeast(w, scale, 1.0, MinSize);
    assert w * 1.0 / scale == videoWidth as real / RenderScale(videoWidth, videoHeight);
    if clip == 0.0 {
      var f := ClipFactor(clip);
      DivMulCancel(h, 512.0);
      ScaledSideAtLeast(h, scale, f, MinSize);
      assert h * f == videoHeight as real * ClipFactor(clip);
      assert h * f / scale == videoHeight as real * ClipFactor(clip) / RenderScale(videoWidth, videoHeight);
    }
  }

  /** A clip of at most 49 % keeps the render target at least 10 px high. */
  lemma RenderSizeClippedHeight(videoWidth: int, videoHeight: int, clip: real)
    requires 0.0 <= clip <= 0.49
    ensures RenderSize(videoWidth, videoHeight, clip).h >= 10
  {
    var scale := RenderScale(videoWidth, videoHeight);
    if scale >= 1.0 {
      var h, f := videoHeight as real, ClipFactor(clip);
      RenderSizeSides(videoWidth, videoHeight, clip);
      DivMulCancel(h, 512.0);
      ScaledSideAtLeast(h, scale, f, 10);
      assert h * f == videoHeight as real * ClipFactor(clip);
      assert h * f / scale == videoHeight as real * ClipFactor(clip) / RenderScale(videoWidth, videoHeight);
    } else {
      RenderSizeSmallSource(videoWidth, videoHeight, clip);
    }
  }

  /** A side at least `512 * scale`, compressed by `f`, rounds to at least `bound` after division by `scale`. */
  lemma ScaledSideAtLeast(side: real, scale: real, f: real, bound: int)
    requires scale >= 1.0 && side >= 512.0 * scale
    requires 0 <= bound && bound as real <= 512.0 * f
    ensures Round(side * f / scale) >= bound
  {
    MulNonNeg(side - 512.0 * scale, f);
    MulNonNeg(scale, 512.0 * f - bound as real);
    assert side * f >= bound as real * scale;
    DivAtLeast(side * f, scale, bound as real);
  }

  /**
   * Below the 4x cap, the shorter side of the source lands exactly on 512
   * (the height when nothing is clipped).
   */
  lemma RenderSizeShortSide(videoWidth: int, videoHeight: int)
    requires MinSize <= videoWidth && MinSize <= videoHeight
    requires videoWidth <= 2048 || videoHeight <= 2048
    ensures videoWidth <= videoHeight ==> RenderSize(videoWidth, videoHeight, 0.0).w == MinSize
    ensures videoHeight <= videoWidth ==> RenderSize(videoWidth, videoHeight, 0.0).h == MinSize
  {
    var w := videoWidth as real;
    var h := videoHeight as real;
    var scale := RenderScale(videoWidth, videoHeight);
    if videoWidth <= videoHeight {
      assert scale == w / 512.0;
      DivExact(w, scale, 512.0);
    }
    if videoHeight <= videoWidth {
      assert scale == h / 512.0;
      assert h * (1.0 - 0.0 * 2.0) == h;
      DivExact(h, scale, 512.0);
    }
  }

  /** A 1920 x 1080 source renders at 910 x 512. */
  lemma RenderSize1080p()
    ensures RenderSize(1920, 1080, 0.0) == Size(910, 512)
  {
    assert RenderScale(1920, 1080) == 1080.0 / 512.0;
    assert 1920.0 / (1080.0 / 512.0) == 910.0 + 2.0 / 9.0;
  }

  /** `Math.round(clip * offsetHeight)`: the pixels cut from the top and from the bottom. */
  function ClipPixels(clipPercentage: real, offsetHeight: real): (px: int)
    ensures 0.0 <= clipPercentage <= 50.0 && 0.0 <= offsetHeight ==> 0 <= px <= Round(offsetHeight / 2.0)
  {
    var clip := clipPercentage / 100.0;
    assert 0.0 <= clipPercentage <= 50.0 && 0.0 <= offsetHeight ==> clip * offsetHeight <= offsetHeight / 2.0 by {
      if 0.0 <= clipPercentage <= 50.0 && 0.0 <= offsetHeight {
        assert (0.5 - clip) * offsetHeight >= 0.0;
      }
    }
    Round(clip * offsetHeight)
  }

  /** Per-axis ratio of the player box. */
  datatype Ratio = Ratio(x: real, y: real)

  /** The divisions in `AxisRatio` are defined (the JavaScript would yield `Infinity`/`NaN` otherwise). */
  predicate RatioDefined(w: real, h: real)
  {
    if w > h then h != 0.0 else w != 0.0
  }

  /**
   * The longer side gets ratio 1, the other the long/short quotient, so that
   * ratio times side is the longer side on both axes.
   */
  function AxisRatio(w: real, h: real): (r: Ratio)
    requires RatioDefined(w, h)
    ensures r.x * w == r.y * h == (if w > h then w else h)
    ensures w > 0.0 && h > 0.0 ==> r.x >= 1.0 && r.y >= 1.0 && (r.x == 1.0 || r.y == 1.0)
  {
    if w > h then
      DivMulCancel(w, h);
      assert h > 0.0 ==> w / h >= 1.0 by { if h > 0.0 { DivAtLeast(w, h, 1.0); } }
      Ratio(1.0, w / h)
    else
      DivMulCancel(h, w);
      assert w > 0.0 ==> h / w >= 1.0 by { if w > 0.0 { DivAtLeast(h, w, 1.0); } }
      Ratio(h / w, 1.0)
  }

  /**
   * Scale of ring `i` on one axis: `pos = i - innerStrength`; rings past the
   * inner ones grow by `step * ratio` per position, the inner ones shrink by
   * the same amount and stop at 0.
   */
  function RingScale(i: int, innerStrength: int, step: real, axisRatio: real): (s: real)
    ensures i == innerStrength ==> s == 1.0
    ensures i < innerStrength ==> s >= 0.0
    ensures i > innerStrength ==> s == 1.0 + step * axisRatio * (i - innerStrength) as real
    ensures i < innerStrength && 1.0 - step * axisRatio * (innerStrength - i) as real >= 0.0 ==>
              s == 1.0 - step * axisRatio * (innerStrength - i) as real
    ensures i < innerStrength && 1.0 - step * axisRatio * (innerStrength - i) as real < 0.0 ==> s == 0.0
  {
    var pos := i - innerStrength;
    if pos > 0 then 1.0 + step * axisRatio * pos as real
    else if pos < 0 then
      var shrunk := 1.0 - step * axisRatio * (-pos) as real;
      if shrunk < 0.0 then 0.0 else shrunk
    else 1.0
  }

  /** Ring scales never decrease outward (for a non-negative step and ratio). */
  lemma RingScaleMonotone(i: int, j: int, innerStrength: int, step: real, axisRatio: real)
    requires i <= j
    requires step >= 0.0 && axisRatio >= 0.0
    ensures 0.0 <= RingScale(i, innerStrength, step, axisRatio) <= RingScale(j, innerStrength, step, axisRatio)
  {
    var k := step * axisRatio;
    assert k >= 0.0;
    assert k * (j - i) as real >= 0.0;
    assert k * (j - innerStrength) as real - k * (i - innerStrength) as real == k * (j - i) as real;
  }

  /**
   * Outer rings grow by the same number of pixels on both axes: the ratio
   * compensates for the player's aspect.
   */
  lemma RingGrowthUniform(i: int, innerStrength: int, step: real, w: real, h: real)
    requires RatioDefined(w, h) && i >= innerStrength
    ensures var r := AxisRatio(w, h);
            (RingScale(i, innerStrength, step, r.x) - 1.0) * w == (RingScale(i, innerStrength, step, r.y) - 1.0) * h
  {
    var r := AxisRatio(w, h);
    var pos := (i - innerStrength) as real;
    if i > innerStrength {
      calc {
        (RingScale(i, innerStrength, step, r.x) - 1.0) * w;
        step * pos * (r.x * w);
        step * pos * (r.y * h);
        (RingScale(i, innerStrength, step, r.y) - 1.0) * h;
      }
    }
  }

  /** The shadow sits just outside the outermost ring: its scale plus 0.01 (1.01 with no rings). */
  function ShadowScale(lastScale: real): (s: real)
    ensures s > lastScale
  {
    lastScale + 0.01
  }

  /** `16 / (fadeOutEasing * .64)`, the exponent of the fade curve. */
  function Easing(fadeOutEasing: real): (e: real)
    requires fadeOutEasing > 0.0
    ensures e > 0.0 && e * fadeOutEasing == 25.0
  {
    16.0 / (fadeOutEasing * 0.64)
  }

  /** Opacity of the darkest point of the shadow gradient. */
  const Darkest: real := 0.95
  /** Number of segments of the shadow gradient. */
  const KeyframeCount: int := 64

  /** A gradient stop: position `p` in (0, 1) and opacity `o`. */
  datatype Keyframe = Keyframe(p: real, o: real)

  /** The stop at index `k` of a gradient of `length` segments. */
  function KeyframeAt(k: int, length: int, powerOf: real, darkest: real, pow: (real, real) -> real): Keyframe
    requires length > 0
  {
    var p := (k + 1) as real / length as real;
    Keyframe(p, pow(p, powerOf) * darkest)
  }

  /** Stops are strictly inside (0, 1) and move right with their index. */
  lemma KeyframePositionsIncrease(j: int, k: int, length: int, powerOf: real, darkest: real, pow: (real, real) -> real)
    requires 0 <= j < k < length - 1
    ensures 0.0 < KeyframeAt(j, length, powerOf, darkest, pow).p < KeyframeAt(k, length, powerOf, darkest, pow).p < 1.0
  {
    FractionsOrdered(j + 1, k + 1, length);
    FractionsOrdered(k + 1, length, length);
  }

  /**
   * `plotKeyframes(length, powerOf, darkest)`: one stop per `i` in
   * `1 .. length - 1` at `i / length`, with opacity `pow(i / length, powerOf) * darkest`;
   * `Math.pow` is the parameter `pow`.
   */
  method PlotKeyframes(length: int, powerOf: real, darkest: real, pow: (real, real) -> real)
    returns (keyframes: seq<Keyframe>)
    ensures |keyframes| == if length > 1 then length - 1 else 0
    ensures forall k :: 0 <= k < |keyframes| ==>
              keyframes[k].p == (k + 1) as real / length as real &&
              keyframes[k].o == pow(keyframes[k].p, powerOf) * darkest
    ensures forall j, k :: 0 <= j < k < |keyframes| ==> 0.0 < keyframes[j].p < keyframes[k].p < 1.0
  {
    keyframes := [];
    var i := 1;
    while i < length
      invariant 1 <= i <= if length > 1 then length else 1
      invariant |keyframes| == i - 1
      invariant forall k :: 0 <= k < |keyframes| ==> length > 0 && keyframes[k] == KeyframeAt(k, length, powerOf, darkest, pow)
    {
      var p := i as real / length as real;
      keyframes := keyframes + [Keyframe(p, pow(p, powerOf) * darkest)];
      i := i + 1;
    }
    forall j, k | 0 <= j < k < |keyframes| ensures 0.0 < keyframes[j].p < keyframes[k].p < 1.0 {
      KeyframePositionsIncrease(j, k, length, powerOf, darkest, pow);
    }
  }
}
