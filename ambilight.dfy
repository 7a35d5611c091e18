/**
 * The `Ambilight` object of the content script, reduced to its frame
 * pipeline bookkeeping: the ring canvases and their sizes and scales, the
 * render and compare buffers, the scheduling flag of the animation-frame
 * loop, the frame counters and the two frame-rate windows.
 *
 * A canvas is a value with a serial number standing for the element's
 * identity. Page readings (player box, video size, fullscreen state) come
 * in as a `Measurements` record; `performance.now()`, the decoded-frame
 * count and the pixel reads come in as arguments. Drawing is the `drawn`
 * result of `DrawAmbilight`.
 */
module YoutubeAmbilight {
  import opened Wrappers
  import opened Geometry
  import opened FrameRate
  import opened FrameDiff
  import opened FrameCounter

  /** A `<canvas>` of the aura: identity, backing-store size and the scale of its CSS transform. */
  datatype Canvas = Canvas(serial: nat, width: int, height: int, scaleX: real, scaleY: real)

  /** A freshly created canvas: the HTML default size 300 x 150 and no transform. */
  function NewCanvas(serial: nat): (c: Canvas)
    ensures c.serial == serial && c.width == 300 && c.height == 150 && c.scaleX == 1.0 && c.scaleY == 1.0
  {
    Canvas(serial, 300, 150, 1.0, 1.0)
  }

  /** The player's bounding box (`offset()`); `None` in `Measurements` when its `top` is undefined. */
  datatype PlayerBox = PlayerBox(width: real, height: real)

  /** What `updateSizes` and `checkVideoSize` read from the page. */
  datatype Measurements = Measurements(
    minimized: bool,          // the player carries `ytp-player-minimized`
    offsetHeight: real,       // `videoPlayer.offsetHeight`
    box: Option<PlayerBox>,   // `videoPlayer.offset()`
    videoWidth: nat,
    videoHeight: nat,
    clientWidth: real,        // `videoPlayer.clientWidth`
    styleTop: string,         // `videoPlayer.style.top`
    isVR: bool,               // a `.ytp-webgl-spherical` element exists
    isFullscreen: bool,       // a `.ytp-fullscreen` element exists
    windowWidth: real,
    windowHeight: real)

  /** The not-ready test of `updateSizes`. */
  predicate Ready(m: Measurements)
  {
    m.box.Some? && m.videoWidth != 0
  }

  /** `playerSize` of `resizeCanvasses`: the box minus the clipped bars. */
  function PlayerSize(box: PlayerBox, clipPX: int): (real, real)
  {
    (box.width, box.height - (clipPX * 2) as real)
  }

  /** The player fills the window: both sides within 10 px. */
  predicate FillsWindow(box: PlayerBox, windowWidth: real, windowHeight: real)
  {
    -10.0 < box.width - windowWidth < 10.0 && -10.0 < box.height - windowHeight < 10.0
  }

  /** The ring canvas `i` with the scales `resizeCanvasses` gives it. */
  function ScaledRing(c: Canvas, i: int, innerStrength: int, step: real, ratio: Ratio): Canvas
  {
    c.(scaleX := RingScale(i, innerStrength, step, ratio.x), scaleY := RingScale(i, innerStrength, step, ratio.y))
  }

  /** `after` are the rings `before` after `updateSizes`: each at the render size `p`, then scaled as ring `k` by `resizeCanvasses`. */
  predicate RingsResized(before: seq<Canvas>, after: seq<Canvas>, p: Size, innerStrength: int, step: real, ratio: Ratio)
  {
    && |after| == |before|
    && forall k :: 0 <= k < |after| ==>
         after[k] == ScaledRing(before[k].(width := p.w, height := p.h), k, innerStrength, step, ratio)
  }

  /** `lastScale` of `resizeCanvasses`: the last ring's scales, or 1 when there is no ring. */
  function LastScales(players: seq<Canvas>): (real, real)
  {
    if |players| == 0 then (1.0, 1.0) else (players[|players| - 1].scaleX, players[|players| - 1].scaleY)
  }

  /** The counters the draw starts from once the size check has run: a resize resets `videoFrameCount`. */
  function CheckedCounters(c: Counters, resized: bool): Counters
  {
    c.(videoFrameCount := if resized then 0 else c.videoFrameCount)
  }

  class Ambilight {
    // settings
    var enabled: bool
    var spread: real
    var edge: real
    const innerStrength: int
    var highQuality: bool
    var enableInFullscreen: bool
    var horizontalBarsClipPercentage: real
    // page state
    var isOnVideoPage: bool
    var isHidden: bool
    var isVR: bool
    var isFullscreen: bool
    var isFillingFullscreen: bool
    // canvases
    var players: seq<Canvas>
    var nextSerial: nat
    var p: Size
    var buffer: Size
    var compareBuffer: Size
    var compareBufferBarsClipPx: int
    var horizontalBarsClipPX: int
    var playerOffset: Option<PlayerBox>
    var srcVideoOffset: Option<Size>
    var previousWidth: Option<real>
    var previousTop: Option<string>
    var shadowScaleX: real
    var shadowScaleY: real
    // animation-frame loop
    var scheduled: bool
    var pendingFrameCallbacks: nat
    // frame counters
    var videoFrameCount: int
    var skippedFrames: nat
    var oldImage: Option<Image>
    var showedHighQualityCompareWarning: bool
    var videoFrameRateStartTime: real
    var videoFrameRateStartFrame: int
    var videoFrameRate: real
    var videoFrameRateMeasureStartTime: real
    var videoFrameRateMeasureStartFrame: int
    var displayFrameRateStartTime: Option<real>
    var displayFrameRateFrame: nat
    var displayFrameRate: real

    /**
     * The edge setting is at least 2, at most one animation-frame callback
     * is outstanding and it is the one `scheduled` records, and the canvases
     * are distinct and older than `nextSerial`.
     */
    ghost predicate Valid()
      reads this`edge, this`compareBuffer, this`pendingFrameCallbacks, this`scheduled, this`players, this`nextSerial
    {
      && edge > 0.0
      && compareBuffer.h >= 0
      && pendingFrameCallbacks == (if scheduled then 1 else 0)
      && (forall k :: 0 <= k < |players| ==> players[k].serial < nextSerial)
      && (forall j, k :: 0 <= j < k < |players| ==> players[j].serial != players[k].serial)
    }

    function Counters(): Counters
      reads this`videoFrameCount, this`skippedFrames, this`oldImage, this`showedHighQualityCompareWarning
    {
      FrameCounter.Counters(videoFrameCount, skippedFrames, oldImage, showedHighQualityCompareWarning)
    }

    function VideoWindowState(): VideoWindow
      reads this`videoFrameRateStartTime, this`videoFrameRateStartFrame, this`videoFrameRate
    {
      VideoWindow(videoFrameRateStartTime, videoFrameRateStartFrame, videoFrameRate)
    }

    function DisplayWindowState(): DisplayWindow
      reads this`displayFrameRateStartTime, this`displayFrameRateFrame, this`displayFrameRate
    {
      DisplayWindow(displayFrameRateStartTime, displayFrameRateFrame, displayFrameRate)
    }

    /** The aura is hidden on this tick: VR video, a player filling the screen, or fullscreen when disabled there. */
    predicate HideCondition()
      reads this`isVR, this`isFillingFullscreen, this`enableInFullscreen, this`isFullscreen
    {
      isVR || isFillingFullscreen || (!enableInFullscreen && isFullscreen)
    }

    /**
     * The player box left after clipping the bars has a defined aspect ratio
     * whenever `updateSizes` would get as far as `resizeCanvasses`.
     */
    predicate RatioComputable(m: Measurements)
      reads this`enabled, this`horizontalBarsClipPercentage
    {
      enabled && !m.minimized && Ready(m) ==>
        var size := PlayerSize(m.box.value, ClipPixels(horizontalBarsClipPercentage, m.offsetHeight));
        RatioDefined(size.0, size.1)
    }

    /** The construction of the pipeline from the stored settings, up to `recreateCanvasses`. */
    constructor (enabled: bool, spread: real, edge: real, highQuality: bool, enableInFullscreen: bool,
                 horizontalBarsClipPercentage: real)
      requires edge > 0.0
      ensures Valid()
      ensures this.enabled == enabled && this.spread == spread && this.edge == edge && innerStrength == 2
      ensures p == Size(256, 256) && videoFrameCount == 0 && skippedFrames == 0 && !scheduled
      ensures isHidden && isOnVideoPage && !showedHighQualityCompareWarning
      ensures VideoWindowState() == InitialVideoWindow && DisplayWindowState() == InitialDisplayWindow
      ensures videoFrameRateMeasureStartTime == 0.0 && videoFrameRateMeasureStartFrame == 0
      ensures |players| == SpreadLevels(spread, edge, 2)
    {
      this.enabled := enabled;
      this.spread := spread;
      this.edge := edge;
      this.innerStrength := 2;
      this.highQuality := highQuality;
      this.enableInFullscreen := enableInFullscreen;
      this.horizontalBarsClipPercentage := horizontalBarsClipPercentage;
      isOnVideoPage := true;
      isHidden := true;
      isVR := false;
      isFullscreen := false;
      isFillingFullscreen := false;
      players := [];
      nextSerial := 0;
      p := Size(256, 256);
      buffer := Size(300, 150);
      compareBuffer := Size(1, 1);
      compareBufferBarsClipPx := 0;
      horizontalBarsClipPX := 0;
      playerOffset := None;
      srcVideoOffset := None;
      previousWidth := None;
      previousTop := None;
      shadowScaleX := 1.0;
      shadowScaleY := 1.0;
      scheduled := false;
      pendingFrameCallbacks := 0;
      videoFrameCount := 0;
      skippedFrames := 0;
      oldImage := None;
      showedHighQualityCompareWarning := false;
      videoFrameRateStartTime := InitialVideoWindow.startTime;
      videoFrameRateStartFrame := InitialVideoWindow.startFrame;
      videoFrameRate := InitialVideoWindow.rate;
      videoFrameRateMeasureStartTime := 0.0;
      videoFrameRateMeasureStartFrame := 0;
      displayFrameRateStartTime := InitialDisplayWindow.startTime;
      displayFrameRateFrame := InitialDisplayWindow.frames;
      displayFrameRate := InitialDisplayWindow.rate;
      new;
      RecreateCanvasses();
    }

    /**
     * `recreateCanvasses`: as many canvases as `SpreadLevels`; the ones
     * below that index are kept in order, the rest removed, and fresh ones
     * appended.
     */
    method RecreateCanvasses()
      requires Valid()
      modifies this`players, this`nextSerial
      ensures Valid()
      ensures |players| == SpreadLevels(spread, edge, innerStrength)
      ensures |old(players)| <= |players| ==> players[..|old(players)|] == old(players)
      ensures |old(players)| > |players| ==> players == old(players)[..|players|]
      ensures forall k :: |old(players)| <= k < |players| ==>
                players[k] == NewCanvas(players[k].serial) && players[k].serial >= old(nextSerial)
    {
      var spreadLevels := SpreadLevels(spread, edge, innerStrength);
      if |players| > spreadLevels {
        players := players[..spreadLevels];
      }
      var i := |players|;
      while i < spreadLevels
        invariant Valid()
        invariant |players| == i <= spreadLevels
        invariant |old(players)| <= i ==> players[..|old(players)|] == old(players)
        invariant |old(players)| > spreadLevels ==> players == old(players)[..spreadLevels]
        invariant forall k :: |old(players)| <= k < |players| ==>
                    players[k] == NewCanvas(players[k].serial) && players[k].serial >= old(nextSerial)
        invariant nextSerial >= old(nextSerial)
      {
        players := players + [NewCanvas(nextSerial)];
        nextSerial := nextSerial + 1;
        i := i + 1;
      }
    }

    /** Every canvas gets the backing-store size `p`; identities and scales stay. */
    method SizeCanvasses()
      requires Valid()
      modifies this`players
      ensures Valid()
      ensures |players| == |old(players)|
      ensures forall k :: 0 <= k < |players| ==> players[k] == old(players)[k].(width := p.w, height := p.h)
    {
      var i := 0;
      while i < |players|
        invariant 0 <= i <= |players| == |old(players)|
        invariant forall k :: 0 <= k < i ==> players[k] == old(players)[k].(width := p.w, height := p.h)
        invariant forall k :: i <= k < |players| ==> players[k] == old(players)[k]
        invariant Valid()
      {
        var player := players[i];
        if player.width != p.w {
          player := player.(width := p.w);
        }
        if player.height != p.h {
          player := player.(height := p.h);
        }
        players := players[i := player];
        i := i + 1;
      }
    }

    /**
     * `resizeCanvasses` (scales only): ring `i` gets `RingScale` on both
     * axes, and the shadow the last ring's scale plus 0.01.
     */
    method ResizeCanvasses()
      requires Valid() && playerOffset.Some?
      requires RatioDefined(PlayerSize(playerOffset.value, horizontalBarsClipPX).0, PlayerSize(playerOffset.value, horizontalBarsClipPX).1)
      modifies this`players, this`shadowScaleX, this`shadowScaleY
      ensures Valid()
      ensures var size := PlayerSize(playerOffset.value, horizontalBarsClipPX);
              var ratio := AxisRatio(size.0, size.1);
              && |players| == |old(players)|
              && (forall k :: 0 <= k < |players| ==> players[k] == ScaledRing(old(players)[k], k, innerStrength, edge / 100.0, ratio))
              && shadowScaleX == ShadowScale(if |players| == 0 then 1.0 else players[|players| - 1].scaleX)
              && shadowScaleY == ShadowScale(if |players| == 0 then 1.0 else players[|players| - 1].scaleY)
    {
      var size := PlayerSize(playerOffset.value, horizontalBarsClipPX);
      var ratio := AxisRatio(size.0, size.1);
      var scaleStep := edge / 100.0;
      var lastX, lastY := 1.0, 1.0;
      var i := 0;
      while i < |players|
        invariant 0 <= i <= |players| == |old(players)|
        invariant forall k :: 0 <= k < i ==> players[k] == ScaledRing(old(players)[k], k, innerStrength, scaleStep, ratio)
        invariant forall k :: i <= k < |players| ==> players[k] == old(players)[k]
        invariant lastX == (if i == 0 then 1.0 else players[i - 1].scaleX)
        invariant lastY == (if i == 0 then 1.0 else players[i - 1].scaleY)
        invariant Valid()
      {
        var scaleX := RingScale(i, innerStrength, scaleStep, ratio.x);
        var scaleY := RingScale(i, innerStrength, scaleStep, ratio.y);
        lastX, lastY := scaleX, scaleY;
        players := players[i := players[i].(scaleX := scaleX, scaleY := scaleY)];
        i := i + 1;
      }
      shadowScaleX := ShadowScale(lastX);
      shadowScaleY := ShadowScale(lastY);
    }

    /**
     * `updateSizes` (geometry only). Returns `None` for JavaScript's
     * `undefined` when disabled, `Some(true)` when the player is minimized
     * or the sizes were applied, `Some(false)` when the player is not ready.
     * The bar clip is applied before the readiness test.
     */
    method UpdateSizes(m: Measurements) returns (r: Option<bool>)
      requires Valid()
      requires RatioComputable(m)
      modifies this`horizontalBarsClipPX, this`playerOffset, this`srcVideoOffset, this`p, this`isVR,
               this`isFullscreen, this`isFillingFullscreen, this`players, this`buffer, this`compareBuffer,
               this`compareBufferBarsClipPx, this`shadowScaleX, this`shadowScaleY, this`videoFrameCount
      ensures Valid()
      ensures !enabled ==> r.None? && unchanged(this)
      ensures enabled && m.minimized ==> r == Some(true) && unchanged(this)
      ensures enabled && !m.minimized ==>
                horizontalBarsClipPX == ClipPixels(horizontalBarsClipPercentage, m.offsetHeight) && playerOffset == m.box
      ensures enabled && !m.minimized && !Ready(m) ==>
                && r == Some(false)
                && unchanged(this`srcVideoOffset, this`p, this`isVR, this`isFullscreen, this`isFillingFullscreen,
                             this`players, this`buffer, this`compareBuffer, this`compareBufferBarsClipPx,
                             this`shadowScaleX, this`shadowScaleY, this`videoFrameCount)
      ensures enabled && !m.minimized && Ready(m) ==> r == Some(true) && SizesApplied(m, old(players))
      ensures r == Some(true) <==> enabled && (m.minimized || Ready(m))
      ensures videoFrameCount == if enabled && !m.minimized && Ready(m) then 0 else old(videoFrameCount)
    {
      if !enabled {
        return None;
      }
      if m.minimized {
        return Some(true);
      }
      horizontalBarsClipPX := ClipPixels(horizontalBarsClipPercentage, m.offsetHeight);
      playerOffset := m.box;
      if m.box.None? || m.videoWidth == 0 {
        return Some(false);
      }
      ApplySizes(m);
      return Some(true);
    }

    /** The part of `updateSizes` after the readiness test. */
    method ApplySizes(m: Measurements)
      requires Valid() && Ready(m) && playerOffset == m.box
      requires RatioDefined(PlayerSize(m.box.value, horizontalBarsClipPX).0, PlayerSize(m.box.value, horizontalBarsClipPX).1)
      modifies this`srcVideoOffset, this`p, this`isVR, this`isFullscreen, this`isFillingFullscreen, this`players,
               this`buffer, this`compareBuffer, this`compareBufferBarsClipPx, this`shadowScaleX, this`shadowScaleY,
               this`videoFrameCount
      ensures Valid()
      ensures SizesApplied(m, old(players))
    {
      SetRenderTargets(m);
      SizeAndScaleRings();
      videoFrameCount := 0;
    }

    /** The canvas part of `updateSizes`: every ring to the render size, then `resizeCanvasses`. */
    method SizeAndScaleRings()
      requires Valid() && playerOffset.Some?
      requires RatioDefined(PlayerSize(playerOffset.value, horizontalBarsClipPX).0, PlayerSize(playerOffset.value, horizontalBarsClipPX).1)
      modifies this`players, this`shadowScaleX, this`shadowScaleY
      ensures Valid()
      ensures var size := PlayerSize(playerOffset.value, horizontalBarsClipPX);
              RingsResized(old(players), players, p, innerStrength, edge / 100.0, AxisRatio(size.0, size.1))
      ensures shadowScaleX == ShadowScale(LastScales(players).0) && shadowScaleY == ShadowScale(LastScales(players).1)
    {
      SizeCanvasses();
      ResizeCanvasses();
    }

    /**
     * Everything `updateSizes` leaves behind for a ready player: the render
     * targets, every ring at the render size and scaled for the player's
     * aspect ratio, the shadow just beyond the last ring, and the frame
     * counter reset.
     */
    ghost predicate SizesApplied(m: Measurements, before: seq<Canvas>)
      reads this`srcVideoOffset, this`p, this`horizontalBarsClipPercentage, this`buffer, this`compareBuffer,
            this`compareBufferBarsClipPx, this`isVR, this`isFullscreen, this`isFillingFullscreen, this`players,
            this`edge, this`horizontalBarsClipPX, this`shadowScaleX, this`shadowScaleY, this`videoFrameCount
    {
      && Ready(m)
      && RenderTargetsSet(m)
      && RatioDefined(PlayerSize(m.box.value, horizontalBarsClipPX).0, PlayerSize(m.box.value, horizontalBarsClipPX).1)
      && RingsResized(before, players, p, innerStrength, edge / 100.0,
                               AxisRatio(PlayerSize(m.box.value, horizontalBarsClipPX).0, PlayerSize(m.box.value, horizontalBarsClipPX).1))
      && shadowScaleX == ShadowScale(LastScales(players).0)
      && shadowScaleY == ShadowScale(LastScales(players).1)
      && videoFrameCount == 0
    }

    /** The source size, render target, buffers and fullscreen flags `updateSizes` derives from a ready player. */
    ghost predicate RenderTargetsSet(m: Measurements)
      requires Ready(m)
      reads this`srcVideoOffset, this`p, this`horizontalBarsClipPercentage, this`buffer, this`compareBuffer,
            this`compareBufferBarsClipPx, this`isVR, this`isFullscreen, this`isFillingFullscreen
    {
      && srcVideoOffset == Some(Size(m.videoWidth, m.videoHeight))
      && p == RenderSize(m.videoWidth, m.videoHeight, horizontalBarsClipPercentage / 100.0)
      && buffer == p
      && compareBuffer == Size(m.videoWidth, m.videoHeight)
      && compareBufferBarsClipPx == Round(m.videoHeight as real * (horizontalBarsClipPercentage / 100.0))
      && isVR == m.isVR && isFullscreen == m.isFullscreen
      && isFillingFullscreen == (m.isFullscreen && FillsWindow(m.box.value, m.windowWidth, m.windowHeight))
    }

    method SetRenderTargets(m: Measurements)
      requires Valid() && Ready(m)
      modifies this`srcVideoOffset, this`p, this`isVR, this`isFullscreen, this`isFillingFullscreen,
               this`buffer, this`compareBuffer, this`compareBufferBarsClipPx
      ensures Valid()
      ensures RenderTargetsSet(m)
    {
      var horizontalBarsClip := horizontalBarsClipPercentage / 100.0;
      srcVideoOffset := Some(Size(m.videoWidth, m.videoHeight));
      p := RenderSize(m.videoWidth, m.videoHeight, horizontalBarsClip);
      isVR := m.isVR;
      isFullscreen := m.isFullscreen;
      isFillingFullscreen := m.isFullscreen && FillsWindow(m.box.value, m.windowWidth, m.windowHeight);
      buffer := p;
      compareBuffer := Size(m.videoWidth, m.videoHeight);
      compareBufferBarsClipPx := Round(compareBuffer.h as real * horizontalBarsClip);
    }

    /** `checkVideoSize` looks for a resize or a change of the decoded video size. */
    predicate NeedsUpdate(m: Measurements)
      reads this`previousWidth, this`previousTop, this`srcVideoOffset
    {
      previousWidth != Some(m.clientWidth) || previousTop != Some(m.styleTop) ||
      srcVideoOffset != Some(Size(m.videoWidth, m.videoHeight))
    }

    /**
     * `checkVideoSize`: recomputes the sizes when the player was resized or
     * moved, or when the video's decoded size changed; otherwise reports
     * success and changes nothing.
     */
    method CheckVideoSize(m: Measurements) returns (r: Option<bool>)
      requires Valid()
      requires RatioComputable(m)
      modifies this`horizontalBarsClipPX, this`playerOffset, this`srcVideoOffset, this`p, this`isVR,
               this`isFullscreen, this`isFillingFullscreen, this`players, this`buffer, this`compareBuffer,
               this`compareBufferBarsClipPx, this`shadowScaleX, this`shadowScaleY, this`videoFrameCount,
               this`previousWidth, this`previousTop
      ensures Valid()
      ensures !old(NeedsUpdate(m)) ==> r == Some(true) && unchanged(this)
      ensures old(NeedsUpdate(m)) ==> previousWidth == Some(m.clientWidth) && previousTop == Some(m.styleTop)
      ensures old(NeedsUpdate(m)) ==> (r.None? <==> !enabled)
      ensures old(NeedsUpdate(m)) && (!enabled || m.minimized) ==>
                && (enabled ==> r == Some(true))
                && unchanged(this`horizontalBarsClipPX, this`playerOffset, this`srcVideoOffset, this`p, this`isVR,
                             this`isFullscreen, this`isFillingFullscreen, this`players, this`buffer, this`compareBuffer,
                             this`compareBufferBarsClipPx, this`shadowScaleX, this`shadowScaleY, this`videoFrameCount)
      ensures old(NeedsUpdate(m)) && enabled && !m.minimized ==>
                horizontalBarsClipPX == ClipPixels(horizontalBarsClipPercentage, m.offsetHeight) && playerOffset == m.box
      ensures old(NeedsUpdate(m)) && enabled && !m.minimized && Ready(m) ==> r == Some(true) && SizesApplied(m, old(players))
      ensures old(NeedsUpdate(m)) && enabled && !m.minimized && !Ready(m) ==>
                && r == Some(false)
                && unchanged(this`srcVideoOffset, this`p, this`isVR, this`isFullscreen, this`isFillingFullscreen,
                             this`players, this`buffer, this`compareBuffer, this`compareBufferBarsClipPx,
                             this`shadowScaleX, this`shadowScaleY, this`videoFrameCount)
      ensures r == Some(true) <==> !old(NeedsUpdate(m)) || (enabled && (m.minimized || Ready(m)))
      ensures videoFrameCount == if old(NeedsUpdate(m)) && enabled && !m.minimized && Ready(m) then 0 else old(videoFrameCount)
    {
      if previousWidth != Some(m.clientWidth) || previousTop != Some(m.styleTop) {
        previousWidth := Some(m.clientWidth);
        previousTop := Some(m.styleTop);
      } else if srcVideoOffset == Some(Size(m.videoWidth, m.videoHeight)) {
        return Some(true);
      }
      r := UpdateSizes(m);
    }

    /** `scheduleNextFrame`: requests an animation frame unless one is pending, the pipeline is off, or the page is not a video page. */
    method ScheduleNextFrame()
      requires Valid()
      modifies this`scheduled, this`pendingFrameCallbacks
      ensures Valid()
      ensures old(scheduled) || !enabled || !isOnVideoPage ==> scheduled == old(scheduled)
      ensures !old(scheduled) && enabled && isOnVideoPage ==> scheduled
      ensures scheduled == (old(scheduled) || (enabled && isOnVideoPage))
    {
      if scheduled || !enabled || !isOnVideoPage {
        return;
      }
      pendingFrameCallbacks := pendingFrameCallbacks + 1;
      scheduled := true;
    }

    /** `hide`: the aura fades out (the delayed clear and the theme reset are not modelled). */
    method Hide()
      modifies this`isHidden
      ensures isHidden
    {
      if isHidden {
        return;
      }
      isHidden := true;
    }

    /** `show`: the aura fades in (the dark-theme switch is not modelled). */
    method Show()
      modifies this`isHidden
      ensures !isHidden
    {
      isHidden := false;
    }

    /** `detectVideoFrameRate`, with `performance.now()` as `now`. */
    method DetectVideoFrameRate(frameCount: int, now: real)
      modifies this`videoFrameRateStartTime, this`videoFrameRateStartFrame, this`videoFrameRate
      ensures VideoWindowState() == FrameRate.DetectVideoFrameRate(old(VideoWindowState()), videoFrameCount, frameCount, now)
    {
      if videoFrameCount != frameCount {
        if videoFrameRateStartTime + Window < now {
          if videoFrameRateStartFrame != 0 {
            videoFrameRate := RateOver(frameCount - videoFrameRateStartFrame, videoFrameRateStartTime, now);
          }
          videoFrameRateStartFrame := frameCount;
          videoFrameRateStartTime := now;
        }
      }
    }

    /** `detectDisplayFrameRate`, with `performance.now()` as `now`. */
    method DetectDisplayFrameRate(now: real)
      modifies this`displayFrameRateStartTime, this`displayFrameRateFrame, this`displayFrameRate
      ensures DisplayWindowState() == FrameRate.DetectDisplayFrameRate(old(DisplayWindowState()), now)
    {
      if displayFrameRateStartTime.Some? && displayFrameRateStartTime.value < now - Window {
        displayFrameRate := RateOver(displayFrameRateFrame, displayFrameRateStartTime.value, now);
        displayFrameRateFrame := 1;
        displayFrameRateStartTime := Some(now);
      } else {
        if displayFrameRateFrame == 0 {
          displayFrameRateFrame := 1;
          displayFrameRateStartTime := Some(now);
        } else {
          displayFrameRateFrame := displayFrameRateFrame + 1;
        }
      }
    }

    /**
     * `drawAmbilight`: nothing when disabled; hides the aura when it must
     * not show; otherwise shows it, updates both frame-rate windows at
     * `now`, and advances the counters as `CounterStep` says, sampling the
     * compare buffer's rows only when the high-quality comparison runs.
     */
    method DrawAmbilight(newFrameCount: int, now: real, pixels: Pixels) returns (drawn: bool, skipWarning: bool)
      requires Valid()
      modifies this`isHidden, this`videoFrameCount, this`skippedFrames, this`oldImage,
               this`showedHighQualityCompareWarning, this`videoFrameRateStartTime, this`videoFrameRateStartFrame,
               this`videoFrameRate, this`displayFrameRateStartTime, this`displayFrameRateFrame, this`displayFrameRate
      ensures Valid()
      ensures !enabled ==> unchanged(this)
      ensures FrameOutcome(true, old(Counters()), old(VideoWindowState()), old(DisplayWindowState()),
                           newFrameCount, now, pixels, drawn, skipWarning)
    {
      drawn, skipWarning := false, false;
      if !enabled {
        return;
      }
      if isVR || isFillingFullscreen || (!enableInFullscreen && isFullscreen) {
        Hide();
        return;
      }
      drawn, skipWarning := DrawVisible(newFrameCount, now, pixels);
    }

    /** `drawAmbilight` once the aura may show. */
    method DrawVisible(newFrameCount: int, now: real, pixels: Pixels) returns (drawn: bool, skipWarning: bool)
      requires Valid()
      modifies this`isHidden, this`videoFrameCount, this`skippedFrames, this`oldImage,
               this`showedHighQualityCompareWarning, this`videoFrameRateStartTime, this`videoFrameRateStartFrame,
               this`videoFrameRate, this`displayFrameRateStartTime, this`displayFrameRateFrame, this`displayFrameRate
      ensures Valid()
      ensures !isHidden
      ensures VideoWindowState() == FrameRate.DetectVideoFrameRate(old(VideoWindowState()), old(videoFrameCount), newFrameCount, now)
      ensures DisplayWindowState() == FrameRate.DetectDisplayFrameRate(old(DisplayWindowState()), now)
      ensures Tick(Counters(), drawn, skipWarning) ==
              CounterStep(old(Counters()), newFrameCount, highQuality, videoFrameRate, displayFrameRate,
                          Sample(compareBuffer.h, pixels))
    {
      if isHidden {
        Show();
      }
      DetectFrameRates(newFrameCount, now);
      drawn, skipWarning := AdvanceCounters(newFrameCount, pixels);
    }

    /** The two frame-rate detectors `drawAmbilight` runs before the counters. */
    method DetectFrameRates(frameCount: int, now: real)
      modifies this`videoFrameRateStartTime, this`videoFrameRateStartFrame, this`videoFrameRate,
               this`displayFrameRateStartTime, this`displayFrameRateFrame, this`displayFrameRate
      ensures VideoWindowState() == FrameRate.DetectVideoFrameRate(old(VideoWindowState()), videoFrameCount, frameCount, now)
      ensures DisplayWindowState() == FrameRate.DetectDisplayFrameRate(old(DisplayWindowState()), now)
    {
      DetectVideoFrameRate(frameCount, now);
      DetectDisplayFrameRate(now);
    }

    /** The counter part of `drawAmbilight`, after the frame rates are updated. */
    method AdvanceCounters(newFrameCount: int, pixels: Pixels) returns (drawn: bool, skipWarning: bool)
      requires Valid()
      modifies this`videoFrameCount, this`skippedFrames, this`oldImage, this`showedHighQualityCompareWarning
      ensures Tick(Counters(), drawn, skipWarning) ==
              CounterStep(old(Counters()), newFrameCount, highQuality, videoFrameRate, displayFrameRate,
                          Sample(compareBuffer.h, pixels))
    {
      drawn, skipWarning := false, false;
      UpdateSkippedFrames(newFrameCount);
      if videoFrameCount == newFrameCount && !highQuality {
        return;
      }
      skipWarning := skippedFrames > SkipWarningAfter;
      drawn := CompareOrDraw(newFrameCount, pixels);
    }

    /** The `skippedFrames` bookkeeping of `drawAmbilight`. */
    method UpdateSkippedFrames(newFrameCount: int)
      modifies this`skippedFrames
      ensures skippedFrames == SkippedAfter(old(Counters()), newFrameCount)
    {
      if videoFrameCount == newFrameCount {
        skippedFrames := 0;
      } else if videoFrameCount < newFrameCount && videoFrameCount > SkipCheckAfter && videoFrameCount - newFrameCount < -2 {
        skippedFrames := skippedFrames + 1;
      }
      if videoFrameCount == newFrameCount - 1 {
        skippedFrames := 0;
      }
    }

    /**
     * The high-quality comparison, when it runs, and the final count update:
     * an unchanged count is compared row by row while the gate is open.
     */
    method CompareOrDraw(newFrameCount: int, pixels: Pixels) returns (drawn: bool)
      requires Valid()
      requires highQuality || videoFrameCount != newFrameCount
      modifies this`videoFrameCount, this`oldImage, this`showedHighQualityCompareWarning
      ensures var t := CounterStep(old(Counters()), newFrameCount, highQuality, videoFrameRate, displayFrameRate,
                                   Sample(compareBuffer.h, pixels));
              drawn == t.drawn && videoFrameCount == t.next.videoFrameCount && oldImage == t.next.oldImage &&
              showedHighQualityCompareWarning == t.next.warned
    {
      if highQuality && videoFrameCount == newFrameCount {
        if videoFrameRate == 0.0 || displayFrameRate == 0.0 || videoFrameRate < displayFrameRate {
          var newImage := SampleRows(compareBuffer.h, pixels);
          var isNewFrame := false;
          if newImage.Some? {
            isNewFrame := IsNewFrame(oldImage, newImage.value);
          } else if !showedHighQualityCompareWarning {
            showedHighQualityCompareWarning := true;
          }
          if !isNewFrame {
            videoFrameCount := videoFrameCount + 1;
            return false;
          }
          oldImage := newImage;
        }
      }
      videoFrameCount := newFrameCount;
      return true;
    }

    /**
     * What a frame leaves behind once the size check has run, from the
     * counters and windows `start`, `video` and `display` it left: when the
     * check passed (`go`), the aura is enabled and may show, `drawAmbilight`'s
     * step; otherwise nothing is drawn and nothing moves, the aura hidden
     * when only the page state kept it from showing.
     */
    ghost predicate FrameOutcome(go: bool, start: Counters, video: VideoWindow, display: DisplayWindow,
                                 newFrameCount: int, now: real, pixels: Pixels, drawn: bool, skipWarning: bool)
      reads this`enabled, this`isVR, this`isFillingFullscreen, this`enableInFullscreen, this`isFullscreen, this`isHidden,
            this`videoFrameCount, this`skippedFrames, this`oldImage, this`showedHighQualityCompareWarning,
            this`videoFrameRateStartTime, this`videoFrameRateStartFrame, this`videoFrameRate,
            this`displayFrameRateStartTime, this`displayFrameRateFrame, this`displayFrameRate,
            this`highQuality, this`compareBuffer
    {
      if go && enabled && !HideCondition() then
        && !isHidden && compareBuffer.h >= 0
        && VideoWindowState() == FrameRate.DetectVideoFrameRate(video, start.videoFrameCount, newFrameCount, now)
        && DisplayWindowState() == FrameRate.DetectDisplayFrameRate(display, now)
        && Tick(Counters(), drawn, skipWarning) ==
           CounterStep(start, newFrameCount, highQuality, videoFrameRate, displayFrameRate, Sample(compareBuffer.h, pixels))
      else
        && !drawn && !skipWarning && Counters() == start
        && VideoWindowState() == video && DisplayWindowState() == display
        && (go && enabled ==> isHidden)
    }

    /**
     * The body of `nextFrame`'s `try`: draw when the size check reports
     * success. `sized` is the check's verdict: it passes when nothing
     * changed, or when enabled and the player is minimized or ready.
     * `checked` are the counters it leaves, `videoFrameCount` reset by a
     * resize; the draw then runs from them and from the frame-rate windows
     * as they were, as `DrawAmbilight` does.
     */
    method CheckAndDraw(m: Measurements, newFrameCount: int, now: real, pixels: Pixels)
      returns (drawn: bool, skipWarning: bool, ghost sized: bool, ghost checked: Counters,
               ghost video: VideoWindow, ghost display: DisplayWindow)
      requires Valid() && RatioComputable(m)
      modifies this`horizontalBarsClipPX, this`playerOffset, this`srcVideoOffset, this`p, this`isVR,
               this`isFullscreen, this`isFillingFullscreen, this`players, this`buffer, this`compareBuffer,
               this`compareBufferBarsClipPx, this`shadowScaleX, this`shadowScaleY, this`videoFrameCount,
               this`previousWidth, this`previousTop, this`isHidden, this`skippedFrames, this`oldImage,
               this`showedHighQualityCompareWarning, this`videoFrameRateStartTime, this`videoFrameRateStartFrame,
               this`videoFrameRate, this`displayFrameRateStartTime, this`displayFrameRateFrame, this`displayFrameRate
      ensures Valid()
      ensures enabled == old(enabled) && isOnVideoPage == old(isOnVideoPage) && scheduled == old(scheduled)
      ensures drawn ==> enabled
      ensures sized <==> !old(NeedsUpdate(m)) || (enabled && (m.minimized || Ready(m)))
      ensures checked == CheckedCounters(old(Counters()), old(NeedsUpdate(m)) && enabled && !m.minimized && Ready(m))
      ensures video == old(VideoWindowState()) && display == old(DisplayWindowState())
      ensures FrameOutcome(sized, checked, video, display, newFrameCount, now, pixels, drawn, skipWarning)
      ensures !(old(NeedsUpdate(m)) && enabled && !m.minimized && Ready(m)) ==>
                HideCondition() == old(HideCondition()) && compareBuffer == old(compareBuffer)
    {
      var sizesOk := SizeCheck(m);
      sized, checked := sizesOk, Counters();
      video, display := VideoWindowState(), DisplayWindowState();
      drawn, skipWarning := DrawIfSized(sizesOk, newFrameCount, now, pixels, checked, video, display);
    }

    /**
     * The test `if (this.checkVideoSize())` that guards the draw in
     * `nextFrame`: of `undefined`, `false` and `true` only `true` passes.
     * The size check leaves the frame-rate windows and every counter but
     * `videoFrameCount` alone.
     */
    method SizeCheck(m: Measurements) returns (sized: bool)
      requires Valid() && RatioComputable(m)
      modifies this`horizontalBarsClipPX, this`playerOffset, this`srcVideoOffset, this`p, this`isVR,
               this`isFullscreen, this`isFillingFullscreen, this`players, this`buffer, this`compareBuffer,
               this`compareBufferBarsClipPx, this`shadowScaleX, this`shadowScaleY, this`videoFrameCount,
               this`previousWidth, this`previousTop
      ensures Valid()
      ensures enabled == old(enabled) && isOnVideoPage == old(isOnVideoPage) && scheduled == old(scheduled)
      ensures sized <==> !old(NeedsUpdate(m)) || (enabled && (m.minimized || Ready(m)))
      ensures Counters() == CheckedCounters(old(Counters()), old(NeedsUpdate(m)) && enabled && !m.minimized && Ready(m))
      ensures VideoWindowState() == old(VideoWindowState()) && DisplayWindowState() == old(DisplayWindowState())
      ensures !(old(NeedsUpdate(m)) && enabled && !m.minimized && Ready(m)) ==>
                unchanged(this`isVR, this`isFullscreen, this`isFillingFullscreen, this`compareBuffer, this`compareBufferBarsClipPx)
    {
      sized := SizeVerdict(m);
    }

    /** The truthiness of `checkVideoSize()`'s result, and the frame counter it may reset. */
    method SizeVerdict(m: Measurements) returns (sized: bool)
      requires Valid() && RatioComputable(m)
      modifies this`horizontalBarsClipPX, this`playerOffset, this`srcVideoOffset, this`p, this`isVR,
               this`isFullscreen, this`isFillingFullscreen, this`players, this`buffer, this`compareBuffer,
               this`compareBufferBarsClipPx, this`shadowScaleX, this`shadowScaleY, this`videoFrameCount,
               this`previousWidth, this`previousTop
      ensures Valid()
      ensures sized <==> !old(NeedsUpdate(m)) || (enabled && (m.minimized || Ready(m)))
      ensures videoFrameCount == if old(NeedsUpdate(m)) && enabled && !m.minimized && Ready(m) then 0 else old(videoFrameCount)
      ensures !(old(NeedsUpdate(m)) && enabled && !m.minimized && Ready(m)) ==>
                unchanged(this`isVR, this`isFullscreen, this`isFillingFullscreen, this`compareBuffer, this`compareBufferBarsClipPx)
    {
      var r := CheckVideoSize(m);
      sized := r == Some(true);
    }

    /** The `if` around `drawAmbilight` in `nextFrame`. */
    method DrawIfSized(sized: bool, newFrameCount: int, now: real, pixels: Pixels,
                       ghost start: Counters, ghost video: VideoWindow, ghost display: DisplayWindow)
      returns (drawn: bool, skipWarning: bool)
      requires Valid()
      requires start == Counters() && video == VideoWindowState() && display == DisplayWindowState()
      modifies this`isHidden, this`videoFrameCount, this`skippedFrames, this`oldImage,
               this`showedHighQualityCompareWarning, this`videoFrameRateStartTime, this`videoFrameRateStartFrame,
               this`videoFrameRate, this`displayFrameRateStartTime, this`displayFrameRateFrame, this`displayFrameRate
      ensures Valid()
      ensures enabled == old(enabled) && isOnVideoPage == old(isOnVideoPage) && scheduled == old(scheduled)
      ensures drawn ==> enabled
      ensures FrameOutcome(sized, start, video, display, newFrameCount, now, pixels, drawn, skipWarning)
    {
      drawn, skipWarning := false, false;
      if sized {
        drawn, skipWarning := DrawAmbilight(newFrameCount, now, pixels);
      }
    }

    /**
     * `nextFrame`, run as the pending animation-frame callback: clears the
     * flag, draws when the size check passes, and asks for the next frame
     * while enabled and playing.
     */
    method NextFrame(m: Measurements, paused: bool, newFrameCount: int, now: real, pixels: Pixels) returns (drawn: bool)
      requires Valid() && scheduled
      requires RatioComputable(m)
      modifies this
      ensures Valid()
      ensures enabled == old(enabled) && isOnVideoPage == old(isOnVideoPage)
      ensures scheduled == (enabled && !paused && isOnVideoPage)
      ensures drawn ==> enabled
    {
      scheduled := false;
      pendingFrameCallbacks := pendingFrameCallbacks - 1;
      var skipWarning;
      ghost var sized, checked, video, display;
      drawn, skipWarning, sized, checked, video, display := CheckAndDraw(m, newFrameCount, now, pixels);
      assert !scheduled && enabled == old(enabled) && isOnVideoPage == old(isOnVideoPage);
      if scheduled || !enabled || paused {
        return;
      }
      ScheduleNextFrame();
    }

    /**
     * `start`, as written: on a video page and enabled, it clears the
     * `videoFrameRateMeasureStart*` fields, re-arms the compare warning and
     * schedules a frame. The window `detectVideoFrameRate` reads is left as
     * it was (see `FrameRate.StartAsWritten`).
     */
    method Start()
      requires Valid()
      modifies this`videoFrameRateMeasureStartTime, this`videoFrameRateMeasureStartFrame,
               this`showedHighQualityCompareWarning, this`scheduled, this`pendingFrameCallbacks
      ensures Valid()
      ensures VideoWindowState() == StartAsWritten(old(VideoWindowState()))
      ensures !isOnVideoPage || !enabled ==> unchanged(this)
      ensures isOnVideoPage && enabled ==>
                && videoFrameRateMeasureStartFrame == 0 && videoFrameRateMeasureStartTime == 0.0
                && !showedHighQualityCompareWarning && scheduled
    {
      if !isOnVideoPage || !enabled {
        return;
      }
      videoFrameRateMeasureStartFrame := 0;
      videoFrameRateMeasureStartTime := 0.0;
      showedHighQualityCompareWarning := false;
      ScheduleNextFrame();
    }

    /**
     * `start` with the reset applied to the window the detector reads, as
     * the measure fields were evidently meant to be (`FrameRate.RestartWindow`).
     */
    method StartRestartingWindow()
      requires Valid()
      modifies this`videoFrameRateStartTime, this`videoFrameRateStartFrame, this`showedHighQualityCompareWarning,
               this`scheduled, this`pendingFrameCallbacks
      ensures Valid()
      ensures !isOnVideoPage || !enabled ==> unchanged(this)
      ensures isOnVideoPage && enabled ==>
                VideoWindowState() == RestartWindow(old(VideoWindowState())) &&
                !showedHighQualityCompareWarning && scheduled
    {
      if !isOnVideoPage || !enabled {
        return;
      }
      videoFrameRateStartFrame := 0;
      videoFrameRateStartTime := 0.0;
      showedHighQualityCompareWarning := false;
      ScheduleNextFrame();
    }

    /**
     * The `seeked` handler: `resetVideoFrameCounter` then
     * `scheduleNextFrame`, so the next tick sees any decoded count other
     * than 0 as a changed frame.
     */
    method OnSeeked()
      requires Valid()
      modifies this`videoFrameCount, this`scheduled, this`pendingFrameCallbacks
      ensures Valid()
      ensures videoFrameCount == 0
      ensures scheduled == (old(scheduled) || (enabled && isOnVideoPage))
    {
      videoFrameCount := 0;
      ScheduleNextFrame();
    }
  }
}
