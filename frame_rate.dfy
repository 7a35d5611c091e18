/**
 * The two frame-rate counters of the frame pipeline. Each keeps a window
 * that closes on the first sample more than 1000 ms after it opened; the
 * closing sample yields a rate in frames per second and opens the next
 * window. `performance.now()` and the decoded + dropped frame count are
 * inputs; times are milliseconds.
 */
module FrameRate {
  import opened Wrappers

  /** Length of a measuring window, in milliseconds. */
  const Window: real := 1000.0

  /** `videoFrameRateStartTime`, `videoFrameRateStartFrame` and `videoFrameRate`. */
  datatype VideoWindow = VideoWindow(startTime: real, startFrame: int, rate: real)

  /** Before the first sample: both start fields read as 0 and the rate is 0. */
  const InitialVideoWindow: VideoWindow := VideoWindow(0.0, 0, 0.0)

  /** Frames per second between the window start and the sample `(frameCount, now)`. */
  function RateOver(frames: int, startTime: real, now: real): real
    requires startTime < now
  {
    frames as real / ((now - startTime) / 1000.0)
  }

  lemma RateOverMeasures(frames: int, startTime: real, now: real)
    requires startTime < now
    ensures RateOver(frames, startTime, now) * ((now - startTime) / 1000.0) == frames as real
    ensures frames >= 0 ==> RateOver(frames, startTime, now) >= 0.0
  {
    var secs := (now - startTime) / 1000.0;
    assert secs > 0.0;
    var r := RateOver(frames, startTime, now);
    assert r * secs == frames as real;
  }

  /**
   * `detectVideoFrameRate`: only a sample whose count differs from the
   * pipeline's `videoFrameCount` is looked at; once the window is over, a
   * rate is computed unless the window started at frame 0, and the sample
   * opens the next window.
   */
  function DetectVideoFrameRate(s: VideoWindow, videoFrameCount: int, frameCount: int, now: real): (r: VideoWindow)
    ensures r == s || (r.startTime == now && r.startFrame == frameCount)
  {
    if videoFrameCount != frameCount && s.startTime + Window < now then
      VideoWindow(now, frameCount, if s.startFrame != 0 then RateOver(frameCount - s.startFrame, s.startTime, now) else s.rate)
    else s
  }

  /**
   * A window is closed only by a sample with a new frame count more than a
   * second after it opened, and the rate it then reports, times the
   * window's length in seconds, is the number of frames counted in it.
   */
  lemma VideoRateMeasuresWindow(s: VideoWindow, videoFrameCount: int, frameCount: int, now: real)
    ensures var r := DetectVideoFrameRate(s, videoFrameCount, frameCount, now);
            r != s ==> videoFrameCount != frameCount && now > s.startTime + Window
    ensures var r := DetectVideoFrameRate(s, videoFrameCount, frameCount, now);
            r.rate != s.rate ==>
              s.startFrame != 0 && r.rate * ((now - s.startTime) / 1000.0) == (frameCount - s.startFrame) as real
  {
    if videoFrameCount != frameCount && s.startTime + Window < now && s.startFrame != 0 {
      RateOverMeasures(frameCount - s.startFrame, s.startTime, now);
    }
  }

  /** The video frame counter never decreases, so the video rate is never negative. */
  lemma VideoRateNonNegative(s: VideoWindow, videoFrameCount: int, frameCount: int, now: real)
    requires s.rate >= 0.0 && frameCount >= s.startFrame
    ensures DetectVideoFrameRate(s, videoFrameCount, frameCount, now).rate >= 0.0
  {
    if videoFrameCount != frameCount && s.startTime + Window < now && s.startFrame != 0 {
      RateOverMeasures(frameCount - s.startFrame, s.startTime, now);
    }
  }

  /**
   * `start()` as written: it clears `videoFrameRateMeasureStartFrame` and
   * `videoFrameRateMeasureStartTime`, fields the detector never reads, so
   * the window the detector uses survives a pause.
   */
  function StartAsWritten(s: VideoWindow): (r: VideoWindow)
    ensures r.startTime == s.startTime && r.startFrame == s.startFrame
  {
    s
  }

  /**
   * A window opened at frame 100 one second in; the video is paused for
   * ten seconds and resumes. The first new frame after the restart closes
   * that window and reports one frame over ten seconds, about 0.1 fps.
   */
  lemma StartAsWrittenMixesInThePause()
    ensures var r := DetectVideoFrameRate(StartAsWritten(VideoWindow(1000.0, 100, 60.0)), 100, 101, 11016.0);
            r.rate < 1.0 && r.rate * 10.016 == 1.0
  {
    RateOverMeasures(1, 1000.0, 11016.0);
  }

  /** `start()` resetting the window the detector reads, as the measure fields were meant to. */
  function RestartWindow(s: VideoWindow): (r: VideoWindow)
    ensures r.startFrame == 0 && r.rate == s.rate
  {
    VideoWindow(0.0, 0, s.rate)
  }

  /**
   * After a restart no rate spans the time before it: the next sample that
   * closes a window only opens a fresh one and keeps the previous rate.
   */
  lemma RestartWindowIgnoresThePause(s: VideoWindow, videoFrameCount: int, frameCount: int, now: real)
    ensures var r := DetectVideoFrameRate(RestartWindow(s), videoFrameCount, frameCount, now);
            r.rate == s.rate && (r.startTime == now || r.startTime == 0.0)
  {
  }

  /**
   * `displayFrameRateStartTime` (absent until the first sample),
   * `displayFrameRateFrame` (0 while undefined) and `displayFrameRate`
   * (0 while undefined; both are falsy to the callers).
   */
  datatype DisplayWindow = DisplayWindow(startTime: Option<real>, frames: nat, rate: real)

  const InitialDisplayWindow: DisplayWindow := DisplayWindow(None, 0, 0.0)

  /**
   * `detectDisplayFrameRate`: every animation frame counts; a sample more
   * than a second after the window start reports the frames counted so far
   * per second and opens a new window with itself as its first frame.
   */
  function DetectDisplayFrameRate(s: DisplayWindow, now: real): (r: DisplayWindow)
    ensures r.frames >= 1
  {
    if s.startTime.Some? && s.startTime.value < now - Window then
      DisplayWindow(Some(now), 1, RateOver(s.frames, s.startTime.value, now))
    else if s.frames == 0 then
      DisplayWindow(Some(now), 1, s.rate)
    else
      s.(frames := s.frames + 1)
  }

  /** The display counter after the animation frames at `ticks`, in order. */
  function DisplayAfter(ticks: seq<real>): DisplayWindow
  {
    if |ticks| == 0 then InitialDisplayWindow
    else DetectDisplayFrameRate(DisplayAfter(ticks[..|ticks| - 1]), ticks[|ticks| - 1])
  }

  /**
   * After any non-empty run of animation frames the window started at one
   * of them, `frames` counts that one and every later one, and each later
   * one lies within a second of the start.
   */
  lemma {:induction false} DisplayWindowCountsTicks(ticks: seq<real>)
    requires |ticks| >= 1
    ensures var w := DisplayAfter(ticks);
            && 1 <= w.frames <= |ticks|
            && w.startTime == Some(ticks[|ticks| - w.frames])
            && forall j :: |ticks| - w.frames < j < |ticks| ==> ticks[j] <= ticks[|ticks| - w.frames] + Window
  {
    var n := |ticks|;
    var prefix := ticks[..n - 1];
    if n == 1 {
      assert DisplayAfter(prefix) == InitialDisplayWindow;
    } else {
      DisplayWindowCountsTicks(prefix);
      var w0 := DisplayAfter(prefix);
      assert forall j :: 0 <= j < n - 1 ==> prefix[j] == ticks[j];
      var start := ticks[n - 1 - w0.frames];
      assert w0.startTime == Some(start);
      if start < ticks[n - 1] - Window {
        assert DisplayAfter(ticks).frames == 1;
      } else {
        assert DisplayAfter(ticks) == w0.(frames := w0.frames + 1);
      }
    }
  }

  /**
   * When a display window closes, the reported rate times the window's
   * length in seconds is the number of animation frames counted in it.
   */
  lemma DisplayRateMeasuresWindow(s: DisplayWindow, now: real)
    requires s.startTime.Some? && s.startTime.value < now - Window
    ensures DetectDisplayFrameRate(s, now).rate * ((now - s.startTime.value) / 1000.0) == s.frames as real
    ensures DetectDisplayFrameRate(s, now).rate >= 0.0
  {
    RateOverMeasures(s.frames, s.startTime.value, now);
  }
}
