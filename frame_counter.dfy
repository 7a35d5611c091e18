/**
 * The counter logic of `drawAmbilight`: whether a tick draws, how
 * `videoFrameCount` and `skippedFrames` move, and when the high-quality
 * mode compares sampled rows instead of trusting the decoded-frame count.
 * The count `newFrameCount` is `webkitDecodedFrameCount +
 * webkitDroppedFrameCount` read at the tick; `sample` is what the row
 * sampling yields at that tick (`None` when `getImageData` throws).
 */
module FrameCounter {
  import opened Wrappers
  import opened FrameDiff

  /** Frame counts at or below this are never reported as skipped. */
  const SkipCheckAfter: int := 120
  /** More skipped frames than this in a row raise the console warning. */
  const SkipWarningAfter: int := 20

  /** `videoFrameCount`, `skippedFrames`, `oldImage` and `showedHighQualityCompareWarning`. */
  datatype Counters = Counters(videoFrameCount: int, skippedFrames: nat, oldImage: Option<Image>, warned: bool)

  /** The counters after a tick, whether it drew the aura, and whether it warned of skipped frames. */
  datatype Tick = Tick(next: Counters, drawn: bool, skipWarning: bool)

  /**
   * Rows are compared only while the video rate is unknown (0), the display
   * rate is unknown, or the video runs slower than the display.
   */
  predicate CompareGate(videoRate: real, displayRate: real)
  {
    videoRate == 0.0 || displayRate == 0.0 || videoRate < displayRate
  }

  /** `skippedFrames` once the new count has been looked at. */
  function SkippedAfter(c: Counters, newFrameCount: int): nat
  {
    var skipped :=
      if c.videoFrameCount == newFrameCount then 0
      else if c.videoFrameCount < newFrameCount && c.videoFrameCount > SkipCheckAfter && c.videoFrameCount - newFrameCount < -2
      then c.skippedFrames + 1
      else c.skippedFrames;
    if c.videoFrameCount == newFrameCount - 1 then 0 else skipped
  }

  /** One visible, enabled tick of `drawAmbilight`, after the frame rates are updated. */
  function CounterStep(c: Counters, newFrameCount: int, highQuality: bool, videoRate: real, displayRate: real,
                       sample: Option<Image>): (t: Tick)
    ensures t.drawn ==> t.next.videoFrameCount == newFrameCount
    ensures !t.drawn ==> c.videoFrameCount == newFrameCount
  {
    if c.videoFrameCount == newFrameCount && !highQuality then
      Tick(c.(skippedFrames := 0), false, false)
    else
      var skipped := SkippedAfter(c, newFrameCount);
      var warn := skipped > SkipWarningAfter;
      if highQuality && c.videoFrameCount == newFrameCount && CompareGate(videoRate, displayRate) then
        match sample
        case None => Tick(Counters(c.videoFrameCount + 1, skipped, c.oldImage, true), false, warn)
        case Some(image) =>
          if FrameChanged(c.oldImage, image) then Tick(Counters(newFrameCount, skipped, Some(image), c.warned), true, warn)
          else Tick(Counters(c.videoFrameCount + 1, skipped, c.oldImage, c.warned), false, warn)
      else
        Tick(Counters(newFrameCount, skipped, c.oldImage, c.warned), true, warn)
  }

  /** Without high quality an unchanged count draws nothing and clears `skippedFrames`. */
  lemma UnchangedCountWithoutHighQuality(c: Counters, newFrameCount: int, videoRate: real, displayRate: real,
                                         sample: Option<Image>)
    requires c.videoFrameCount == newFrameCount
    ensures var t := CounterStep(c, newFrameCount, false, videoRate, displayRate, sample);
            !t.drawn && t.next == c.(skippedFrames := 0) && !t.skipWarning
  {
  }

  /**
   * With high quality and the comparison gate open, an unchanged count
   * whose rows match the old sample, or cannot be read, draws nothing and
   * moves `videoFrameCount` one past the decoded count; a failed read sets
   * the warning flag, and the old sample is kept.
   */
  lemma HighQualityDuplicate(c: Counters, newFrameCount: int, videoRate: real, displayRate: real, sample: Option<Image>)
    requires c.videoFrameCount == newFrameCount && CompareGate(videoRate, displayRate)
    requires sample.None? || !FrameChanged(c.oldImage, sample.value)
    ensures var t := CounterStep(c, newFrameCount, true, videoRate, displayRate, sample);
            && !t.drawn
            && t.next.videoFrameCount == newFrameCount + 1
            && t.next.skippedFrames == 0
            && t.next.oldImage == c.oldImage
            && t.next.warned == (c.warned || sample.None?)
  {
  }

  /** With high quality, rows that differ from the old sample draw and become the new old sample. */
  lemma HighQualityNewFrame(c: Counters, newFrameCount: int, videoRate: real, displayRate: real, image: Image)
    requires c.videoFrameCount == newFrameCount && CompareGate(videoRate, displayRate)
    requires FrameChanged(c.oldImage, image)
    ensures var t := CounterStep(c, newFrameCount, true, videoRate, displayRate, Some(image));
            t.drawn && t.next.oldImage == Some(image) && t.next.videoFrameCount == newFrameCount
  {
  }

  /** A changed count always draws, in either quality mode, and leaves the old sample alone. */
  lemma ChangedCountDraws(c: Counters, newFrameCount: int, highQuality: bool, videoRate: real, displayRate: real,
                          sample: Option<Image>)
    requires c.videoFrameCount != newFrameCount
    ensures var t := CounterStep(c, newFrameCount, highQuality, videoRate, displayRate, sample);
            t.drawn && t.next.videoFrameCount == newFrameCount && t.next.oldImage == c.oldImage && t.next.warned == c.warned
  {
  }

  /**
   * `skippedFrames` grows by one exactly when more than two frames were
   * decoded since the last drawn one and more than 120 had been counted;
   * it drops to 0 when the count is unchanged or grew by exactly one, and
   * otherwise stays.
   */
  lemma SkippedFramesRule(c: Counters, newFrameCount: int, highQuality: bool, videoRate: real, displayRate: real,
                          sample: Option<Image>)
    ensures var t := CounterStep(c, newFrameCount, highQuality, videoRate, displayRate, sample);
            t.next.skippedFrames == c.skippedFrames + 1 <==>
              c.videoFrameCount > SkipCheckAfter && newFrameCount - c.videoFrameCount > 2
    ensures var t := CounterStep(c, newFrameCount, highQuality, videoRate, displayRate, sample);
            newFrameCount == c.videoFrameCount || newFrameCount == c.videoFrameCount + 1 ==> t.next.skippedFrames == 0
    ensures var t := CounterStep(c, newFrameCount, highQuality, videoRate, displayRate, sample);
            !(c.videoFrameCount > SkipCheckAfter && newFrameCount - c.videoFrameCount > 2) &&
            newFrameCount != c.videoFrameCount && newFrameCount != c.videoFrameCount + 1 ==>
              t.next.skippedFrames == c.skippedFrames
    ensures var t := CounterStep(c, newFrameCount, highQuality, videoRate, displayRate, sample);
            t.skipWarning <==> t.next.skippedFrames > SkipWarningAfter
  {
  }

  /** Once the warning flag is set no tick clears it, and only a failed read sets it. */
  lemma WarningFlagMonotone(c: Counters, newFrameCount: int, highQuality: bool, videoRate: real, displayRate: real,
                            sample: Option<Image>)
    ensures var t := CounterStep(c, newFrameCount, highQuality, videoRate, displayRate, sample);
            (c.warned ==> t.next.warned) && (t.next.warned && !c.warned ==> sample.None? && highQuality)
  {
  }

  /**
   * After a high-quality duplicate, the next tick at the same decoded count
   * draws without comparing: `videoFrameCount` is one past the count, so the
   * count looks changed. With no new decoded frames the aura is therefore
   * redrawn on every other tick.
   */
  lemma DuplicateThenForcedDraw(c: Counters, newFrameCount: int, videoRate: real, displayRate: real,
                                sample1: Option<Image>, sample2: Option<Image>)
    requires c.videoFrameCount == newFrameCount && CompareGate(videoRate, displayRate)
    requires sample1.None? || !FrameChanged(c.oldImage, sample1.value)
    ensures var t1 := CounterStep(c, newFrameCount, true, videoRate, displayRate, sample1);
            var t2 := CounterStep(t1.next, newFrameCount, true, videoRate, displayRate, sample2);
            !t1.drawn && t2.drawn && t2.next.videoFrameCount == newFrameCount && t2.next.oldImage == c.oldImage
  {
    HighQualityDuplicate(c, newFrameCount, videoRate, displayRate, sample1);
    var t1 := CounterStep(c, newFrameCount, true, videoRate, displayRate, sample1);
    ChangedCountDraws(t1.next, newFrameCount, true, videoRate, displayRate, sample2);
  }
}
