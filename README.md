# YouTube Ambilight — frame pipeline and DOM-path reporting, in Dafny

YouTube Ambilight is a browser extension that paints a blurred, scaled "aura"
of the playing video around the YouTube player. Its content script keeps one
`Ambilight` object per page. That object:

- owns a stack of ring canvases. Each ring is the video drawn again at a
  slightly larger (or smaller) scale.
- keeps a small render buffer, sized from the video's decoded resolution.
- keeps a compare buffer at the decoded resolution.
- runs a loop driven by `requestAnimationFrame`. On each tick the loop checks
  whether the player or the video changed size, works out whether a new video
  frame arrived, and redraws the rings when one did.

The same object stores its settings in `localStorage`, using debounced writes.
A second module, used for error reports, prints where an element sits in the
document: as an indented path of CSS-like selectors, or as a merged tree of the
paths of every element a selector matches.

This project models that bookkeeping and proves what it promises. It covers
the following.

- **Sizes.** The project computes:
  - the number of rings;
  - the render size;
  - the clip in pixels of horizontal bars;
  - the per-axis aspect ratio;
  - the per-ring scales;
  - the shadow scale;
  - the gradient keyframes.

  Files: `geometry.dfy`, and `YoutubeAmbilight.Ambilight.UpdateSizes` /
  `ResizeCanvasses` / `CheckVideoSize`.
- **The animation-frame loop.** At most one callback is ever outstanding
  (`scheduled`). `nextFrame` re-arms the loop only while the extension is
  enabled, the video is playing and the page is a video page.
- **The frame counters of `drawAmbilight`.** These are `videoFrameCount` and
  `skippedFrames`, plus the high-quality mode. That mode samples pixel rows of
  the compare buffer and compares them with the previous sample, so a frame
  shown twice is not drawn twice. Files: `frame_counter.dfy` and
  `frame_diff.dfy`.
- **The two frame-rate windows.** These are the video (decoded) rate and the
  display (animation-frame) rate. File: `frame_rate.dfy`.
- **Settings.** `getSetting` and `setSetting` store values with an offset
  (blur − 30, bloom − 7). A pending write for a key is replaced by a newer one.
  Reading a value back gives what was written. File: `settings.dfy`.
- **The `class` / `removeClass` helpers** on elements' space-separated
  `className`. File: `class_names.dfy`.
- **The DOM-path report.** It covers:
  - node selectors;
  - the ancestor path of a node;
  - its indented rendering;
  - the tree entries with `findEntry` and `entryToString`;
  - the merge of several paths into one tree, which fails when the paths do
    not share a root.

  File: `node_tree.dfy`. Supporting files: `text.dfy` (split, join, ASCII
  lower case, string order, sort) and `decimal.dfy` (decimal printing and
  `parseInt`).

Modelling choices:

- JavaScript numbers are `real`. `Math.round(x)` is `Round(x) = ⌊x + 1/2⌋`.
- A page reading comes in as a `Measurements` record. This covers the player
  box, the decoded size, the fullscreen markers and the window size.
- `performance.now()`, the decoded-plus-dropped frame count and
  `getImageData` come in as arguments. `getImageData` is a `Pixels` oracle:
  either readable rows, or `Blocked` when it throws.
- A canvas is a value: a serial number standing for the element, its size and
  its scale.
- Nodes of the document are numbered in document order. A parent always
  carries a smaller number than its children.
- The entries of the selector tree are values. The "previous entry" reference
  of the merge loop is a cursor: the path of child indices from the root.

Where the project's written design notes and the code disagree, the model
follows the code:

- **Render-size baseline.** It is 512, not 384. The scale is also capped at 4:
  1920×1080 renders at 910×512, not 683×384.
- **Rows sampled in high-quality mode.** Only two rows are compared, at
  `⌈h/3⌉` and `2⌈h/3⌉`, not three.
- **Value types of `getSetting`.**
  - Checkbox settings are compared with `'true'`.
  - Only `blur` and `bloom` are parsed as numbers.
  - Every other stored list setting comes back as the stored string.
- **Features the code does not have.** There is no frame-rate cap, no idle
  upkeep task and no blending of frames. The design notes describe these, but
  the code has none of them.

## Model

| member | source | states |
|---|---|---|
| ClassNames.WithClassList | src/scripts/youtube-ambilight.js:45-50 | after `class(c)` the space-separated list is unchanged when `c` is already in it, else it is the old list with `c` appended |
| ClassNames.WithClassIdempotent | src/scripts/youtube-ambilight.js:45-50 | adding the same class twice is the same as adding it once |
| ClassNames.WithoutUndoesWith | src/scripts/youtube-ambilight.js:45-59 | `removeClass(c)` after `class(c)` on a name without `c` restores the original `className` exactly |
| ClassNames.WithoutClassList | src/scripts/youtube-ambilight.js:51-59 | `removeClass(c)` splices out only the first occurrence of `c`: the new split is the old one with the first `c` removed and every other name in order, or `[""]` when `c` was the only name (JavaScript's `''.split(' ')`) |
| ClassNames.Element.Class | src/scripts/youtube-ambilight.js:45-50 | the element's `className` becomes `WithClass` of the old one |
| ClassNames.Element.RemoveClass | src/scripts/youtube-ambilight.js:51-59 | the element's `className` becomes `WithoutClass` of the old one |
| Text.JoinSplit | src/scripts/youtube-ambilight.js:52-56 | joining the pieces of a split with the same separator gives back the string |
| Text.SplitJoin | src/scripts/libs/ambilight-sentry.js:29-32 | splitting a join of separator-free pieces gives back the pieces |
| Text.SplitPiecesFree | src/scripts/youtube-ambilight.js:46 | no piece of a split contains the separator |
| Text.ToLowerAscii | src/scripts/libs/ambilight-sentry.js:14 | same length; each character lower-cased when it is an ASCII capital, else kept |
| Text.Indent | src/scripts/libs/ambilight-sentry.js:31 | `' '.repeat(n)`: exactly `n` spaces |
| Text.Sort | src/scripts/libs/ambilight-sentry.js:13 | the result is sorted by code-unit order and is a permutation of the input |
| Text.SortedUnique | src/scripts/libs/ambilight-sentry.js:13 | two sorted sequences with the same multiset are equal |
| Text.SortPermutationInvariant | src/scripts/libs/ambilight-sentry.js:13 | the sorted class list does not depend on the order the classes came in |
| Text.StrLeTotal | src/scripts/libs/ambilight-sentry.js:13 | the string order `sort()` uses is total |
| Text.StrLeAntisymmetric | src/scripts/libs/ambilight-sentry.js:13 | the string order is antisymmetric |
| Text.StrLeTransitive | src/scripts/libs/ambilight-sentry.js:13 | the string order is transitive |
| Decimal.IntToDecimal | src/scripts/youtube-ambilight.js:1248 | the string `localStorage` stores for a number: non-empty, a leading digit for non-negative numbers, a `-` for negative ones |
| Decimal.ParseInt | src/scripts/youtube-ambilight.js:1262 | `parseInt` of a string starting with a digit yields a non-negative number |
| Decimal.ParseIntOfDecimal | src/scripts/youtube-ambilight.js:1247-1264 | `parseInt` of the stored decimal string of any integer gives back that integer |
| Settings.Default | src/scripts/youtube-ambilight.js:149-287 | the default of a list setting is a number, of a checkbox a flag |
| Settings.Encode | src/scripts/youtube-ambilight.js:1233-1251 | the stored form of a flag is `"true"` exactly when the flag is set |
| Settings.Decode | src/scripts/youtube-ambilight.js:1253-1268 | a missing key reads as the default; a checkbox is `stored == "true"`; for blur and bloom it is NaN exactly when `parseInt` fails, and otherwise the parsed number plus the key's offset; other list settings come back as the stored string |
| Settings.SettingRoundTrip | src/scripts/youtube-ambilight.js:1233-1268 | reading back a written value gives `ReadBack`; for blur, bloom and checkboxes that is the value itself |
| Settings.ScheduleWrite | src/scripts/youtube-ambilight.js:1241-1250 | the new timer replaces the key's pending one and nothing else; the pending writes stay one per key |
| Settings.CompleteWrite | src/scripts/youtube-ambilight.js:1247-1250 | a fired timer is removed and its key no longer has a pending write; consistency is kept |
| Settings.AtMostOnePendingWrite | src/scripts/youtube-ambilight.js:1244-1247 | two pending timers for the same key are the same timer |
| Settings.SettingsStore.GetSetting | src/scripts/youtube-ambilight.js:1253-1268 | a key absent from storage reads as its default |
| Settings.SettingsStore.SetSetting | src/scripts/youtube-ambilight.js:1233-1251 | the in-memory value changes at once; storage is untouched; exactly one pending write for the key holds the encoded value |
| Settings.SettingsStore.FireTimer | src/scripts/youtube-ambilight.js:1247-1250 | the timer's value lands in storage under its key and the timer is cleared; in-memory values are unchanged |
| Settings.SetThenRead | src/scripts/youtube-ambilight.js:1233-1268 | a `setSetting` followed by its timer firing makes `getSetting` return `ReadBack` of the value |
| Geometry.Round | src/scripts/youtube-ambilight.js:538 | `Math.round`: within half a unit of its argument, ties rounding up |
| Geometry.SpreadLevels | src/scripts/youtube-ambilight.js:449 | the ring count is at least 2 and is either 2 or `round(spread/edge) + innerStrength + 1` |
| Geometry.SpreadLevelsMonotone | src/scripts/youtube-ambilight.js:449 | a wider spread never yields fewer rings |
| Geometry.DefaultSpreadLevels | src/scripts/youtube-ambilight.js:449 | spread 20 and edge 20 give 4 rings |
| Geometry.RenderScale | src/scripts/youtube-ambilight.js:553-556 | the scale is the least of 4, width/512 and height/512 |
| Geometry.ClipFactor | src/scripts/youtube-ambilight.js:566 | the part of the height left after clipping bars lies in [0.02, 1] for clips up to 49 %, and is 1 without clip |
| Geometry.RenderSizeSmallSource | src/scripts/youtube-ambilight.js:553-562 | the scale falls below 1 exactly when the source is under 512 on some side, and such a source renders at 512×512 |
| Geometry.RenderSizeAtLeastMin | src/scripts/youtube-ambilight.js:553-568 | the render width is at least 512, and without clip so is the height |
| Geometry.RenderSizeClippedHeight | src/scripts/youtube-ambilight.js:553-568 | for clips up to 49 % the render height is at least 10 px |
| Geometry.RenderSizeShortSide | src/scripts/youtube-ambilight.js:553-568 | for sources up to 4×512 on the short side, the short side renders at exactly 512 |
| Geometry.RenderSize1080p | src/scripts/youtube-ambilight.js:553-568 | 1920×1080 without clip renders at 910×512 |
| Geometry.ClipPixels | src/scripts/youtube-ambilight.js:535-538 | the bar clip in pixels lies between 0 and half the player height for clips up to 50 % |
| Geometry.AxisRatio | src/scripts/youtube-ambilight.js:636-643 | `ratio.x·w == ratio.y·h ==` the longer side; both at least 1 and one of them exactly 1 |
| Geometry.RingScale | src/scripts/youtube-ambilight.js:651-666 | ring `innerStrength` has scale 1; outer rings grow linearly with the step; inner rings shrink linearly, floored at 0 |
| Geometry.RingScaleMonotone | src/scripts/youtube-ambilight.js:651-666 | ring scales never decrease outward and are never negative |
| Geometry.RingGrowthUniform | src/scripts/youtube-ambilight.js:636-666 | outward rings grow the player by the same number of pixels on both axes |
| Geometry.ShadowScale | src/scripts/youtube-ambilight.js:672 | the shadow is scaled strictly beyond the last ring |
| Geometry.Easing | src/scripts/youtube-ambilight.js:723 | the easing exponent is positive and equals `25 / fadeOutEasing` |
| Geometry.KeyframePositionsIncrease | src/scripts/youtube-ambilight.js:712-721 | keyframe positions strictly increase inside (0, 1) |
| Geometry.PlotKeyframes | src/scripts/youtube-ambilight.js:712-721 | `length − 1` keyframes at `i/length` with opacity `pow(i/length, powerOf)·darkest`, strictly increasing in (0, 1) |
| FrameRate.RateOverMeasures | src/scripts/youtube-ambilight.js:811 | a rate times the window length in seconds is the frame count, and a non-negative count gives a non-negative rate |
| FrameRate.DetectVideoFrameRate | src/scripts/youtube-ambilight.js:799-823 | the window is either kept or reopened at the sample |
| FrameRate.VideoRateMeasuresWindow | src/scripts/youtube-ambilight.js:805-821 | the window closes only on a new count more than 1000 ms in; a changed rate times the window in seconds is the frames decoded in it |
| FrameRate.VideoRateNonNegative | src/scripts/youtube-ambilight.js:806-821 | a non-decreasing frame count never yields a negative rate |
| FrameRate.StartAsWritten | src/scripts/youtube-ambilight.js:1039-1051 | `start()` leaves the window the detector reads untouched |
| FrameRate.StartAsWrittenMixesInThePause | src/scripts/youtube-ambilight.js:1042-1043 | after a 10 s pause the first rate is one frame over 10.016 s, below 1 fps |
| FrameRate.RestartWindow | src/scripts/youtube-ambilight.js:1042-1043 | the intended reset: start frame 0, the last rate kept |
| FrameRate.RestartWindowIgnoresThePause | src/scripts/youtube-ambilight.js:809-821 | after the reset the next closing sample reports no rate spanning the pause and keeps the old one |
| FrameRate.DetectDisplayFrameRate | src/scripts/youtube-ambilight.js:825-846 | every animation frame leaves at least one frame counted in the window |
| FrameRate.DisplayWindowCountsTicks | src/scripts/youtube-ambilight.js:825-846 | after any run of animation frames the window starts at one of them, counts it and every later one, all within a second of its start |
| FrameRate.DisplayRateMeasuresWindow | src/scripts/youtube-ambilight.js:827-828 | a closing display window reports the frames counted per second of the window, never negative |
| FrameDiff.PartSize | src/scripts/youtube-ambilight.js:894 | `Math.ceil(h/3)` |
| FrameDiff.SampledRowsShape | src/scripts/youtube-ambilight.js:894-900 | two rows (heights 3 and ≥ 5), one (2, 4) or none (0, 1), at the first multiples of the part size, inside the buffer |
| FrameDiff.Sample | src/scripts/youtube-ambilight.js:897-908 | the sample fails exactly when a row must be read from a blocked canvas; otherwise row `k` is the pixels of sampled row `k` |
| FrameDiff.SampleRows | src/scripts/youtube-ambilight.js:892-900 | the sampling loop yields `Sample` |
| FrameDiff.NotChangedIffPrefixes | src/scripts/youtube-ambilight.js:775-797 | a frame is not new exactly when an old sample exists with as many rows and each old row is a prefix of the new row |
| FrameDiff.SameSampleIsNotNew | src/scripts/youtube-ambilight.js:775-797 | identical samples are never a new frame |
| FrameDiff.IsNewFrame | src/scripts/youtube-ambilight.js:775-797 | the nested comparison loop returns `FrameChanged` |
| FrameCounter.CounterStep | src/scripts/youtube-ambilight.js:867-923 | a drawn tick sets `videoFrameCount` to the new count; a tick that draws nothing happened at an unchanged count |
| FrameCounter.UnchangedCountWithoutHighQuality | src/scripts/youtube-ambilight.js:868-870 | without high quality an unchanged count draws nothing, clears `skippedFrames`, changes nothing else |
| FrameCounter.HighQualityDuplicate | src/scripts/youtube-ambilight.js:886-914 | a duplicate or unreadable sample draws nothing, moves `videoFrameCount` one past the count, keeps the old sample, sets the warning flag only on a failed read |
| FrameCounter.HighQualityNewFrame | src/scripts/youtube-ambilight.js:886-923 | changed rows draw and become the old sample |
| FrameCounter.ChangedCountDraws | src/scripts/youtube-ambilight.js:867-923 | a changed count always draws and leaves the old sample and the warning flag alone |
| FrameCounter.SkippedFramesRule | src/scripts/youtube-ambilight.js:868-879 | `skippedFrames` grows iff more than 2 frames came after more than 120; it is cleared on a count that stays or grows by one; the warning fires iff it exceeds 20 |
| FrameCounter.WarningFlagMonotone | src/scripts/youtube-ambilight.js:903-907 | the compare warning flag is never cleared by a tick and is set only by a failed high-quality read |
| FrameCounter.DuplicateThenForcedDraw | src/scripts/youtube-ambilight.js:886-923 | after a duplicate the next tick at the same count draws without comparing |
| YoutubeAmbilight.NewCanvas | src/scripts/youtube-ambilight.js:464 | a fresh canvas has the default 300×150 size and no scale |
| YoutubeAmbilight.Ambilight.constructor | src/scripts/youtube-ambilight.js:123-363 | the field initialisation of lines 123-146 and the `recreateCanvasses` call at line 363: the settings as given, the 256×256 render size, zeroed counters and measure fields, the initial frame-rate windows, hidden, no pending frame, exactly `SpreadLevels` canvases; the DOM setup in between is not modelled, and construction stops before `enable(true)` at line 409 |
| YoutubeAmbilight.Ambilight.RecreateCanvasses | src/scripts/youtube-ambilight.js:448-512 | exactly `SpreadLevels` canvases; the old ones below that index kept in order, the rest dropped, fresh distinct ones appended |
| YoutubeAmbilight.Ambilight.SizeCanvasses | src/scripts/youtube-ambilight.js:597-602 | every canvas takes the render size; identity and scale kept |
| YoutubeAmbilight.Ambilight.ResizeCanvasses | src/scripts/youtube-ambilight.js:631-672 | canvas `i` gets `RingScale(i)` on each axis with the player's axis ratio; the shadow gets `ShadowScale` of the last ring |
| YoutubeAmbilight.Ambilight.UpdateSizes | src/scripts/youtube-ambilight.js:527-618 | undefined and no change when disabled; true and no change when minimized; otherwise the bar clip and box recorded, then false with every other field it may write (sizes, canvases, buffers, VR and fullscreen flags, shadow scales, counter) untouched when not ready, else true with `SizesApplied`: render targets set, every ring at the render size and scaled as ring `k`, the shadow scaled past the last ring, the counter reset; true exactly when enabled and minimized or ready |
| YoutubeAmbilight.Ambilight.ApplySizes | src/scripts/youtube-ambilight.js:547-617 | `SizesApplied`: the render targets from the ready player; ring `k` is the old ring `k` at the render size with `RingScale(k)` on each axis for the player's axis ratio; the shadow scales are `ShadowScale` of the last ring's; the counter is 0 |
| YoutubeAmbilight.Ambilight.SizeAndScaleRings | src/scripts/youtube-ambilight.js:597-613 | every ring takes the render size and then its `RingScale` for the clipped player's axis ratio; the shadow scales follow the last ring |
| YoutubeAmbilight.Ambilight.SetRenderTargets | src/scripts/youtube-ambilight.js:547-611 | source size, render size, buffers, bar clip of the compare buffer and the fullscreen flags as the readings give them |
| YoutubeAmbilight.Ambilight.CheckVideoSize | src/scripts/youtube-ambilight.js:736-752 | without a resize, move or new decoded size it returns true and changes nothing; otherwise the width and top are recorded and it returns what `updateSizes` does: undefined exactly when disabled, true with every field but the recorded width and top untouched when minimized (and when disabled), false with every field but those and the bar clip and box untouched when not ready, true with `SizesApplied` when ready; the counter is reset exactly in that last case |
| YoutubeAmbilight.Ambilight.ScheduleNextFrame | src/scripts/youtube-ambilight.js:768-773 | a frame is pending afterwards iff one was before or the pipeline is on and on a video page; never two |
| YoutubeAmbilight.Ambilight.Hide | src/scripts/youtube-ambilight.js:1054-1065 | the aura is hidden |
| YoutubeAmbilight.Ambilight.Show | src/scripts/youtube-ambilight.js:1067-1071 | the aura is shown |
| YoutubeAmbilight.Ambilight.DetectVideoFrameRate | src/scripts/youtube-ambilight.js:799-823 | the fields follow `FrameRate.DetectVideoFrameRate` |
| YoutubeAmbilight.Ambilight.DetectDisplayFrameRate | src/scripts/youtube-ambilight.js:825-846 | the fields follow `FrameRate.DetectDisplayFrameRate` |
| YoutubeAmbilight.Ambilight.DrawAmbilight | src/scripts/youtube-ambilight.js:848-938 | `FrameOutcome`: nothing changes when disabled; when VR, filling the screen, or fullscreen not enabled it hides and draws, counts and warns nothing; otherwise it shows, both windows move as the detectors say, and counters, draw and skip warning are `CounterStep` on the compare-buffer sample |
| YoutubeAmbilight.Ambilight.DrawVisible | src/scripts/youtube-ambilight.js:860-923 | shown; both windows updated at `now`; counters as `CounterStep` with the updated rates |
| YoutubeAmbilight.Ambilight.DetectFrameRates | src/scripts/youtube-ambilight.js:864-865 | the video window follows `FrameRate.DetectVideoFrameRate` and the display window `FrameRate.DetectDisplayFrameRate` |
| YoutubeAmbilight.Ambilight.AdvanceCounters | src/scripts/youtube-ambilight.js:867-923 | counters, draw decision and skip warning as `CounterStep` |
| YoutubeAmbilight.Ambilight.UpdateSkippedFrames | src/scripts/youtube-ambilight.js:868-876 | `skippedFrames` as `SkippedAfter` |
| YoutubeAmbilight.Ambilight.CompareOrDraw | src/scripts/youtube-ambilight.js:886-923 | the row comparison and final count update as `CounterStep` |
| YoutubeAmbilight.Ambilight.CheckAndDraw | src/scripts/youtube-ambilight.js:757-758 | the size check passes exactly when nothing changed or enabled and minimized or ready; it leaves the counters with `videoFrameCount` reset only by an applied resize, and the windows as they were; from there the draw, the counters, the windows and the skip warning are exactly `DrawAmbilight`'s (`FrameOutcome`) when the check passes, and nothing is drawn or counted when it fails; unless a resize was applied, the hide condition and the compare buffer are the ones from before |
| YoutubeAmbilight.Ambilight.SizeCheck | src/scripts/youtube-ambilight.js:736-757 | the `if (this.checkVideoSize())` test: true exactly when nothing changed or enabled and minimized or ready; counters as `CheckedCounters`, frame-rate windows unchanged, and the VR/fullscreen flags and compare buffer unchanged unless a resize was applied |
| YoutubeAmbilight.Ambilight.SizeVerdict | src/scripts/youtube-ambilight.js:736-757 | the truthiness of `checkVideoSize()`, and `videoFrameCount` reset exactly when the sizes were applied; otherwise the VR/fullscreen flags and compare buffer are unchanged |
| YoutubeAmbilight.Ambilight.DrawIfSized | src/scripts/youtube-ambilight.js:757-758 | `FrameOutcome` from the given start state: `DrawAmbilight`'s outcome when the check passed, nothing drawn or changed otherwise |
| YoutubeAmbilight.Ambilight.NextFrame | src/scripts/youtube-ambilight.js:754-766 | afterwards a frame is pending iff enabled, playing and on a video page; nothing is drawn while disabled |
| YoutubeAmbilight.Ambilight.Start | src/scripts/youtube-ambilight.js:1039-1051 | as written: on a video page and enabled the two measure fields become 0, the compare warning is re-armed and a frame is pending, while the window the detector reads stays as `StartAsWritten` says (unchanged); otherwise nothing changes |
| YoutubeAmbilight.Ambilight.StartRestartingWindow | src/scripts/youtube-ambilight.js:1039-1051 | the corrected `start`: on a video page and enabled the detector's window becomes `RestartWindow` of the old one, the warning is re-armed and a frame is pending; otherwise nothing changes |
| YoutubeAmbilight.Ambilight.OnSeeked | src/scripts/youtube-ambilight.js:424-427 | the frame counter is reset and a frame is scheduled as `scheduleNextFrame` decides |
| NodeTree.ClassSelector | src/scripts/libs/ambilight-sentry.js:13 | the class part is empty exactly when the element has no classes |
| NodeTree.NodeSelector | src/scripts/libs/ambilight-sentry.js:9-15 | a node without tag name gives its node name; otherwise the selector starts with the lower-cased tag, and is just that without id and classes |
| NodeTree.SelectorIgnoresClassOrder | src/scripts/libs/ambilight-sentry.js:13 | permuting an element's classes does not change its selector |
| NodeTree.AncestorPathIsChain | src/scripts/libs/ambilight-sentry.js:17-27 | the path ends at the element, each entry is the parent of the next, and it starts at a node without tagged parent |
| NodeTree.ChainIsAncestorPath | src/scripts/libs/ambilight-sentry.js:17-27 | any such parent chain is the path of its last node, so the path is unique |
| NodeTree.GetNodeTree | src/scripts/libs/ambilight-sentry.js:17-27 | the `unshift` loop yields the ancestor path, and `[]` for no element |
| NodeTree.GetNodeTreeString | src/scripts/libs/ambilight-sentry.js:29-32 | no element gives the empty string |
| NodeTree.NodeTreeStringLines | src/scripts/libs/ambilight-sentry.js:29-32 | the string has one line per path node, line `i` being `i` spaces and the node's selector |
| NodeTree.CreateNodeEntry | src/scripts/libs/ambilight-sentry.js:34-38 | an entry for the node at the level, with no children |
| NodeTree.FindEntryIsFirstInPreOrder | src/scripts/libs/ambilight-sentry.js:39-45 | `findEntry` returns the first entry in pre-order holding the node, or nothing |
| NodeTree.FindInChildrenIsFirstInPreOrder | src/scripts/libs/ambilight-sentry.js:41-44 | the search through the children returns the first pre-order match in them |
| NodeTree.EntryToStringIsPreOrder | src/scripts/libs/ambilight-sentry.js:46-52 | `entryToString` is the pre-order lines of the entries joined by newlines |
| NodeTree.ChildStringsArePreOrder | src/scripts/libs/ambilight-sentry.js:48-51 | the children's strings joined are the pre-order lines of all children |
| NodeTree.PushAtReachesChild | src/scripts/libs/ambilight-sentry.js:80-82 | pushing a child at the cursor appends it to that entry's children and keeps its level and its path |
| NodeTree.PushAtKeepsLeveled | src/scripts/libs/ambilight-sentry.js:80 | a child one level below its parent keeps every level one more than its parent's |
| NodeTree.PushAtKeepsDistinct | src/scripts/libs/ambilight-sentry.js:74-82 | pushing a node not yet among the children keeps children's nodes distinct |
| NodeTree.MergeStep | src/scripts/libs/ambilight-sentry.js:59-83 | one node of a path fails exactly when a tree exists, the path has not started, and the node is not the root; otherwise the cursor moves |
| NodeTree.MergePath | src/scripts/libs/ambilight-sentry.js:59-83 | merging one path keeps the cursor valid, and fails only with the not-same-document error |
| NodeTree.MergePaths | src/scripts/libs/ambilight-sentry.js:57-84 | the only failure is the not-same-document error |
| NodeTree.MergeStepKeepsShape | src/scripts/libs/ambilight-sentry.js:74-82 | levels stay one per depth and children distinct after a step |
| NodeTree.MergePathExtendsTrail | src/scripts/libs/ambilight-sentry.js:59-83 | after a path the cursor stands at the path's last node, and entries already there keep their paths |
| NodeTree.MergePathFailure | src/scripts/libs/ambilight-sentry.js:65-71 | a path fails exactly when its first node is not the root of the existing tree |
| NodeTree.MergePathUnderWay | src/scripts/libs/ambilight-sentry.js:74-82 | once a path has started, the rest of it never fails |
| NodeTree.MergePathsKeepsShape | src/scripts/libs/ambilight-sentry.js:57-84 | merging all paths keeps levels one per depth and children distinct |
| NodeTree.MergePathsKeepsEntries | src/scripts/libs/ambilight-sentry.js:57-84 | entries present before merging more paths keep their places |
| NodeTree.MergePathsHoldsEveryPath | src/scripts/libs/ambilight-sentry.js:57-84 | the merged tree holds every merged path from its root |
| NodeTree.MergePathsFailure | src/scripts/libs/ambilight-sentry.js:60-71 | merging fails exactly when some path starts elsewhere than the root; on success the root stays |
| NodeTree.MergePathsOnPaths | src/scripts/libs/ambilight-sentry.js:57-84 | every entry of the merged tree lies on some merged path |
| NodeTree.Paths | src/scripts/libs/ambilight-sentry.js:54-55 | one ancestor path per match, in order |
| NodeTree.SelectorTreeStringOutcome | src/scripts/libs/ambilight-sentry.js:53-86 | no match gives the "No nodes found" message; it fails exactly when some match lies under a different root, with the not-same-document error |
| NodeTree.SelectorTreeStringTree | src/scripts/libs/ambilight-sentry.js:53-86 | on success the string renders a tree rooted at the first path's root that holds every path, has nothing off the paths, keeps levels and has distinct children |
| NodeTree.GetSelectorTreeString | src/scripts/libs/ambilight-sentry.js:53-87 | the nested loops with the `previousEntry` cursor compute `SelectorTreeString` |

## Left out

- Canvas drawing is not modelled: `drawImage`, `fillRect` and `clear`. A draw is the `drawn` result of `DrawAmbilight`, and pixel reads come from an oracle.
- The WebGL rendering branch (youtube-ambilight.js:477-509, and the `webglEnabled` paths of `drawAmbilight`) is not modelled. The 2D-canvas path is modelled.
- CSS and style strings are not modelled: the player and container margins, the `filter` string (584-589), the shadow gradients (`getGradient`, 675-701), `updateStyles`, scroll handling and immersive mode. They only write presentation. The keyframes that feed the gradients are modelled.
- Timers, `requestAnimationFrame` and `setTimeout` become events. `pendingFrameCallbacks` counts outstanding animation-frame callbacks. `FireTimer` runs a settings timer. The 500 ms delay and the ordering of callbacks are not modelled.
- Floating-point effects are not modelled: rounding of IEEE doubles, `Infinity` and `NaN` from a zero-height player.
- YoutubeAmbilight.Ambilight.UpdateSizes: requires `RatioComputable`, a player box whose clipped height and width give a defined ratio. The same requires sits on `CheckVideoSize`, `CheckAndDraw` and `NextFrame`. The model does not cover the `Infinity`/`NaN` scales JavaScript would produce for a degenerate box.
- `Math.pow` is a function parameter of `PlotKeyframes`. Its values are not modelled.
- Settings values are integers. Fractional slider values are not modelled.
- `toLowerCase` handles ASCII letters only. `sort()` compares code units, and the model's `char` sequence stands in for UTF-16 strings.
- `parseInt` is modelled for optional leading blanks, a sign and decimal digits. Hex prefixes and radix guessing are not modelled, since stored values never carry them.
- `enable`, `disable`, `toggleEnabled`, `setDarkTheme`, settings-menu construction, page detection and `setFeedbackLink` are not modelled. They drive the UI around the pipeline, not its bookkeeping.
- YoutubeAmbilight.Ambilight.Hide and YoutubeAmbilight.Ambilight.Show: only the `isHidden` flag is modelled. The opacity change, the delayed clear and the theme switch are not.
- YoutubeAmbilight.Ambilight.NextFrame: the `catch` that logs and clears the page-check interval is not modelled, because no modelled step throws. Console warnings are not modelled either. The skip warning is the `skipWarning` result.
- The `ended` and `emptied` handlers of `setupVideoPlayer` are not modelled. They only clear canvases and reset a setting through `setSetting`.
- The error-reporting plumbing of ambilight-sentry.js is not modelled: client setup, scopes, `$.param` and the page-state report. Selector matching (`$.sa`) is an input: the matched nodes in document order.
- NodeTree: entry objects are values, and the merge loop's `previousEntry` reference is a child-index cursor. Aliasing between entries is not modelled. `findEntry` is modelled, although `getSelectorTreeString` looks up children with `children.find` instead.
- NodeTree.NodeTreeStringLines: requires selectors free of newlines (`SingleLineSelectors`). A tag, id or class containing a newline would split a line, so the line-by-line reading does not hold for such a document.

## Findings

| source | as written | input that shows it | evidently intended | confidence | as-written member | corrected member |
|---|---|---|---|---|---|---|
| src/scripts/youtube-ambilight.js:1042-1043 | `start()` resets `videoFrameRateMeasureStartFrame` and `videoFrameRateMeasureStartTime`, but `detectVideoFrameRate` (799-823) reads `videoFrameRateStartFrame` and `videoFrameRateStartTime`, so the reset has no effect | a window opened at frame 100 at 1000 ms; playback pauses and resumes; frame 101 arrives at 11016 ms, and the reported rate is 1 / 10.016 s ≈ 0.1 fps | restarting playback restarts the measuring window, so no rate spans the pause | not executed | FrameRate.StartAsWrittenMixesInThePause | FrameRate.RestartWindowIgnoresThePause |

`YoutubeAmbilight.Ambilight.Start` follows the code as written (`FrameRate.StartAsWritten`); `YoutubeAmbilight.Ambilight.StartRestartingWindow` is the corrected `start` (`FrameRate.RestartWindow`).
