# SimpleMusic2 core, modelled in Dafny

SimpleMusic2 is an Android music player. This project models its
computational core as immutable datatypes and pure functions, and proves
properties about them.

- **The two spectrum visualizers.**
  - `VisualizerView` in `VisualActivity.java` is the "classic" stacked-segment view.
  - `VizBox` is the 8-level LED view.
  - Both turn a signed-byte FFT capture into rectangles to draw. They average band-limited bin magnitudes into 16 or 32 bars, scale them by a running peak that decays after every frame, and lay out and colour the segments.
- **The `artist|title|duration|data` queue strings.**
  - `SongInfo.fromQueueString` decodes them; `DatabaseHelper.getQueueItems` and `MainActivity` build them.
  - The model also covers the small formatters (`getFilename`, `getFormattedDuration`, `formatTime`).
  - It covers the rule that splits `"Artist - Title"` out of a title whose artist is `"<unknown>"`.
- **`DatabaseHelper` as an abstract store.**
  - The `media`, `queue` and `state` tables are in-memory rows.
  - Media is loaded from the media store, and the queue is filled with a shuffle.
  - The store covers the state row's getters, setters and defaults, the current-song line, and reset.
- **The queue navigation of `PlayerActivity` and `MediaListActivity`.**
  - Playing a position, playing next and playing previous.
  - The arithmetic for skipping, the seek bar and progress.
  - How a list row shows an item.

Modules, one per file:

| file | module | models |
|---|---|---|
| `java_int.dfy` | `JavaInt` | Java's truncating `/` and `%`, `(int)` casts, `Math.round`, `(int) Math.sqrt` |
| `options.dfy` | `Options` | `null` as `Option`, escaping exceptions as `Outcome` |
| `text.dfy` | `Text` | `String.split`, `indexOf`, `contains`, `Long.parseLong`, `Long.toString`, `%02d` |
| `spectrum.dfy` | `Spectrum` | aggregation, gain and view state, which both visualizers share |
| `visualizer_view.dfy` | `ClassicView` | `VisualizerView.onDraw`, `getBarColor` |
| `viz_box.dfy` | `LedView` | `VizBox.onDraw` |
| `song_info.dfy` | `Song` | `SongInfo`, the queue-string codec, the formatters, the unknown-artist split |
| `database_helper.dfy` | `Store` | `DatabaseHelper` |
| `player_activity.dfy` | `Player` | `PlayerActivity` |
| `media_list_activity.dfy` | `MediaList` | `MediaListActivity` |

Java's float constants are treated as exact rationals:
- 0.2, 0.3, 0.1, 1.5 and 0.95;
- the 4096/22050 band limit;
- the spacing factor, where `W * 0.2 * n / (n + 0.2 * n)` becomes `W / 6`.

Float `(int)` casts are truncations toward zero, written out wherever a value can be negative.

SQLite behaviour the store relies on is fixed explicitly:
- rows come back in insertion order;
- `AUTOINCREMENT` ids are never reused after a delete;
- foreign keys are not enforced;
- a negative `OFFSET` acts as 0.

Notable behaviour of the code that the model reproduces:
- A bar's average magnitude is the truncated mean.
- The peak decays to `max(1, (int) (peak * 0.95))`, which truncates.
- The classic bar height is not clamped, so a bar can reach 1.5 times the view height. Its segments can then be drawn above the top of the view (`InView` allows a top down to `-H/2`).
- The colour ratio is not clamped either.
- In the LED view, level 0 is at the top of the view.
- `VizBox` divides by `numBars - 1` with no guard. The division is safe only because the bar count is always 16 or 32.
- In `VizBox` the horizontal spacing is at least the view width, so `barWidth <= 0`. Every LED rectangle therefore has `right <= left`. The model reproduces this.
- The classic view's rule of "at least one segment when the bar has any height" is undone by the loop's `break` when `0 < barHeight < rectHeight`. `StackCount` characterises exactly how many segments are drawn.

## Model

| member | source | states |
|---|---|---|
| Spectrum.NumBarsFor | app/src/main/java/com/griffin3/simplemusic/VisualActivity.java:150-153 | 32 bars exactly in landscape, 16 in every other orientation |
| Spectrum.BinsPerBar | app/src/main/java/com/griffin3/simplemusic/VisualActivity.java:221-223 | at least one bin per bar, and the bars together take no more than the band-limited bins (or one each) |
| Spectrum.BinOffsets | app/src/main/java/com/griffin3/simplemusic/VisualActivity.java:229-239 | bar bins are read at `start + 2k`, at most `binsPerBar` of them, and each re/im pair lies inside the capture |
| Spectrum.BinCount | app/src/main/java/com/griffin3/simplemusic/VisualActivity.java:237 | the inner loop reads exactly `min(binsPerBar, pairs left in the capture)` bins |
| Spectrum.Magnitude | app/src/main/java/com/griffin3/simplemusic/VisualActivity.java:238-240 | the floor square root of `re² + im²` of two signed bytes never exceeds 181 |
| Spectrum.BarMagnitudes | app/src/main/java/com/griffin3/simplemusic/VisualActivity.java:229-240 | one magnitude per bin read, none for a bar starting past the capture, each at most 181 |
| Spectrum.MaxOf | app/src/main/java/com/griffin3/simplemusic/VisualActivity.java:243-245 | the running maximum starts at 0, bounds every element and is one of them |
| Spectrum.Average | app/src/main/java/com/griffin3/simplemusic/VisualActivity.java:248 | 0 for a bar with no bins, never above the bar's largest magnitude |
| Spectrum.AverageIsFloorMean | app/src/main/java/com/griffin3/simplemusic/VisualActivity.java:248 | the average is the arithmetic mean of the magnitudes rounded down |
| Spectrum.FrameBars | app/src/main/java/com/griffin3/simplemusic/VisualActivity.java:228-231 | a bar is skipped exactly when its first byte index is past the capture; otherwise it reads its bins |
| Spectrum.SkippedBarsTrail | app/src/main/java/com/griffin3/simplemusic/VisualActivity.java:228-231 | once a bar starts past the capture, so does every later bar: the skipped bars are the trailing ones |
| Spectrum.ScanFrom | app/src/main/java/com/griffin3/simplemusic/VisualActivity.java:226-257 | bar `k` is divided by `max(1, peak)` with the peak raised by bars `0..k` only (`ScaledByRunningPeak`), which is at least its own average; the frame ends at the old peak raised to the largest magnitude |
| Spectrum.ScalesNonDecreasing | app/src/main/java/com/griffin3/simplemusic/VisualActivity.java:251-256 | within a frame a later bar is never divided by a smaller scale than an earlier one |
| Spectrum.ScanFrame | app/src/main/java/com/griffin3/simplemusic/VisualActivity.java:226-257 | one reading per bar, the frame's peak is `max(old peak, largest magnitude)`, every average is at most its scale, and bar `k`'s scale is `max(1, old peak, largest magnitude of bars 0..k)` |
| Spectrum.Decay | app/src/main/java/com/griffin3/simplemusic/VisualActivity.java:317 | the decayed peak is 1 for a peak of at most 1; above that it is `⌊0.95·peak⌋` (bracketed: `95·peak − 100 < 100·p ≤ 95·peak`), at least 1 and strictly lower |
| Spectrum.DecayTimesBound | app/src/main/java/com/griffin3/simplemusic/VisualActivity.java:317 | after `k` quiet frames the peak is between 1 and `max(1, peak - k)` |
| Spectrum.SilentFrameMax | app/src/main/java/com/griffin3/simplemusic/VisualActivity.java:237-246 | an all-zero capture has largest magnitude 0 and cannot raise the peak |
| Spectrum.FrameMax | app/src/main/java/com/griffin3/simplemusic/VisualActivity.java:237-246 | no capture has a magnitude above 181, the magnitude of (-128, -128) |
| Spectrum.FrameMaxIsLoudestBin | app/src/main/java/com/griffin3/simplemusic/VisualActivity.java:226-246 | the frame's maximum bounds every processed bar's largest magnitude and, unless 0, is the largest magnitude of some processed bar |
| Spectrum.NewView | app/src/main/java/com/griffin3/simplemusic/VisualActivity.java:128-153 | a new view has no capture, peak 1 and the bar count of its orientation |
| Spectrum.Rotate | app/src/main/java/com/griffin3/simplemusic/VisualActivity.java:155-160 | a configuration change only resets the bar count |
| Spectrum.ReceiveFrame | app/src/main/java/com/griffin3/simplemusic/VisualActivity.java:162-165 | a new capture replaces the previous one and touches nothing else |
| Spectrum.PeakAfterDraw | app/src/main/java/com/griffin3/simplemusic/VisualActivity.java:250-317 | drawing keeps the peak without a capture; with one, the peak is raised to the capture's maximum `m` and becomes `⌊0.95·m⌋` (1 when that is below 1) |
| Spectrum.PeakStaysInRange | app/src/main/java/com/griffin3/simplemusic/VisualActivity.java:128 | over any sequence of captures, draws and rotations the peak stays between 1 and 181, so the scale is never 0 |
| Spectrum.PeakNeverZero | app/src/main/java/com/griffin3/simplemusic/VisualActivity.java:128 | from construction, the peak never reaches 0 |
| ClassicView.BandColor | app/src/main/java/com/griffin3/simplemusic/VisualActivity.java:288-296 | red, orange (255,165,0), yellow and green as opaque colours with no blue |
| ClassicView.BandCountsThresholds | app/src/main/java/com/griffin3/simplemusic/VisualActivity.java:301-309 | the band's rank is the number of thresholds 0.5, 0.7, 0.9 the ratio reaches |
| ClassicView.BandMonotone | app/src/main/java/com/griffin3/simplemusic/VisualActivity.java:301-309 | a higher ratio never gets a lower band |
| ClassicView.WindowRatio | app/src/main/java/com/griffin3/simplemusic/VisualActivity.java:299 | a segment at or above the top has ratio at least 1, one at or below the bottom at most 0 |
| ClassicView.StackRatio | app/src/main/java/com/griffin3/simplemusic/VisualActivity.java:286 | the fire ratio lies in 0..1, 0 for the lowest segment and 1 for the highest of two or more |
| ClassicView.LayoutFor | app/src/main/java/com/griffin3/simplemusic/VisualActivity.java:207-214 | bar width and spacing bracket their truncated quotients, the block fits the width and is centred to within a pixel |
| ClassicView.TotalBarWidthFits | app/src/main/java/com/griffin3/simplemusic/VisualActivity.java:213 | bars plus spacings never exceed the view width |
| ClassicView.BarsInOrder | app/src/main/java/com/griffin3/simplemusic/VisualActivity.java:260-261 | a bar ends at or before the next one begins |
| ClassicView.LastBarEdge | app/src/main/java/com/griffin3/simplemusic/VisualActivity.java:213-261 | the last bar's right edge is `startX + totalBarWidth` |
| ClassicView.BarInsideView | app/src/main/java/com/griffin3/simplemusic/VisualActivity.java:207-214 | every bar lies horizontally within the view |
| ClassicView.BarHeight | app/src/main/java/com/griffin3/simplemusic/VisualActivity.java:256-257 | an average within the scale gives at most 1.5 times the view height; a positive height needs a positive average and view |
| ClassicView.RectHeight | app/src/main/java/com/griffin3/simplemusic/VisualActivity.java:264 | a segment is at least 4 pixels high and at least half the bar width |
| ClassicView.VerticalSpacing | app/src/main/java/com/griffin3/simplemusic/VisualActivity.java:265 | the gap is 30% of the segment height, truncated |
| ClassicView.NumRects | app/src/main/java/com/griffin3/simplemusic/VisualActivity.java:272-273 | at least one segment exactly when the bar has height; otherwise the count of whole pitches fits the height |
| ClassicView.SegmentTop | app/src/main/java/com/griffin3/simplemusic/VisualActivity.java:277-278 | segment `r`'s bottom is `r` pitches above the bottom of the view |
| ClassicView.StackFrom | app/src/main/java/com/griffin3/simplemusic/VisualActivity.java:276-313 | every segment drawn spans the bar, lies between `H - barHeight` and `H`, and has its band's colour |
| ClassicView.StackCount | app/src/main/java/com/griffin3/simplemusic/VisualActivity.java:272-281 | the number of segments drawn, including the `break`, is `DrawnSegments` |
| ClassicView.StackAdjacent | app/src/main/java/com/griffin3/simplemusic/VisualActivity.java:276-279 | the first segment sits on the bottom of the view and each next one is one gap above the last |
| ClassicView.BandRisesUpTheBar | app/src/main/java/com/griffin3/simplemusic/VisualActivity.java:284-310 | in either policy, a higher segment never has a lower band |
| ClassicView.ColumnOf | app/src/main/java/com/griffin3/simplemusic/VisualActivity.java:256-273 | bar `i`'s column spans `startX + i·(barWidth + spacing)` to that plus `barWidth`, with the view height, the scaled bar height and the segment height of the bar width |
| ClassicView.BarRects | app/src/main/java/com/griffin3/simplemusic/VisualActivity.java:231-313 | a skipped bar draws nothing; a processed bar draws exactly `DrawnSegments` rectangles of its column |
| ClassicView.RenderedBar | app/src/main/java/com/griffin3/simplemusic/VisualActivity.java:228-313 | every rectangle bar `i` draws lies in the view |
| ClassicView.RenderedBars | app/src/main/java/com/griffin3/simplemusic/VisualActivity.java:228 | one list of rectangles per bar, bar `i`'s being `RenderedBar(i)` |
| ClassicView.Render | app/src/main/java/com/griffin3/simplemusic/VisualActivity.java:196-317 | the rectangles are bar 0's, then bar 1's and so on (`Flatten` of `RenderedBars`); the new peak is the decayed maximum of old peak and capture; every rectangle lies in the view horizontally, with its bottom at or above the view's bottom and its top at most half the view height above the view's top |
| ClassicView.RenderPlacesEachBar | app/src/main/java/com/griffin3/simplemusic/VisualActivity.java:228-313 | bar `i`'s rectangles appear in the draw as one run, starting right after the rectangles of bars `0..i-1` |
| ClassicView.RenderedBarIsStack | app/src/main/java/com/griffin3/simplemusic/VisualActivity.java:228-313 | a bar that starts inside the capture draws its column's segment stack, `DrawnSegments` rectangles, at the column for its average and running scale |
| ClassicView.SkippedBarDrawsNothing | app/src/main/java/com/griffin3/simplemusic/VisualActivity.java:228-231 | a bar starting past the capture draws nothing, and the whole draw is that of the bars before it |
| ClassicView.OnDraw | app/src/main/java/com/griffin3/simplemusic/VisualActivity.java:197-202 | nothing is drawn and nothing changes before the first capture; afterwards only the peak changes |
| ClassicView.BarColor | app/src/main/java/com/griffin3/simplemusic/VisualActivity.java:328-347 | for a bar inside the count every channel of the gradient lies in 0..255 |
| ClassicView.BarColorFifths | app/src/main/java/com/griffin3/simplemusic/VisualActivity.java:328-347 | the first bar is pure red, the first fifth has full red and no blue, the last fifth full blue and no red |
| LedView.TotalSpacing | app/src/main/java/com/griffin3/simplemusic/VizBox.java:63 | with 16 or 32 bars the spacing is at least the view width |
| LedView.GridFor | app/src/main/java/com/griffin3/simplemusic/VizBox.java:63-71 | bar width, segment height and level gap are never positive (negative from 64 pixels on); the levels fill the height to within 7 pixels |
| LedView.BarWidthBracket | app/src/main/java/com/griffin3/simplemusic/VizBox.java:64-65 | truncating division of the non-positive available width brackets it from above |
| LedView.LevelTop | app/src/main/java/com/griffin3/simplemusic/VizBox.java:118 | level 0 starts at the top of the view |
| LedView.LevelsStepDown | app/src/main/java/com/griffin3/simplemusic/VizBox.java:118 | each level starts one level height plus one gap below the previous |
| LedView.BarLeft | app/src/main/java/com/griffin3/simplemusic/VizBox.java:114 | the first bar starts at x = 0, with no centring |
| LedView.LevelsToLight | app/src/main/java/com/griffin3/simplemusic/VizBox.java:108-111 | for an average within the scale, 0..8 levels light; silence lights none and a full bar all eight |
| LedView.LevelsToLightInIntegers | app/src/main/java/com/griffin3/simplemusic/VizBox.java:110-111 | `Math.round(avg / scale * 8)` equals `(16 avg + scale) / (2 scale)` in integers |
| LedView.LevelColor | app/src/main/java/com/griffin3/simplemusic/VizBox.java:122-123 | every level is green, alpha 255 exactly when lit and 60 otherwise |
| LedView.LevelRects | app/src/main/java/com/griffin3/simplemusic/VizBox.java:117-126 | exactly 8 rectangles per bar, at the level's top and height, spanning the bar |
| LedView.LitLevelsArePrefix | app/src/main/java/com/griffin3/simplemusic/VizBox.java:122 | a level is lit exactly when it is below the count, so the lit levels are the first ones |
| LedView.LouderLightsMore | app/src/main/java/com/griffin3/simplemusic/VizBox.java:111 | a louder bar never lights fewer levels |
| LedView.LevelRectsInverted | app/src/main/java/com/griffin3/simplemusic/VizBox.java:63-65 | every LED rectangle has `right <= left` |
| LedView.BarBlock | app/src/main/java/com/griffin3/simplemusic/VizBox.java:84-126 | a skipped bar draws no rectangles, a processed one exactly 8 |
| LedView.LedBars | app/src/main/java/com/griffin3/simplemusic/VizBox.java:81-127 | one list per bar, 8 rectangles for a processed bar and none for a skipped one |
| LedView.BlocksTotal | app/src/main/java/com/griffin3/simplemusic/VizBox.java:81-127 | the bars together draw 8 rectangles per processed bar |
| LedView.Render | app/src/main/java/com/griffin3/simplemusic/VizBox.java:51-131 | the rectangles are bar 0's, then bar 1's and so on (`Flatten` of `LedBars`), 8 per processed bar; the new peak is the decayed maximum |
| LedView.RenderDrawsLevel | app/src/main/java/com/griffin3/simplemusic/VizBox.java:81-126 | for every bar `i` that starts inside the capture, rectangle `8i + l` of the draw is level `l` of bar `i`: at column `i`, level `l`'s top and height, lit by the bar's average and running scale |
| LedView.LedBarsBlock | app/src/main/java/com/griffin3/simplemusic/VizBox.java:81-126 | when bars `0..i` are processed, rectangle `8i + l` is level `l` of bar `i` |
| LedView.FullCaptureDrawsEveryLevel | app/src/main/java/com/griffin3/simplemusic/VizBox.java:84 | when the last bar starts inside the capture, all `8 * numBars` rectangles are drawn |
| LedView.OnDraw | app/src/main/java/com/griffin3/simplemusic/VizBox.java:55-57 | nothing before the first capture; afterwards at most `8 * numBars` rectangles and only the peak changes |
| Text.SplitJoin | app/src/main/java/com/griffin3/simplemusic/SongInfo.java:24 | splitting separator-free fields joined by the separator gives the fields back, empty ones included |
| Text.Split | app/src/main/java/com/griffin3/simplemusic/SongInfo.java:24 | the fields contain no separator, there is at least one, and joining them with the separator gives the string back |
| Text.SplitCount | app/src/main/java/com/griffin3/simplemusic/SongInfo.java:24-25 | a split yields one more field than there are separators |
| Text.ParseLongToString | app/src/main/java/com/griffin3/simplemusic/SongInfo.java:28 | `Long.parseLong` reads back every `long` printed in decimal |
| Text.ParseLong | app/src/main/java/com/griffin3/simplemusic/SongInfo.java:28 | a value exactly for an optional `+`/`-` followed by one or more ASCII digits whose value is within the `long` range, and then that value; anything else is `NumberFormatException` |
| Song.EncodeQueueItem | app/src/main/java/com/griffin3/simplemusic/DatabaseHelper.java:166 | the item is the four fields joined by `|` |
| Song.FromQueueString | app/src/main/java/com/griffin3/simplemusic/SongInfo.java:23-33 | `null` exactly for fewer than three separators; throws `NumberFormatException` exactly when a fourth field exists and the third is not a `long`; otherwise fields 0, 1 and 3 are artist, title and path, the duration is field 2 parsed, and id -1, volume 128, likes 0 |
| Song.QueueRoundTrip | app/src/main/java/com/griffin3/simplemusic/SongInfo.java:23-33 | decoding an encoded item gives back artist, title, duration and path |
| Song.ExtraFieldsIgnored | app/src/main/java/com/griffin3/simplemusic/SongInfo.java:24-29 | for any string of four or more fields, appending a separator and more text does not change the result |
| Song.BadDurationThrows | app/src/main/java/com/griffin3/simplemusic/SongInfo.java:28 | a non-numeric duration throws instead of returning `null` |
| Song.Filename | app/src/main/java/com/griffin3/simplemusic/SongInfo.java:63-68 | the file name is the suffix after the last `/`, contains no `/`, and is the whole path when there is none (or `null`) |
| Song.GetFilename | app/src/main/java/com/griffin3/simplemusic/SongInfo.java:63-68 | `null` exactly for a `null` path; otherwise a suffix of the path with no `/` |
| Song.FormattedDuration | app/src/main/java/com/griffin3/simplemusic/SongInfo.java:71-75 | for a non-negative duration, whole minutes and the whole seconds within the minute; a negative one prints both fields negated, as Java truncates toward zero |
| Song.FormattedDurationReadsBack | app/src/main/java/com/griffin3/simplemusic/SongInfo.java:71-75 | for a non-negative duration, seconds are two digits below 60 and minutes·60 + seconds is the duration in whole seconds |
| Song.MinutesSecondsReadsBack | app/src/main/java/com/griffin3/simplemusic/SongInfo.java:74 | `%02d:%02d` of non-negative minutes and seconds below 60 reads back as those numbers |
| Song.SplitUnknownArtist | app/src/main/java/com/griffin3/simplemusic/DatabaseHelper.java:132-138 | for an unknown artist and a title with `" - "`, artist + `" - "` + title rebuilds the old title and the new artist has no `" - "`; otherwise nothing changes |
| Song.SplitUnknownArtistInverse | app/src/main/java/com/griffin3/simplemusic/DatabaseHelper.java:132-138 | the split recovers `A` and `T` from `"A - T"` when `A` holds no `" - "` and does not end in `" -"` |
| Store.OnCreate | app/src/main/java/com/griffin3/simplemusic/DatabaseHelper.java:66-72 | a new database has empty tables and the state row (-1, 1, 1) |
| Store.LoadMedia | app/src/main/java/com/griffin3/simplemusic/DatabaseHelper.java:109-148 | old media are replaced by one row per entry, under fresh ids, with the unknown-artist split, volume 128 and likes 0; queue and state untouched |
| Store.LoadMediaValid | app/src/main/java/com/griffin3/simplemusic/DatabaseHelper.java:113-148 | loading keeps ids increasing and issued |
| Store.LoadMediaOrphansQueue | app/src/main/java/com/griffin3/simplemusic/DatabaseHelper.java:113 | after a reload the old queue joins no media, so the queue items are empty |
| Store.GetQueueItems | app/src/main/java/com/griffin3/simplemusic/DatabaseHelper.java:156-171 | one encoded item per joined queue row, in queue order |
| Store.RowsWithId | app/src/main/java/com/griffin3/simplemusic/DatabaseHelper.java:159-160 | the rows found are exactly the media rows with the id |
| Store.RowsWithIdUnique | app/src/main/java/com/griffin3/simplemusic/DatabaseHelper.java:159-160 | with increasing ids, the row at `j` is the only one its id finds |
| Store.Joined | app/src/main/java/com/griffin3/simplemusic/DatabaseHelper.java:159-160 | every joined row is a media row whose id some queue row names |
| Store.JoinComplete | app/src/main/java/com/griffin3/simplemusic/DatabaseHelper.java:159-160 | with increasing ids and every queue row naming a present media row, the join has one row per queue row, in queue order, each the row its queue row names |
| Store.QueueSongs | app/src/main/java/com/griffin3/simplemusic/DatabaseHelper.java:159-160 | every song of the queue is a media row whose id the queue names |
| Store.QueueItemsDecode | app/src/main/java/com/griffin3/simplemusic/DatabaseHelper.java:159-166 | every queue item decodes back to its media row's fields |
| Store.Shuffle | app/src/main/java/com/griffin3/simplemusic/DatabaseHelper.java:183 | the shuffle is a permutation of the ids |
| Store.ShuffleIdentity | app/src/main/java/com/griffin3/simplemusic/DatabaseHelper.java:183 | draws that always pick the current slot leave the order unchanged |
| Store.FillQueueWithShuffledMedia | app/src/main/java/com/griffin3/simplemusic/DatabaseHelper.java:173-190 | the new queue's media ids are a permutation of the media ids, under fresh queue ids; media and state untouched |
| Store.FillQueueValid | app/src/main/java/com/griffin3/simplemusic/DatabaseHelper.java:173-190 | filling the queue keeps the invariant |
| Store.FilledQueueHasEverySongOnce | app/src/main/java/com/griffin3/simplemusic/DatabaseHelper.java:173-190 | every media id is queued exactly once, and nothing else is queued |
| Store.FilledQueueJoinsEverySong | app/src/main/java/com/griffin3/simplemusic/DatabaseHelper.java:156-190 | after filling, there is one queue item per song, and song `k` is the media row queue row `k` names |
| Store.GetQueuePosition | app/src/main/java/com/griffin3/simplemusic/DatabaseHelper.java:192-202 | -1 without a state row |
| Store.GetShuffle | app/src/main/java/com/griffin3/simplemusic/DatabaseHelper.java:212-222 | 1 without a state row |
| Store.GetLoop | app/src/main/java/com/griffin3/simplemusic/DatabaseHelper.java:232-242 | 1 without a state row |
| Store.SetQueuePosition | app/src/main/java/com/griffin3/simplemusic/DatabaseHelper.java:204-210 | only the position changes; shuffle, loop and the tables are kept |
| Store.SetShuffle | app/src/main/java/com/griffin3/simplemusic/DatabaseHelper.java:224-230 | only the shuffle flag changes |
| Store.SetThenGet | app/src/main/java/com/griffin3/simplemusic/DatabaseHelper.java:192-230 | with a state row, a set position or flag is what is read back |
| Store.SetWithoutStateRow | app/src/main/java/com/griffin3/simplemusic/DatabaseHelper.java:192-230 | without a state row, setting is lost and the fallbacks are read |
| Store.GetCurrentSongInfo | app/src/main/java/com/griffin3/simplemusic/DatabaseHelper.java:244-258 | `"title - artist"` of the joined row at `max(0, p)`, `null` exactly when there is none |
| Store.CurrentSongMatchesQueueItem | app/src/main/java/com/griffin3/simplemusic/DatabaseHelper.java:244-258 | the current-song line names the song the queue item at that position decodes to |
| Store.ClearAllData | app/src/main/java/com/griffin3/simplemusic/DatabaseHelper.java:260-273 | all tables are emptied and the defaults -1, 1, 1 are read back; id counters survive |
| Store.ClearedLooksNew | app/src/main/java/com/griffin3/simplemusic/DatabaseHelper.java:260-273 | a cleared database reads exactly like a fresh one |
| Player.PlaySong | app/src/main/java/com/griffin3/simplemusic/PlayerActivity.java:156-171 | out of range or `null` item: nothing changes; bad duration throws; otherwise the file is prepared and the position taken and saved |
| Player.PlayNext | app/src/main/java/com/griffin3/simplemusic/PlayerActivity.java:177-186 | inside the queue it plays the next position (as `playSong(position + 1, autoPlay)`); running off the end stops the player (keeping its `playWhenReady`), takes -1 and saves it |
| Player.Prev | app/src/main/java/com/griffin3/simplemusic/PlayerActivity.java:112-117 | above position 0 it prepares the previous position without autoplay (as `playSong(position - 1, false)`); at 0 or below nothing happens |
| Player.PlaySongPosition | app/src/main/java/com/griffin3/simplemusic/PlayerActivity.java:156-171 | a returned state has the requested position or is unchanged |
| Player.PlayNextLandsInQueue | app/src/main/java/com/griffin3/simplemusic/PlayerActivity.java:177-186 | from -1 or more, the position ends in the queue or at -1, at -1 exactly when it ran off the end, and otherwise one past where it was |
| Player.PrevStaysInQueue | app/src/main/java/com/griffin3/simplemusic/PlayerActivity.java:112-117 | prev never goes below 0 and steps back by exactly one |
| Player.PlayedPositionIsSaved | app/src/main/java/com/griffin3/simplemusic/PlayerActivity.java:167-168 | a song that starts has its position read back from the store |
| Player.PlayNextOverMalformedItem | app/src/main/java/com/griffin3/simplemusic/PlayerActivity.java:178-180 | a next item with fewer than four fields moves the position but neither plays nor saves |
| Player.RunningOffTheEndSavesNone | app/src/main/java/com/griffin3/simplemusic/PlayerActivity.java:181-185 | past the end the stored position is -1 and nothing will play |
| Player.NextAfterEndStillPlays | app/src/main/java/com/griffin3/simplemusic/PlayerActivity.java:127-186 | after the last song ends while playing, the next button's `playNext(false)` still starts song 0 playing, because `stop()` keeps `playWhenReady` |
| Player.PlayPause | app/src/main/java/com/griffin3/simplemusic/PlayerActivity.java:119-125 | the button sets `playWhenReady` to the opposite of whether the player is playing and changes nothing else |
| Player.PlayPauseCarriesToNextSong | app/src/main/java/com/griffin3/simplemusic/PlayerActivity.java:119-166 | after the button, a song played without autoplay starts exactly when the button asked to play |
| Player.Back10Target | app/src/main/java/com/griffin3/simplemusic/PlayerActivity.java:107-110 | ten seconds back, never before 0 |
| Player.Forward10Target | app/src/main/java/com/griffin3/simplemusic/PlayerActivity.java:129-132 | ten seconds forward, never past the duration |
| Player.SeekTarget | app/src/main/java/com/griffin3/simplemusic/PlayerActivity.java:136-141 | `progress · duration / 100` truncated toward zero: within 100 of the product, on the side of zero |
| Player.Progress | app/src/main/java/com/griffin3/simplemusic/PlayerActivity.java:219-224 | `current · 100 / duration` truncated toward zero: within one duration of the product, on the side of zero |
| Player.SeekTargetInSong | app/src/main/java/com/griffin3/simplemusic/PlayerActivity.java:136-141 | progress 0..100 seeks within the song, 0 to the start and 100 to the end |
| Player.ProgressInRange | app/src/main/java/com/griffin3/simplemusic/PlayerActivity.java:219-224 | a position within the song shows 0..100 percent |
| Player.SeekToShownProgress | app/src/main/java/com/griffin3/simplemusic/PlayerActivity.java:136-224 | seeking to the shown percentage lands at or before the position, by less than 1% of the duration plus 1 ms |
| Player.ProgressOfSeek | app/src/main/java/com/griffin3/simplemusic/PlayerActivity.java:136-224 | the percentage shown after seeking to `p` is at most `p` |
| Player.FormatTimeIsFormattedDuration | app/src/main/java/com/griffin3/simplemusic/PlayerActivity.java:229-233 | `formatTime` prints every time exactly as `getFormattedDuration` does |
| Player.FormatTime | app/src/main/java/com/griffin3/simplemusic/PlayerActivity.java:229-233 | for a non-negative time, whole minutes and the whole seconds within the minute |
| Player.UpdateProgress | app/src/main/java/com/griffin3/simplemusic/PlayerActivity.java:219-227 | updates happen exactly when the duration is positive; the seek bar then gets the percentage `Progress(current, duration)` and the label reads `FormattedDuration(current) + " / " + FormattedDuration(duration)`, both times in `MM:SS` |
| Player.Start | app/src/main/java/com/griffin3/simplemusic/PlayerActivity.java:51-103 | a requested position outside the queue is kept, with nothing prepared |
| Player.StartPlaysRequestedSong | app/src/main/java/com/griffin3/simplemusic/PlayerActivity.java:51-103 | started on a well-formed item, the player prepares and plays that song and saves its position |
| MediaList.Open | app/src/main/java/com/griffin3/simplemusic/MediaListActivity.java:23 | a new list has no position and nothing playing |
| MediaList.PlaySong | app/src/main/java/com/griffin3/simplemusic/MediaListActivity.java:61-73 | out of range or short items change nothing; the position is taken only when the file opens |
| MediaList.PlayNextSong | app/src/main/java/com/griffin3/simplemusic/MediaListActivity.java:76-85 | inside the list it plays the next position (as `playSong(position + 1)`); past the end, the player stops and the position is -1 |
| MediaList.PlaySongKeepsInList | app/src/main/java/com/griffin3/simplemusic/MediaListActivity.java:61-73 | a tap keeps the position in the list or at -1 |
| MediaList.PlayNextSongLandsInList | app/src/main/java/com/griffin3/simplemusic/MediaListActivity.java:76-85 | the position ends in the list or at -1, exactly -1 past the end, and advances even over unplayable items |
| MediaList.PlayNextSongPlays | app/src/main/java/com/griffin3/simplemusic/MediaListActivity.java:61-85 | a next well-formed item plays its path (field 3) exactly when it opens and leaves the player reset when not; a malformed one leaves the player as it was; past the end the player is reset |
| MediaList.DurationText | app/src/main/java/com/griffin3/simplemusic/MediaListActivity.java:130-137 | the duration text is empty exactly when the duration is not positive; a positive duration shows exactly `getFormattedDuration`'s `MM:SS` text |
| MediaList.RowView | app/src/main/java/com/griffin3/simplemusic/MediaListActivity.java:104-137 | short items throw `IndexOutOfBoundsException` at the first missing field, a bad duration throws `NumberFormatException` first; a row is shown exactly for four fields and a `long` duration |
| MediaList.RowViewShowsDecodedSong | app/src/main/java/com/griffin3/simplemusic/MediaListActivity.java:110-121 | a row is shown exactly when the codec decodes a song, and it shows that song after the unknown-artist split |
| MediaList.RowViewOfEncodedItem | app/src/main/java/com/griffin3/simplemusic/MediaListActivity.java:130-133 | an encoded item's row shows its duration as `getFormattedDuration` prints it |

## Left out

- Audio capture (`Visualizer` setup, session ids, permissions) and the activity life cycle: these are Android platform calls. A capture arrives in the model as an event.
- The thread handoff of captures: the model processes events one at a time.
- The red outline `onDraw` draws around the classic view, and all `Paint`/`Canvas` state: drawing is a returned list of rectangles.
- ExoPlayer and `MediaPlayer` internals: they are reduced to "which file is prepared and whether it plays". Whether `MediaPlayer` opens a file is a parameter. Calling `stop()` in a state `MediaPlayer` does not allow is not modelled.
- Playback positions and durations are read from the player, so they are parameters.
- The `Handler` polling, `updateUI`, `Toast`s and text sizes: these are UI side effects.
- The randomness of `Collections.shuffle`: the values `Random.nextInt` returns are a parameter, constrained to its range.
- `SongInfo.fromJsonString`: it is a thin wrapper over `org.json`, which is not part of this model.
- `MainActivity`: media store queries, permissions and intents. Its only pure content, the item format at line 87, is `Song.EncodeQueueItem`.
- `getMediaCount` and `isQueueEmpty`: these are row counts, `|db.media|` and `|db.queue| == 0` in the model.
- `onUpgrade` and the table definitions: schema migration is not modelled. Rows are records.
- `null` artists, titles or paths from the media store: the model's strings are never `null`.
- `Long.parseLong` of non-ASCII digits: only `0`-`9` are digits in the model.
- Song.MinutesSeconds: `String.format("%02d:%02d")` uses the default locale, which may print non-ASCII digits. The model assumes a locale with ASCII digits, and so do `Text.Format02d`, `Song.FormattedDuration`, `Player.FormatTime` and `MediaList.DurationText`.
- Spectrum.Magnitude: `Math.sqrt` in double precision is taken to be exact. For sums up to 32768 it is exact.
- Float rounding of the constants 0.2, 0.3, 0.1, 1.5, 0.95 and 4096/22050: the model uses exact rationals, so a result that lands exactly on a float boundary may differ by one.
- Player.SeekTarget, Player.Progress: `long` and `int` overflow are not modelled; all integers are unbounded.
- ClassicView.BarColor: it requires a positive bar count, because a float division by zero (NaN or infinity) is not modelled. The method is never called.
- Store.LoadMediaValid: requires every entry's duration to be a `long`, because it comes from `Cursor.getLong`; `LoadMedia` itself takes any duration.
