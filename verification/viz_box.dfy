/**
 `VizBox.onDraw`: the LED-style view. It reads captures exactly as the
 classic view does (module `Spectrum`), but draws every processed bar as a
 fixed column of eight levels, lit from level 0 up to the bar's share of the
 peak and dimmed above it.

 The float constants are again exact rationals: `(int) (w * 0.1f * (n - 1))`
 is `w * (n - 1) / 10`, `(int) (x * 0.1f * 7)` is `7 * x / 10` and
 `(int) (x * 0.1f)` is `x / 10`, each truncated toward zero because the
 operand can be negative, and `(int) (w * 0.1f / (n - 1))` is
 `w / (10 * (n - 1))`.
 */
module LedView {
  import opened JavaInt
  import opened Options
  import opened Spectrum

  /** `mNumLevels`: rectangles per bar. */
  const NumLevels: nat := 8

  /** Alpha of a lit and of an unlit level; both are pure green. */
  const LitAlpha: int := 255
  const DimAlpha: int := 60

  /** The grid recomputed on every draw from the view's size and bar count. */
  datatype Grid = Grid(barWidth: int, rectHeight: int, actualRectHeight: nat, levelGap: int, barGap: nat)

  /** `(int) (width * 0.1f * (mNumBars - 1))`: a tenth of the width per gap, for every gap. */
  function TotalSpacing(width: nat, numBars: BarCount): (t: nat)
    ensures t >= width
  {
    width * (numBars - 1) / 10
  }

  /**
   The spacing takes at least the whole width, so no room is left for the
   bars: `barWidth` is zero or negative for every width, and so is
   `rectHeight`. A level is still `actualRectHeight >= height / 8` high.
   */
  function GridFor(width: nat, height: nat, numBars: BarCount): (g: Grid)
    ensures g.barWidth <= 0 && g.rectHeight <= 0 && g.levelGap <= 0
    ensures width >= 64 ==> g.barWidth < 0
    ensures (g.barWidth - 1) * numBars < width - TotalSpacing(width, numBars) <= g.barWidth * numBars
    ensures 8 * g.actualRectHeight >= height - 7
    ensures g.barGap * 10 * (numBars - 1) <= width
  {
    var available := width - TotalSpacing(width, numBars);
    var bw := JDiv(available, numBars);
    BarWidthBracket(available, numBars);
    assert width >= 64 ==> available <= -32;
    var rh := JDiv(bw, 2);
    var tvs := JDiv(rh * 7, 10);
    var arh := (height - tvs) / NumLevels;
    var gap := width / (10 * (numBars - 1));
    DivBracket(width, 10 * (numBars - 1));
    Grid(bw, rh, arh, JDiv(rh, 10), gap)
  }

  /** Truncating division of a non-positive width rounds up: the quotient brackets the dividend from above. */
  lemma BarWidthBracket(available: int, numBars: BarCount)
    requires available <= 0
    ensures (JDiv(available, numBars) - 1) * numBars < available <= JDiv(available, numBars) * numBars
    ensures available <= -32 ==> JDiv(available, numBars) < 0
  {
    var q := (-available) / numBars;
    DivBracket(-available, numBars);
    assert JDiv(available, numBars) == -q;
    assert (-q - 1) * numBars == -((q + 1) * numBars);
    assert -q * numBars == -(q * numBars);
  }

  /** `level * (actualRectHeight + (int) (rectHeight * 0.1f))`: level 0 at the top edge, one step per level. */
  function LevelTop(g: Grid, level: nat): (t: int)
    ensures level == 0 ==> t == 0
  {
    level * (g.actualRectHeight + g.levelGap)
  }

  /** Each level sits one level height plus the (non-positive) gap below the one before it. */
  lemma LevelsStepDown(g: Grid, level: nat)
    ensures LevelTop(g, level + 1) == LevelTop(g, level) + g.actualRectHeight + g.levelGap
  {
    MulSucc(level, g.actualRectHeight + g.levelGap);
  }

  /** `barIndex * (barWidth + (int) (width * 0.1f / (mNumBars - 1)))`: bar 0 at the left edge, no centring. */
  function BarLeft(g: Grid, i: nat): (x: int)
    ensures i == 0 ==> x == 0
  {
    i * (g.barWidth + g.barGap)
  }

  /**
   `Math.round(((float) avgMagnitude / scaleFactor) * mNumLevels)`: the bar's
   share of the scale in eighths, rounded half up. With no vertical stretch
   it is never more than the number of levels.
   */
  function LevelsToLight(avg: nat, scale: nat): (n: int)
    requires scale >= 1
    ensures avg <= scale ==> 0 <= n <= NumLevels
    ensures avg == 0 ==> n == 0
    ensures avg == scale ==> n == NumLevels
  {
    var s := scale as real;
    var q := avg as real / s;
    assert q * s == avg as real;
    assert 0.0 <= q by {
      RealMulCancel(0.0, q, s);
    }
    assert avg <= scale ==> q <= 1.0 by {
      if avg <= scale {
        RealMulCancel(q, 1.0, s);
      }
    }
    assert avg == scale ==> q == 1.0 by {
      if avg == scale {
        RealMulCancel(q, 1.0, s);
        RealMulCancel(1.0, q, s);
      }
    }
    Round(q * NumLevels as real)
  }

  /** The same count in integer arithmetic: the quotient of `16 * avg + scale` by `2 * scale`. */
  lemma LevelsToLightInIntegers(avg: nat, scale: nat)
    requires scale >= 1
    ensures LevelsToLight(avg, scale) == (16 * avg + scale) / (2 * scale)
  {
    var q := avg as real / scale as real;
    var x := q * 8.0 + 0.5;
    assert x == (16 * avg + scale) as real / (2 * scale) as real by {
      assert q * scale as real == avg as real;
    }
    FloorOfQuotient(16 * avg + scale, 2 * scale);
  }

  /** The paint of one level: opaque green when lit, dim green otherwise. */
  function LevelColor(level: nat, lit: int): (c: Color)
    ensures c.red == 0 && c.green == 255 && c.blue == 0
    ensures c.alpha == LitAlpha <==> level < lit
    ensures c.alpha == DimAlpha <==> !(level < lit)
  {
    Argb(if level < lit then LitAlpha else DimAlpha, 0, 255, 0)
  }

  /** The eight rectangles of bar `i`, level 0 first. */
  function LevelRects(g: Grid, i: nat, avg: nat, scale: nat): (s: seq<DrawRect>)
    requires scale >= 1
    ensures |s| == NumLevels
    ensures forall l :: 0 <= l < NumLevels ==>
              s[l] == DrawRect(BarLeft(g, i), LevelTop(g, l), BarLeft(g, i) + g.barWidth,
                               LevelTop(g, l) + g.actualRectHeight, LevelColor(l, LevelsToLight(avg, scale)))
  {
    var lit := LevelsToLight(avg, scale);
    seq(NumLevels, l requires 0 <= l < NumLevels =>
      DrawRect(BarLeft(g, i), LevelTop(g, l), BarLeft(g, i) + g.barWidth, LevelTop(g, l) + g.actualRectHeight, LevelColor(l, lit)))
  }

  /**
   The lit levels of a bar are exactly its first `round(8 * avg / scale)`
   levels, counted from the top edge; the rest are dim.
   */
  lemma LitLevelsArePrefix(g: Grid, i: nat, avg: nat, scale: nat, l: nat)
    requires 1 <= scale && avg <= scale && l < NumLevels
    ensures LevelRects(g, i, avg, scale)[l].color.alpha == LitAlpha <==> l < LevelsToLight(avg, scale)
    ensures l < LevelsToLight(avg, scale) ==> forall m :: 0 <= m <= l ==> LevelRects(g, i, avg, scale)[m].color.alpha == LitAlpha
  {
  }

  /** A loud bar lights at least as many levels as a quieter one under the same scale. */
  lemma LouderLightsMore(a: nat, b: nat, scale: nat)
    requires scale >= 1 && a <= b
    ensures LevelsToLight(a, scale) <= LevelsToLight(b, scale)
  {
    LevelsToLightInIntegers(a, scale);
    LevelsToLightInIntegers(b, scale);
    DivMonotone(16 * a + scale, 16 * b + scale, 2 * scale);
  }

  /** Every LED rectangle is inverted or empty horizontally: its right edge is never right of its left edge. */
  lemma LevelRectsInverted(g: Grid, i: nat, avg: nat, scale: nat, width: nat, height: nat, numBars: BarCount)
    requires g == GridFor(width, height, numBars) && scale >= 1
    ensures forall l :: 0 <= l < NumLevels ==> LevelRects(g, i, avg, scale)[l].right <= LevelRects(g, i, avg, scale)[l].left
  {
  }

  /** The rectangles of one bar: none when it is skipped, otherwise its eight levels. */
  function BarBlock(g: Grid, reading: Reading, i: nat): (s: seq<DrawRect>)
    requires reading.Reading? ==> reading.scale >= 1
    ensures |s| == if reading.Reading? then NumLevels else 0
  {
    match reading
    case Skipped => []
    case Reading(avg, scale) => LevelRects(g, i, avg, scale)
  }

  /** The rectangles each bar draws, bar `k` in column `k`. */
  function LedBars(g: Grid, readings: seq<Reading>): (bars: seq<seq<DrawRect>>)
    requires forall k :: 0 <= k < |readings| && readings[k].Reading? ==> readings[k].scale >= 1
    ensures |bars| == |readings|
    ensures forall k :: 0 <= k < |readings| ==> |bars[k]| == if readings[k].Reading? then NumLevels else 0
  {
    seq(|readings|, k requires 0 <= k < |readings| => BarBlock(g, readings[k], k))
  }

  /** How many bars are drawn rather than skipped. */
  function Processed(readings: seq<Reading>): (n: nat)
    ensures n <= |readings|
  {
    if |readings| == 0 then 0 else (if readings[0].Reading? then 1 else 0) + Processed(readings[1..])
  }

  /** Bars of eight rectangles each for the processed readings and none for the skipped ones add up to eight per processed bar. */
  lemma {:induction false} BlocksTotal(parts: seq<seq<DrawRect>>, readings: seq<Reading>)
    requires |parts| == |readings|
    requires forall k :: 0 <= k < |parts| ==> |parts[k]| == if readings[k].Reading? then NumLevels else 0
    ensures TotalLength(parts) == NumLevels * Processed(readings)
    decreases |parts|
  {
    if |parts| > 0 {
      assert forall k :: 1 <= k < |parts| ==> parts[1..][k - 1] == parts[k] && readings[1..][k - 1] == readings[k];
      BlocksTotal(parts[1..], readings[1..]);
    }
  }

  /** What one `onDraw` with a capture produces: the rectangles, in drawing order, and the decayed peak. */
  datatype DrawResult = DrawResult(rects: seq<DrawRect>, peak: nat)

  /**
   The draw of one capture with the running peak `peak`: the bars' rectangles
   one bar after another (eight for every bar that is not skipped), and the
   peak raised to the capture's loudest bin and then decayed.
   */
  function Render(frame: Frame, peak: nat, width: nat, height: nat, numBars: BarCount): (d: DrawResult)
    ensures d.peak == Decay(Max(peak, FrameMax(frame, numBars)))
    ensures d.rects == Flatten(LedBars(GridFor(width, height, numBars), ScanFrame(frame, numBars, peak).readings))
    ensures |d.rects| == NumLevels * Processed(ScanFrame(frame, numBars, peak).readings)
  {
    var scan := ScanFrame(frame, numBars, peak);
    var bars := LedBars(GridFor(width, height, numBars), scan.readings);
    BlocksTotal(bars, scan.readings);
    DrawResult(Flatten(bars), Decay(scan.peak))
  }

  /**
   Every bar that reads a bin is drawn: its level `l` is rectangle
   `8 * i + l` of the draw, the level rectangle of column `i` for the bar's
   average and scale.
   */
  lemma RenderDrawsLevel(frame: Frame, peak: nat, width: nat, height: nat, numBars: BarCount, i: nat, l: nat)
    requires i < numBars && BarStart(i, BinsPerBar(|frame|, numBars)) < |frame| && l < NumLevels
    ensures var reading := ScanFrame(frame, numBars, peak).readings[i];
            && reading.Reading?
            && NumLevels * i + l < |Render(frame, peak, width, height, numBars).rects|
            && Render(frame, peak, width, height, numBars).rects[NumLevels * i + l]
               == LevelRects(GridFor(width, height, numBars), i, reading.avg, reading.scale)[l]
  {
    var readings := ScanFrame(frame, numBars, peak).readings;
    forall m | 0 <= m <= i
      ensures readings[m].Reading?
    {
      SkippedBarsTrail(frame, numBars, peak, m, i);
    }
    LedBarsBlock(GridFor(width, height, numBars), readings, i, l);
  }

  /** When bars `0..i` are all processed, level `l` of bar `i` is rectangle `8 * i + l` of the bars' rectangles. */
  lemma LedBarsBlock(g: Grid, readings: seq<Reading>, i: nat, l: nat)
    requires forall k :: 0 <= k < |readings| && readings[k].Reading? ==> readings[k].scale >= 1
    requires i < |readings| && l < NumLevels
    requires forall m :: 0 <= m <= i ==> readings[m].Reading?
    ensures NumLevels * i + l < |Flatten(LedBars(g, readings))|
    ensures Flatten(LedBars(g, readings))[NumLevels * i + l] == LevelRects(g, i, readings[i].avg, readings[i].scale)[l]
  {
    var bars := LedBars(g, readings);
    ProcessedAll(readings[..i]);
    BlocksTotal(bars[..i], readings[..i]);
    FlattenBlock(bars, i);
    var rects := Flatten(bars);
    var o := TotalLength(bars[..i]);
    assert rects[o + l] == rects[o..o + |bars[i]|][l] == bars[i][l];
  }

  /** A capture long enough for every bar to read a bin draws all `8 * numBars` rectangles. */
  lemma FullCaptureDrawsEveryLevel(frame: Frame, peak: nat, width: nat, height: nat, numBars: BarCount)
    requires BarStart(numBars - 1, BinsPerBar(|frame|, numBars)) < |frame|
    ensures |Render(frame, peak, width, height, numBars).rects| == NumLevels * numBars
  {
    var bpb := BinsPerBar(|frame|, numBars);
    var readings := ScanFrame(frame, numBars, peak).readings;
    forall k | 0 <= k < numBars
      ensures readings[k].Reading?
    {
      BarStartMonotone(k, numBars - 1, bpb);
    }
    ProcessedAll(readings);
  }

  lemma {:induction false} ProcessedAll(readings: seq<Reading>)
    requires forall k :: 0 <= k < |readings| ==> readings[k].Reading?
    ensures Processed(readings) == |readings|
  {
    if |readings| > 0 {
      assert forall k :: 1 <= k < |readings| ==> readings[k] == readings[1..][k - 1];
      ProcessedAll(readings[1..]);
    }
  }

  /** `onDraw`: nothing before the first capture; otherwise the render, and the view keeps the decayed peak. */
  function OnDraw(v: ViewState, width: nat, height: nat): (r: (seq<DrawRect>, ViewState))
    ensures v.fft.None? ==> r.0 == [] && r.1 == v
    ensures r.1 == v.(peak := PeakAfterDraw(v))
    ensures v.fft.Some? ==> |r.0| <= NumLevels * v.numBars
  {
    match v.fft
    case None => ([], v)
    case Some(frame) =>
      var d := Render(frame, v.peak, width, height, v.numBars);
      var n := Processed(ScanFrame(frame, v.numBars, v.peak).readings);
      MulLeft(NumLevels, n, v.numBars);
      (d.rects, v.(peak := d.peak))
  }
}
