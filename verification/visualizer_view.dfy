/**
 `VisualActivity.VisualizerView.onDraw`: the bars are centred across the view,
 each bar is a stack of segments growing up from the bottom edge, and each
 segment is coloured by a band of its position.

 Java's float arithmetic on the layout constants is taken as exact rational
 arithmetic: `w * 0.20f * n / (n + 0.20f * n)` is `w / 6`, `(int) (x * 0.20f)`
 is `x / 5`, `(int) (x * 0.30f)` is `3 * x / 10`, and
 `(int) ((avg * h * 1.5f) / scale)` is `3 * avg * h / (2 * scale)`, all rounded
 down because every operand is non-negative.
 */
module ClassicView {
  import opened JavaInt
  import opened Options
  import opened Spectrum

  // ---------------------------------------------------------------------------
  // Colour bands
  // ---------------------------------------------------------------------------

  /** `VIZ_TYPE`: classic colours a segment by its height in the window, fire by its place in the bar. */
  datatype Policy = Classic | Fire

  /** The view is compiled with `VIZ_TYPE = "classic"`. */
  const VizType: Policy := Classic

  datatype Band = Green | Yellow | Orange | Red

  /** How far up the scale a band is. */
  function Rank(b: Band): nat
  {
    match b
    case Green => 0
    case Yellow => 1
    case Orange => 2
    case Red => 3
  }

  /** `Color.GREEN`, `Color.YELLOW`, `Color.rgb(255, 165, 0)` and `Color.RED`, all opaque. */
  function BandColor(b: Band): (c: Color)
    ensures c.alpha == 255 && c.blue == 0
    ensures c.red == 255 <==> b != Green
    ensures c.green == 255 <==> b == Green || b == Yellow
  {
    match b
    case Green => Argb(255, 0, 255, 0)
    case Yellow => Argb(255, 255, 255, 0)
    case Orange => Argb(255, 255, 165, 0)
    case Red => Argb(255, 255, 0, 0)
  }

  /** The thresholds both policies share: 0.9 red, 0.7 orange, 0.5 yellow, green below. */
  function BandOf(ratio: real): Band
  {
    if ratio >= 0.9 then Red
    else if ratio >= 0.7 then Orange
    else if ratio >= 0.5 then Yellow
    else Green
  }

  /** The thresholds in increasing order. */
  const Thresholds: seq<real> := [0.5, 0.7, 0.9]

  /** How many of `ts` the ratio reaches. */
  function Reached(ts: seq<real>, ratio: real): nat
  {
    if |ts| == 0 then 0 else (if ratio >= ts[0] then 1 else 0) + Reached(ts[1..], ratio)
  }

  /** A band's rank is the number of thresholds its ratio reaches. */
  lemma BandCountsThresholds(ratio: real)
    ensures Rank(BandOf(ratio)) == Reached(Thresholds, ratio)
  {
    assert Reached([0.9], ratio) == (if ratio >= 0.9 then 1 else 0) by {
      assert [0.9][1..] == [];
    }
    assert Reached([0.7, 0.9], ratio) == (if ratio >= 0.7 then 1 else 0) + Reached([0.9], ratio) by {
      assert [0.7, 0.9][1..] == [0.9];
    }
    assert Thresholds[1..] == [0.7, 0.9];
  }

  /** A larger ratio never gets a lower band. */
  lemma BandMonotone(x: real, y: real)
    requires x <= y
    ensures Rank(BandOf(x)) <= Rank(BandOf(y))
  {
    BandCountsThresholds(x);
    BandCountsThresholds(y);
    ReachedMonotone(Thresholds, x, y);
  }

  lemma {:induction false} ReachedMonotone(ts: seq<real>, x: real, y: real)
    requires x <= y
    ensures Reached(ts, x) <= Reached(ts, y)
  {
    if |ts| > 0 {
      ReachedMonotone(ts[1..], x, y);
    }
  }

  /** Classic: `1.0f - (float) rectTop / maxHeight`, 1 at the top edge and 0 at the bottom. */
  function WindowRatio(top: int, height: nat): (q: real)
    requires height > 0
    ensures top <= 0 ==> q >= 1.0
    ensures top >= height ==> q <= 0.0
  {
    var f := top as real / height as real;
    assert top <= 0 ==> f <= 0.0;
    assert top >= height ==> f >= 1.0;
    1.0 - f
  }

  /** Fire: `(float) r / Math.max(1, numRects - 1)`, 0 for the bottom segment and 1 for the top one. */
  function StackRatio(r: nat, numRects: nat): (q: real)
    requires r < numRects
    ensures 0.0 <= q <= 1.0
    ensures r == 0 ==> q == 0.0
    ensures numRects >= 2 && r == numRects - 1 ==> q == 1.0
  {
    var d := Max(1, numRects - 1);
    assert r <= d;
    r as real / d as real
  }

  // ---------------------------------------------------------------------------
  // Horizontal layout
  // ---------------------------------------------------------------------------

  /** The horizontal layout recomputed on every draw from the width and the current bar count. */
  datatype Layout = Layout(barWidth: nat, spacing: nat, totalBarWidth: nat, startX: nat)

  /**
   The spacing is about a fifth of a bar, the bars use the width left after a
   sixth is set aside, and the block of bars is centred: it fits within the
   view and its two margins differ by at most one pixel.
   */
  function LayoutFor(width: nat, numBars: BarCount): (l: Layout)
    ensures l.barWidth * numBars <= width - width / 6 < (l.barWidth + 1) * numBars
    ensures 5 * l.spacing <= l.barWidth < 5 * l.spacing + 5
    ensures l.totalBarWidth == l.barWidth * numBars + l.spacing * (numBars - 1)
    ensures l.totalBarWidth <= width
    ensures width - 1 <= 2 * l.startX + l.totalBarWidth <= width
  {
    var available := width - width / 6;
    var bw := available / numBars;
    DivBracket(available, numBars);
    var sp := bw / 5;
    var tbw := bw * numBars + sp * (numBars - 1);
    TotalBarWidthFits(width, numBars, bw, sp);
    Layout(bw, sp, tbw, (width - tbw) / 2)
  }

  lemma TotalBarWidthFits(width: nat, numBars: BarCount, bw: nat, sp: nat)
    requires bw == (width - width / 6) / numBars && sp == bw / 5
    ensures bw * numBars + sp * (numBars - 1) <= width
  {
    if numBars == 16 {
      assert bw * 16 <= width - width / 6;
    } else {
      assert bw * 32 <= width - width / 6;
    }
  }

  /** `startX + i * (barWidth + spacing)`: the left edge of bar `i`. */
  function BarLeft(l: Layout, i: nat): int
  {
    l.startX + i * (l.barWidth + l.spacing)
  }

  /** Bars are laid out left to right without overlapping. */
  lemma BarsInOrder(l: Layout, i: nat, j: nat)
    requires i < j
    ensures BarLeft(l, i) + l.barWidth <= BarLeft(l, j)
  {
    MulLeft(l.barWidth + l.spacing, i + 1, j);
    MulSucc(i, l.barWidth + l.spacing);
  }

  /** The right edge of the last bar is the right edge of the centred block. */
  lemma LastBarEdge(l: Layout, numBars: BarCount)
    requires l.totalBarWidth == l.barWidth * numBars + l.spacing * (numBars - 1)
    ensures BarLeft(l, numBars - 1) + l.barWidth == l.startX + l.totalBarWidth
  {
    var m := numBars - 1;
    assert m * (l.barWidth + l.spacing) == m * l.barWidth + m * l.spacing;
    MulSucc(m, l.barWidth);
  }

  /** Every bar of a layout that fits lies within the view. */
  lemma BarInsideView(l: Layout, width: nat, numBars: BarCount, i: nat)
    requires l.totalBarWidth == l.barWidth * numBars + l.spacing * (numBars - 1)
    requires 2 * l.startX + l.totalBarWidth <= width
    requires i < numBars
    ensures 0 <= BarLeft(l, i)
    ensures BarLeft(l, i) + l.barWidth <= width
  {
    MulLeft(i, 0, l.barWidth + l.spacing);
    LastBarEdge(l, numBars);
    if i < numBars - 1 {
      BarsInOrder(l, i, numBars - 1);
    }
  }

  // ---------------------------------------------------------------------------
  // One bar: a stack of segments
  // ---------------------------------------------------------------------------

  /** `(int) ((avgMagnitude * maxHeight * 1.5f) / scaleFactor)`: never clamped to the view. */
  function BarHeight(avg: nat, height: nat, scale: nat): (h: nat)
    requires scale >= 1
    ensures avg <= scale ==> 2 * h <= 3 * height
    ensures h > 0 ==> avg > 0 && height > 0
  {
    ScaledHeightBound(avg, height, scale);
    var x: nat := ScaledNumerator(avg, height);
    x / (2 * scale)
  }

  /** The dividend `avgMagnitude * maxHeight * 1.5f`, doubled to stay in integers. */
  function ScaledNumerator(avg: nat, height: nat): (x: nat)
    ensures x == 3 * avg * height
  {
    MulLeft(3 * avg, 0, height);
    3 * avg * height
  }

  lemma ScaledHeightBound(avg: nat, height: nat, scale: nat)
    requires scale >= 1
    ensures avg <= scale ==> 2 * ((3 * avg * height) / (2 * scale)) <= 3 * height
    ensures avg == 0 || height == 0 ==> (3 * avg * height) / (2 * scale) == 0
  {
    var x := 3 * avg * height;
    if avg == 0 || height == 0 {
      assert x == 0;
    }
    if avg <= scale {
      var h := x / (2 * scale);
      DivBracket(x, 2 * scale);
      assert h * (2 * scale) <= x;
      MulLeft(3 * height, avg, scale);
      assert x == (3 * height) * avg;
      assert (2 * h) * scale == h * (2 * scale);
      MulCancel(2 * h, 3 * height, scale);
    }
  }

  /** `Math.max(4, barWidth / 2)`: a segment is at least 4 pixels high. */
  function RectHeight(barWidth: nat): (h: nat)
    ensures h >= 4 && 2 * h + 1 >= barWidth
  {
    Max(4, barWidth / 2)
  }

  /** `(int) (rectHeight * 0.30f)`: the gap above each segment. */
  function VerticalSpacing(rectHeight: nat): (v: nat)
    ensures 10 * v <= 3 * rectHeight < 10 * v + 10
  {
    3 * rectHeight / 10
  }

  /** `barHeight / rectWithSpacing`, raised to 1 for a bar with any height at all. */
  function NumRects(barHeight: nat, pitch: nat): (n: nat)
    requires pitch > 0
    ensures n >= 1 <==> barHeight > 0
    ensures n * pitch <= barHeight || n == 1
  {
    var n := barHeight / pitch;
    if n == 0 && barHeight > 0 then 1 else n
  }

  /** Everything one bar's segment loop needs, and its horizontal extent. */
  datatype Column = Column(left: int, right: int, height: nat, barHeight: nat,
                           rectHeight: nat, vspacing: nat, numRects: nat, policy: Policy)

  /** The relations `onDraw` establishes between a column's quantities. */
  predicate ValidColumn(c: Column)
  {
    && c.rectHeight >= 4
    && c.vspacing == VerticalSpacing(c.rectHeight)
    && 2 * c.barHeight <= 3 * c.height
    && c.numRects == NumRects(c.barHeight, Pitch(c))
  }

  /** `rectWithSpacing`: the distance from one segment to the next. */
  function Pitch(c: Column): nat
  {
    c.rectHeight + c.vspacing
  }

  /** `maxHeight - (r + 1) * rectWithSpacing + verticalSpacing`: the top of segment `r`. */
  function SegmentTop(c: Column, r: nat): (t: int)
    ensures t + c.rectHeight == c.height - r * Pitch(c)
  {
    c.height - (r + 1) * Pitch(c) + c.vspacing
  }

  /** The band segment `r`, with top edge `top`, is painted in. */
  function SegmentBand(c: Column, r: nat): Band
    requires ValidColumn(c) && r < c.numRects
  {
    match c.policy
    case Classic => BandOf(WindowRatio(SegmentTop(c, r), c.height))
    case Fire => BandOf(StackRatio(r, c.numRects))
  }

  /**
   The segment loop from segment `r` on: it stops after `numRects` segments,
   or at the first segment whose top would rise above the bar's height.
   */
  function StackFrom(c: Column, r: nat): (s: seq<DrawRect>)
    requires ValidColumn(c)
    ensures |s| <= c.numRects - r || |s| == 0
    ensures forall k :: 0 <= k < |s| ==> s[k].top == SegmentTop(c, r + k) && s[k].bottom == s[k].top + c.rectHeight
    ensures forall k :: 0 <= k < |s| ==> s[k].left == c.left && s[k].right == c.right
    ensures forall k :: 0 <= k < |s| ==> c.height - c.barHeight <= s[k].top && s[k].bottom <= c.height
    ensures forall k :: 0 <= k < |s| ==> r + k < c.numRects && s[k].color == BandColor(SegmentBand(c, r + k))
    decreases c.numRects - r
  {
    if r >= c.numRects then []
    else
      var top := SegmentTop(c, r);
      if top < c.height - c.barHeight then []
      else
        var rest := StackFrom(c, r + 1);
        [DrawRect(c.left, top, c.right, top + c.rectHeight, BandColor(SegmentBand(c, r)))] + rest
  }

  /**
   How many segments a bar of height `barHeight` shows: one per whole pitch,
   and a lone segment only when the bar is at least one segment high. A bar
   lower than a segment shows nothing, although the count was raised to 1.
   */
  function DrawnSegments(c: Column): nat
    requires ValidColumn(c)
  {
    if c.barHeight >= Pitch(c) then c.barHeight / Pitch(c)
    else if c.barHeight >= c.rectHeight then 1
    else 0
  }

  lemma StackCount(c: Column)
    requires ValidColumn(c)
    ensures |StackFrom(c, 0)| == DrawnSegments(c)
  {
    StackCountFrom(c, 0);
  }

  lemma {:induction false} StackCountFrom(c: Column, r: nat)
    requires ValidColumn(c)
    ensures |StackFrom(c, r)| == Max(0, DrawnSegments(c) - r)
    decreases c.numRects - r
  {
    if r < DrawnSegments(c) {
      SegmentShown(c, r);
      StackCountFrom(c, r + 1);
    } else {
      SegmentStops(c, r);
    }
  }

  /** Every segment below the drawn count passes both loop tests. */
  lemma SegmentShown(c: Column, r: nat)
    requires ValidColumn(c) && r < DrawnSegments(c)
    ensures r < c.numRects && SegmentTop(c, r) >= c.height - c.barHeight
  {
    var p := Pitch(c);
    if c.barHeight >= p {
      DivBracket(c.barHeight, p);
      MulLeft(p, r + 1, c.barHeight / p);
      MulSucc(r, p);
    }
  }

  /** The first segment past the drawn count fails one of the loop tests. */
  lemma SegmentStops(c: Column, r: nat)
    requires ValidColumn(c) && r >= DrawnSegments(c)
    ensures r >= c.numRects || SegmentTop(c, r) < c.height - c.barHeight
  {
    var p := Pitch(c);
    if c.barHeight >= p {
      DivBracket(c.barHeight, p);
    }
  }

  /** The lowest segment sits on the bottom edge and each next one is exactly one gap above the one below. */
  lemma StackAdjacent(c: Column)
    requires ValidColumn(c)
    ensures |StackFrom(c, 0)| > 0 ==> StackFrom(c, 0)[0].bottom == c.height
    ensures forall k :: 0 <= k < |StackFrom(c, 0)| - 1 ==>
              StackFrom(c, 0)[k + 1].bottom == StackFrom(c, 0)[k].top - c.vspacing
  {
    var s := StackFrom(c, 0);
    forall k | 0 <= k < |s| - 1
      ensures s[k + 1].bottom == s[k].top - c.vspacing
    {
      MulSucc(k, Pitch(c));
      MulSucc(k + 1, Pitch(c));
    }
  }

  /** Up a bar the colour never drops to a lower band, whichever policy is in force. */
  lemma BandRisesUpTheBar(c: Column, r: nat, r': nat)
    requires ValidColumn(c) && r <= r' < c.numRects
    ensures Rank(SegmentBand(c, r)) <= Rank(SegmentBand(c, r'))
  {
    match c.policy
    case Classic =>
      var h := c.height as real;
      MulLeft(Pitch(c), r, r');
      var t, t' := SegmentTop(c, r) as real, SegmentTop(c, r') as real;
      assert t' <= t;
      RealDivMonotone(t', t, h);
      BandMonotone(WindowRatio(SegmentTop(c, r), c.height), WindowRatio(SegmentTop(c, r'), c.height));
    case Fire =>
      var d := Max(1, c.numRects - 1) as real;
      RealDivMonotone(r as real, r' as real, d);
      BandMonotone(StackRatio(r, c.numRects), StackRatio(r', c.numRects));
  }

  // ---------------------------------------------------------------------------
  // The whole draw
  // ---------------------------------------------------------------------------

  /** Where a rectangle of the classic view may lie: across the view, at most half a view above it. */
  predicate InView(d: DrawRect, width: nat, height: nat)
  {
    0 <= d.left <= d.right <= width && d.top < d.bottom <= height && -(height as int) <= 2 * d.top
  }

  /** The column of bar `i`, from its reading. */
  function ColumnOf(l: Layout, i: nat, avg: nat, scale: nat, height: nat, policy: Policy): (c: Column)
    requires 1 <= scale && avg <= scale
    ensures ValidColumn(c)
    ensures c.left == BarLeft(l, i) && c.right == c.left + l.barWidth
    ensures c.height == height && c.barHeight == BarHeight(avg, height, scale)
    ensures c.rectHeight == RectHeight(l.barWidth) && c.policy == policy
  {
    var rh := RectHeight(l.barWidth);
    var vs := VerticalSpacing(rh);
    var bh := BarHeight(avg, height, scale);
    Column(BarLeft(l, i), BarLeft(l, i) + l.barWidth, height, bh, rh, vs, NumRects(bh, rh + vs), policy)
  }

  /** The rectangles of bar `i`: none for a skipped bar, otherwise its segment stack. */
  function BarRects(l: Layout, i: nat, reading: Reading, height: nat, policy: Policy): (s: seq<DrawRect>)
    requires reading.Reading? ==> 1 <= reading.scale && reading.avg <= reading.scale
    ensures reading.Skipped? ==> s == []
    ensures reading.Reading? ==> |s| == DrawnSegments(ColumnOf(l, i, reading.avg, reading.scale, height, policy))
  {
    match reading
    case Skipped => []
    case Reading(avg, scale) =>
      var c := ColumnOf(l, i, avg, scale, height, policy);
      StackCount(c);
      StackFrom(c, 0)
  }

  /** What one `onDraw` with a capture produces: the rectangles, in drawing order, and the decayed peak. */
  datatype DrawResult = DrawResult(rects: seq<DrawRect>, peak: nat)

  /** The rectangles bar `i` contributes to a draw, in the order the segment loop draws them. */
  function RenderedBar(frame: Frame, peak: nat, width: nat, height: nat, numBars: BarCount, policy: Policy, i: nat): (s: seq<DrawRect>)
    requires i < numBars
    ensures forall k :: 0 <= k < |s| ==> InView(s[k], width, height)
  {
    var reading := ScanFrame(frame, numBars, peak).readings[i];
    BarRectsInView(width, height, numBars, i, reading, policy);
    BarRects(LayoutFor(width, numBars), i, reading, height, policy)
  }

  /** Every rectangle of a bar of the layout lies in the view. */
  lemma BarRectsInView(width: nat, height: nat, numBars: BarCount, i: nat, reading: Reading, policy: Policy)
    requires i < numBars
    requires reading.Reading? ==> 1 <= reading.scale && reading.avg <= reading.scale
    ensures forall k :: 0 <= k < |BarRects(LayoutFor(width, numBars), i, reading, height, policy)| ==>
              InView(BarRects(LayoutFor(width, numBars), i, reading, height, policy)[k], width, height)
  {
    var l := LayoutFor(width, numBars);
    BarInsideView(l, width, numBars, i);
  }

  /** Every bar's rectangles, bar 0 first. */
  function RenderedBars(frame: Frame, peak: nat, width: nat, height: nat, numBars: BarCount, policy: Policy): (bars: seq<seq<DrawRect>>)
    ensures |bars| == numBars
    ensures forall i :: 0 <= i < numBars ==> bars[i] == RenderedBar(frame, peak, width, height, numBars, policy, i)
  {
    seq(numBars, i requires 0 <= i < numBars => RenderedBar(frame, peak, width, height, numBars, policy, i))
  }

  /**
   The draw of one capture with the running peak `peak`: every bar's segments
   in bar order, every rectangle inside the view's width, ending at or above
   the view's bottom and reaching above its top by at most half its height,
   and the peak raised to the capture's loudest bin and then decayed.
   */
  function Render(frame: Frame, peak: nat, width: nat, height: nat, numBars: BarCount, policy: Policy): (d: DrawResult)
    ensures d.peak == Decay(Max(peak, FrameMax(frame, numBars)))
    ensures d.rects == Flatten(RenderedBars(frame, peak, width, height, numBars, policy))
    ensures forall k :: 0 <= k < |d.rects| ==> InView(d.rects[k], width, height)
  {
    var scan := ScanFrame(frame, numBars, peak);
    var bars := RenderedBars(frame, peak, width, height, numBars, policy);
    FlattenAll(bars, d => InView(d, width, height));
    DrawResult(Flatten(bars), Decay(scan.peak))
  }

  /** A processed bar draws its column's segment stack: `DrawnSegments` rectangles of it. */
  lemma RenderedBarIsStack(frame: Frame, peak: nat, width: nat, height: nat, numBars: BarCount, policy: Policy, i: nat)
    requires i < numBars && BarStart(i, BinsPerBar(|frame|, numBars)) < |frame|
    ensures var reading := ScanFrame(frame, numBars, peak).readings[i];
            && reading.Reading?
            && var c := ColumnOf(LayoutFor(width, numBars), i, reading.avg, reading.scale, height, policy);
            && RenderedBar(frame, peak, width, height, numBars, policy, i) == StackFrom(c, 0)
            && |StackFrom(c, 0)| == DrawnSegments(c)
  {
    var reading := ScanFrame(frame, numBars, peak).readings[i];
    ProcessedBarStack(LayoutFor(width, numBars), i, reading, height, policy);
  }

  /** Each bar's rectangles appear in the draw as one run, right after those of the bars before it. */
  lemma RenderPlacesEachBar(frame: Frame, peak: nat, width: nat, height: nat, numBars: BarCount, policy: Policy, i: nat)
    requires i < numBars
    ensures var bars := RenderedBars(frame, peak, width, height, numBars, policy);
            var rects := Render(frame, peak, width, height, numBars, policy).rects;
            var o := TotalLength(bars[..i]);
            && o + |bars[i]| <= |rects|
            && rects[o..o + |bars[i]|] == RenderedBar(frame, peak, width, height, numBars, policy, i)
  {
    FlattenBlock(RenderedBars(frame, peak, width, height, numBars, policy), i);
  }

  /** A bar with a reading draws its column's stack, `DrawnSegments` rectangles of it. */
  lemma ProcessedBarStack(l: Layout, i: nat, reading: Reading, height: nat, policy: Policy)
    requires reading.Reading? && 1 <= reading.scale && reading.avg <= reading.scale
    ensures var c := ColumnOf(l, i, reading.avg, reading.scale, height, policy);
            && BarRects(l, i, reading, height, policy) == StackFrom(c, 0)
            && |StackFrom(c, 0)| == DrawnSegments(c)
  {
    StackCount(ColumnOf(l, i, reading.avg, reading.scale, height, policy));
  }

  /**
   A bar whose first bin lies past the end of the capture draws nothing, and
   neither does any bar after it: the draw is that of the bars before it.
   */
  lemma SkippedBarDrawsNothing(frame: Frame, peak: nat, width: nat, height: nat, numBars: BarCount, policy: Policy, i: nat)
    requires i < numBars && BarStart(i, BinsPerBar(|frame|, numBars)) >= |frame|
    ensures RenderedBar(frame, peak, width, height, numBars, policy, i) == []
    ensures Render(frame, peak, width, height, numBars, policy).rects
            == Flatten(RenderedBars(frame, peak, width, height, numBars, policy)[..i])
  {
    var bars := RenderedBars(frame, peak, width, height, numBars, policy);
    forall j | i <= j < numBars
      ensures bars[j] == []
    {
      SkippedBarsTrail(frame, numBars, peak, i, j);
    }
    FlattenEmptyTail(bars, i);
  }

  /**
   `onDraw`: nothing at all before the first capture; otherwise the render of
   the latest capture with the current bar count, and the view keeps the
   decayed peak.
   */
  function OnDraw(v: ViewState, width: nat, height: nat): (r: (seq<DrawRect>, ViewState))
    ensures v.fft.None? ==> r.0 == [] && r.1 == v
    ensures r.1 == v.(peak := PeakAfterDraw(v))
    ensures forall k :: 0 <= k < |r.0| ==> InView(r.0[k], width, height)
  {
    match v.fft
    case None => ([], v)
    case Some(frame) =>
      var d := Render(frame, v.peak, width, height, v.numBars, VizType);
      (d.rects, v.(peak := d.peak))
  }

  // ---------------------------------------------------------------------------
  // The unused frequency gradient
  // ---------------------------------------------------------------------------

  /** `Color.rgb(r, g, b)`: an opaque colour. */
  function Rgb(red: int, green: int, blue: int): Color
  {
    Argb(255, red, green, blue)
  }

  predicate ChannelsInRange(c: Color)
  {
    0 <= c.alpha <= 255 && 0 <= c.red <= 255 && 0 <= c.green <= 255 && 0 <= c.blue <= 255
  }

  /**
   `getBarColor`, which no draw calls: a gradient over the bar's share of the
   bar count, red to orange, orange to yellow, yellow to green, green to
   cyan, cyan to blue, each over a fifth. For a bar inside the count every
   channel stays within 0..255.
   */
  function BarColor(barIndex: int, totalBars: int): (c: Color)
    requires totalBars > 0
    ensures 0 <= barIndex < totalBars ==> ChannelsInRange(c)
  {
    var ratio := barIndex as real / totalBars as real;
    assert 0 <= barIndex < totalBars ==> 0.0 <= ratio < 1.0 by {
      if 0 <= barIndex < totalBars {
        RealMulCancelStrict(ratio, 1.0, totalBars as real);
      }
    }
    if ratio < 0.2 then Rgb(255, Trunc(ratio * 5.0 * 255.0), 0)
    else if ratio < 0.4 then Rgb(255, 165 + Trunc((ratio - 0.2) * 5.0 * 90.0), Trunc((ratio - 0.2) * 5.0 * 255.0))
    else if ratio < 0.6 then Rgb(255 - Trunc((ratio - 0.4) * 5.0 * 255.0), 255, Trunc((ratio - 0.4) * 5.0 * 255.0))
    else if ratio < 0.8 then Rgb(0, 255, Trunc((ratio - 0.6) * 5.0 * 255.0))
    else Rgb(0, 255 - Trunc((ratio - 0.8) * 5.0 * 255.0), 255)
  }

  /** A share `i / n` compared against `k / 5`, read off the integers. */
  lemma ShareAgainstFifths(i: int, n: int, k: int)
    requires n > 0
    ensures 5 * i < k * n ==> i as real / n as real < k as real / 5.0
    ensures 5 * i >= k * n ==> i as real / n as real >= k as real / 5.0
  {
    var nr := n as real;
    var x := i as real / nr;
    assert x * nr == i as real;
    var y := k as real / 5.0;
    assert y * nr * 5.0 == (k * n) as real;
    assert x * nr * 5.0 == (5 * i) as real;
    if 5 * i < k * n {
      RealMulCancelStrict(x, y, nr * 5.0);
    } else {
      RealMulCancel(y, x, nr * 5.0);
    }
  }

  /**
   Each fifth of the gradient holds one channel fixed and moves another:
   the first bar is pure red, the first fifth keeps red full with no blue,
   and the last fifth keeps blue full with no red.
   */
  lemma BarColorFifths(barIndex: int, totalBars: int)
    requires totalBars > 0 && 0 <= barIndex < totalBars
    ensures barIndex == 0 ==> BarColor(barIndex, totalBars) == Rgb(255, 0, 0)
    ensures 5 * barIndex < totalBars ==> BarColor(barIndex, totalBars).red == 255 && BarColor(barIndex, totalBars).blue == 0
    ensures 5 * barIndex >= 4 * totalBars ==> BarColor(barIndex, totalBars).blue == 255 && BarColor(barIndex, totalBars).red == 0
  {
    ShareAgainstFifths(barIndex, totalBars, 1);
    ShareAgainstFifths(barIndex, totalBars, 4);
  }
}
