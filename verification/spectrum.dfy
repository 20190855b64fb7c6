/**
 What the two visualizer views (`VisualActivity.VisualizerView` and `VizBox`)
 share: the FFT capture they read, the reduction of its low-frequency bins to
 per-bar average magnitudes, the adaptive peak those magnitudes are scaled by,
 the bar count chosen from the orientation, and the state a view keeps
 between draws. Both views contain identical copies of this code; it is
 defined once here.
 */
module Spectrum {
  import opened JavaInt
  import opened Options

  /** A Java `byte`. */
  type SByte = b: int | -128 <= b <= 127

  /** An FFT capture: real and imaginary parts interleaved, one pair per bin. */
  type Frame = seq<SByte>

  /** The only bar counts a view ever uses. */
  type BarCount = n: nat | n == 16 || n == 32 witness 16

  /** Android's `Configuration.orientation` values. */
  datatype Orientation = Undefined | Portrait | Landscape | Square

  /** `updateNumBars` / `updateConfiguration`: 32 bars in landscape, 16 otherwise. */
  function NumBarsFor(o: Orientation): (n: BarCount)
    ensures n == 32 <==> o == Landscape
    ensures n == 16 <==> o != Landscape
  {
    if o == Landscape then 32 else 16
  }

  // ---------------------------------------------------------------------------
  // Canvas output
  // ---------------------------------------------------------------------------

  /** An Android colour int, split into its channels. */
  datatype Color = Argb(alpha: int, red: int, green: int, blue: int)

  /** One `canvas.drawRect(left, top, right, bottom, paint)` with a fill paint. */
  datatype DrawRect = DrawRect(left: int, top: int, right: int, bottom: int, color: Color)

  /** The rectangles of several bars, drawn one bar after another. */
  function Flatten(parts: seq<seq<DrawRect>>): (r: seq<DrawRect>)
    ensures |r| == TotalLength(parts)
  {
    if |parts| == 0 then [] else parts[0] + Flatten(parts[1..])
  }

  function TotalLength(parts: seq<seq<DrawRect>>): nat
  {
    if |parts| == 0 then 0 else |parts[0]| + TotalLength(parts[1..])
  }

  /** Bar `i`'s rectangles sit in the draw right after those of the bars before it. */
  lemma {:induction false} FlattenBlock(parts: seq<seq<DrawRect>>, i: nat)
    requires i < |parts|
    ensures TotalLength(parts[..i]) + |parts[i]| <= |Flatten(parts)|
    ensures Flatten(parts)[TotalLength(parts[..i])..TotalLength(parts[..i]) + |parts[i]|] == parts[i]
    decreases i
  {
    var r := Flatten(parts);
    if i == 0 {
      assert parts[..0] == [];
      assert r[..|parts[0]|] == parts[0];
    } else {
      FlattenBlock(parts[1..], i - 1);
      assert parts[..i][0] == parts[0];
      assert parts[..i][1..] == parts[1..][..i - 1];
      var o := TotalLength(parts[1..][..i - 1]);
      assert TotalLength(parts[..i]) == |parts[0]| + o;
      assert r[|parts[0]| + o..|parts[0]| + o + |parts[i]|] == Flatten(parts[1..])[o..o + |parts[i]|];
    }
  }

  /** Bars that draw nothing at the end of the draw leave it as the draw of the bars before them. */
  lemma {:induction false} FlattenEmptyTail(parts: seq<seq<DrawRect>>, i: nat)
    requires i <= |parts|
    requires forall j :: i <= j < |parts| ==> parts[j] == []
    ensures Flatten(parts) == Flatten(parts[..i])
    decreases |parts|
  {
    if |parts| > 0 {
      if i == 0 {
        assert parts[0] == [];
        assert forall j :: 0 <= j < |parts| - 1 ==> parts[1..][j] == parts[j + 1];
        FlattenEmptyTail(parts[1..], 0);
        assert parts[1..][..0] == [] && parts[..0] == [];
      } else {
        assert forall j :: i - 1 <= j < |parts| - 1 ==> parts[1..][j] == parts[j + 1];
        FlattenEmptyTail(parts[1..], i - 1);
        assert parts[..i][0] == parts[0];
        assert parts[..i][1..] == parts[1..][..i - 1];
      }
    }
  }

  /** A property every bar's rectangles have holds of everything drawn. */
  lemma {:induction false} FlattenAll(parts: seq<seq<DrawRect>>, P: DrawRect -> bool)
    requires forall i, j :: 0 <= i < |parts| && 0 <= j < |parts[i]| ==> P(parts[i][j])
    ensures forall k :: 0 <= k < |Flatten(parts)| ==> P(Flatten(parts)[k])
  {
    if |parts| > 0 {
      assert forall i, j :: 1 <= i < |parts| && 0 <= j < |parts[i]| ==> parts[i][j] == parts[1..][i - 1][j];
      FlattenAll(parts[1..], P);
      var r := Flatten(parts);
      forall k | 0 <= k < |r|
        ensures P(r[k])
      {
        if k >= |parts[0]| {
          assert r[k] == Flatten(parts[1..])[k - |parts[0]|];
        }
      }
    }
  }

  // ---------------------------------------------------------------------------
  // Band aggregation
  // ---------------------------------------------------------------------------

  /** The spectrum is cut at 4096 Hz of an assumed 22050 Hz Nyquist frequency. */
  const BandLimitHz: nat := 4096
  const NyquistHz: nat := 22050

  /** `(int) ((4096.0 / 22050.0) * fftSize)` with `fftSize = len / 2` bins. */
  function MaxBins(len: nat): nat
  {
    BandLimitHz * (len / 2) / NyquistHz
  }

  /** `Math.max(1, maxBins / numBars)`. */
  function BinsPerBar(len: nat, numBars: BarCount): (b: nat)
    ensures b >= 1
    ensures b * numBars <= Max(numBars, MaxBins(len))
  {
    var b := MaxBins(len) / numBars;
    if b >= 1 then b else 1
  }

  /** `fftStartIndex`: the byte index of bar `i`'s first bin. */
  function BarStart(i: nat, binsPerBar: nat): nat
  {
    i * binsPerBar * 2
  }

  /** A later bar starts no earlier in the capture. */
  lemma BarStartMonotone(i: nat, j: nat, binsPerBar: nat)
    requires i <= j
    ensures BarStart(i, binsPerBar) <= BarStart(j, binsPerBar)
  {
    MulLeft(binsPerBar, i, j);
    assert i * binsPerBar <= j * binsPerBar;
  }

  /**
   The byte offsets of the real parts the inner loop reads for a bar starting
   at `start`: `j` runs while `j < binsPerBar` and `start + 2j < len - 1`.
   Both the real part at an offset and the imaginary part after it are inside
   the frame.
   */
  function BinOffsets(len: nat, start: nat, binsPerBar: nat): (r: seq<nat>)
    ensures |r| <= binsPerBar
    ensures forall k :: 0 <= k < |r| ==> r[k] == start + 2 * k
    ensures forall k :: 0 <= k < |r| ==> r[k] + 1 < len
  {
    BinOffsetsFrom(len, start, binsPerBar, 0)
  }

  function BinOffsetsFrom(len: nat, start: nat, binsPerBar: nat, j: nat): (r: seq<nat>)
    ensures |r| <= binsPerBar - j || |r| == 0
    ensures forall k :: 0 <= k < |r| ==> r[k] == start + 2 * (j + k)
    ensures forall k :: 0 <= k < |r| ==> r[k] + 1 < len
    decreases binsPerBar - j
  {
    if j < binsPerBar && start + 2 * j < len - 1 then
      [start + 2 * j] + BinOffsetsFrom(len, start, binsPerBar, j + 1)
    else []
  }

  /** How many bins the frame still holds from byte `start` on: `ceil((len - 1 - start) / 2)` pairs. */
  function PairsFrom(len: nat, start: nat): nat
  {
    if start >= len then 0 else (len - start) / 2
  }

  /** The inner loop reads `min(binsPerBar, pairs left in the frame)` bins. */
  lemma BinCount(len: nat, start: nat, binsPerBar: nat)
    ensures |BinOffsets(len, start, binsPerBar)| == Min(binsPerBar, PairsFrom(len, start))
  {
    BinCountFrom(len, start, binsPerBar, 0);
  }

  lemma {:induction false} BinCountFrom(len: nat, start: nat, binsPerBar: nat, j: nat)
    ensures |BinOffsetsFrom(len, start, binsPerBar, j)| == Max(0, Min(binsPerBar, PairsFrom(len, start)) - j)
    decreases binsPerBar - j
  {
    if j < binsPerBar && start + 2 * j < len - 1 {
      BinCountFrom(len, start, binsPerBar, j + 1);
    }
  }

  /** `(int) Math.sqrt(real * real + imag * imag)`. */
  function Magnitude(re: SByte, im: SByte): (m: nat)
    ensures m <= 181
  {
    var k := re * re + im * im;
    assert re * re <= 16384 && im * im <= 16384;
    var m := FloorSqrt(k);
    assert m <= 181 by {
      if m > 181 {
        MulMono(182, m);
      }
    }
    m
  }

  /** The magnitudes of the bins bar `i` reads, in reading order. */
  function BarMagnitudes(frame: Frame, i: nat, binsPerBar: nat): (m: seq<nat>)
    ensures |m| == |BinOffsets(|frame|, BarStart(i, binsPerBar), binsPerBar)|
    ensures BarStart(i, binsPerBar) >= |frame| ==> |m| == 0
    ensures forall k :: 0 <= k < |m| ==> m[k] <= 181
  {
    var offsets := BinOffsets(|frame|, BarStart(i, binsPerBar), binsPerBar);
    seq(|offsets|, k requires 0 <= k < |offsets| => Magnitude(frame[offsets[k]], frame[offsets[k] + 1]))
  }

  function Sum(xs: seq<nat>): nat
  {
    if |xs| == 0 then 0 else xs[0] + Sum(xs[1..])
  }

  /** The largest element, or 0 for none (`currentMaxMagnitude` starts at 0). */
  function MaxOf(xs: seq<nat>): (m: nat)
    ensures forall k :: 0 <= k < |xs| ==> xs[k] <= m
    ensures |xs| == 0 ==> m == 0
    ensures |xs| > 0 ==> m in xs
  {
    if |xs| == 0 then 0
    else
      var rest := MaxOf(xs[1..]);
      if xs[0] >= rest then xs[0] else rest
  }

  lemma {:induction false} SumAtMostCountTimesMax(xs: seq<nat>)
    ensures Sum(xs) <= |xs| * MaxOf(xs)
  {
    if |xs| > 0 {
      SumAtMostCountTimesMax(xs[1..]);
      MulLeft(|xs| - 1, MaxOf(xs[1..]), MaxOf(xs));
      MulSucc(|xs| - 1, MaxOf(xs));
    }
  }

  /** `binCount > 0 ? totalMagnitude / binCount : 0`: 0 for no bins, and never above the largest. */
  function Average(xs: seq<nat>): (a: nat)
    ensures |xs| == 0 ==> a == 0
    ensures a <= MaxOf(xs)
  {
    if |xs| > 0 then
      MeanAtMostMax(xs);
      Sum(xs) / |xs|
    else 0
  }

  /** The mean rounded down is at most the largest element. */
  lemma MeanAtMostMax(xs: seq<nat>)
    requires |xs| > 0
    ensures Sum(xs) / |xs| <= MaxOf(xs)
  {
    var n, total, m := |xs|, Sum(xs), MaxOf(xs);
    SumAtMostCountTimesMax(xs);
    DivAtMost(total, n, m);
  }

  /** The average is the arithmetic mean rounded down. */
  lemma AverageIsFloorMean(xs: seq<nat>)
    requires |xs| > 0
    ensures Average(xs) * |xs| <= Sum(xs) < (Average(xs) + 1) * |xs|
  {
    DivBracket(Sum(xs), |xs|);
  }

  // ---------------------------------------------------------------------------
  // Adaptive gain
  // ---------------------------------------------------------------------------

  /**
   Every bar of a frame as the bar loop meets it: `None` when it is skipped
   because its first byte index is at or past the end of the frame (`continue`),
   otherwise the magnitudes its inner loop reads.
   */
  function FrameBars(frame: Frame, numBars: nat, binsPerBar: nat): (bars: seq<Option<seq<nat>>>)
    ensures |bars| == numBars
    ensures forall i :: 0 <= i < numBars ==> (bars[i].None? <==> BarStart(i, binsPerBar) >= |frame|)
    ensures forall i :: 0 <= i < numBars && bars[i].Some? ==> bars[i].value == BarMagnitudes(frame, i, binsPerBar)
  {
    seq(numBars, i requires 0 <= i < numBars =>
      if BarStart(i, binsPerBar) >= |frame| then None else Some(BarMagnitudes(frame, i, binsPerBar)))
  }

  /** The largest magnitude any of the bars reads (0 when none reads any). */
  function BarsMax(bars: seq<Option<seq<nat>>>): (m: nat)
    ensures forall k :: 0 <= k < |bars| && bars[k].Some? ==> MaxOf(bars[k].value) <= m
  {
    if |bars| == 0 then 0
    else
      var here := if bars[0].Some? then MaxOf(bars[0].value) else 0;
      var rest := BarsMax(bars[1..]);
      assert forall k :: 1 <= k < |bars| ==> bars[k] == bars[1..][k - 1];
      if here >= rest then here else rest
  }

  /**
   How one bar of a frame is used: skipped (nothing drawn), or its average
   magnitude and the `scaleFactor` it is divided by.
   */
  datatype Reading = Skipped | Reading(avg: nat, scale: nat)

  /** The readings of a frame's bars and the peak reached by the end of the frame, before decay. */
  datatype Scan = Scan(readings: seq<Reading>, peak: nat)

  /**
   The bar loop over the remaining `bars`, with `curMax` the running
   `currentMaxMagnitude` and `peak` the running `mMaxMagnitude`. After each
   processed bar the peak is raised to the running maximum and the bar is
   scaled by `Math.max(1, peak)`; the peak never falls within a frame.
   */
  function ScanFrom(bars: seq<Option<seq<nat>>>, curMax: nat, peak: nat): (s: Scan)
    requires curMax <= peak
    ensures |s.readings| == |bars|
    ensures forall k :: 0 <= k < |bars| ==> (s.readings[k].Skipped? <==> bars[k].None?)
    ensures forall k :: 0 <= k < |bars| && bars[k].Some? ==> s.readings[k].avg == Average(bars[k].value)
    ensures forall k :: 0 <= k < |bars| && bars[k].Some? ==>
              s.readings[k].avg <= s.readings[k].scale
    ensures forall k :: 0 <= k < |bars| && bars[k].Some? ==>
              Max(1, peak) <= s.readings[k].scale <= Max(1, s.peak)
    ensures ScaledByRunningPeak(bars, peak, s.readings)
    ensures s.peak == Max(peak, BarsMax(bars))
    decreases |bars|
  {
    if |bars| == 0 then Scan([], peak)
    else
      match bars[0]
      case None =>
        var rest := ScanFrom(bars[1..], curMax, peak);
        ScanStep(bars, peak, peak, Skipped, rest);
        Scan([Skipped] + rest.readings, rest.peak)
      case Some(mags) =>
        var curMax' := if MaxOf(mags) > curMax then MaxOf(mags) else curMax;
        var peak' := if curMax' > peak then curMax' else peak;
        var rest := ScanFrom(bars[1..], curMax', peak');
        var head := Reading(Average(mags), Max(1, peak'));
        ScanStep(bars, peak, peak', head, rest);
        Scan([head] + rest.readings, rest.peak)
  }

  /** What `ScanFrom` promises of a scan `s` of `bars` started from `peak`. */
  predicate ScanOf(bars: seq<Option<seq<nat>>>, peak: nat, s: Scan)
  {
    && |s.readings| == |bars|
    && (forall k :: 0 <= k < |bars| ==> (s.readings[k].Skipped? <==> bars[k].None?))
    && (forall k :: 0 <= k < |bars| && bars[k].Some? ==> s.readings[k].avg == Average(bars[k].value))
    && (forall k :: 0 <= k < |bars| && bars[k].Some? ==> s.readings[k].avg <= s.readings[k].scale)
    && (forall k :: 0 <= k < |bars| && bars[k].Some? ==> Max(1, peak) <= s.readings[k].scale <= Max(1, s.peak))
    && ScaledByRunningPeak(bars, peak, s.readings)
    && s.peak == Max(peak, BarsMax(bars))
  }

  /**
   One turn of the bar loop: a scan of the bars after the first, started from
   the peak the first bar leaves, extends by the first bar's reading to a scan
   of all the bars.
   */
  lemma ScanStep(bars: seq<Option<seq<nat>>>, peak: nat, peak': nat, head: Reading, rest: Scan)
    requires |bars| > 0
    requires peak' == Max(peak, if bars[0].Some? then MaxOf(bars[0].value) else 0)
    requires bars[0].None? ==> head == Skipped
    requires bars[0].Some? ==> head == Reading(Average(bars[0].value), Max(1, peak'))
    requires ScanOf(bars[1..], peak', rest)
    ensures ScanOf(bars, peak, Scan([head] + rest.readings, rest.peak))
  {
    var s := Scan([head] + rest.readings, rest.peak);
    assert forall k :: 1 <= k < |bars| ==> bars[k] == bars[1..][k - 1] && s.readings[k] == rest.readings[k - 1];
    RunningScale(bars, peak, peak', head, rest.readings);
  }

  /**
   Each processed bar is divided by `Math.max(1, peak)` with the peak as
   raised by that bar and the ones before it: the frame's later bars play no
   part in its scale.
   */
  predicate ScaledByRunningPeak(bars: seq<Option<seq<nat>>>, peak: nat, readings: seq<Reading>)
    requires |readings| == |bars|
  {
    forall k :: 0 <= k < |bars| && bars[k].Some? ==>
      readings[k].Reading? && readings[k].scale == Max(1, Max(peak, BarsMax(bars[..k + 1])))
  }

  /**
   The running scale of the bars after the first, started from the peak the
   first bar leaves, is the running scale of all the bars.
   */
  lemma RunningScale(bars: seq<Option<seq<nat>>>, peak: nat, peak': nat, head: Reading, rest: seq<Reading>)
    requires |bars| > 0 && |rest| == |bars| - 1
    requires peak' == Max(peak, if bars[0].Some? then MaxOf(bars[0].value) else 0)
    requires bars[0].Some? ==> head.Reading? && head.scale == Max(1, peak')
    requires ScaledByRunningPeak(bars[1..], peak', rest)
    ensures ScaledByRunningPeak(bars, peak, [head] + rest)
  {
    var first := if bars[0].Some? then MaxOf(bars[0].value) else 0;
    forall k | 0 <= k < |bars| && bars[k].Some?
      ensures ([head] + rest)[k].Reading? && ([head] + rest)[k].scale == Max(1, Max(peak, BarsMax(bars[..k + 1])))
    {
      var prefix := bars[..k + 1];
      assert prefix[0] == bars[0];
      assert prefix[1..] == bars[1..][..k];
      assert BarsMax(prefix) == Max(first, BarsMax(bars[1..][..k]));
      if k > 0 {
        assert bars[1..][k - 1] == bars[k];
        assert bars[1..][..k] == bars[1..][..k - 1 + 1];
        assert ([head] + rest)[k] == rest[k - 1];
      } else {
        assert bars[1..][..0] == [];
      }
    }
  }

  /** Within a frame the scale only grows from bar to bar: the peak is never lowered before the decay. */
  lemma {:induction false} ScalesNonDecreasing(bars: seq<Option<seq<nat>>>, curMax: nat, peak: nat)
    requires curMax <= peak
    ensures forall k, l :: 0 <= k < l < |bars| && bars[k].Some? && bars[l].Some? ==>
              ScanFrom(bars, curMax, peak).readings[k].scale <= ScanFrom(bars, curMax, peak).readings[l].scale
    decreases |bars|
  {
    if |bars| > 0 {
      var s := ScanFrom(bars, curMax, peak);
      var curMax', peak' := curMax, peak;
      if bars[0].Some? {
        var mags := bars[0].value;
        curMax' := if MaxOf(mags) > curMax then MaxOf(mags) else curMax;
        peak' := if curMax' > peak then curMax' else peak;
      }
      var rest := ScanFrom(bars[1..], curMax', peak');
      ScalesNonDecreasing(bars[1..], curMax', peak');
      assert s.readings[1..] == rest.readings;
      forall k, l | 0 <= k < l < |bars| && bars[k].Some? && bars[l].Some?
        ensures s.readings[k].scale <= s.readings[l].scale
      {
        assert bars[l] == bars[1..][l - 1];
        assert s.readings[l] == rest.readings[l - 1];
        if k > 0 {
          assert bars[k] == bars[1..][k - 1];
          assert s.readings[k] == rest.readings[k - 1];
        }
      }
    }
  }

  /** The largest bin magnitude in a frame's band-limited bars. */
  function FrameMax(frame: Frame, numBars: BarCount): (m: nat)
    ensures m <= 181
  {
    var bars := FrameBars(frame, numBars, BinsPerBar(|frame|, numBars));
    BarsMaxAtMost(bars, 181);
    BarsMax(bars)
  }

  /**
   The frame's maximum is the loudest bin any bar reads: it bounds every
   processed bar's largest magnitude and, unless it is 0, is one of them.
   */
  lemma FrameMaxIsLoudestBin(frame: Frame, numBars: BarCount)
    ensures forall i :: 0 <= i < numBars && BarStart(i, BinsPerBar(|frame|, numBars)) < |frame| ==>
              MaxOf(BarMagnitudes(frame, i, BinsPerBar(|frame|, numBars))) <= FrameMax(frame, numBars)
    ensures FrameMax(frame, numBars) == 0
            || exists i :: 0 <= i < numBars && BarStart(i, BinsPerBar(|frame|, numBars)) < |frame|
                           && MaxOf(BarMagnitudes(frame, i, BinsPerBar(|frame|, numBars))) == FrameMax(frame, numBars)
  {
    var bars := FrameBars(frame, numBars, BinsPerBar(|frame|, numBars));
    BarsMaxAttained(bars);
  }

  /** The largest of the bars' maxima is 0 or one of them. */
  lemma {:induction false} BarsMaxAttained(bars: seq<Option<seq<nat>>>)
    ensures BarsMax(bars) == 0 || exists k :: 0 <= k < |bars| && bars[k].Some? && MaxOf(bars[k].value) == BarsMax(bars)
  {
    if |bars| > 0 {
      BarsMaxAttained(bars[1..]);
      var rest := BarsMax(bars[1..]);
      if BarsMax(bars) != 0 && BarsMax(bars) == rest {
        var k :| 0 <= k < |bars[1..]| && bars[1..][k].Some? && MaxOf(bars[1..][k].value) == rest;
        assert bars[k + 1] == bars[1..][k];
      }
    }
  }

  /**
   The whole bar loop of one `onDraw`, starting from the view's peak: one
   reading per bar, a bar skipped exactly when it starts past the frame, every
   processed bar's average within the scale it is divided by, and the peak
   raised to the frame's largest magnitude.
   */
  function ScanFrame(frame: Frame, numBars: BarCount, peak: nat): (s: Scan)
    ensures |s.readings| == numBars
    ensures s.peak == Max(peak, FrameMax(frame, numBars))
    ensures forall k :: 0 <= k < numBars ==>
              (s.readings[k].Skipped? <==> BarStart(k, BinsPerBar(|frame|, numBars)) >= |frame|)
    ensures forall k :: 0 <= k < numBars && s.readings[k].Reading? ==>
              s.readings[k].avg == Average(BarMagnitudes(frame, k, BinsPerBar(|frame|, numBars)))
    ensures forall k :: 0 <= k < numBars && s.readings[k].Reading? ==>
              1 <= s.readings[k].scale && s.readings[k].avg <= s.readings[k].scale <= Max(1, s.peak)
    ensures forall k :: 0 <= k < numBars && s.readings[k].Reading? ==>
              s.readings[k].scale == Max(1, Max(peak, BarsMax(FrameBars(frame, numBars, BinsPerBar(|frame|, numBars))[..k + 1])))
  {
    ScanFrom(FrameBars(frame, numBars, BinsPerBar(|frame|, numBars)), 0, peak)
  }

  /**
   Skipped bars come last: once a bar starts past the capture, so does every
   bar after it, and every bar before a processed one is processed.
   */
  lemma SkippedBarsTrail(frame: Frame, numBars: BarCount, peak: nat, i: nat, j: nat)
    requires i <= j < numBars
    ensures ScanFrame(frame, numBars, peak).readings[i].Skipped? ==> ScanFrame(frame, numBars, peak).readings[j].Skipped?
  {
    BarStartMonotone(i, j, BinsPerBar(|frame|, numBars));
  }

  /** `Math.max(1, (int) (mMaxMagnitude * 0.95f))`, applied once after every drawn frame. */
  function Decay(peak: nat): (p: nat)
    ensures p >= 1
    ensures peak > 1 ==> p < peak
    ensures peak <= 1 ==> p == 1
    ensures 100 * p > 95 * peak - 100
    ensures peak >= 2 ==> 100 * p <= 95 * peak
  {
    var d := peak * 95 / 100;
    if d >= 1 then d else 1
  }

  /** The peak after `k` frames that do not raise it. */
  function DecayTimes(peak: nat, k: nat): nat
    decreases k
  {
    if k == 0 then peak else DecayTimes(Decay(peak), k - 1)
  }

  /** Each quiet frame lowers a peak above 1 by at least one, so `peak - 1` quiet frames bring it to 1, and it stays at least 1. */
  lemma {:induction false} DecayTimesBound(peak: nat, k: nat)
    requires peak >= 1
    ensures 1 <= DecayTimes(peak, k) <= Max(1, peak - k)
    decreases k
  {
    if k > 0 {
      DecayTimesBound(Decay(peak), k - 1);
    }
  }

  /** A frame of zero bytes has no energy: its largest magnitude is 0, so it cannot raise the peak. */
  lemma SilentFrameMax(frame: Frame, numBars: BarCount)
    requires forall k :: 0 <= k < |frame| ==> frame[k] == 0
    ensures FrameMax(frame, numBars) == 0
  {
    var bars := FrameBars(frame, numBars, BinsPerBar(|frame|, numBars));
    forall k | 0 <= k < |bars| && bars[k].Some?
      ensures forall x :: 0 <= x < |bars[k].value| ==> bars[k].value[x] <= 0
    {
    }
    BarsMaxAtMost(bars, 0);
  }

  /** A bound on every magnitude the bars read bounds their largest. */
  lemma {:induction false} BarsMaxAtMost(bars: seq<Option<seq<nat>>>, b: nat)
    requires forall k :: 0 <= k < |bars| && bars[k].Some? ==>
               forall x :: 0 <= x < |bars[k].value| ==> bars[k].value[x] <= b
    ensures BarsMax(bars) <= b
  {
    if |bars| > 0 {
      assert forall k :: 1 <= k < |bars| ==> bars[k] == bars[1..][k - 1];
      BarsMaxAtMost(bars[1..], b);
    }
  }

  // ---------------------------------------------------------------------------
  // View state shared by both visualizer views
  // ---------------------------------------------------------------------------

  /**
   The fields a view keeps between draws: the latest capture (`null` until the
   first one arrives), the bar count, and the running peak `mMaxMagnitude`.
   Nothing about the layout is cached.
   */
  datatype ViewState = ViewState(fft: Option<Frame>, numBars: BarCount, peak: nat)

  /** The constructor: no capture yet, bar count from the orientation, peak 1. */
  function NewView(o: Orientation): (v: ViewState)
    ensures v.fft.None? && v.peak == 1
    ensures v.numBars == 32 <==> o == Landscape
  {
    ViewState(None, NumBarsFor(o), 1)
  }

  /** `onConfigurationChanged`: only the bar count changes. */
  function Rotate(v: ViewState, o: Orientation): (v': ViewState)
    ensures v'.fft == v.fft && v'.peak == v.peak
    ensures v'.numBars == 32 <==> o == Landscape
  {
    v.(numBars := NumBarsFor(o))
  }

  /** `updateVisualizerFFT` / `updateFFTData`: the newest capture replaces the previous one. */
  function ReceiveFrame(v: ViewState, bytes: Frame): (v': ViewState)
    ensures v'.fft == Some(bytes)
    ensures v'.numBars == v.numBars && v'.peak == v.peak
  {
    v.(fft := Some(bytes))
  }

  /**
   The peak a view keeps after `onDraw`: unchanged when there is no capture to
   draw, otherwise raised to the capture's largest magnitude and then decayed.
   */
  function PeakAfterDraw(v: ViewState): (p: nat)
    ensures v.fft.None? ==> p == v.peak
    ensures v.fft.Some? ==> 1 <= p && (p < Max(v.peak, FrameMax(v.fft.value, v.numBars)) || p == 1)
    ensures v.fft.Some? ==> 100 * p > 95 * Max(v.peak, FrameMax(v.fft.value, v.numBars)) - 100
    ensures v.fft.Some? && Max(v.peak, FrameMax(v.fft.value, v.numBars)) >= 2 ==>
              100 * p <= 95 * Max(v.peak, FrameMax(v.fft.value, v.numBars))
  {
    match v.fft
    case None => v.peak
    case Some(frame) => Decay(ScanFrame(frame, v.numBars, v.peak).peak)
  }

  /** What can happen to a view: a capture arrives, the view is drawn, or the device is rotated. */
  datatype Event = Capture(bytes: Frame) | Draw | Configure(o: Orientation)

  function Step(v: ViewState, e: Event): ViewState
  {
    match e
    case Capture(bytes) => ReceiveFrame(v, bytes)
    case Draw => v.(peak := PeakAfterDraw(v))
    case Configure(o) => Rotate(v, o)
  }

  function Run(v: ViewState, events: seq<Event>): ViewState
    decreases |events|
  {
    if |events| == 0 then v else Run(Step(v, events[0]), events[1..])
  }

  /**
   Whatever a view goes through, its peak stays between 1 and 181: it starts
   at 1, is only ever raised to a magnitude the capture holds, and the decay
   never takes it below 1. So the scale a bar is divided by is never 0.
   */
  lemma {:induction false} PeakStaysInRange(v: ViewState, events: seq<Event>)
    requires 1 <= v.peak <= 181
    ensures 1 <= Run(v, events).peak <= 181
    decreases |events|
  {
    if |events| > 0 {
      var v' := Step(v, events[0]);
      if events[0].Draw? && v.fft.Some? {
      }
      PeakStaysInRange(v', events[1..]);
    }
  }

  /** A freshly constructed view never lets its peak reach 0, in any orientation and after any events. */
  lemma PeakNeverZero(o: Orientation, events: seq<Event>)
    ensures 1 <= Run(NewView(o), events).peak <= 181
  {
    PeakStaysInRange(NewView(o), events);
  }
}
