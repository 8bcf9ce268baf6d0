/** The bar-data check: a series fetched over 40 days is copied, the close
    column of each copy is overwritten with the sentinel slice by slice, and
    `get_skips()` is queried after every write. */
module CheckBarData {
  import opened Constants
  import opened GapLedger
  import opened Slices
  import opened Series

  /** The fetched range, 2022-07-01 to 2022-08-09 inclusive, is 31 + 9 days. */
  const RangeDays: nat := 40

  /** Number of bars in the range at a timeframe of `timeframe` ms: the whole
      bars that fit into the range's milliseconds. */
  function BarCount(timeframe: nat): (n: nat)
    requires timeframe > 0
    ensures n * timeframe <= RangeDays * TimeUnitsInOneDay < (n + 1) * timeframe
    ensures timeframe <= TimeUnitsInOneDay ==> n >= RangeDays
  {
    var total := RangeDays * TimeUnitsInOneDay;
    var n := total / timeframe;
    assert total == n * timeframe + total % timeframe;
    AtLeastRangeDays(n, timeframe, total % timeframe);
    n
  }

  lemma AtLeastRangeDays(n: nat, timeframe: nat, rest: nat)
    requires 0 < timeframe && rest < timeframe
    requires n * timeframe + rest == RangeDays * TimeUnitsInOneDay
    ensures timeframe <= TimeUnitsInOneDay ==> n >= RangeDays
  {
    if timeframe <= TimeUnitsInOneDay {
      MulMono(timeframe, TimeUnitsInOneDay, RangeDays);
      assert RangeDays * timeframe < (n + 1) * timeframe;
      MulStrict(RangeDays, n + 1, timeframe);
    }
  }

  lemma MulMono(a: nat, b: nat, c: nat)
    requires a <= b
    ensures a * c <= b * c
  {
  }

  lemma MulStrict(a: nat, b: nat, c: nat)
    requires a * c < b * c
    ensures a < b
  {
  }

  /** The gate the test configures (`max_empty_bars_fraction=1`,
      `max_empty_bars_consecutive=1e12`): a series passes when neither
      threshold is exceeded. */
  predicate GateAdmits(r: Skips, maxFraction: real, maxConsecutive: real) {
    r.fraction <= maxFraction && r.consecutive as real <= maxConsecutive
  }

  /** With the test's thresholds no series of the test's size is ever
      rejected: the fraction never exceeds 1 and the run never exceeds the
      number of bars. */
  lemma TestThresholdsAdmitAll(s: seq<Price>)
    requires |s| <= RangeDays * TimeUnitsInOneDay
    ensures GateAdmits(SkipsOf(s), 1.0, 1000000000000.0)
  {
  }

  // ---------------------------------------------------------------------
  // The scenario.

  /** The report for a close column of n bars whose empty bars are exactly
      the separated spans. */
  lemma SkipsOfSpans(s: seq<Price>, spans: seq<Span>)
    requires Separated(spans, |s|) && EmptyExactlyAt(s, spans)
    ensures SkipsOf(s).count == TotalWidth(spans)
    ensures SkipsOf(s).fraction == if |s| == 0 then 0.0 else TotalWidth(spans) as real / |s| as real
    ensures SkipsOf(s).consecutive == MaxWidth(spans)
  {
    SeparatedCount(s, spans);
    SeparatedRun(s, spans);
  }

  lemma OneSpan(a: Span, i: int)
    ensures InSpans([a], i) <==> a.Contains(i)
    ensures TotalWidth([a]) == a.hi - a.lo && MaxWidth([a]) == Max(0, a.hi - a.lo)
  {
  }

  lemma TwoSpans(a: Span, b: Span, i: int)
    ensures InSpans([a, b], i) <==> a.Contains(i) || b.Contains(i)
    ensures TotalWidth([a, b]) == (a.hi - a.lo) + (b.hi - b.lo)
    ensures MaxWidth([a, b]) == Max(Max(0, a.hi - a.lo), b.hi - b.lo)
  {
    assert [a, b][..1] == [a];
    OneSpan(a, i);
    if a.Contains(i) {
      assert [a, b][0].Contains(i);
    }
    if b.Contains(i) {
      assert [a, b][1].Contains(i);
    }
  }

  lemma ThreeSpans(a: Span, b: Span, c: Span, i: int)
    ensures InSpans([a, b, c], i) <==> a.Contains(i) || b.Contains(i) || c.Contains(i)
    ensures TotalWidth([a, b, c]) == (a.hi - a.lo) + (b.hi - b.lo) + (c.hi - c.lo)
    ensures MaxWidth([a, b, c]) == Max(Max(Max(0, a.hi - a.lo), b.hi - b.lo), c.hi - c.lo)
  {
    assert [a, b, c][..2] == [a, b];
    TwoSpans(a, b, i);
    if a.Contains(i) {
      assert [a, b, c][0].Contains(i);
    }
    if b.Contains(i) {
      assert [a, b, c][1].Contains(i);
    }
    if c.Contains(i) {
      assert [a, b, c][2].Contains(i);
    }
  }

  /** The fetched series the test starts from: well formed, at most one bar
      per day wide, covering the 40-day range, and with no empty bar. */
  ghost predicate Fetched(f: BarSeries)
    reads f.close
  {
    f.Valid() && f.timeframe <= TimeUnitsInOneDay &&
    f.close.Length == BarCount(f.timeframe) &&
    NoEmptyBar(f.close[..])
  }

  predicate NoEmptyBar(s: seq<Price>) {
    forall i :: 0 <= i < |s| ==> !IsUnknown(s[i])
  }

  /** The report for `k` empty bars out of `n` with a longest run of `run`. */
  function Report(k: nat, n: nat, run: nat): Skips {
    Skips(k, Fraction(k, n), run)
  }

  /** A column whose empty bars are exactly one span. */
  lemma ReportOfOne(s: seq<Price>, a: Span)
    requires 0 <= a.lo < a.hi <= |s|
    requires forall i :: 0 <= i < |s| ==> (IsUnknown(s[i]) <==> a.Contains(i))
    ensures SkipsOf(s) == Report(a.hi - a.lo, |s|, a.hi - a.lo)
  {
    forall i | 0 <= i < |s| ensures IsUnknown(s[i]) <==> InSpans([a], i) {
      OneSpan(a, i);
    }
    OneSpan(a, 0);
    SkipsOfSpans(s, [a]);
  }

  /** A column whose empty bars are exactly two separated spans. */
  lemma ReportOfTwo(s: seq<Price>, a: Span, b: Span)
    requires 0 <= a.lo < a.hi <= |s| && 0 <= b.lo < b.hi <= |s|
    requires a.hi < b.lo || b.hi < a.lo
    requires forall i :: 0 <= i < |s| ==> (IsUnknown(s[i]) <==> a.Contains(i) || b.Contains(i))
    ensures SkipsOf(s) == Report((a.hi - a.lo) + (b.hi - b.lo), |s|, Max(a.hi - a.lo, b.hi - b.lo))
  {
    forall i | 0 <= i < |s| ensures IsUnknown(s[i]) <==> InSpans([a, b], i) {
      TwoSpans(a, b, i);
    }
    TwoSpans(a, b, 0);
    SkipsOfSpans(s, [a, b]);
  }

  /** A column whose empty bars are exactly three separated spans. */
  lemma ReportOfThree(s: seq<Price>, a: Span, b: Span, c: Span)
    requires 0 <= a.lo < a.hi <= |s| && 0 <= b.lo < b.hi <= |s| && 0 <= c.lo < c.hi <= |s|
    requires a.hi < b.lo || b.hi < a.lo
    requires a.hi < c.lo || c.hi < a.lo
    requires b.hi < c.lo || c.hi < b.lo
    requires forall i :: 0 <= i < |s| ==>
      (IsUnknown(s[i]) <==> a.Contains(i) || b.Contains(i) || c.Contains(i))
    ensures SkipsOf(s) == Report((a.hi - a.lo) + (b.hi - b.lo) + (c.hi - c.lo), |s|,
                                 Max(Max(a.hi - a.lo, b.hi - b.lo), c.hi - c.lo))
  {
    forall i | 0 <= i < |s| ensures IsUnknown(s[i]) <==> InSpans([a, b, c], i) {
      ThreeSpans(a, b, c, i);
    }
    ThreeSpans(a, b, c, 0);
    SkipsOfSpans(s, [a, b, c]);
  }

  /** First copy: nothing empty; then `close[:6]`; then also `close[-6:]`,
      which adds six bars to the count but not to the run. */
  lemma FirstCopyReports(f: seq<Price>)
    requires |f| >= RangeDays && NoEmptyBar(f)
    ensures var n, s1 := |f|, Assign(f, None, Some(6));
      SkipsOf(f) == Report(0, n, 0) &&
      SkipsOf(s1) == Report(6, n, 6) &&
      SkipsOf(Assign(s1, Some(-6), None)) == Report(12, n, 6)
  {
    var n := |f|;
    SkipsOfSpans(f, []);
    var s1 := Assign(f, None, Some(6));
    ReportOfOne(s1, Span(0, 6));
    var s2 := Assign(s1, Some(-6), None);
    ReportOfTwo(s2, Span(0, 6), Span(n - 6, n));
  }

  /** Second copy: `close[-6:]` alone; then `close[20:32]`, whose longer run
      wins; then `close[:6]`, which leaves the run at 12. */
  lemma SecondCopyReports(f: seq<Price>)
    requires |f| >= RangeDays && NoEmptyBar(f)
    ensures var n, s1 := |f|, Assign(f, Some(-6), None);
      var s2 := Assign(s1, Some(20), Some(32));
      SkipsOf(s1) == Report(6, n, 6) &&
      SkipsOf(s2) == Report(18, n, 12) &&
      SkipsOf(Assign(s2, None, Some(6))) == Report(24, n, 12)
  {
    var n := |f|;
    var s1 := Assign(f, Some(-6), None);
    ReportOfOne(s1, Span(n - 6, n));
    var s2 := Assign(s1, Some(20), Some(32));
    ReportOfTwo(s2, Span(n - 6, n), Span(20, 32));
    var s3 := Assign(s2, None, Some(6));
    ReportOfThree(s3, Span(n - 6, n), Span(20, 32), Span(0, 6));
  }

  /** Third copy: `close[30:33]`; then `close[-6:-3]`, a second run of three;
      then `close[-6:]`, which re-marks three bars (not counted again) and
      grows that run to six. */
  lemma ThirdCopyReports(f: seq<Price>)
    requires |f| >= RangeDays && NoEmptyBar(f)
    ensures var n, s1 := |f|, Assign(f, Some(30), Some(33));
      var s2 := Assign(s1, Some(-6), Some(-3));
      SkipsOf(s1) == Report(3, n, 3) &&
      SkipsOf(s2) == Report(6, n, 3) &&
      SkipsOf(Assign(s2, Some(-6), None)) == Report(9, n, 6)
  {
    var n := |f|;
    var s1 := Assign(f, Some(30), Some(33));
    ReportOfOne(s1, Span(30, 33));
    var s2 := Assign(s1, Some(-6), Some(-3));
    ReportOfTwo(s2, Span(30, 33), Span(n - 6, n - 3));
    var s3 := Assign(s2, Some(-6), None);
    ReportOfTwo(s3, Span(30, 33), Span(n - 6, n));
  }

  /** The test's expectations need at least 40 bars: with 39, `close[30:33]`
      and `close[-6:-3]` (that is, [33, 36)) touch, merge into one run of six,
      and the third copy's second report would give a run of 6, not 3. */
  lemma ThirdCopyNeedsFortyBars(f: seq<Price>)
    requires |f| == RangeDays - 1 && NoEmptyBar(f)
    ensures SkipsOf(Assign(Assign(f, Some(30), Some(33)), Some(-6), Some(-3))).consecutive == 6
  {
    ReportOfOne(Assign(Assign(f, Some(30), Some(33)), Some(-6), Some(-3)), Span(30, 36));
  }

  /** The first copy, on the buffers: copy, query, write, query, write,
      query. */
  method FirstCopy(f: BarSeries) returns (observed: seq<Skips>)
    requires Fetched(f)
    ensures var n := f.close.Length;
      observed == [Report(0, n, 0), Report(6, n, 6), Report(12, n, 6)]
  {
    FirstCopyReports(f.close[..]);
    var out := f.Copy();
    var r0 := out.GetSkips();
    out.SetUnknown(None, Some(6));
    var r1 := out.GetSkips();
    out.SetUnknown(Some(-6), None);
    var r2 := out.GetSkips();
    observed := [r0, r1, r2];
  }

  /** The second copy, on the buffers: a fresh copy of the fetched series,
      so none of the first copy's writes are visible in it. */
  method SecondCopy(f: BarSeries) returns (observed: seq<Skips>)
    requires Fetched(f)
    ensures var n := f.close.Length;
      observed == [Report(6, n, 6), Report(18, n, 12), Report(24, n, 12)]
  {
    SecondCopyReports(f.close[..]);
    var out := f.Copy();
    out.SetUnknown(Some(-6), None);
    var r0 := out.GetSkips();
    out.SetUnknown(Some(20), Some(32));
    var r1 := out.GetSkips();
    out.SetUnknown(None, Some(6));
    var r2 := out.GetSkips();
    observed := [r0, r1, r2];
  }

  /** The third copy, on the buffers. */
  method ThirdCopy(f: BarSeries) returns (observed: seq<Skips>)
    requires Fetched(f)
    ensures var n := f.close.Length;
      observed == [Report(3, n, 3), Report(6, n, 3), Report(9, n, 6)]
  {
    ThirdCopyReports(f.close[..]);
    var out := f.Copy();
    out.SetUnknown(Some(30), Some(33));
    var r0 := out.GetSkips();
    out.SetUnknown(Some(-6), Some(-3));
    var r1 := out.GetSkips();
    out.SetUnknown(Some(-6), None);
    var r2 := out.GetSkips();
    observed := [r0, r1, r2];
  }

  /** The whole check: the three copies in the order of the test, then the
      fetched series itself, which no write on a copy has reached. */
  method TestCheckBarData(f: BarSeries) returns (observed: seq<Skips>)
    requires Fetched(f)
    ensures var n := BarCount(f.timeframe);
      observed == [Report(0, n, 0), Report(6, n, 6), Report(12, n, 6),
                   Report(6, n, 6), Report(18, n, 12), Report(24, n, 12),
                   Report(3, n, 3), Report(6, n, 3), Report(9, n, 6),
                   Report(0, n, 0)]
  {
    var first := FirstCopy(f);
    var second := SecondCopy(f);
    var third := ThirdCopy(f);
    var last := f.GetSkips();
    SkipsOfSpans(f.close[..], []);
    observed := first + second + third + [last];
  }
}
