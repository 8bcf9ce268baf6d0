/** The bar series: five aligned OHLCV columns held as mutable buffers, a
    deep copy, in-place slice writes of the sentinel into the close column,
    and the `get_skips()` scan. */
module Series {
  import opened Constants
  import opened GapLedger
  import opened Slices

  class BarSeries {
    const open: array<Price>
    const high: array<Price>
    const low: array<Price>
    const close: array<Price>
    const volume: array<real>
    /** Duration of one bar, in milliseconds. */
    const timeframe: nat
    /** Timestamp of bar 0, in milliseconds; bar i opens at
        startTime + i * timeframe. */
    const startTime: int

    /** The columns have one length and are separate buffers. */
    ghost predicate Valid() {
      timeframe > 0 &&
      open.Length == close.Length && high.Length == close.Length &&
      low.Length == close.Length && volume.Length == close.Length &&
      open != high && open != low && open != close &&
      high != low && high != close && low != close
    }

    constructor (o: seq<Price>, h: seq<Price>, l: seq<Price>, c: seq<Price>, v: seq<real>,
                 timeframe: nat, startTime: int)
      requires |o| == |c| && |h| == |c| && |l| == |c| && |v| == |c| && timeframe > 0
      ensures Valid()
      ensures fresh(open) && fresh(high) && fresh(low) && fresh(close) && fresh(volume)
      ensures open[..] == o && high[..] == h && low[..] == l && close[..] == c && volume[..] == v
      ensures this.timeframe == timeframe && this.startTime == startTime
    {
      open := new Price[|o|](i requires 0 <= i < |o| => o[i]);
      high := new Price[|h|](i requires 0 <= i < |h| => h[i]);
      low := new Price[|l|](i requires 0 <= i < |l| => l[i]);
      close := new Price[|c|](i requires 0 <= i < |c| => c[i]);
      volume := new real[|v|](i requires 0 <= i < |v| => v[i]);
      this.timeframe := timeframe;
      this.startTime := startTime;
    }

    /** `series.copy()`: a new series with the same bars in new buffers, so
        writes to either never reach the other. */
    method Copy() returns (c: BarSeries)
      requires Valid()
      ensures c.Valid()
      ensures fresh(c) && fresh(c.open) && fresh(c.high) && fresh(c.low) && fresh(c.close) && fresh(c.volume)
      ensures c.open[..] == open[..] && c.high[..] == high[..] && c.low[..] == low[..]
      ensures c.close[..] == close[..] && c.volume[..] == volume[..]
      ensures c.timeframe == timeframe && c.startTime == startTime
    {
      c := new BarSeries(open[..], high[..], low[..], close[..], volume[..], timeframe, startTime);
    }

    /** `close[start:stop] = nan`, in place: the selected bars of the close
        column become the sentinel; nothing else changes. */
    method SetUnknown(start: Option<int>, stop: Option<int>)
      requires Valid()
      modifies close
      ensures close[..] == Assign(old(close[..]), start, stop)
      ensures open[..] == old(open[..]) && high[..] == old(high[..]) && low[..] == old(low[..])
      ensures volume[..] == old(volume[..])
    {
      var range := SliceRange(close.Length, start, stop);
      var i := range.0;
      while i < range.1
        invariant range.0 <= i <= range.1
        invariant forall k :: 0 <= k < close.Length ==>
          close[k] == if range.0 <= k < i then Unknown else old(close[k])
      {
        close[i] := Unknown;
        i := i + 1;
      }
      assert close[..] == Marked(old(close[..]), range.0, range.1);
    }

    /** `get_skips()`: one pass over the current close column with a total
        counter, a counter for the current run (reset by a known close) and
        the largest value that run counter has reached. Nothing is cached. */
    method GetSkips() returns (r: Skips)
      ensures r == SkipsOf(close[..])
    {
      var count, run, longest := 0, 0, 0;
      var i := 0;
      while i < close.Length
        invariant 0 <= i <= close.Length
        invariant count == CountUnknown(close[..i])
        invariant run == TrailingRun(close[..i])
        invariant longest == LongestRun(close[..i])
      {
        assert close[..i + 1][..i] == close[..i];
        if IsUnknown(close[i]) {
          count := count + 1;
          run := run + 1;
          if run > longest {
            longest := run;
          }
        } else {
          run := 0;
        }
        i := i + 1;
      }
      assert close[..] == close[..close.Length];
      r := Skips(count, Fraction(count, close.Length), longest);
    }
  }

  /** Writing on a copy and querying both: the original's report is that of
      its own, untouched close column, the copy's that of the written one. */
  method MarkOnCopy(s: BarSeries, start: Option<int>, stop: Option<int>)
    returns (original: Skips, copied: Skips)
    requires s.Valid()
    ensures original == SkipsOf(s.close[..])
    ensures copied == SkipsOf(Assign(s.close[..], start, stop))
  {
    var c := s.Copy();
    c.SetUnknown(start, stop);
    copied := c.GetSkips();
    original := s.GetSkips();
  }
}
