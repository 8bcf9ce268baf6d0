/** The gap ledger: what `get_skips()` reports about a close column, as pure
    functions of the column's current contents. A bar is empty when its close
    is the unknown-price sentinel. */
module GapLedger {
  import opened Constants

  /** The triple `get_skips()` returns: the number of empty bars, that number
      as a fraction of all bars, and the longest unbroken run of empty bars. */
  datatype Skips = Skips(count: nat, fraction: real, consecutive: nat)

  function Max(a: int, b: int): int {
    if a < b then b else a
  }

  /** Number of empty bars in `s`, peeled from the right as a left-to-right
      scan sees them. */
  function CountUnknown(s: seq<Price>): (c: nat)
    ensures c <= |s|
  {
    if |s| == 0 then 0
    else CountUnknown(s[..|s| - 1]) + (if IsUnknown(s[|s| - 1]) then 1 else 0)
  }

  /** Length of the run of empty bars that ends at the last bar of `s`: the
      last `r` bars are all empty and the bar before them, if any, is not. */
  function TrailingRun(s: seq<Price>): (r: nat)
    ensures r <= |s|
    ensures forall i :: |s| - r <= i < |s| ==> IsUnknown(s[i])
    ensures r < |s| ==> !IsUnknown(s[|s| - 1 - r])
  {
    if |s| == 0 then 0
    else if IsUnknown(s[|s| - 1]) then TrailingRun(s[..|s| - 1]) + 1
    else 0
  }

  /** Longest run of empty bars: the best trailing run over all prefixes. */
  function LongestRun(s: seq<Price>): (r: nat)
    ensures TrailingRun(s) <= r <= |s|
  {
    if |s| == 0 then 0
    else Max(LongestRun(s[..|s| - 1]), TrailingRun(s))
  }

  /** The window [lo, hi) of `s` holds only empty bars. */
  predicate AllUnknown(s: seq<Price>, lo: int, hi: int) {
    0 <= lo <= hi <= |s| && forall i :: lo <= i < hi ==> IsUnknown(s[i])
  }

  /** The positions of the empty bars. */
  ghost function UnknownIndices(s: seq<Price>): set<int> {
    set i | 0 <= i < |s| && IsUnknown(s[i])
  }

  /** count / n as an exact rational; 0 for an empty series. */
  function Fraction(count: nat, n: nat): real {
    if n == 0 then 0.0 else count as real / n as real
  }

  /** What `get_skips()` returns for a close column with contents `s`. */
  function SkipsOf(s: seq<Price>): (r: Skips)
    ensures r.consecutive <= r.count <= |s|
    ensures r.consecutive == 0 <==> r.count == 0
    ensures r.fraction == if |s| == 0 then 0.0 else r.count as real / |s| as real
    ensures 0.0 <= r.fraction <= 1.0
  {
    RunAtMostCount(s);
    NoRunIffNoUnknown(s);
    FractionBounds(CountUnknown(s), |s|);
    Skips(CountUnknown(s), Fraction(CountUnknown(s), |s|), LongestRun(s))
  }

  lemma FractionBounds(c: nat, n: nat)
    requires c <= n
    ensures 0.0 <= Fraction(c, n) <= 1.0
  {
  }

  // ---------------------------------------------------------------------
  // The count is the number of empty positions.

  lemma {:induction false} CountIsCardinality(s: seq<Price>)
    ensures CountUnknown(s) == |UnknownIndices(s)|
  {
    if |s| > 0 {
      var p := s[..|s| - 1];
      CountIsCardinality(p);
      var last := if IsUnknown(s[|s| - 1]) then {|s| - 1} else {};
      assert UnknownIndices(s) == UnknownIndices(p) + last;
      assert |s| - 1 !in UnknownIndices(p);
    }
  }

  lemma {:induction false} CountConcat(a: seq<Price>, b: seq<Price>)
    ensures CountUnknown(a + b) == CountUnknown(a) + CountUnknown(b)
  {
    if |b| > 0 {
      assert (a + b)[..|a + b| - 1] == a + b[..|b| - 1];
      CountConcat(a, b[..|b| - 1]);
    } else {
      assert a + b == a;
    }
  }

  /** A window of only empty bars holds as many empty bars as it is long. */
  lemma {:induction false} CountAllUnknown(s: seq<Price>)
    requires AllUnknown(s, 0, |s|)
    ensures CountUnknown(s) == |s|
  {
    if |s| > 0 {
      CountAllUnknown(s[..|s| - 1]);
    }
  }

  /** A window without empty bars contributes none to the count. */
  lemma {:induction false} CountNoUnknown(s: seq<Price>)
    requires forall i :: 0 <= i < |s| ==> !IsUnknown(s[i])
    ensures CountUnknown(s) == 0
  {
    if |s| > 0 {
      CountNoUnknown(s[..|s| - 1]);
    }
  }

  // ---------------------------------------------------------------------
  // The longest run is the length of the longest window of empty bars.

  lemma {:induction false} RunAtMostCount(s: seq<Price>)
    ensures TrailingRun(s) <= CountUnknown(s)
    ensures LongestRun(s) <= CountUnknown(s)
  {
    if |s| > 0 {
      RunAtMostCount(s[..|s| - 1]);
    }
  }

  /** Every window of empty bars is at most as long as the longest run. */
  lemma {:induction false} LongestRunCovers(s: seq<Price>, lo: int, hi: int)
    requires AllUnknown(s, lo, hi)
    ensures hi - lo <= LongestRun(s)
  {
    if hi < |s| {
      var p := s[..|s| - 1];
      assert AllUnknown(p, lo, hi);
      LongestRunCovers(p, lo, hi);
    }
  }

  /** Some window of empty bars, starting at `lo`, is exactly as long as the
      longest run. */
  lemma {:induction false} LongestRunAttained(s: seq<Price>) returns (lo: int)
    ensures AllUnknown(s, lo, lo + LongestRun(s))
  {
    if |s| == 0 {
      lo := 0;
    } else if LongestRun(s) == TrailingRun(s) {
      lo := |s| - TrailingRun(s);
    } else {
      var p := s[..|s| - 1];
      lo := LongestRunAttained(p);
      assert AllUnknown(p, lo, lo + LongestRun(p));
      forall i | lo <= i < lo + LongestRun(s) ensures IsUnknown(s[i]) {
        assert s[i] == p[i];
      }
    }
  }

  /** The longest run is 0 exactly when there is no empty bar. */
  lemma {:induction false} NoRunIffNoUnknown(s: seq<Price>)
    ensures LongestRun(s) == 0 <==> CountUnknown(s) == 0
  {
    RunAtMostCount(s);
    if CountUnknown(s) > 0 {
      CountIsCardinality(s);
      var i :| i in UnknownIndices(s);
      assert AllUnknown(s, i, i + 1);
      LongestRunCovers(s, i, i + 1);
    }
  }

  // ---------------------------------------------------------------------
  // Series whose empty bars form separated spans: the reported run is the
  // longest span, never a sum of spans, and the count is their total width.

  datatype Span = Span(lo: int, hi: int) {
    predicate Contains(i: int) {
      lo <= i < hi
    }
  }

  /** Every span is non-empty and inside [0, n), and no two spans overlap or
      touch, so each is a run of its own. */
  predicate Separated(spans: seq<Span>, n: int) {
    (forall k :: 0 <= k < |spans| ==> 0 <= spans[k].lo < spans[k].hi <= n) &&
    (forall j, k :: 0 <= j < |spans| && 0 <= k < |spans| && j != k ==>
       spans[j].hi < spans[k].lo || spans[k].hi < spans[j].lo)
  }

  ghost predicate InSpans(spans: seq<Span>, i: int) {
    exists k :: 0 <= k < |spans| && spans[k].Contains(i)
  }

  /** The empty bars of `s` are exactly the positions the spans cover. */
  ghost predicate EmptyExactlyAt(s: seq<Price>, spans: seq<Span>) {
    forall i :: 0 <= i < |s| ==> (IsUnknown(s[i]) <==> InSpans(spans, i))
  }

  function MaxWidth(spans: seq<Span>): int {
    if |spans| == 0 then 0
    else Max(MaxWidth(spans[..|spans| - 1]), spans[|spans| - 1].hi - spans[|spans| - 1].lo)
  }

  function TotalWidth(spans: seq<Span>): int {
    if |spans| == 0 then 0
    else TotalWidth(spans[..|spans| - 1]) + (spans[|spans| - 1].hi - spans[|spans| - 1].lo)
  }

  ghost function Covered(spans: seq<Span>): set<int> {
    if |spans| == 0 then {}
    else Covered(spans[..|spans| - 1]) + Range(spans[|spans| - 1].lo, spans[|spans| - 1].hi)
  }

  /** The positions [lo, hi). */
  ghost function Range(lo: int, hi: int): set<int> {
    set i | lo <= i < hi && Span(lo, hi).Contains(i)
  }

  lemma {:induction false} RangeSize(lo: int, hi: int)
    requires lo <= hi
    ensures |Range(lo, hi)| == hi - lo
    decreases hi - lo
  {
    if lo < hi {
      assert Range(lo, hi) == Range(lo, hi - 1) + {hi - 1};
      RangeSize(lo, hi - 1);
    } else {
      assert Range(lo, hi) == {};
    }
  }

  lemma {:induction false} CoveredMeans(spans: seq<Span>, i: int)
    ensures i in Covered(spans) <==> InSpans(spans, i)
  {
    if |spans| > 0 {
      var p := spans[..|spans| - 1];
      CoveredMeans(p, i);
      if InSpans(spans, i) {
        var k :| 0 <= k < |spans| && spans[k].Contains(i);
        if k < |p| {
          assert p[k] == spans[k];
        }
      }
      if InSpans(p, i) {
        var k :| 0 <= k < |p| && p[k].Contains(i);
        assert spans[k] == p[k];
      }
      if spans[|spans| - 1].Contains(i) {
        assert 0 <= |spans| - 1 < |spans|;
      }
    }
  }

  lemma {:induction false} CoveredSize(spans: seq<Span>, n: int)
    requires Separated(spans, n)
    ensures |Covered(spans)| == TotalWidth(spans)
  {
    if |spans| > 0 {
      var p := spans[..|spans| - 1];
      var last := spans[|spans| - 1];
      assert Separated(p, n) by {
        forall k | 0 <= k < |p| ensures p[k] == spans[k] { }
      }
      CoveredSize(p, n);
      RangeSize(last.lo, last.hi);
      forall i | i in Covered(p) ensures i !in Range(last.lo, last.hi) {
        CoveredMeans(p, i);
        var k :| 0 <= k < |p| && p[k].Contains(i);
        assert spans[k] == p[k];
      }
      assert Covered(p) * Range(last.lo, last.hi) == {};
    }
  }

  lemma {:induction false} MaxWidthBounds(spans: seq<Span>)
    ensures MaxWidth(spans) >= 0
    ensures forall k :: 0 <= k < |spans| ==> spans[k].hi - spans[k].lo <= MaxWidth(spans)
    ensures |spans| > 0 && MaxWidth(spans) > 0 ==>
      exists k :: 0 <= k < |spans| && spans[k].hi - spans[k].lo == MaxWidth(spans)
  {
    if |spans| > 0 {
      var p := spans[..|spans| - 1];
      MaxWidthBounds(p);
      forall k | 0 <= k < |p| ensures p[k] == spans[k] { }
      if MaxWidth(spans) > 0 && MaxWidth(spans) != spans[|spans| - 1].hi - spans[|spans| - 1].lo {
        var k :| 0 <= k < |p| && p[k].hi - p[k].lo == MaxWidth(p);
        assert spans[k] == p[k];
      }
    }
  }

  /** The position just past a span is covered by no span, because spans
      neither overlap nor touch. */
  lemma SpanEndUncovered(spans: seq<Span>, n: int, k: int)
    requires Separated(spans, n) && 0 <= k < |spans|
    ensures !InSpans(spans, spans[k].hi)
  {
  }

  /** A window of empty bars that starts inside a span ends inside it. */
  lemma WindowInsideSpan(s: seq<Price>, spans: seq<Span>, k: int, lo: int, hi: int)
    requires Separated(spans, |s|) && EmptyExactlyAt(s, spans)
    requires 0 <= k < |spans| && spans[k].Contains(lo)
    requires AllUnknown(s, lo, hi)
    ensures hi <= spans[k].hi
  {
    SpanEndUncovered(spans, |s|, k);
    assert spans[k].hi < |s| ==> !IsUnknown(s[spans[k].hi]);
  }

  /** When the empty bars form separated spans, the count is the spans' total
      width. */
  lemma SeparatedCount(s: seq<Price>, spans: seq<Span>)
    requires Separated(spans, |s|) && EmptyExactlyAt(s, spans)
    ensures CountUnknown(s) == TotalWidth(spans)
  {
    forall i ensures i in UnknownIndices(s) <==> i in Covered(spans) {
      CoveredMeans(spans, i);
      if InSpans(spans, i) {
        var k :| 0 <= k < |spans| && spans[k].Contains(i);
      }
    }
    assert UnknownIndices(s) == Covered(spans);
    CountIsCardinality(s);
    CoveredSize(spans, |s|);
  }

  /** When the empty bars form separated spans, the longest run is the widest
      span: runs are compared, never added. */
  lemma SeparatedRun(s: seq<Price>, spans: seq<Span>)
    requires Separated(spans, |s|) && EmptyExactlyAt(s, spans)
    ensures LongestRun(s) == MaxWidth(spans)
  {
    MaxWidthBounds(spans);
    if MaxWidth(spans) > 0 {
      var k :| 0 <= k < |spans| && spans[k].hi - spans[k].lo == MaxWidth(spans);
      assert AllUnknown(s, spans[k].lo, spans[k].hi) by {
        forall i | spans[k].lo <= i < spans[k].hi ensures IsUnknown(s[i]) {
          assert spans[k].Contains(i);
        }
      }
      LongestRunCovers(s, spans[k].lo, spans[k].hi);
    }
    var lo := LongestRunAttained(s);
    if LongestRun(s) > 0 {
      assert IsUnknown(s[lo]);
      var k :| 0 <= k < |spans| && spans[k].Contains(lo);
      WindowInsideSpan(s, spans, k, lo, lo + LongestRun(s));
    }
  }
}
