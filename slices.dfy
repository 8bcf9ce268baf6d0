/** Python slice assignment of the sentinel, `close[start:stop] = nan`, as a
    function on the column's contents, and what it does to the gap ledger. */
module Slices {
  import opened Constants
  import opened GapLedger

  /** An omitted slice bound (`close[:6]`, `close[-6:]`) is `None`. */
  datatype Option<T> = None | Some(value: T)

  /** A slice bound read against a length n: a negative bound counts from
      the end, so -k stands for n - k. */
  function Resolve(n: nat, b: int): int {
    if b < 0 then b + n else b
  }

  /** Bar i lies in the slice [start:stop] of a column of length n, read
      directly from the resolved bounds, with no clamping. */
  predicate Selected(n: nat, start: Option<int>, stop: Option<int>, i: int) {
    (start.None? || Resolve(n, start.value) <= i) &&
    (stop.None? || i < Resolve(n, stop.value))
  }

  function Clamp(n: nat, b: int): nat {
    if b < 0 then 0 else if b > n then n else b
  }

  /** The index range [lo, hi) a step-1 slice covers in a column of length
      n: each bound is resolved, then clamped to [0, n], and a stop before
      the start gives the empty range. It is exactly the set of selected
      bars. */
  function SliceRange(n: nat, start: Option<int>, stop: Option<int>): (r: (nat, nat))
    ensures r.0 <= r.1 <= n
    ensures forall i :: 0 <= i < n ==> (r.0 <= i < r.1 <==> Selected(n, start, stop, i))
  {
    var lo := if start.None? then 0 else Clamp(n, Resolve(n, start.value));
    var hi := if stop.None? then n else Clamp(n, Resolve(n, stop.value));
    (lo, if hi < lo then lo else hi)
  }

  /** `s` with the bars [lo, hi) set to the sentinel. */
  function Marked(s: seq<Price>, lo: int, hi: int): (r: seq<Price>)
    ensures |r| == |s|
  {
    seq(|s|, i requires 0 <= i < |s| => if lo <= i < hi then Unknown else s[i])
  }

  /** The column after `close[start:stop] = nan`: the selected bars hold the
      sentinel, every other bar keeps its close. */
  function Assign(s: seq<Price>, start: Option<int>, stop: Option<int>): (r: seq<Price>)
    ensures |r| == |s|
    ensures forall i :: 0 <= i < |s| ==>
      r[i] == if Selected(|s|, start, stop, i) then Unknown else s[i]
  {
    var range := SliceRange(|s|, start, stop);
    Marked(s, range.0, range.1)
  }

  // ---------------------------------------------------------------------
  // Effect of a write on the gap ledger.

  /** The count grows by exactly the number of bars the write newly sets to
      the sentinel; bars that already held it are not counted twice. */
  lemma MarkedCount(s: seq<Price>, lo: int, hi: int)
    requires 0 <= lo <= hi <= |s|
    ensures CountUnknown(Marked(s, lo, hi)) ==
      CountUnknown(s) + ((hi - lo) - CountUnknown(s[lo..hi]))
  {
    var m := Marked(s, lo, hi);
    SplitAt(s, lo, hi);
    SplitAt(m, lo, hi);
    MarkedOutside(s, lo, hi);
    WrittenRangeFull(s, lo, hi);
    CountOfThree(s[..lo], s[lo..hi], s[hi..]);
    CountOfThree(s[..lo], m[lo..hi], s[hi..]);
  }

  lemma SplitAt(s: seq<Price>, lo: int, hi: int)
    requires 0 <= lo <= hi <= |s|
    ensures s == s[..lo] + s[lo..hi] + s[hi..]
  {
  }

  lemma MarkedOutside(s: seq<Price>, lo: int, hi: int)
    requires 0 <= lo <= hi <= |s|
    ensures Marked(s, lo, hi)[..lo] == s[..lo] && Marked(s, lo, hi)[hi..] == s[hi..]
  {
  }

  lemma WrittenRangeFull(s: seq<Price>, lo: int, hi: int)
    requires 0 <= lo <= hi <= |s|
    ensures CountUnknown(Marked(s, lo, hi)[lo..hi]) == hi - lo
  {
    assert AllUnknown(Marked(s, lo, hi)[lo..hi], 0, hi - lo);
    CountAllUnknown(Marked(s, lo, hi)[lo..hi]);
  }

  lemma CountOfThree(a: seq<Price>, b: seq<Price>, c: seq<Price>)
    ensures CountUnknown(a + b + c) == CountUnknown(a) + CountUnknown(b) + CountUnknown(c)
  {
    CountConcat(a + b, c);
    CountConcat(a, b);
  }

  /** Writing the sentinel into the same range twice is the same as once. */
  lemma MarkedIdempotent(s: seq<Price>, lo: int, hi: int)
    ensures Marked(Marked(s, lo, hi), lo, hi) == Marked(s, lo, hi)
  {
  }

  /** Widening a written range to a longer one with the same start is the
      same as writing the longer range alone. */
  lemma MarkedWiden(s: seq<Price>, lo: int, mid: int, hi: int)
    requires mid <= hi
    ensures Marked(Marked(s, lo, mid), lo, hi) == Marked(s, lo, hi)
  {
  }

  /** A write never lowers the count or the longest run (a later, shorter
      run leaves the maximum where it was), and the written range is itself
      a run, so the longest run afterwards is at least its length. */
  lemma MarkedNeverLowers(s: seq<Price>, lo: int, hi: int)
    requires 0 <= lo <= hi <= |s|
    ensures CountUnknown(Marked(s, lo, hi)) >= CountUnknown(s)
    ensures LongestRun(Marked(s, lo, hi)) >= LongestRun(s)
    ensures LongestRun(Marked(s, lo, hi)) >= hi - lo
  {
    var m := Marked(s, lo, hi);
    MarkedCount(s, lo, hi);
    var start := LongestRunAttained(s);
    assert AllUnknown(m, start, start + LongestRun(s));
    LongestRunCovers(m, start, start + LongestRun(s));
    assert AllUnknown(m, lo, hi);
    LongestRunCovers(m, lo, hi);
  }
}
