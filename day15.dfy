/** Day 15: sensors report their nearest beacon; on a given row the positions
    within some sensor's reach are collected as half-open intervals, which are
    merged by sorting their end points and sweeping over them with a stack. */
module Day15 {
  import opened Common

  /** A grid position; the source's coordinates are `i64`. */
  datatype Point = Point(x: int, y: int)

  datatype SensorReport = SensorReport(sensor: Point, beacon: Point)

  // ---------------------------------------------------------------------
  // Distance
  // ---------------------------------------------------------------------

  /** `manhatten_distance`: never negative, and zero only from a point to
      itself. */
  function ManhattanDistance(a: Point, b: Point): (d: int)
    ensures d >= 0
    ensures d == 0 <==> a == b
  {
    Abs(a.x - b.x) + Abs(a.y - b.y)
  }

  /** The distance is a metric on points. */
  lemma ManhattanIsMetric(a: Point, b: Point, c: Point)
    ensures ManhattanDistance(a, b) >= 0
    ensures ManhattanDistance(a, b) == ManhattanDistance(b, a)
    ensures ManhattanDistance(a, b) == 0 <==> a == b
    ensures ManhattanDistance(a, c) <= ManhattanDistance(a, b) + ManhattanDistance(b, c)
  {
  }

  // ---------------------------------------------------------------------
  // End points of intervals and their order
  // ---------------------------------------------------------------------

  /** `Min(v)` opens an interval at `v`, `Max(v)` closes one before `v`. */
  datatype Range = Min(value: int) | Max(value: int)

  /** `Ord for Range`: by coordinate, and on a tie an opening end point comes
      before a closing one. */
  function CompareRange(a: Range, b: Range): (o: Ordering)
    ensures o == Equal <==> a == b
    ensures o == Less <==> a.value < b.value || (a.value == b.value && a.Min? && b.Max?)
    ensures o == Greater <==> a.value > b.value || (a.value == b.value && a.Max? && b.Min?)
  {
    var byValue := CompareInt(a.value, b.value);
    if byValue != Equal then byValue
    else match (a, b)
      case (Min(_), Max(_)) => Less
      case (Max(_), Min(_)) => Greater
      case _ => Equal
  }

  predicate RangeLe(a: Range, b: Range) {
    CompareRange(a, b) != Greater
  }

  /** The comparison is a total order in which only identical end points are
      equal, ordered by coordinate first and with `Min` before `Max` on a tie. */
  lemma CompareRangeIsTotalOrder(a: Range, b: Range, c: Range)
    ensures CompareRange(a, b) == Equal <==> a == b
    ensures CompareRange(b, a) == CompareRange(a, b).Reverse()
    ensures RangeLe(a, b) || RangeLe(b, a)
    ensures RangeLe(a, b) && RangeLe(b, c) ==> RangeLe(a, c)
    ensures CompareRange(a, b) == Less <==>
      a.value < b.value || (a.value == b.value && a.Min? && b.Max?)
  {
  }

  predicate SortedRanges(s: seq<Range>) {
    forall i, j :: 0 <= i < j < |s| ==> RangeLe(s[i], s[j])
  }

  function InsertRange(e: Range, s: seq<Range>): (r: seq<Range>)
    requires SortedRanges(s)
    ensures SortedRanges(r)
    ensures multiset(r) == multiset(s) + multiset{e}
  {
    if s == [] then [e]
    else if RangeLe(e, s[0]) then
      InsertFront(e, s);
      [e] + s
    else
      var rest := InsertRange(e, s[1..]);
      InsertLater(e, s, rest);
      [s[0]] + rest
  }

  /** A range no later than the head of a sorted list goes in front. */
  lemma InsertFront(e: Range, s: seq<Range>)
    requires SortedRanges(s) && s != [] && RangeLe(e, s[0])
    ensures SortedRanges([e] + s)
  {
    assert forall j :: 0 <= j < |s| ==> RangeLe(s[0], s[j]);
    assert forall j :: 0 <= j < |s| ==> RangeLe(e, s[j]) by {
      forall j | 0 <= j < |s| {
        CompareRangeIsTotalOrder(e, s[0], s[j]);
      }
    }
    var r := [e] + s;
    forall i, j | 0 <= i < j < |r| ensures RangeLe(r[i], r[j]) {
      if i > 0 {
        assert r[i] == s[i - 1] && r[j] == s[j - 1];
      } else {
        assert r[j] == s[j - 1];
      }
    }
  }

  /** A range later than the head of a sorted list goes into its tail. */
  lemma InsertLater(e: Range, s: seq<Range>, rest: seq<Range>)
    requires SortedRanges(s) && s != [] && !RangeLe(e, s[0])
    requires SortedRanges(rest) && multiset(rest) == multiset(s[1..]) + multiset{e}
    ensures SortedRanges([s[0]] + rest)
    ensures multiset([s[0]] + rest) == multiset(s) + multiset{e}
  {
    CompareRangeIsTotalOrder(e, s[0], s[0]);
    assert s == [s[0]] + s[1..];
    assert forall j :: 0 <= j < |rest| ==> RangeLe(s[0], rest[j]) by {
      forall j | 0 <= j < |rest|
        ensures RangeLe(s[0], rest[j])
      {
        assert rest[j] in multiset(rest);
        if rest[j] != e {
          assert rest[j] in multiset(s[1..]);
          var i :| 0 <= i < |s[1..]| && s[1..][i] == rest[j];
          assert s[i + 1] == rest[j];
        }
      }
    }
    var r := [s[0]] + rest;
    forall i, j | 0 <= i < j < |r| ensures RangeLe(r[i], r[j]) {
      if i > 0 {
        assert r[i] == rest[i - 1] && r[j] == rest[j - 1];
      } else {
        assert r[j] == rest[j - 1];
      }
    }
  }

  /** `ranges.sort()`; the model sorts by insertion (see `SortedUnique` for
      why any sort gives the same sequence). */
  function SortRanges(s: seq<Range>): (r: seq<Range>)
    ensures SortedRanges(r)
    ensures multiset(r) == multiset(s)
  {
    if s == [] then []
    else
      assert s == s[..|s| - 1] + [s[|s| - 1]];
      InsertRange(s[|s| - 1], SortRanges(s[..|s| - 1]))
  }

  /** Sorting a non-empty sequence inserts its last end point into the
      sorted rest. */
  lemma SortRangesStep(s: seq<Range>)
    requires s != []
    ensures SortRanges(s) == InsertRange(s[|s| - 1], SortRanges(s[..|s| - 1]))
  {
  }

  /** Two sorted sequences holding the same end points are equal: since
      `Equal` end points are identical, every sorting algorithm, stable or
      not, produces `SortRanges`. */
  lemma {:induction false} SortedUnique(a: seq<Range>, b: seq<Range>)
    requires SortedRanges(a) && SortedRanges(b)
    requires multiset(a) == multiset(b)
    ensures a == b
  {
    if a != [] {
      assert |a| == |multiset(a)| == |multiset(b)| == |b|;
      HeadIsLeast(b, a[0]);
      HeadIsLeast(a, b[0]);
      CompareRangeIsTotalOrder(a[0], b[0], a[0]);
      assert a[0] == b[0];
      TailOfSorted(a);
      TailOfSorted(b);
      SortedUnique(a[1..], b[1..]);
    }
  }

  lemma HeadIsLeast(s: seq<Range>, e: Range)
    requires SortedRanges(s)
    requires e in multiset(s)
    ensures |s| > 0 && RangeLe(s[0], e)
  {
    var i :| 0 <= i < |s| && s[i] == e;
    if i == 0 {
      CompareRangeIsTotalOrder(e, e, e);
    }
  }

  lemma TailOfSorted(s: seq<Range>)
    requires SortedRanges(s) && |s| > 0
    ensures SortedRanges(s[1..])
    ensures multiset(s[1..]) == multiset(s) - multiset{s[0]}
  {
    assert s == [s[0]] + s[1..];
  }

  // ---------------------------------------------------------------------
  // Counting how many intervals are open
  // ---------------------------------------------------------------------

  function Sign(e: Range): int {
    if e.Min? then 1 else -1
  }

  /** Opening minus closing end points: the stack height after `s`. */
  function Height(s: seq<Range>): int {
    if s == [] then 0 else Sign(s[0]) + Height(s[1..])
  }

  /** `Weight(e, x)` counts the end point when it lies at or before `x`. */
  function Weight(e: Range, x: int): int {
    if e.value <= x then Sign(e) else 0
  }

  /** How many more intervals have opened than closed at or before `x`. */
  function DepthAt(s: seq<Range>, x: int): int {
    if s == [] then 0 else Weight(s[0], x) + DepthAt(s[1..], x)
  }

  lemma {:induction false} HeightAppend(a: seq<Range>, b: seq<Range>)
    ensures Height(a + b) == Height(a) + Height(b)
  {
    if a == [] {
      assert a + b == b;
    } else {
      assert (a + b)[1..] == a[1..] + b;
      HeightAppend(a[1..], b);
    }
  }

  lemma {:induction false} DepthAppend(a: seq<Range>, b: seq<Range>, x: int)
    ensures DepthAt(a + b, x) == DepthAt(a, x) + DepthAt(b, x)
  {
    if a == [] {
      assert a + b == b;
    } else {
      assert (a + b)[1..] == a[1..] + b;
      DepthAppend(a[1..], b, x);
    }
  }

  lemma {:induction false} HeightInsert(e: Range, s: seq<Range>)
    requires SortedRanges(s)
    ensures Height(InsertRange(e, s)) == Sign(e) + Height(s)
  {
    if s != [] && !RangeLe(e, s[0]) {
      HeightInsert(e, s[1..]);
    }
  }

  lemma {:induction false} DepthInsert(e: Range, s: seq<Range>, x: int)
    requires SortedRanges(s)
    ensures DepthAt(InsertRange(e, s), x) == Weight(e, x) + DepthAt(s, x)
  {
    if s != [] && !RangeLe(e, s[0]) {
      DepthInsert(e, s[1..], x);
    }
  }

  /** Sorting changes neither count. */
  lemma {:induction false} SortKeepsHeight(s: seq<Range>)
    ensures Height(SortRanges(s)) == Height(s)
  {
    if s != [] {
      var front, last := s[..|s| - 1], s[|s| - 1];
      SortKeepsHeight(front);
      SortRangesStep(s);
      HeightInsert(last, SortRanges(front));
      assert s == front + [last];
      HeightAppend(front, [last]);
      assert Height([last]) == Sign(last);
    }
  }

  lemma {:induction false} SortKeepsDepth(s: seq<Range>, x: int)
    ensures DepthAt(SortRanges(s), x) == DepthAt(s, x)
  {
    if s != [] {
      var front, last := s[..|s| - 1], s[|s| - 1];
      SortKeepsDepth(front, x);
      SortRangesStep(s);
      DepthInsert(last, SortRanges(front), x);
      assert s == front + [last];
      DepthAppend(front, [last], x);
      assert DepthAt([last], x) == Weight(last, x);
    }
  }

  lemma {:induction false} HeightAllMax(s: seq<Range>)
    requires forall k :: 0 <= k < |s| ==> s[k].Max?
    ensures Height(s) == -|s|
  {
    if s != [] {
      HeightAllMax(s[1..]);
    }
  }

  /** When the end points at or before `x` are exactly the first `j`, the
      depth at `x` is the height of that prefix. */
  lemma {:induction false} DepthIsPrefixHeight(s: seq<Range>, x: int, j: nat)
    requires j <= |s|
    requires forall k :: 0 <= k < |s| ==> (k < j <==> s[k].value <= x)
    ensures DepthAt(s, x) == Height(s[..j])
  {
    if s != [] {
      if j == 0 {
        DepthIsPrefixHeight(s[1..], x, 0);
        assert s[1..][..0] == s[..0];
      } else {
        DepthIsPrefixHeight(s[1..], x, j - 1);
        assert s[..j][1..] == s[1..][..j - 1];
      }
    }
  }

  /** In a sorted sequence the end points at or before `x` form a prefix. */
  function CountUpTo(s: seq<Range>, x: int): (j: nat)
    requires SortedRanges(s)
    ensures j <= |s|
    ensures forall k :: 0 <= k < |s| ==> (k < j <==> s[k].value <= x)
  {
    if s == [] then 0
    else if s[0].value <= x then
      var j := CountUpTo(s[1..], x);
      assert forall k :: 1 <= k < |s| ==> s[k] == s[1..][k - 1];
      1 + j
    else
      assert forall k :: 0 <= k < |s| ==> RangeLe(s[0], s[k]);
      0
  }

  /** A sorted sequence whose depth is never negative has no prefix with
      more closing than opening end points. */
  lemma {:induction false} PrefixHeightNonNegative(s: seq<Range>, n: nat)
    requires SortedRanges(s)
    requires forall x :: DepthAt(s, x) >= 0
    requires n <= |s|
    ensures Height(s[..n]) >= 0
  {
    if n > 0 {
      assert s[..n] == s[..n - 1] + [s[n - 1]];
      HeightAppend(s[..n - 1], [s[n - 1]]);
      if s[n - 1].Min? {
        PrefixHeightNonNegative(s, n - 1);
      } else {
        var v := s[n - 1].value;
        var j := CountUpTo(s, v);
        forall k | 0 <= k < j - n
          ensures s[n..j][k].Max?
        {
          assert s[n..j][k] == s[n + k];
          assert RangeLe(s[n - 1], s[n + k]);
        }
        HeightAllMax(s[n..j]);
        assert s[..j] == s[..n] + s[n..j];
        HeightAppend(s[..n], s[n..j]);
        DepthIsPrefixHeight(s, v, j);
        assert DepthAt(s, v) >= 0;
      }
    }
  }

  // ---------------------------------------------------------------------
  // The sweep of `get_non_overlapping_ranges`
  // ---------------------------------------------------------------------

  /** The loop's two vectors: the stack of open minima and the merged
      intervals found so far. */
  datatype SweepState = SweepState(stack: seq<int>, merged: seq<(int, int)>)

  /** One iteration: a minimum is pushed; a maximum pops a minimum
      (`stack.pop().unwrap()` panics, `None`, on an empty stack) and, when the
      stack is then empty, closes a merged interval. */
  function SweepStep(st: SweepState, e: Range): Option<SweepState> {
    match e
    case Min(lo) => Some(SweepState(st.stack + [lo], st.merged))
    case Max(hi) =>
      if st.stack == [] then None
      else
        var lo := st.stack[|st.stack| - 1];
        var rest := st.stack[..|st.stack| - 1];
        Some(SweepState(rest, if rest == [] then st.merged + [(lo, hi)] else st.merged))
  }

  function Sweep(events: seq<Range>): Option<SweepState> {
    if events == [] then Some(SweepState([], []))
    else match Sweep(events[..|events| - 1])
      case None => None
      case Some(st) => SweepStep(st, events[|events| - 1])
  }

  /** What `get_non_overlapping_ranges` returns for `ranges`. */
  function MergeRanges(ranges: seq<Range>): Option<seq<(int, int)>> {
    match Sweep(SortRanges(ranges))
    case None => None
    case Some(st) => Some(st.merged)
  }

  /** Where the sweep stands after the first `n` end points, by index: merged
      interval `k` runs from the minimum at `starts[k]` to the maximum at
      `ends[k]`, the open stretch starts at `open`, and a prefix has positive
      height exactly when it ends inside one of these stretches. */
  ghost predicate SweepMarks(events: seq<Range>, n: nat, st: SweepState,
                             starts: seq<nat>, ends: seq<nat>, open: nat)
    requires n <= |events|
  {
    && |st.stack| == Height(events[..n])
    && |starts| == |ends| == |st.merged|
    && (forall k :: 0 <= k < |starts| ==>
          starts[k] < ends[k] < n && events[starts[k]].Min? && events[ends[k]].Max? &&
          st.merged[k] == (events[starts[k]].value, events[ends[k]].value))
    && (forall k, k' :: 0 <= k < k' < |starts| ==> ends[k] < starts[k'])
    && (st.stack != [] ==>
          open < n && events[open].Min? && st.stack[0] == events[open].value &&
          forall k :: 0 <= k < |ends| ==> ends[k] < open)
    && (forall m :: 0 <= m <= n ==>
          (Height(events[..m]) > 0 <==>
             (exists k :: 0 <= k < |starts| && starts[k] < m <= ends[k]) ||
             (st.stack != [] && open < m)))
  }

  lemma {:induction false} SweepShape(events: seq<Range>, n: nat)
    returns (st: SweepState, starts: seq<nat>, ends: seq<nat>, open: nat)
    requires n <= |events|
    requires forall m :: 0 <= m <= n ==> Height(events[..m]) >= 0
    ensures Sweep(events[..n]) == Some(st)
    ensures SweepMarks(events, n, st, starts, ends, open)
  {
    if n == 0 {
      st, starts, ends, open := SweepState([], []), [], [], 0;
      return;
    }
    var st0, starts0, ends0, open0 := SweepShape(events, n - 1);
    assert events[..n][..n - 1] == events[..n - 1];
    assert events[..n] == events[..n - 1] + [events[n - 1]];
    HeightAppend(events[..n - 1], [events[n - 1]]);
    assert Height(events[..n]) == Height(events[..n - 1]) + Sign(events[n - 1]);
    match events[n - 1]
    case Min(lo) =>
      st := SweepState(st0.stack + [lo], st0.merged);
      starts, ends := starts0, ends0;
      open := if st0.stack == [] then n - 1 else open0;
      SweepOpens(events, n, st0, starts0, ends0, open0, st, open);
    case Max(hi) =>
      var lo := st0.stack[|st0.stack| - 1];
      var rest := st0.stack[..|st0.stack| - 1];
      if rest == [] {
        st := SweepState(rest, st0.merged + [(lo, hi)]);
        starts, ends := starts0 + [open0], ends0 + [n - 1];
        open := 0;
        SweepCloses(events, n, st0, starts0, ends0, open0, st, starts, ends);
      } else {
        st := SweepState(rest, st0.merged);
        starts, ends, open := starts0, ends0, open0;
        SweepPops(events, n, st0, starts0, ends0, open0, st);
      }
  }

  lemma SweepOpens(events: seq<Range>, n: nat, st0: SweepState, starts: seq<nat>,
                   ends: seq<nat>, open0: nat, st: SweepState, open: nat)
    requires 0 < n <= |events| && events[n - 1].Min?
    requires SweepMarks(events, n - 1, st0, starts, ends, open0)
    requires Height(events[..n - 1]) >= 0
    requires Height(events[..n]) == Height(events[..n - 1]) + 1
    requires st == SweepState(st0.stack + [events[n - 1].value], st0.merged)
    requires open == if st0.stack == [] then n - 1 else open0
    ensures SweepMarks(events, n, st, starts, ends, open)
  {
    assert st.stack[0] == if st0.stack == [] then events[n - 1].value else st0.stack[0];
  }

  lemma SweepPops(events: seq<Range>, n: nat, st0: SweepState, starts: seq<nat>,
                  ends: seq<nat>, open: nat, st: SweepState)
    requires 0 < n <= |events| && events[n - 1].Max?
    requires SweepMarks(events, n - 1, st0, starts, ends, open)
    requires Height(events[..n]) == Height(events[..n - 1]) - 1
    requires |st0.stack| > 1
    requires st == SweepState(st0.stack[..|st0.stack| - 1], st0.merged)
    ensures SweepMarks(events, n, st, starts, ends, open)
  {
    assert st.stack[0] == st0.stack[0];
  }

  lemma SweepCloses(events: seq<Range>, n: nat, st0: SweepState, starts0: seq<nat>,
                    ends0: seq<nat>, open0: nat, st: SweepState,
                    starts: seq<nat>, ends: seq<nat>)
    requires 0 < n <= |events| && events[n - 1].Max?
    requires SweepMarks(events, n - 1, st0, starts0, ends0, open0)
    requires Height(events[..n]) == Height(events[..n - 1]) - 1
    requires |st0.stack| == 1
    requires st == SweepState([], st0.merged + [(st0.stack[0], events[n - 1].value)])
    requires starts == starts0 + [open0] && ends == ends0 + [n - 1]
    ensures SweepMarks(events, n, st, starts, ends, 0)
  {
    var last := |starts0|;
    forall m | 0 <= m <= n
      ensures Height(events[..m]) > 0 <==>
                (exists k :: 0 <= k < |starts| && starts[k] < m <= ends[k])
    {
      if m < n {
        if exists k :: 0 <= k < |starts0| && starts0[k] < m <= ends0[k] {
          var k :| 0 <= k < |starts0| && starts0[k] < m <= ends0[k];
          assert starts[k] < m <= ends[k];
        }
        if open0 < m {
          assert starts[last] < m <= ends[last];
        }
      }
    }
  }

  /** Once the sweep has panicked it stays panicked. */
  lemma {:induction false} SweepStaysFailed(events: seq<Range>, n: nat)
    requires n <= |events|
    requires Sweep(events[..n]) == None
    ensures Sweep(events) == None
    decreases |events| - n
  {
    if n < |events| {
      assert events[..n + 1][..n] == events[..n];
      SweepStaysFailed(events, n + 1);
    } else {
      assert events[..n] == events;
    }
  }

  /** `get_non_overlapping_ranges`: sort the end points, then sweep them with
      a stack of open minima. */
  method GetNonOverlappingRanges(ranges: seq<Range>) returns (merged: Option<seq<(int, int)>>)
    ensures merged == MergeRanges(ranges)
  {
    var sorted := SortRanges(ranges);
    var stack: seq<int> := [];
    var found: seq<(int, int)> := [];
    for i := 0 to |sorted|
      invariant Sweep(sorted[..i]) == Some(SweepState(stack, found))
    {
      assert sorted[..i + 1][..i] == sorted[..i];
      assert Sweep(sorted[..i + 1]) == SweepStep(SweepState(stack, found), sorted[i]);
      match sorted[i]
      case Min(lo) =>
        stack := stack + [lo];
      case Max(hi) =>
        if stack == [] {
          SweepStaysFailed(sorted, i + 1);
          return None;
        }
        var lo := stack[|stack| - 1];
        stack := stack[..|stack| - 1];
        if stack == [] {
          found := found + [(lo, hi)];
        }
    }
    assert sorted[..|sorted|] == sorted;
    return Some(found);
  }

  // ---------------------------------------------------------------------
  // Intervals and the positions they cover
  // ---------------------------------------------------------------------

  predicate InSpan(span: (int, int), x: int) {
    span.0 <= x < span.1
  }

  predicate Covered(spans: seq<(int, int)>, x: int) {
    exists i :: 0 <= i < |spans| && InSpan(spans[i], x)
  }

  /** Every interval is non-empty. */
  predicate WellFormed(spans: seq<(int, int)>) {
    forall i :: 0 <= i < |spans| ==> spans[i].0 < spans[i].1
  }

  /** Non-empty, disjoint, ascending and not even touching. */
  predicate Separated(spans: seq<(int, int)>) {
    && WellFormed(spans)
    && forall k, k' :: 0 <= k < k' < |spans| ==> spans[k].1 < spans[k'].0
  }

  /** The end points pushed for `spans`, in order. */
  function Events(spans: seq<(int, int)>): (events: seq<Range>)
    ensures |events| == 2 * |spans|
  {
    if spans == [] then []
    else
      var last := spans[|spans| - 1];
      Events(spans[..|spans| - 1]) + [Min(last.0), Max(last.1)]
  }

  /** How many of the intervals cover `x`. */
  function CoverCount(spans: seq<(int, int)>, x: int): (c: nat)
    ensures c > 0 <==> Covered(spans, x)
  {
    if spans == [] then 0
    else
      var front := spans[..|spans| - 1];
      var c := CoverCount(front, x) + if InSpan(spans[|spans| - 1], x) then 1 else 0;
      assert forall i :: 0 <= i < |front| ==> front[i] == spans[i];
      assert Covered(spans, x) <==> Covered(front, x) || InSpan(spans[|spans| - 1], x);
      c
  }

  lemma {:induction false} EventsHeight(spans: seq<(int, int)>)
    ensures Height(Events(spans)) == 0
  {
    if spans != [] {
      var last := spans[|spans| - 1];
      var pair := [Min(last.0), Max(last.1)];
      EventsHeight(spans[..|spans| - 1]);
      HeightAppend(Events(spans[..|spans| - 1]), pair);
      assert pair[1..][1..] == [];
      assert Height(pair[1..]) == -1;
    }
  }

  lemma {:induction false} EventsDepth(spans: seq<(int, int)>, x: int)
    requires WellFormed(spans)
    ensures DepthAt(Events(spans), x) == CoverCount(spans, x)
  {
    if spans != [] {
      var front, last := spans[..|spans| - 1], spans[|spans| - 1];
      var pair := [Min(last.0), Max(last.1)];
      assert forall i :: 0 <= i < |front| ==> front[i] == spans[i];
      EventsDepth(front, x);
      DepthAppend(Events(front), pair, x);
      assert pair[1..][1..] == [];
      assert DepthAt(pair[1..], x) == Weight(Max(last.1), x);
    }
  }

  /** Every opening end point comes from one of the intervals. */
  lemma {:induction false} EventsOpenAtStarts(spans: seq<(int, int)>, v: int)
    requires Min(v) in Events(spans)
    ensures exists i :: 0 <= i < |spans| && spans[i].0 == v
  {
    var front := spans[..|spans| - 1];
    if Min(v) in Events(front) {
      EventsOpenAtStarts(front, v);
      var i :| 0 <= i < |front| && front[i].0 == v;
      assert spans[i] == front[i];
    } else {
      assert spans[|spans| - 1].0 == v;
    }
  }

  /** The sorted end points of well-formed intervals, and where the sweep
      over them ends. */
  lemma SortedSweep(spans: seq<(int, int)>)
    returns (sorted: seq<Range>, st: SweepState, starts: seq<nat>, ends: seq<nat>, open: nat)
    requires WellFormed(spans)
    ensures sorted == SortRanges(Events(spans))
    ensures forall x :: DepthAt(sorted, x) == CoverCount(spans, x)
    ensures Sweep(sorted) == Some(st) && st.stack == []
    ensures SweepMarks(sorted, |sorted|, st, starts, ends, open)
  {
    var events := Events(spans);
    sorted := SortRanges(events);
    SortKeepsHeight(events);
    EventsHeight(spans);
    forall x
      ensures DepthAt(sorted, x) == CoverCount(spans, x)
    {
      SortKeepsDepth(events, x);
      EventsDepth(spans, x);
    }
    forall m | 0 <= m <= |sorted|
      ensures Height(sorted[..m]) >= 0
    {
      PrefixHeightNonNegative(sorted, m);
    }
    st, starts, ends, open := SweepShape(sorted, |sorted|);
    assert sorted[..|sorted|] == sorted;
  }

  /** The merged intervals are weakly separated. */
  lemma MergeOrdered(spans: seq<(int, int)>)
    requires WellFormed(spans)
    ensures MergeRanges(Events(spans)).Some?
    ensures forall k :: 0 <= k < |MergeRanges(Events(spans)).value| ==>
      MergeRanges(Events(spans)).value[k].0 <= MergeRanges(Events(spans)).value[k].1
    ensures forall k, k' :: 0 <= k < k' < |MergeRanges(Events(spans)).value| ==>
      MergeRanges(Events(spans)).value[k].1 < MergeRanges(Events(spans)).value[k'].0
  {
    var sorted, st, starts, ends, open := SortedSweep(spans);
    var merged := st.merged;
    assert MergeRanges(Events(spans)) == Some(merged);
    forall k | 0 <= k < |merged|
      ensures merged[k].0 <= merged[k].1
    {
      assert RangeLe(sorted[starts[k]], sorted[ends[k]]);
    }
    forall k, k' | 0 <= k < k' < |merged|
      ensures merged[k].1 < merged[k'].0
    {
      assert RangeLe(sorted[ends[k]], sorted[starts[k']]);
    }
  }

  /** The merged intervals cover what the inputs cover. */
  lemma MergeCovers(spans: seq<(int, int)>)
    requires WellFormed(spans)
    ensures MergeRanges(Events(spans)).Some?
    ensures forall x :: Covered(MergeRanges(Events(spans)).value, x) <==> Covered(spans, x)
  {
    var sorted, st, starts, ends, open := SortedSweep(spans);
    assert MergeRanges(Events(spans)) == Some(st.merged);
    forall x
      ensures Covered(st.merged, x) <==> Covered(spans, x)
    {
      CoverAt(spans, sorted, st, starts, ends, open, x);
    }
  }

  lemma CoverAt(spans: seq<(int, int)>, sorted: seq<Range>, st: SweepState,
                starts: seq<nat>, ends: seq<nat>, open: nat, x: int)
    requires SortedRanges(sorted) && st.stack == []
    requires SweepMarks(sorted, |sorted|, st, starts, ends, open)
    requires DepthAt(sorted, x) == CoverCount(spans, x)
    ensures Covered(st.merged, x) <==> Covered(spans, x)
  {
    var merged := st.merged;
    var j := CountUpTo(sorted, x);
    DepthIsPrefixHeight(sorted, x, j);
    assert Covered(spans, x) <==> Height(sorted[..j]) > 0;
    if Covered(spans, x) {
      var k :| 0 <= k < |starts| && starts[k] < j <= ends[k];
      assert InSpan(merged[k], x);
    }
    if Covered(merged, x) {
      var k :| 0 <= k < |merged| && InSpan(merged[k], x);
      assert starts[k] < j <= ends[k];
    }
  }

  /** Each merged interval starts at one of the opening end points. */
  lemma MergeStartsAtOpening(spans: seq<(int, int)>, k: nat)
    requires WellFormed(spans)
    requires MergeRanges(Events(spans)).Some?
    requires k < |MergeRanges(Events(spans)).value|
    ensures Min(MergeRanges(Events(spans)).value[k].0) in Events(spans)
  {
    var sorted, st, starts, ends, open := SortedSweep(spans);
    assert sorted[starts[k]] in multiset(sorted);
  }

  /** No merged interval is empty. */
  lemma MergedNonEmpty(spans: seq<(int, int)>, k: nat)
    requires WellFormed(spans)
    requires MergeRanges(Events(spans)).Some?
    requires k < |MergeRanges(Events(spans)).value|
    ensures MergeRanges(Events(spans)).value[k].0 < MergeRanges(Events(spans)).value[k].1
  {
    var merged := MergeRanges(Events(spans)).value;
    var a := merged[k].0;
    MergeStartsAtOpening(spans, k);
    EventsOpenAtStarts(spans, a);
    var i :| 0 <= i < |spans| && spans[i].0 == a;
    assert spans[i].0 < spans[i].1;
    assert Covered(spans, a) by {
      assert InSpan(spans[i], a);
    }
    MergeCovers(spans);
    assert Covered(merged, a);
    var k' :| 0 <= k' < |merged| && InSpan(merged[k'], a);
    MergeOrdered(spans);
    assert k' == k;
  }

  /** `get_non_overlapping_ranges` on the end points of non-empty intervals
      never panics and returns separated intervals covering exactly the
      positions the inputs cover. */
  lemma MergeKeepsCover(spans: seq<(int, int)>)
    requires WellFormed(spans)
    ensures MergeRanges(Events(spans)).Some?
    ensures Separated(MergeRanges(Events(spans)).value)
    ensures forall x :: Covered(MergeRanges(Events(spans)).value, x) <==> Covered(spans, x)
  {
    MergeOrdered(spans);
    MergeCovers(spans);
    forall k | 0 <= k < |MergeRanges(Events(spans)).value|
      ensures MergeRanges(Events(spans)).value[k].0 < MergeRanges(Events(spans)).value[k].1
    {
      MergedNonEmpty(spans, k);
    }
  }

  // ---------------------------------------------------------------------
  // Cardinalities
  // ---------------------------------------------------------------------

  /** The positions `lo <= x < hi`. */
  function IntervalSet(lo: int, hi: int): (xs: set<int>)
    ensures forall x :: x in xs <==> lo <= x < hi
    ensures lo <= hi ==> |xs| == hi - lo
    decreases hi - lo
  {
    if hi <= lo then {} else IntervalSet(lo, hi - 1) + {hi - 1}
  }

  /** The positions covered by `spans`. */
  function SpanSet(spans: seq<(int, int)>): (xs: set<int>)
    ensures forall x :: x in xs <==> Covered(spans, x)
  {
    if spans == [] then {}
    else
      var front, last := spans[..|spans| - 1], spans[|spans| - 1];
      var xs := SpanSet(front) + IntervalSet(last.0, last.1);
      CoveredSnoc(spans);
      xs
  }

  /** A position is covered by intervals when the last one or the others
      cover it. */
  lemma CoveredSnoc(spans: seq<(int, int)>)
    requires spans != []
    ensures forall x :: Covered(spans, x) <==> Covered(spans[..|spans| - 1], x) || InSpan(spans[|spans| - 1], x)
  {
    var front := spans[..|spans| - 1];
    forall x
      ensures Covered(spans, x) <==> Covered(front, x) || InSpan(spans[|spans| - 1], x)
    {
      if Covered(spans, x) && !InSpan(spans[|spans| - 1], x) {
        var i :| 0 <= i < |spans| && InSpan(spans[i], x);
        assert front[i] == spans[i];
      }
      if Covered(front, x) {
        var i :| 0 <= i < |front| && InSpan(front[i], x);
        assert spans[i] == front[i];
      }
    }
  }

  /** The summed widths of intervals: `within_sensor_sum`. */
  function Width(spans: seq<(int, int)>): int {
    if spans == [] then 0
    else Width(spans[..|spans| - 1]) + (spans[|spans| - 1].1 - spans[|spans| - 1].0)
  }

  /** Separated intervals cover as many positions as their widths add up to. */
  lemma {:induction false} WidthCounts(spans: seq<(int, int)>)
    requires Separated(spans)
    ensures |SpanSet(spans)| == Width(spans)
  {
    if spans != [] {
      var front, last := spans[..|spans| - 1], spans[|spans| - 1];
      assert Separated(front) by {
        assert forall k :: 0 <= k < |front| ==> front[k] == spans[k];
      }
      WidthCounts(front);
      var before, after := SpanSet(front), IntervalSet(last.0, last.1);
      assert SpanSet(spans) == before + after;
      assert |after| == last.1 - last.0;
      FrontBeforeLast(spans, front);
      assert before * after == {};
      assert |before + after| == |before| + |after|;
    }
  }

  /** Every position the earlier intervals cover lies before the last one. */
  lemma FrontBeforeLast(spans: seq<(int, int)>, front: seq<(int, int)>)
    requires Separated(spans) && spans != [] && front == spans[..|spans| - 1]
    ensures forall x :: x in SpanSet(front) ==> x < spans[|spans| - 1].0
  {
    forall x | x in SpanSet(front)
      ensures x < spans[|spans| - 1].0
    {
      var k :| 0 <= k < |front| && InSpan(front[k], x);
      assert front[k] == spans[k];
      assert spans[k].1 < spans[|spans| - 1].0;
    }
  }

  // ---------------------------------------------------------------------
  // What one sensor rules out on a row
  // ---------------------------------------------------------------------

  /** `rhs`: how far the sensor's reach extends to either side on `row`. */
  function Reach(report: SensorReport, row: int): int {
    ManhattanDistance(report.sensor, report.beacon) - Abs(report.sensor.y - row)
  }

  /** No other beacon can be nearer to the sensor than its reported one. */
  predicate WithinReach(report: SensorReport, p: Point) {
    ManhattanDistance(p, report.sensor) <= ManhattanDistance(report.sensor, report.beacon)
  }

  /** The interval `build_non_overlapping_ranges` pushes for one report, as
      written: nothing when `x_min >= x_max`. */
  function SensorSpan(report: SensorReport, row: int): Option<(int, int)> {
    var rhs := Reach(report, row);
    var xMax := rhs + report.sensor.x;
    var xMin := report.sensor.x - rhs;
    if xMin >= xMax then None else Some((xMin, xMax + 1))
  }

  /** The interval with the intended test `x_min > x_max`, which keeps the
      single position where the reach just touches the row. */
  function ReachSpan(report: SensorReport, row: int): Option<(int, int)> {
    var rhs := Reach(report, row);
    var xMax := rhs + report.sensor.x;
    var xMin := report.sensor.x - rhs;
    if xMin > xMax then None else Some((xMin, xMax + 1))
  }

  /** A report contributes `[sx - rhs, sx + rhs + 1)` exactly when `rhs > 0`,
      and that interval is the part of the row within the sensor's reach. */
  lemma SensorSpanMeaning(report: SensorReport, row: int, x: int)
    ensures SensorSpan(report, row).Some? <==> Reach(report, row) > 0
    ensures SensorSpan(report, row).Some? ==>
      SensorSpan(report, row).value == (report.sensor.x - Reach(report, row), report.sensor.x + Reach(report, row) + 1)
    ensures (SensorSpan(report, row).Some? && InSpan(SensorSpan(report, row).value, x)) <==>
      Reach(report, row) > 0 && WithinReach(report, Point(x, row))
  {
  }

  /** With the intended test the interval is exactly the part of the row
      within the sensor's reach. */
  lemma ReachSpanMeaning(report: SensorReport, row: int, x: int)
    ensures ReachSpan(report, row).Some? <==> Reach(report, row) >= 0
    ensures (ReachSpan(report, row).Some? && InSpan(ReachSpan(report, row).value, x)) <==>
      WithinReach(report, Point(x, row))
  {
  }

  /** The intervals pushed for `reports`, as written. */
  function RowSpans(reports: seq<SensorReport>, row: int): (spans: seq<(int, int)>)
    ensures WellFormed(spans)
  {
    if reports == [] then []
    else
      var front := RowSpans(reports[..|reports| - 1], row);
      match SensorSpan(reports[|reports| - 1], row)
      case None => front
      case Some(span) => front + [span]
  }

  /** The intervals with the intended test. */
  function ReachSpans(reports: seq<SensorReport>, row: int): (spans: seq<(int, int)>)
    ensures WellFormed(spans)
  {
    if reports == [] then []
    else
      var front := ReachSpans(reports[..|reports| - 1], row);
      match ReachSpan(reports[|reports| - 1], row)
      case None => front
      case Some(span) => front + [span]
  }

  /** Some report's pushed interval holds `x`. */
  predicate RowCovered(reports: seq<SensorReport>, row: int, x: int) {
    exists i :: 0 <= i < |reports| && Reach(reports[i], row) > 0 && WithinReach(reports[i], Point(x, row))
  }

  /** Some sensor reaches `(x, row)`. */
  predicate Reached(reports: seq<SensorReport>, row: int, x: int) {
    exists i :: 0 <= i < |reports| && WithinReach(reports[i], Point(x, row))
  }

  lemma {:induction false} RowSpansCover(reports: seq<SensorReport>, row: int, x: int)
    ensures Covered(RowSpans(reports, row), x) <==> RowCovered(reports, row, x)
  {
    if reports != [] {
      var front, last := reports[..|reports| - 1], reports[|reports| - 1];
      RowSpansCover(front, row, x);
      SensorSpanMeaning(last, row, x);
      var spans, before := RowSpans(reports, row), RowSpans(front, row);
      assert forall k :: 0 <= k < |before| ==> spans[k] == before[k];
      if RowCovered(reports, row, x) {
        var i :| 0 <= i < |reports| && Reach(reports[i], row) > 0 && WithinReach(reports[i], Point(x, row));
        if i < |front| {
          assert front[i] == reports[i];
        } else {
          assert InSpan(spans[|spans| - 1], x);
        }
      }
      if Covered(spans, x) {
        var k :| 0 <= k < |spans| && InSpan(spans[k], x);
        if k < |before| {
          assert InSpan(before[k], x);
          var i :| 0 <= i < |front| && Reach(front[i], row) > 0 && WithinReach(front[i], Point(x, row));
          assert reports[i] == front[i];
        }
      }
    }
  }

  lemma {:induction false} ReachSpansCover(reports: seq<SensorReport>, row: int, x: int)
    ensures Covered(ReachSpans(reports, row), x) <==> Reached(reports, row, x)
  {
    if reports != [] {
      var front, last := reports[..|reports| - 1], reports[|reports| - 1];
      ReachSpansCover(front, row, x);
      ReachSpanMeaning(last, row, x);
      var spans, before := ReachSpans(reports, row), ReachSpans(front, row);
      assert forall k :: 0 <= k < |before| ==> spans[k] == before[k];
      if Reached(reports, row, x) {
        var i :| 0 <= i < |reports| && WithinReach(reports[i], Point(x, row));
        if i < |front| {
          assert front[i] == reports[i];
        } else {
          assert InSpan(spans[|spans| - 1], x);
        }
      }
      if Covered(spans, x) {
        var k :| 0 <= k < |spans| && InSpan(spans[k], x);
        if k < |before| {
          assert InSpan(before[k], x);
          var i :| 0 <= i < |front| && WithinReach(front[i], Point(x, row));
          assert reports[i] == front[i];
        }
      }
    }
  }

  // ---------------------------------------------------------------------
  // `build_non_overlapping_ranges` and `get_num_no_beacons`
  // ---------------------------------------------------------------------

  /** What `build_non_overlapping_ranges` returns: separated intervals whose
      positions are those some pushed interval holds. */
  function RowRanges(reports: seq<SensorReport>, row: int): (merged: seq<(int, int)>)
    ensures Separated(merged)
    ensures forall x :: Covered(merged, x) <==> RowCovered(reports, row, x)
  {
    var spans := RowSpans(reports, row);
    MergeKeepsCover(spans);
    assert forall x :: Covered(spans, x) <==> RowCovered(reports, row, x) by {
      forall x {
        RowSpansCover(reports, row, x);
      }
    }
    MergeRanges(Events(spans)).value
  }

  /** The merged intervals with the intended test. */
  function ReachRanges(reports: seq<SensorReport>, row: int): (merged: seq<(int, int)>)
    ensures Separated(merged)
    ensures forall x :: Covered(merged, x) <==> Reached(reports, row, x)
  {
    var spans := ReachSpans(reports, row);
    MergeKeepsCover(spans);
    assert forall x :: Covered(spans, x) <==> Reached(reports, row, x) by {
      forall x {
        ReachSpansCover(reports, row, x);
      }
    }
    MergeRanges(Events(spans)).value
  }

  method BuildNonOverlappingRanges(reports: seq<SensorReport>, row: int) returns (merged: seq<(int, int)>)
    ensures merged == RowRanges(reports, row)
  {
    var ranges: seq<Range> := [];
    for i := 0 to |reports|
      invariant ranges == Events(RowSpans(reports[..i], row))
    {
      assert reports[..i + 1][..i] == reports[..i];
      var report := reports[i];
      var distance := ManhattanDistance(report.sensor, report.beacon);
      var rhs := distance - Abs(report.sensor.y - row);
      var xMax := rhs + report.sensor.x;
      var xMin := report.sensor.x - rhs;
      if xMin >= xMax {
        continue;
      }
      ranges := ranges + [Min(xMin), Max(xMax + 1)];
    }
    assert reports[..|reports|] == reports;
    MergeKeepsCover(RowSpans(reports, row));
    var result := GetNonOverlappingRanges(ranges);
    merged := result.value;
  }

  /** The distinct beacons on `row`: the source's `HashSet<Point>`. */
  function BeaconsOnRow(reports: seq<SensorReport>, row: int): (beacons: set<Point>)
    ensures forall p :: p in beacons <==>
      p.y == row && exists i :: 0 <= i < |reports| && reports[i].beacon == p
  {
    set i | 0 <= i < |reports| && reports[i].beacon.y == row :: reports[i].beacon
  }

  /** What `get_num_no_beacons` returns. */
  function NoBeaconCount(reports: seq<SensorReport>, row: int): int {
    Width(RowRanges(reports, row)) - |BeaconsOnRow(reports, row)|
  }

  method GetNumNoBeacons(reports: seq<SensorReport>, row: int) returns (count: int)
    ensures count == NoBeaconCount(reports, row)
  {
    var merged := BuildNonOverlappingRanges(reports, row);
    var withinSensorSum := Width(merged);
    var beacons := BeaconsOnRow(reports, row);
    count := withinSensorSum - |beacons|;
  }

  /** Interval lists covering the same positions cover the same set. */
  lemma SameCoverSameSet(a: seq<(int, int)>, b: seq<(int, int)>)
    requires forall x :: Covered(a, x) <==> Covered(b, x)
    ensures SpanSet(a) == SpanSet(b)
  {
    var sa, sb := SpanSet(a), SpanSet(b);
    forall x | x in sa
      ensures x in sb
    {
      assert Covered(a, x);
    }
    forall x | x in sb
      ensures x in sa
    {
      assert Covered(b, x);
    }
  }

  /** As written, the count is the number of positions in some pushed
      interval minus the number of distinct beacons on the row. */
  lemma NoBeaconCountMeaning(reports: seq<SensorReport>, row: int)
    ensures NoBeaconCount(reports, row) ==
      |SpanSet(RowSpans(reports, row))| - |BeaconsOnRow(reports, row)|
  {
    var merged := RowRanges(reports, row);
    WidthCounts(merged);
    forall x
      ensures Covered(merged, x) <==> Covered(RowSpans(reports, row), x)
    {
      RowSpansCover(reports, row, x);
    }
    SameCoverSameSet(merged, RowSpans(reports, row));
  }

  // ---------------------------------------------------------------------
  // The count with the intended test
  // ---------------------------------------------------------------------

  /** `get_num_no_beacons` with `x_min > x_max` in place of `x_min >= x_max`. */
  function FixedNoBeaconCount(reports: seq<SensorReport>, row: int): int {
    Width(ReachRanges(reports, row)) - |BeaconsOnRow(reports, row)|
  }

  /** The positions on `row` where no beacon can be: within some sensor's
      reach and not a reported beacon. */
  function NoBeaconPositions(reports: seq<SensorReport>, row: int): (xs: set<int>)
    ensures forall x :: x in xs <==>
      Reached(reports, row, x) && Point(x, row) !in BeaconsOnRow(reports, row)
  {
    forall x {
      ReachSpansCover(reports, row, x);
    }
    set x | x in SpanSet(ReachSpans(reports, row)) && Point(x, row) !in BeaconsOnRow(reports, row)
  }

  /** Distinct points of one row have distinct columns. */
  lemma {:induction false} ColumnsOfRow(points: set<Point>, row: int)
    requires forall p :: p in points ==> p.y == row
    ensures |set p | p in points :: p.x| == |points|
    decreases points
  {
    if points != {} {
      var p :| p in points;
      var rest := points - {p};
      ColumnsOfRow(rest, row);
      assert (set q | q in points :: q.x) == (set q | q in rest :: q.x) + {p.x};
      assert p.x !in (set q | q in rest :: q.x);
    }
  }

  /** The columns of the beacons on `row`. */
  function BeaconColumns(reports: seq<SensorReport>, row: int): (xs: set<int>)
    ensures |xs| == |BeaconsOnRow(reports, row)|
    ensures forall x :: x in xs <==> Point(x, row) in BeaconsOnRow(reports, row)
  {
    var beacons := BeaconsOnRow(reports, row);
    ColumnsOfRow(beacons, row);
    var xs := set p | p in beacons :: p.x;
    assert forall x :: x in xs ==> Point(x, row) in beacons by {
      forall x | x in xs
        ensures Point(x, row) in beacons
      {
        var p :| p in beacons && p.x == x;
        assert p == Point(x, row);
      }
    }
    xs
  }

  /** A sensor always reaches its own beacon. */
  lemma BeaconsAreReached(reports: seq<SensorReport>, row: int)
    ensures BeaconColumns(reports, row) <= SpanSet(ReachRanges(reports, row))
  {
    forall x | x in BeaconColumns(reports, row)
      ensures Reached(reports, row, x)
    {
      var i :| 0 <= i < |reports| && reports[i].beacon == Point(x, row);
      assert WithinReach(reports[i], Point(x, row));
    }
  }

  /** With the intended test every beacon on the row lies in the merged
      intervals, so the count is exactly the number of positions where no
      beacon can be. */
  lemma FixedNoBeaconCountMeaning(reports: seq<SensorReport>, row: int)
    ensures FixedNoBeaconCount(reports, row) == |NoBeaconPositions(reports, row)|
  {
    var merged := ReachRanges(reports, row);
    var covered := SpanSet(merged);
    var columns := BeaconColumns(reports, row);
    assert FixedNoBeaconCount(reports, row) == Width(merged) - |columns|;
    WidthCounts(merged);
    BeaconsAreReached(reports, row);
    PositionsAreCoveredButNotBeacons(reports, row);
    CardinalityOfDifference(covered, columns);
  }

  lemma CardinalityOfDifference(a: set<int>, b: set<int>)
    requires b <= a
    ensures |a - b| == |a| - |b|
  {
    assert a == (a - b) + b;
  }

  lemma PositionsAreCoveredButNotBeacons(reports: seq<SensorReport>, row: int)
    ensures NoBeaconPositions(reports, row) ==
      SpanSet(ReachRanges(reports, row)) - BeaconColumns(reports, row)
  {
    var covered := SpanSet(ReachRanges(reports, row));
    var columns := BeaconColumns(reports, row);
    forall x
      ensures x in NoBeaconPositions(reports, row) <==> x in covered && x !in columns
    {
      assert x in covered <==> Reached(reports, row, x);
      assert x in columns <==> Point(x, row) in BeaconsOnRow(reports, row);
    }
  }

  /** One sensor whose reach only touches row 1, there at its own beacon. */
  function TouchingReport(): seq<SensorReport> {
    [SensorReport(Point(0, 0), Point(0, 1))]
  }

  /** As written, the touching sensor is skipped while its beacon is still
      subtracted: the count comes out negative. */
  lemma TouchingSensorMiscounts()
    ensures NoBeaconCount(TouchingReport(), 1) == -1
  {
    var reports := TouchingReport();
    NoBeaconCountMeaning(reports, 1);
    TouchingSensorReachesOnlyItsBeacon();
    assert |BeaconsOnRow(reports, 1)| == 1;
  }

  /** With the intended test the same report gives 0: the only position it
      reaches on row 1 is its beacon. */
  lemma TouchingSensorFixedCount()
    ensures FixedNoBeaconCount(TouchingReport(), 1) == 0
  {
    var reports := TouchingReport();
    FixedNoBeaconCountMeaning(reports, 1);
    TouchingSensorReachesOnlyItsBeacon();
    assert NoBeaconPositions(reports, 1) == {};
  }

  lemma TouchingSensorReachesOnlyItsBeacon()
    ensures forall x :: Reached(TouchingReport(), 1, x) ==> x == 0
    ensures BeaconsOnRow(TouchingReport(), 1) == {Point(0, 1)}
    ensures RowSpans(TouchingReport(), 1) == []
  {
    var reports := TouchingReport();
    assert reports[..0] == [];
    forall x | Reached(reports, 1, x)
      ensures x == 0
    {
      assert WithinReach(reports[0], Point(x, 1));
    }
    assert reports[0].beacon == Point(0, 1);
  }

  // ---------------------------------------------------------------------
  // The distress beacon and its tuning signal
  // ---------------------------------------------------------------------

  /** The first row from `y` on, below `maxRange`, that merges into more than
      one interval, with the position just after the first interval. */
  function FirstGapFrom(reports: seq<SensorReport>, y: int, maxRange: int): Option<Point>
    decreases maxRange - y
  {
    if y >= maxRange then None
    else
      var merged := RowRanges(reports, y);
      if |merged| > 1 then Some(Point(merged[0].1, y)) else FirstGapFrom(reports, y + 1, maxRange)
  }

  /** What `get_distress_beacon` returns; `(0, 0)` when no row has a gap. */
  function DistressBeacon(reports: seq<SensorReport>, maxRange: int): Point {
    match FirstGapFrom(reports, 0, maxRange)
    case Some(p) => p
    case None => Point(0, 0)
  }

  method GetDistressBeacon(reports: seq<SensorReport>, maxRange: int) returns (beacon: Point)
    ensures beacon == DistressBeacon(reports, maxRange)
  {
    var y := 0;
    while y < maxRange
      invariant FirstGapFrom(reports, y, maxRange) == FirstGapFrom(reports, 0, maxRange)
      decreases maxRange - y
    {
      var merged := BuildNonOverlappingRanges(reports, y);
      if |merged| > 1 {
        return Point(merged[0].1, y);
      }
      y := y + 1;
    }
    return Point(0, 0);
  }

  /** Between the first two of several separated intervals lies a hole. */
  lemma HoleAfterFirst(merged: seq<(int, int)>)
    requires Separated(merged) && |merged| > 1
    ensures Covered(merged, merged[0].1 - 1)
    ensures !Covered(merged, merged[0].1)
    ensures Covered(merged, merged[1].0) && merged[0].1 < merged[1].0
  {
    assert InSpan(merged[0], merged[0].1 - 1) && InSpan(merged[1], merged[1].0);
    forall k | 0 <= k < |merged|
      ensures !InSpan(merged[k], merged[0].1)
    {
      if k > 0 {
        assert merged[0].1 < merged[k].0;
      }
    }
  }

  /** A row merges into several intervals exactly when its covered positions
      have a hole. */
  lemma SeveralRangesIffGap(reports: seq<SensorReport>, y: int)
    ensures |RowRanges(reports, y)| > 1 <==>
      exists lo, gap, hi :: lo < gap < hi && RowCovered(reports, y, lo) &&
        !RowCovered(reports, y, gap) && RowCovered(reports, y, hi)
  {
    if |RowRanges(reports, y)| > 1 {
      SeveralRangesHaveGap(reports, y);
    }
    if exists lo, gap, hi :: lo < gap < hi && RowCovered(reports, y, lo) &&
         !RowCovered(reports, y, gap) && RowCovered(reports, y, hi) {
      var lo, gap, hi :| lo < gap < hi && RowCovered(reports, y, lo) &&
        !RowCovered(reports, y, gap) && RowCovered(reports, y, hi);
      GapSplitsRanges(reports, y, lo, gap, hi);
    }
  }

  /** Several merged intervals leave a hole after the first. */
  lemma SeveralRangesHaveGap(reports: seq<SensorReport>, y: int)
    requires |RowRanges(reports, y)| > 1
    ensures exists lo, gap, hi ::
      lo < gap < hi && RowCovered(reports, y, lo) && !RowCovered(reports, y, gap) && RowCovered(reports, y, hi)
  {
    var merged := RowRanges(reports, y);
    HoleAfterFirst(merged);
    var gap := merged[0].1;
    assert RowCovered(reports, y, gap - 1) && !RowCovered(reports, y, gap);
    assert RowCovered(reports, y, merged[1].0);
  }

  /** A hole between covered positions puts them in different intervals. */
  lemma GapSplitsRanges(reports: seq<SensorReport>, y: int, lo: int, gap: int, hi: int)
    requires lo < gap < hi && RowCovered(reports, y, lo) && !RowCovered(reports, y, gap) && RowCovered(reports, y, hi)
    ensures |RowRanges(reports, y)| > 1
  {
    var merged := RowRanges(reports, y);
    var k :| 0 <= k < |merged| && InSpan(merged[k], lo);
    var k' :| 0 <= k' < |merged| && InSpan(merged[k'], hi);
    assert !InSpan(merged[k], gap);
    assert k != k';
  }

  /** The returned point is the hole: no pushed interval holds it, while
      positions on both sides of it are covered, and every row before it
      below the search start is one stretch. */
  lemma {:induction false} FirstGapIsHole(reports: seq<SensorReport>, from: int, maxRange: int, p: Point)
    requires FirstGapFrom(reports, from, maxRange) == Some(p)
    ensures from <= p.y < maxRange
    ensures forall y :: from <= y < p.y ==> |RowRanges(reports, y)| <= 1
    ensures !RowCovered(reports, p.y, p.x)
    ensures RowCovered(reports, p.y, p.x - 1)
    ensures exists x :: x > p.x && RowCovered(reports, p.y, x)
    decreases maxRange - from
  {
    var merged := RowRanges(reports, from);
    if |merged| > 1 {
      assert p == Point(merged[0].1, from);
      HoleAfterFirst(merged);
      assert RowCovered(reports, p.y, merged[1].0);
    } else {
      FirstGapIsHole(reports, from + 1, maxRange, p);
      forall y | from <= y < p.y
        ensures |RowRanges(reports, y)| <= 1
      {
        if y == from {
          assert RowRanges(reports, y) == merged;
        }
      }
    }
  }

  /** Without a result every row searched is one stretch. */
  lemma {:induction false} NoGapMeansOneStretch(reports: seq<SensorReport>, from: int, maxRange: int)
    requires FirstGapFrom(reports, from, maxRange) == None
    ensures forall y :: from <= y < maxRange ==> |RowRanges(reports, y)| <= 1
    decreases maxRange - from
  {
    if from < maxRange {
      var merged := RowRanges(reports, from);
      NoGapMeansOneStretch(reports, from + 1, maxRange);
      assert |merged| <= 1;
      forall y | from <= y < maxRange
        ensures |RowRanges(reports, y)| <= 1
      {
        if y == from {
          assert RowRanges(reports, y) == merged;
        }
      }
    }
  }

  /** `get_tuning_signal`. */
  function TuningSignal(p: Point): int {
    p.x * 4000000 + p.y
  }

  /** For a row inside the search area the signal determines the point. */
  lemma TuningSignalDecodes(p: Point)
    requires 0 <= p.y < 4000000
    ensures TuningSignal(p) / 4000000 == p.x
    ensures TuningSignal(p) % 4000000 == p.y
  {
    DivModUnique(TuningSignal(p), 4000000, p.x, p.y);
  }

  // ---------------------------------------------------------------------
  // The worked example
  // ---------------------------------------------------------------------

  /** The fourteen reports of the tests. */
  function ExampleReports(): seq<SensorReport> {
    [ SensorReport(Point(2, 18), Point(-2, 15)),
      SensorReport(Point(9, 16), Point(10, 16)),
      SensorReport(Point(13, 2), Point(15, 3)),
      SensorReport(Point(12, 14), Point(10, 16)),
      SensorReport(Point(10, 20), Point(10, 16)),
      SensorReport(Point(14, 17), Point(10, 16)),
      SensorReport(Point(8, 7), Point(2, 10)),
      SensorReport(Point(2, 0), Point(2, 10)),
      SensorReport(Point(0, 11), Point(2, 10)),
      SensorReport(Point(20, 14), Point(25, 17)),
      SensorReport(Point(17, 20), Point(21, 22)),
      SensorReport(Point(16, 7), Point(15, 3)),
      SensorReport(Point(14, 3), Point(15, 3)),
      SensorReport(Point(20, 1), Point(15, 3)) ]
  }

  /** On row 10 the example's pushed intervals cover exactly `[-2, 25)`. */
  lemma ExampleRowTenCover(x: int)
    ensures RowCovered(ExampleReports(), 10, x) <==> -2 <= x < 25
  {
    var reports := ExampleReports();
    if -2 <= x < 3 {
      assert Reach(reports[8], 10) > 0 && WithinReach(reports[8], Point(x, 10));
    } else if 3 <= x < 15 {
      assert Reach(reports[6], 10) > 0 && WithinReach(reports[6], Point(x, 10));
    } else if 15 <= x < 19 {
      assert Reach(reports[11], 10) > 0 && WithinReach(reports[11], Point(x, 10));
    } else if 19 <= x < 25 {
      assert Reach(reports[9], 10) > 0 && WithinReach(reports[9], Point(x, 10));
    }
    forall i | 0 <= i < |reports| && Reach(reports[i], 10) > 0 && WithinReach(reports[i], Point(x, 10))
      ensures -2 <= x < 25
    {
      if i == 0 {
      } else if i == 1 {
      } else if i == 2 {
      } else if i == 3 {
      } else if i == 4 {
      } else if i == 5 {
      } else if i == 6 {
      } else if i == 7 {
      } else if i == 8 {
      } else if i == 9 {
      } else if i == 10 {
      } else if i == 11 {
      } else if i == 12 {
      } else {
      }
    }
  }

  /** The only beacon on row 10 is the one at `(2, 10)`. */
  lemma ExampleRowTenBeacons()
    ensures BeaconsOnRow(ExampleReports(), 10) == {Point(2, 10)}
  {
    var reports := ExampleReports();
    assert reports[6].beacon == Point(2, 10);
    forall i | 0 <= i < |reports| && reports[i].beacon.y == 10
      ensures reports[i].beacon == Point(2, 10)
    {
      if i == 0 {
      } else if i == 1 {
      } else if i == 2 {
      } else if i == 3 {
      } else if i == 4 {
      } else if i == 5 {
      } else if i == 6 {
      } else if i == 7 {
      } else if i == 8 {
      } else if i == 9 {
      } else if i == 10 {
      } else if i == 11 {
      } else if i == 12 {
      } else {
      }
    }
  }

  lemma ExampleRowTenCovered()
    ensures SpanSet(RowSpans(ExampleReports(), 10)) == IntervalSet(-2, 25)
  {
    forall x
      ensures x in SpanSet(RowSpans(ExampleReports(), 10)) <==> x in IntervalSet(-2, 25)
    {
      RowSpansCover(ExampleReports(), 10, x);
      ExampleRowTenCover(x);
    }
  }

  /** `parse_get_num_no_beacons`: 26 positions on row 10 cannot hold a beacon. */
  lemma ExampleRowTenCount()
    ensures NoBeaconCount(ExampleReports(), 10) == 26
  {
    NoBeaconCountMeaning(ExampleReports(), 10);
    ExampleRowTenBeacons();
    ExampleRowTenCovered();
    assert |IntervalSet(-2, 25)| == 27;
  }
}
