/** Day 12: the hill-climbing search. A height map of letters is searched
    with Dijkstra's algorithm for the fewest steps from the start to the
    best signal, climbing at most one level per step. */
module Day12 {
  import opened Common

  /** `u32::MAX`, the distance of a point not yet reached. */
  const Infinity: nat := 0xFFFF_FFFF

  /** The elevation of 'E', the highest letter. */
  const Summit: int := 25

  /** A column x and a row y of the map. */
  datatype Point = Point(x: nat, y: nat)

  /** The elevations as rows (the matrix entry at row y, column x being
      elevations[y][x]), with the start and end points. */
  datatype HeightMap = HeightMap(elevations: seq<seq<int>>, start: Point, end: Point)

  /** An entry of the search's priority queue. */
  datatype State = State(cost: nat, position: Point)

  // ---------------------------------------------------------------------
  // Elevations and points
  // ---------------------------------------------------------------------

  /** `convert_to_elevation`: a to z are 0 to 25, S is 0 and E is 25; any
      other character panics, here None. */
  function ConvertToElevation(c: char): (r: Option<int>)
    ensures r.Some? <==> 'a' <= c <= 'z' || c == 'S' || c == 'E'
    ensures r.Some? ==> 0 <= r.value <= Summit
    ensures 'a' <= c <= 'z' ==> r == Some(c as int - 'a' as int)
    ensures c == 'S' ==> r == Some(0)
    ensures c == 'E' ==> r == Some(Summit)
  {
    if 'a' <= c <= 'z' then Some(c as int - 'a' as int)
    else if c == 'S' then Some(0)
    else if c == 'E' then Some(Summit)
    else None
  }

  /** The letter of an elevation. */
  function ElevationLetter(e: int): char
    requires 0 <= e <= Summit
  {
    ('a' as int + e) as char
  }

  /** Every elevation has a letter that converts back to it. */
  lemma ConvertLetter(e: int)
    requires 0 <= e <= Summit
    ensures 'a' <= ElevationLetter(e) <= 'z'
    ensures ConvertToElevation(ElevationLetter(e)) == Some(e)
  {
  }

  /** `index_to_point`: the characters are laid out column by column, so
      index i is column i / rows, row i % rows. Rows of zero divide by zero,
      here None. */
  function IndexToPoint(index: nat, rows: nat): (r: Option<Point>)
    ensures r.Some? <==> rows > 0
    ensures r.Some? ==> r.value.y < rows && index == r.value.x * rows + r.value.y
  {
    if rows == 0 then None else Some(Point(index / rows, index % rows))
  }

  /** The column-major index of a point. */
  function PointToIndex(p: Point, rows: nat): nat {
    p.x * rows + p.y
  }

  /** Column-major order read back: index_to_point undoes the layout. */
  lemma IndexToPointInverse(p: Point, rows: nat)
    requires p.y < rows
    ensures IndexToPoint(PointToIndex(p, rows), rows) == Some(p)
  {
    DivModUnique(PointToIndex(p, rows), rows, p.x, p.y);
  }

  // ---------------------------------------------------------------------
  // The map
  // ---------------------------------------------------------------------

  function Rows(g: seq<seq<int>>): nat {
    |g|
  }

  function Cols(g: seq<seq<int>>): nat {
    if |g| == 0 then 0 else |g[0]|
  }

  /** Every row has the same length, as in a matrix. */
  predicate IsMatrix(g: seq<seq<int>>) {
    forall y :: 0 <= y < |g| ==> |g[y]| == Cols(g)
  }

  predicate InBounds(g: seq<seq<int>>, p: Point) {
    p.x < Cols(g) && p.y < Rows(g)
  }

  function At(g: seq<seq<int>>, p: Point): int
    requires IsMatrix(g) && InBounds(g, p)
  {
    g[p.y][p.x]
  }

  /** The four neighbours of `get_next_steps`, in its order: up, down, left,
      right. */
  function Candidates(p: Point): seq<(int, int)> {
    [(p.x, p.y - 1), (p.x, p.y + 1), (p.x - 1, p.y), (p.x + 1, p.y)]
  }

  predicate Adjacent(p: Point, q: Point) {
    Abs(p.x - q.x) + Abs(p.y - q.y) == 1
  }

  /** A step the climber may take: to an adjacent point in the map at most
      one level higher (any lower level is allowed). */
  predicate IsStep(g: seq<seq<int>>, p: Point, q: Point) {
    IsMatrix(g) && InBounds(g, p) && InBounds(g, q) && Adjacent(p, q) && At(g, q) <= At(g, p) + 1
  }

  /** The candidates from k on that the loop of `get_next_steps` keeps. */
  function StepsFrom(g: seq<seq<int>>, p: Point, k: nat): (r: seq<Point>)
    requires IsMatrix(g) && InBounds(g, p) && k <= 4
    ensures |r| <= 4 - k
    ensures forall q :: q in r <==> exists j :: k <= j < 4 && Candidates(p)[j] == (q.x as int, q.y as int) && IsStep(g, p, q)
    decreases 4 - k
  {
    if k == 4 then []
    else
      var (x, y) := Candidates(p)[k];
      var rest := StepsFrom(g, p, k + 1);
      if 0 <= x < Cols(g) && 0 <= y < Rows(g) && IsStep(g, p, Point(x, y)) then [Point(x, y)] + rest else rest
  }

  /** The steps from p, in the order of `get_next_steps`. */
  function NextSteps(g: seq<seq<int>>, p: Point): (r: seq<Point>)
    requires IsMatrix(g) && InBounds(g, p)
    ensures |r| <= 4
    ensures forall q :: q in r ==> IsStep(g, p, q)
  {
    StepsFrom(g, p, 0)
  }

  /** Exactly the allowed steps, each once, at most four. */
  lemma NextStepsAreSteps(g: seq<seq<int>>, p: Point)
    requires IsMatrix(g) && InBounds(g, p)
    ensures |NextSteps(g, p)| <= 4
    ensures forall q :: q in NextSteps(g, p) <==> IsStep(g, p, q)
  {
    forall q | IsStep(g, p, q) ensures q in NextSteps(g, p) {
      var j := if q.y < p.y then 0 else if q.y > p.y then 1 else if q.x < p.x then 2 else 3;
      assert Candidates(p)[j] == (q.x as int, q.y as int);
    }
  }

  /** `get_next_steps`: the loop over the four candidates, skipping those
      outside the map and those more than one level up. The position must
      be in the map, which the source indexes at it. */
  method GetNextSteps(g: seq<seq<int>>, position: Point) returns (points: seq<Point>)
    requires IsMatrix(g) && InBounds(g, position)
    ensures points == NextSteps(g, position)
  {
    points := [];
    var candidates := Candidates(position);
    var k := 4;
    while k > 0
      invariant 0 <= k <= 4
      invariant points == StepsFrom(g, position, k)
    {
      k := k - 1;
      var (x, y) := candidates[k];
      if x >= Cols(g) || x < 0 {
        continue;
      }
      if y >= Rows(g) || y < 0 {
        continue;
      }
      var currentElevation := g[position.y][position.x];
      var nextElevation := g[y][x];
      if currentElevation - nextElevation < -1 {
        continue;
      }
      points := [Point(x, y)] + points;
    }
  }

  // ---------------------------------------------------------------------
  // Walks
  // ---------------------------------------------------------------------

  /** A walk of allowed steps. */
  predicate IsWalk(g: seq<seq<int>>, w: seq<Point>) {
    |w| > 0 && IsMatrix(g) && InBounds(g, w[0]) &&
    forall i :: 0 <= i < |w| - 1 ==> IsStep(g, w[i], w[i + 1])
  }

  /** Some walk of n steps leads from `from` to `to`. */
  ghost predicate HasWalk(g: seq<seq<int>>, from: Point, to: Point, n: nat) {
    exists w :: IsWalk(g, w) && |w| == n + 1 && w[0] == from && w[n] == to
  }

  lemma WalkStart(g: seq<seq<int>>, p: Point)
    requires IsMatrix(g) && InBounds(g, p)
    ensures HasWalk(g, p, p, 0)
  {
    assert IsWalk(g, [p]);
  }

  /** A walk extended by one step. */
  lemma WalkExtend(g: seq<seq<int>>, from: Point, p: Point, q: Point, n: nat)
    requires HasWalk(g, from, p, n) && IsStep(g, p, q)
    ensures HasWalk(g, from, q, n + 1)
  {
    var w :| IsWalk(g, w) && |w| == n + 1 && w[0] == from && w[n] == p;
    var w' := w + [q];
    assert forall i :: 0 <= i < |w| ==> w'[i] == w[i];
    assert IsWalk(g, w');
  }

  /** Every elevation negated, as `map.map(|a| a * -1)`. */
  function Negate(g: seq<seq<int>>): (r: seq<seq<int>>)
    ensures |r| == |g| && forall y :: 0 <= y < |g| ==> |r[y]| == |g[y]| && forall x :: 0 <= x < |g[y]| ==> r[y][x] == -g[y][x]
  {
    seq(|g|, y requires 0 <= y < |g| => seq(|g[y]|, x requires 0 <= x < |g[y]| => -g[y][x]))
  }

  /** On the negated map the steps are those of the map reversed: part 2
      searches down from the end. */
  lemma NegatedStep(g: seq<seq<int>>, p: Point, q: Point)
    requires IsMatrix(g)
    ensures IsMatrix(Negate(g))
    ensures IsStep(Negate(g), p, q) <==> IsStep(g, q, p)
  {
  }

  /** Step `i` of a reversed walk is step `|w| - 2 - i` of the walk, taken
      backwards. */
  lemma ReversedStep(g: seq<seq<int>>, w: seq<Point>, i: nat)
    requires IsWalk(g, w) && i < |w| - 1
    ensures IsStep(Negate(g), Reverse(w)[i], Reverse(w)[i + 1])
  {
    var k := |w| - 2 - i;
    var a, b := w[k], w[k + 1];
    assert IsStep(g, a, b);
    var r := Reverse(w);
    assert r[i] == b && r[i + 1] == a;
    NegatedStep(g, b, a);
  }

  /** A walk on the map, reversed, is a walk on the negated map. */
  lemma ReversedIsWalk(g: seq<seq<int>>, w: seq<Point>)
    requires IsWalk(g, w)
    ensures IsWalk(Negate(g), Reverse(w))
  {
    var n := |w| - 1;
    assert Cols(Negate(g)) == Cols(g) && Rows(Negate(g)) == Rows(g);
    if n > 0 {
      assert IsStep(g, w[n - 1], w[n]);
    }
    assert Reverse(w)[0] == w[n];
    forall i | 0 <= i < |w| - 1 ensures IsStep(Negate(g), Reverse(w)[i], Reverse(w)[i + 1]) {
      ReversedStep(g, w, i);
    }
  }

  /** Negating twice gives the map back. */
  lemma NegateNegate(g: seq<seq<int>>)
    ensures Negate(Negate(g)) == g
  {
    var r := Negate(Negate(g));
    forall y | 0 <= y < |g| ensures r[y] == g[y] {
    }
  }

  /** A walk on the map, reversed, is a walk on the negated map. */
  lemma ReversedWalk(g: seq<seq<int>>, from: Point, to: Point, n: nat)
    requires IsMatrix(g) && HasWalk(g, from, to, n)
    ensures HasWalk(Negate(g), to, from, n)
  {
    var w :| IsWalk(g, w) && |w| == n + 1 && w[0] == from && w[n] == to;
    ReversedIsWalk(g, w);
    assert Reverse(w)[0] == to && Reverse(w)[n] == from;
  }

  /** A walk on the negated map, reversed, is a walk on the map. */
  lemma NegatedWalk(g: seq<seq<int>>, from: Point, to: Point, n: nat)
    requires IsMatrix(g) && HasWalk(Negate(g), from, to, n)
    ensures HasWalk(g, to, from, n)
  {
    NegatedStep(g, from, from);
    ReversedWalk(Negate(g), from, to, n);
    NegateNegate(g);
  }

  // ---------------------------------------------------------------------
  // The distance table
  // ---------------------------------------------------------------------

  /** The distances, dist[x][y] for the point at column x, row y. */
  predicate IsTable(dist: seq<seq<nat>>, cols: nat, rows: nat) {
    |dist| == cols && forall x :: 0 <= x < cols ==> |dist[x]| == rows
  }

  /** `get_all_points` as a table: every point at `u32::MAX`. */
  function Unreached(cols: nat, rows: nat): (r: seq<seq<nat>>)
    ensures IsTable(r, cols, rows)
    ensures forall x, y :: 0 <= x < cols && 0 <= y < rows ==> r[x][y] == Infinity
  {
    seq(cols, x => seq(rows, y => Infinity))
  }

  /** `get_all_points`: the nested loops over columns and rows. */
  method GetAllPoints(cols: nat, rows: nat) returns (points: seq<seq<nat>>)
    ensures points == Unreached(cols, rows)
  {
    points := [];
    for x := 0 to cols
      invariant points == Unreached(x, rows)
    {
      var column := [];
      for y := 0 to rows
        invariant column == seq(y, _ => Infinity)
      {
        column := column + [Infinity];
      }
      points := points + [column];
    }
  }

  /** The table with the distance of column x, row y replaced. */
  function Updated(dist: seq<seq<nat>>, x: nat, y: nat, v: nat): (r: seq<seq<nat>>)
    requires x < |dist| && y < |dist[x]|
    ensures |r| == |dist| && forall i :: 0 <= i < |dist| && i != x ==> r[i] == dist[i]
    ensures |r[x]| == |dist[x]| && r[x][y] == v && forall j :: 0 <= j < |dist[x]| && j != y ==> r[x][j] == dist[x][j]
  {
    var column: seq<nat> := dist[x][y := v];
    dist[x := column]
  }

  /** The termination measure of the search: all distances added up. */
  function Total(dist: seq<seq<nat>>): nat {
    if dist == [] then 0 else Total(dist[..|dist| - 1]) + SumNat(dist[|dist| - 1])
  }

  function SumNat(s: seq<nat>): nat {
    if s == [] then 0 else SumNat(s[..|s| - 1]) + s[|s| - 1]
  }

  lemma {:induction false} SumNatDecrease(s: seq<nat>, y: nat, v: nat)
    requires y < |s| && v < s[y]
    ensures SumNat(s[y := v]) < SumNat(s)
  {
    var n := |s| - 1;
    if y < n {
      assert s[y := v][..n] == s[..n][y := v];
      SumNatDecrease(s[..n], y, v);
    } else {
      assert s[y := v][..n] == s[..n];
    }
  }

  lemma {:induction false} TotalDecrease(dist: seq<seq<nat>>, x: nat, y: nat, v: nat)
    requires x < |dist| && y < |dist[x]| && v < dist[x][y]
    ensures Total(Updated(dist, x, y, v)) < Total(dist)
  {
    var n := |dist| - 1;
    var updated := Updated(dist, x, y, v);
    if x < n {
      assert updated[..n] == Updated(dist[..n], x, y, v);
      TotalDecrease(dist[..n], x, y, v);
    } else {
      assert updated[..n] == dist[..n];
      SumNatDecrease(dist[x], y, v);
    }
  }

  // ---------------------------------------------------------------------
  // The priority queue
  // ---------------------------------------------------------------------

  /** The derived order of points: by column, then by row. */
  predicate PointLess(a: Point, b: Point) {
    a.x < b.x || (a.x == b.x && a.y < b.y)
  }

  /** The order of `State`: the lower cost is the greater, so that the
      max-heap pops it first; equal costs go by the point. */
  predicate StateGreater(a: State, b: State) {
    a.cost < b.cost || (a.cost == b.cost && PointLess(b.position, a.position))
  }

  /** The position `BinaryHeap::pop` takes from: a greatest entry. */
  function GreatestIndex(heap: seq<State>): (i: nat)
    requires |heap| > 0
    ensures i < |heap| && forall k :: 0 <= k < |heap| ==> !StateGreater(heap[k], heap[i])
  {
    if |heap| == 1 then 0
    else
      var i := GreatestIndex(heap[..|heap| - 1]);
      if StateGreater(heap[|heap| - 1], heap[i]) then |heap| - 1 else i
  }

  // ---------------------------------------------------------------------
  // The search
  // ---------------------------------------------------------------------

  /** What the search keeps true: the start at 0, every distance at most
      `u32::MAX`, and every finite distance the length of a walk from the
      start. */
  ghost predicate DistancesSound(g: seq<seq<int>>, start: Point, dist: seq<seq<nat>>) {
    IsMatrix(g) && IsTable(dist, Cols(g), Rows(g)) && InBounds(g, start) &&
    dist[start.x][start.y] == 0 &&
    (forall x, y :: 0 <= x < Cols(g) && 0 <= y < Rows(g) ==> dist[x][y] <= Infinity) &&
    (forall x, y :: 0 <= x < Cols(g) && 0 <= y < Rows(g) && dist[x][y] < Infinity ==>
      HasWalk(g, start, Point(x, y), dist[x][y]))
  }

  /** Every queued state is in the map, below `u32::MAX`, and reached by a
      walk of its cost. */
  ghost predicate QueueSound(g: seq<seq<int>>, start: Point, heap: seq<State>) {
    forall k :: 0 <= k < |heap| ==>
      InBounds(g, heap[k].position) && heap[k].cost < Infinity && HasWalk(g, start, heap[k].position, heap[k].cost)
  }

  /** The relaxation of one edge: a distance lowered to the length of a
      walk keeps the table sound, and lowers the total. */
  lemma RelaxDistance(g: seq<seq<int>>, start: Point, dist: seq<seq<nat>>, e: Point, c: nat)
    requires DistancesSound(g, start, dist) && InBounds(g, e)
    requires HasWalk(g, start, e, c) && c < dist[e.x][e.y]
    ensures DistancesSound(g, start, Updated(dist, e.x, e.y, c))
    ensures Total(Updated(dist, e.x, e.y, c)) < Total(dist)
  {
    var u := Updated(dist, e.x, e.y, c);
    assert e != start;
    forall x, y | 0 <= x < Cols(g) && 0 <= y < Rows(g) && u[x][y] < Infinity
      ensures HasWalk(g, start, Point(x, y), u[x][y])
    {
      if x != e.x || y != e.y {
        assert u[x][y] == dist[x][y];
      }
    }
    TotalDecrease(dist, e.x, e.y, c);
  }

  /** A state queued with the length of a walk keeps the queue sound. */
  lemma RelaxQueue(g: seq<seq<int>>, start: Point, heap: seq<State>, next: State)
    requires QueueSound(g, start, heap)
    requires InBounds(g, next.position) && next.cost < Infinity && HasWalk(g, start, next.position, next.cost)
    ensures QueueSound(g, start, heap + [next])
  {
    forall k | 0 <= k < |heap| + 1
      ensures InBounds(g, (heap + [next])[k].position) && (heap + [next])[k].cost < Infinity &&
        HasWalk(g, start, (heap + [next])[k].position, (heap + [next])[k].cost)
    {
      if k < |heap| {
        assert (heap + [next])[k] == heap[k];
      }
    }
  }

  /** A popped state leaves the rest of the queue sound. */
  lemma PopQueue(g: seq<seq<int>>, start: Point, heap: seq<State>, i: nat)
    requires QueueSound(g, start, heap) && i < |heap|
    ensures QueueSound(g, start, heap[..i] + heap[i + 1..])
  {
    var rest := heap[..i] + heap[i + 1..];
    forall k | 0 <= k < |rest|
      ensures InBounds(g, rest[k].position) && rest[k].cost < Infinity && HasWalk(g, start, rest[k].position, rest[k].cost)
    {
      if k < i {
        assert rest[k] == heap[k];
      } else {
        assert rest[k] == heap[k + 1];
      }
    }
  }

  /** Every step from `u` leads to a point whose distance is at most one
      more than that of `u`. */
  ghost predicate Closed(g: seq<seq<int>>, dist: seq<seq<nat>>, u: Point)
    requires IsMatrix(g) && IsTable(dist, Cols(g), Rows(g)) && InBounds(g, u)
  {
    forall v :: IsStep(g, u, v) ==> dist[v.x][v.y] <= dist[u.x][u.y] + 1
  }

  /** A point whose steps are relaxed, or that is still queued at its
      distance. */
  ghost predicate Settled(g: seq<seq<int>>, dist: seq<seq<nat>>, heap: seq<State>, u: Point)
    requires IsMatrix(g) && IsTable(dist, Cols(g), Rows(g)) && InBounds(g, u)
  {
    Closed(g, dist, u) || State(dist[u.x][u.y], u) in heap
  }

  /** Dijkstra's frontier: every reached point other than `except` is
      settled. */
  ghost predicate FrontierBut(g: seq<seq<int>>, dist: seq<seq<nat>>, heap: seq<State>, except: Option<Point>)
    requires IsMatrix(g) && IsTable(dist, Cols(g), Rows(g))
  {
    forall w :: InBounds(g, w) && dist[w.x][w.y] < Infinity && Some(w) != except ==> Settled(g, dist, heap, w)
  }

  /** No queued cost is below the distance of its point. */
  ghost predicate QueueAbove(g: seq<seq<int>>, dist: seq<seq<nat>>, heap: seq<State>)
    requires IsMatrix(g) && IsTable(dist, Cols(g), Rows(g))
  {
    forall k :: 0 <= k < |heap| && InBounds(g, heap[k].position) ==>
      dist[heap[k].position.x][heap[k].position.y] <= heap[k].cost
  }

  /** Along a walk from the start, each point's distance is at most its
      place in the walk, unless some queued cost is lower than the last
      place: the frontier stands between the start and any point whose
      distance is too high. */
  lemma {:induction false} WalkBound(g: seq<seq<int>>, start: Point, dist: seq<seq<nat>>, heap: seq<State>, w: seq<Point>)
    requires DistancesSound(g, start, dist) && FrontierBut(g, dist, heap, None)
    requires IsWalk(g, w) && w[0] == start && InBounds(g, w[|w| - 1])
    ensures dist[w[|w| - 1].x][w[|w| - 1].y] <= |w| - 1 || exists k :: 0 <= k < |heap| && heap[k].cost < |w| - 1
    decreases |w|
  {
    if |w| > 1 {
      var front := w[..|w| - 1];
      assert IsWalk(g, front) by {
        forall i | 0 <= i < |front| - 1 ensures IsStep(g, front[i], front[i + 1]) {
          assert IsStep(g, w[i], w[i + 1]);
        }
      }
      var p, q := w[|w| - 2], w[|w| - 1];
      assert front[|front| - 1] == p;
      assert IsStep(g, p, q);
      WalkBound(g, start, dist, heap, front);
      var m := |w| - 2;
      if dist[p.x][p.y] <= m && dist[p.x][p.y] < Infinity && !Closed(g, dist, p) {
        assert Settled(g, dist, heap, p);
        var k :| 0 <= k < |heap| && heap[k] == State(dist[p.x][p.y], p);
        assert heap[k].cost < |w| - 1;
      }
    }
  }

  /** No walk from the start to `p` is shorter than the distance of `p`. */
  ghost predicate Shortest(g: seq<seq<int>>, start: Point, dist: seq<seq<nat>>, p: Point)
    requires IsMatrix(g) && IsTable(dist, Cols(g), Rows(g)) && InBounds(g, p)
  {
    forall n: nat :: HasWalk(g, start, p, n) ==> dist[p.x][p.y] <= n
  }

  /** The point taken from the queue is a cheapest one, so with the frontier
      in place its distance is no longer than any walk to it. */
  lemma PoppedShortest(g: seq<seq<int>>, start: Point, dist: seq<seq<nat>>, heap: seq<State>, i: nat)
    requires DistancesSound(g, start, dist) && QueueSound(g, start, heap)
    requires FrontierBut(g, dist, heap, None) && QueueAbove(g, dist, heap)
    requires i < |heap| && forall k :: 0 <= k < |heap| ==> !StateGreater(heap[k], heap[i])
    ensures InBounds(g, heap[i].position) && Shortest(g, start, dist, heap[i].position)
  {
    var p := heap[i].position;
    forall n: nat | HasWalk(g, start, p, n) ensures dist[p.x][p.y] <= n {
      var w :| IsWalk(g, w) && |w| == n + 1 && w[0] == start && w[n] == p;
      WalkBound(g, start, dist, heap, w);
    }
  }

  /** With nothing queued, every reached point is closed, so no walk is
      shorter than any distance. */
  lemma AllShortest(g: seq<seq<int>>, start: Point, dist: seq<seq<nat>>)
    requires DistancesSound(g, start, dist) && FrontierBut(g, dist, [], None)
    ensures forall p :: InBounds(g, p) ==> Shortest(g, start, dist, p)
  {
    forall p, n: nat | InBounds(g, p) && HasWalk(g, start, p, n) ensures dist[p.x][p.y] <= n {
      var w :| IsWalk(g, w) && |w| == n + 1 && w[0] == start && w[n] == p;
      WalkBound(g, start, dist, [], w);
    }
  }

  /** Taking entry `i` off the queue keeps every point settled except,
      possibly, the taken point when its cost is its distance. */
  lemma PopFrontier(g: seq<seq<int>>, dist: seq<seq<nat>>, heap: seq<State>, i: nat)
    requires IsMatrix(g) && IsTable(dist, Cols(g), Rows(g)) && i < |heap|
    requires FrontierBut(g, dist, heap, None) && QueueAbove(g, dist, heap)
    ensures QueueAbove(g, dist, heap[..i] + heap[i + 1..])
    ensures FrontierBut(g, dist, heap[..i] + heap[i + 1..], Some(heap[i].position))
    ensures InBounds(g, heap[i].position) && heap[i].cost != dist[heap[i].position.x][heap[i].position.y] ==>
      FrontierBut(g, dist, heap[..i] + heap[i + 1..], None)
  {
    var rest := heap[..i] + heap[i + 1..];
    assert forall k :: 0 <= k < |rest| ==> rest[k] == if k < i then heap[k] else heap[k + 1];
    forall w | InBounds(g, w) && dist[w.x][w.y] < Infinity && State(dist[w.x][w.y], w) in heap && State(dist[w.x][w.y], w) != heap[i]
      ensures State(dist[w.x][w.y], w) in rest
    {
      var k :| 0 <= k < |heap| && heap[k] == State(dist[w.x][w.y], w);
      assert k != i;
      if k < i {
        assert rest[k] == heap[k];
      } else {
        assert rest[k - 1] == heap[k];
      }
    }
  }

  /** Lowering the distance of `e` and queueing it keeps the frontier and
      the queue above the distances. */
  lemma RelaxFrontier(g: seq<seq<int>>, dist: seq<seq<nat>>, heap: seq<State>, u: Point, e: Point, c: nat)
    requires IsMatrix(g) && IsTable(dist, Cols(g), Rows(g)) && InBounds(g, e) && InBounds(g, u) && e != u
    requires FrontierBut(g, dist, heap, Some(u)) && QueueAbove(g, dist, heap)
    requires c < dist[e.x][e.y]
    ensures IsTable(Updated(dist, e.x, e.y, c), Cols(g), Rows(g))
    ensures FrontierBut(g, Updated(dist, e.x, e.y, c), heap + [State(c, e)], Some(u))
    ensures QueueAbove(g, Updated(dist, e.x, e.y, c), heap + [State(c, e)])
    ensures Updated(dist, e.x, e.y, c)[u.x][u.y] == dist[u.x][u.y]
  {
    var d := Updated(dist, e.x, e.y, c);
    var h := heap + [State(c, e)];
    assert forall x, y :: 0 <= x < Cols(g) && 0 <= y < Rows(g) ==> d[x][y] <= dist[x][y];
    assert forall k :: 0 <= k < |heap| ==> h[k] == heap[k];
    forall w | InBounds(g, w) && d[w.x][w.y] < Infinity && Some(w) != Some(u) ensures Settled(g, d, h, w) {
      if w == e {
        assert h[|heap|] == State(d[w.x][w.y], w);
      } else {
        assert d[w.x][w.y] == dist[w.x][w.y];
        assert Settled(g, dist, heap, w);
        if Closed(g, dist, w) {
          forall v | IsStep(g, w, v) ensures d[v.x][v.y] <= d[w.x][w.y] + 1 {
          }
        } else {
          var k :| 0 <= k < |heap| && heap[k] == State(dist[w.x][w.y], w);
          assert h[k] == heap[k];
        }
      }
    }
  }

  /** The steps `edges[..j]` have distance at most `c + 1`. */
  ghost predicate Handled(g: seq<seq<int>>, dist: seq<seq<nat>>, edges: seq<Point>, j: nat, c: nat) {
    IsMatrix(g) && IsTable(dist, Cols(g), Rows(g)) && j <= |edges| &&
    forall k :: 0 <= k < j ==> InBounds(g, edges[k]) && dist[edges[k].x][edges[k].y] <= c + 1
  }

  /** What one pass of the inner loop of `dijkstras` keeps: the tables stay
      sound, the frontier holds except at the popped point `u`, whose
      distance `c` is unchanged, and the steps `edges[..j]` already handled
      have distance at most `c + 1`. */
  ghost predicate RelaxInv(g: seq<seq<int>>, start: Point, dist: seq<seq<nat>>, heap: seq<State>, u: Point, c: nat,
                           edges: seq<Point>, j: nat)
  {
    DistancesSound(g, start, dist) && QueueSound(g, start, heap) && InBounds(g, u) &&
    FrontierBut(g, dist, heap, Some(u)) && QueueAbove(g, dist, heap) && dist[u.x][u.y] == c &&
    (forall e :: e in edges ==> IsStep(g, u, e)) && Handled(g, dist, edges, j, c)
  }

  /** A step whose distance is already at most `c + 1` is handled as it
      stands. */
  lemma RelaxSkip(g: seq<seq<int>>, start: Point, dist: seq<seq<nat>>, heap: seq<State>, u: Point, c: nat,
                  edges: seq<Point>, j: nat)
    requires RelaxInv(g, start, dist, heap, u, c, edges, j) && j < |edges|
    requires edges[j] in edges ==> dist[edges[j].x][edges[j].y] <= c + 1
    ensures RelaxInv(g, start, dist, heap, u, c, edges, j + 1)
  {
    assert edges[j] in edges;
  }

  /** Lowering the distance of `e` keeps the handled steps handled. */
  lemma LowerHandled(g: seq<seq<int>>, dist: seq<seq<nat>>, edges: seq<Point>, j: nat, c: nat)
    requires Handled(g, dist, edges, j, c) && j < |edges| && InBounds(g, edges[j])
    requires c + 1 < dist[edges[j].x][edges[j].y]
    ensures Handled(g, Updated(dist, edges[j].x, edges[j].y, c + 1), edges, j + 1, c)
  {
    var e := edges[j];
    var d := Updated(dist, e.x, e.y, c + 1);
    forall k | 0 <= k < j + 1 ensures InBounds(g, edges[k]) && d[edges[k].x][edges[k].y] <= c + 1 {
      if k < j {
        assert d[edges[k].x][edges[k].y] <= dist[edges[k].x][edges[k].y];
      }
    }
  }

  /** A step relaxed to `c + 1` and queued: everything the inner loop keeps
      holds one step further, and the total distance goes down. */
  lemma RelaxStep(g: seq<seq<int>>, start: Point, dist: seq<seq<nat>>, heap: seq<State>, u: Point, c: nat,
                  e: Point, edges: seq<Point>, j: nat)
    requires DistancesSound(g, start, dist) && QueueSound(g, start, heap) && InBounds(g, u)
    requires FrontierBut(g, dist, heap, Some(u)) && QueueAbove(g, dist, heap) && dist[u.x][u.y] == c
    requires Handled(g, dist, edges, j, c) && j < |edges| && e == edges[j] && IsStep(g, u, e)
    requires c < Infinity && HasWalk(g, start, u, c) && c + 1 < dist[e.x][e.y]
    ensures DistancesSound(g, start, Updated(dist, e.x, e.y, c + 1))
    ensures Total(Updated(dist, e.x, e.y, c + 1)) < Total(dist)
    ensures QueueSound(g, start, heap + [State(c + 1, e)])
    ensures FrontierBut(g, Updated(dist, e.x, e.y, c + 1), heap + [State(c + 1, e)], Some(u))
    ensures QueueAbove(g, Updated(dist, e.x, e.y, c + 1), heap + [State(c + 1, e)])
    ensures Updated(dist, e.x, e.y, c + 1)[u.x][u.y] == c
    ensures Handled(g, Updated(dist, e.x, e.y, c + 1), edges, j + 1, c)
  {
    WalkExtend(g, start, u, e, c);
    RelaxDistance(g, start, dist, e, c + 1);
    RelaxQueue(g, start, heap, State(c + 1, e));
    RelaxFrontier(g, dist, heap, u, e, c + 1);
    LowerHandled(g, dist, edges, j, c);
  }

  /** The inner loop of `dijkstras`: each step from the popped state, at
      one more than its cost, replaces a higher distance and is queued.
      Afterwards every step from the popped point is at most one more than
      its distance, so the frontier holds everywhere. */
  method RelaxEdges(g: seq<seq<int>>, start: Point, dist: seq<seq<nat>>, heap: seq<State>, state: State, edges: seq<Point>)
    returns (dist': seq<seq<nat>>, heap': seq<State>)
    requires DistancesSound(g, start, dist) && QueueSound(g, start, heap)
    requires state.cost < Infinity && HasWalk(g, start, state.position, state.cost)
    requires forall e :: e in edges <==> IsStep(g, state.position, e)
    requires InBounds(g, state.position) && dist[state.position.x][state.position.y] == state.cost
    requires FrontierBut(g, dist, heap, Some(state.position)) && QueueAbove(g, dist, heap)
    ensures DistancesSound(g, start, dist') && QueueSound(g, start, heap')
    ensures FrontierBut(g, dist', heap', None) && QueueAbove(g, dist', heap')
    ensures Total(dist') <= Total(dist)
    ensures |heap'| == |heap| || Total(dist') < Total(dist)
  {
    var u, c := state.position, state.cost;
    dist', heap' := dist, heap;
    for j := 0 to |edges|
      invariant RelaxInv(g, start, dist', heap', u, c, edges, j)
      invariant Total(dist') <= Total(dist)
      invariant |heap'| == |heap| || Total(dist') < Total(dist)
    {
      dist', heap' := RelaxEdge(g, start, dist', heap', state, edges, j);
    }
    assert Settled(g, dist', heap', u) by {
      forall v | IsStep(g, u, v) ensures dist'[v.x][v.y] <= dist'[u.x][u.y] + 1 {
        var k :| 0 <= k < |edges| && edges[k] == v;
      }
    }
  }

  /** One pass of the inner loop of `dijkstras`: the step `edges[j]` at
      cost `c + 1`. */
  method RelaxEdge(g: seq<seq<int>>, start: Point, dist: seq<seq<nat>>, heap: seq<State>, state: State,
                   edges: seq<Point>, j: nat)
    returns (dist': seq<seq<nat>>, heap': seq<State>)
    requires RelaxInv(g, start, dist, heap, state.position, state.cost, edges, j) && j < |edges|
    requires state.cost < Infinity && HasWalk(g, start, state.position, state.cost)
    ensures RelaxInv(g, start, dist', heap', state.position, state.cost, edges, j + 1)
    ensures Total(dist') <= Total(dist)
    ensures |heap'| == |heap| || Total(dist') < Total(dist)
  {
    var edge := edges[j];
    assert edge in edges && InBounds(g, edge);
    var next := State(state.cost + 1, edge);
    if next.cost < dist[next.position.x][next.position.y] {
      RelaxStep(g, start, dist, heap, state.position, state.cost, edge, edges, j);
      heap' := heap + [next];
      dist' := Updated(dist, edge.x, edge.y, next.cost);
    } else {
      RelaxSkip(g, start, dist, heap, state.position, state.cost, edges, j);
      dist', heap' := dist, heap;
    }
  }

  /** `heap.pop()`: the greatest state by the reversed cost order, that
      is a cheapest one, comes off the queue; its point's distance is
      already a shortest one, and every point stays settled except,
      possibly, the popped one. */
  method Pop(g: seq<seq<int>>, start: Point, dist: seq<seq<nat>>, heap: seq<State>) returns (state: State, rest: seq<State>)
    requires heap != [] && DistancesSound(g, start, dist) && QueueSound(g, start, heap)
    requires FrontierBut(g, dist, heap, None) && QueueAbove(g, dist, heap)
    ensures multiset(rest) + multiset{state} == multiset(heap) && |rest| == |heap| - 1
    ensures forall k :: 0 <= k < |heap| ==> !StateGreater(heap[k], state)
    ensures InBounds(g, state.position) && Shortest(g, start, dist, state.position)
    ensures dist[state.position.x][state.position.y] <= state.cost < Infinity
    ensures HasWalk(g, start, state.position, state.cost)
    ensures QueueSound(g, start, rest) && QueueAbove(g, dist, rest)
    ensures FrontierBut(g, dist, rest, Some(state.position))
    ensures state.cost != dist[state.position.x][state.position.y] ==> FrontierBut(g, dist, rest, None)
  {
    var i := GreatestIndex(heap);
    state := heap[i];
    PoppedShortest(g, start, dist, heap, i);
    PopQueue(g, start, heap, i);
    PopFrontier(g, dist, heap, i);
    rest := heap[..i] + heap[i + 1..];
    TakenOut(heap, i);
  }

  /** Taking entry `i` out of a list leaves the rest of its multiset. */
  lemma TakenOut<T>(s: seq<T>, i: nat)
    requires i < |s|
    ensures multiset(s[..i] + s[i + 1..]) + multiset{s[i]} == multiset(s)
  {
    assert s == s[..i] + [s[i]] + s[i + 1..];
  }

  /** Before the first pop only the start is reached, at distance 0, and
      its state is the one queued. */
  lemma StartSettled(g: seq<seq<int>>, start: Point)
    requires IsMatrix(g) && InBounds(g, start)
    ensures var dist := Updated(Unreached(Cols(g), Rows(g)), start.x, start.y, 0);
      DistancesSound(g, start, dist) && QueueSound(g, start, [State(0, start)]) &&
      FrontierBut(g, dist, [State(0, start)], None) && QueueAbove(g, dist, [State(0, start)])
  {
    var dist := Updated(Unreached(Cols(g), Rows(g)), start.x, start.y, 0);
    WalkStart(g, start);
    assert State(dist[start.x][start.y], start) == [State(0, start)][0];
  }

  /** `dijkstras`: from the start at distance 0 and every other point at
      `u32::MAX`, pops the cheapest state, skips it if a cheaper one has
      already been found, and relaxes its steps at unit cost; when `end` is
      given it stops as soon as that point is popped. A start outside the
      map panics, here None. Every distance it reports is at most
      `u32::MAX`, every finite one is the length of a walk, and no walk is
      shorter: for every point when there is no `end`, and for `end` when
      there is one. */
  method Dijkstras(g: seq<seq<int>>, start: Point, end: Option<Point>) returns (r: Option<seq<seq<nat>>>)
    requires IsMatrix(g)
    ensures r.None? <==> !InBounds(g, start)
    ensures r.Some? ==> DistancesSound(g, start, r.value)
    ensures r.Some? ==> forall p :: InBounds(g, p) && (end.None? || end == Some(p)) ==> Shortest(g, start, r.value, p)
  {
    if !InBounds(g, start) {
      return None;
    }
    var dist := GetAllPoints(Cols(g), Rows(g));
    dist := Updated(dist, start.x, start.y, 0);
    var heap := [State(0, start)];
    StartSettled(g, start);
    while heap != []
      invariant DistancesSound(g, start, dist)
      invariant QueueSound(g, start, heap)
      invariant FrontierBut(g, dist, heap, None) && QueueAbove(g, dist, heap)
      decreases Total(dist), |heap|
    {
      var state, rest := Pop(g, start, dist, heap);
      if end.Some? && state.position == end.value {
        return Some(dist);
      }
      heap := rest;
      var position := state.position;
      if state.cost > dist[position.x][position.y] {
        continue;
      }
      var edges := GetNextSteps(g, position);
      NextStepsAreSteps(g, position);
      dist, heap := RelaxEdges(g, start, dist, heap, state, edges);
    }
    AllShortest(g, start, dist);
    return Some(dist);
  }

  // ---------------------------------------------------------------------
  // The two answers
  // ---------------------------------------------------------------------

  /** `find_shortest_path`: the distance of the end in a search from the
      start that stops at the end; None when the end is outside the map
      (and where the search panics). The answer is the length of a shortest
      walk from the start to the end, or `u32::MAX` when no walk is shorter
      than that. */
  method FindShortestPath(h: HeightMap) returns (r: Option<nat>)
    requires IsMatrix(h.elevations)
    ensures r.Some? <==> InBounds(h.elevations, h.start) && InBounds(h.elevations, h.end)
    ensures r.Some? ==> r.value <= Infinity
    ensures r.Some? && r.value < Infinity ==> HasWalk(h.elevations, h.start, h.end, r.value)
    ensures r.Some? ==> forall n: nat :: HasWalk(h.elevations, h.start, h.end, n) ==> r.value <= n
  {
    var dist := Dijkstras(h.elevations, h.start, Some(h.end));
    if dist.None? || !InBounds(h.elevations, h.end) {
      return None;
    }
    assert Shortest(h.elevations, h.start, dist.value, h.end);
    return Some(dist.value[h.end.x][h.end.y]);
  }

  /** The points of column x from row y on whose elevation is 1, in row
      order. */
  function StartColumn(g: seq<seq<int>>, x: nat, y: nat): seq<Point>
    requires IsMatrix(g) && x < Cols(g) && y <= Rows(g)
    decreases Rows(g) - y
  {
    if y == Rows(g) then []
    else (if g[y][x] == 1 then [Point(x, y)] else []) + StartColumn(g, x, y + 1)
  }

  /** The points of columns x on whose elevation is 1, column by column. */
  function StartPointsFrom(g: seq<seq<int>>, x: nat): seq<Point>
    requires IsMatrix(g) && x <= Cols(g)
    decreases Cols(g) - x
  {
    if x == Cols(g) then [] else StartColumn(g, x, 0) + StartPointsFrom(g, x + 1)
  }

  lemma {:induction false} StartColumnMembers(g: seq<seq<int>>, x: nat, y: nat)
    requires IsMatrix(g) && x < Cols(g) && y <= Rows(g)
    ensures forall p :: p in StartColumn(g, x, y) <==> p.x == x && y <= p.y < Rows(g) && g[p.y][x] == 1
    decreases Rows(g) - y
  {
    if y < Rows(g) {
      StartColumnMembers(g, x, y + 1);
    }
  }

  lemma {:induction false} StartPointsMembers(g: seq<seq<int>>, x: nat)
    requires IsMatrix(g) && x <= Cols(g)
    ensures forall p :: p in StartPointsFrom(g, x) <==> x <= p.x && InBounds(g, p) && At(g, p) == 1
    decreases Cols(g) - x
  {
    if x < Cols(g) {
      StartColumnMembers(g, x, 0);
      StartPointsMembers(g, x + 1);
    }
  }

  /** `get_start_points`: the points of elevation 1 ('b'), exactly. */
  lemma StartPoints(g: seq<seq<int>>)
    requires IsMatrix(g)
    ensures forall p :: p in StartPointsFrom(g, 0) <==> InBounds(g, p) && At(g, p) == 1
  {
    StartPointsMembers(g, 0);
  }

  /** `get_start_points`: the nested loops over the columns and, within
      each, the rows. */
  method GetStartPoints(g: seq<seq<int>>) returns (points: seq<Point>)
    requires IsMatrix(g)
    ensures points == StartPointsFrom(g, 0)
  {
    points := [];
    var x := Cols(g);
    while x > 0
      invariant 0 <= x <= Cols(g)
      invariant points == StartPointsFrom(g, x)
    {
      x := x - 1;
      var column := [];
      var y := Rows(g);
      while y > 0
        invariant 0 <= y <= Rows(g)
        invariant column == StartColumn(g, x, y)
      {
        y := y - 1;
        if g[y][x] == 1 {
          column := [Point(x, y)] + column;
        }
      }
      points := column + points;
    }
  }

  /** A finite distance of the search on the negated map is the length of
      a walk up to its start. */
  lemma NegatedDistance(g: seq<seq<int>>, end: Point, destinations: seq<seq<nat>>, p: Point)
    requires IsMatrix(g) && DistancesSound(Negate(g), end, destinations) && InBounds(g, p)
    ensures IsTable(destinations, Cols(g), Rows(g))
    ensures destinations[p.x][p.y] < Infinity ==> HasWalk(g, p, end, destinations[p.x][p.y])
  {
    assert Cols(Negate(g)) == Cols(g) && Rows(Negate(g)) == Rows(g);
    if destinations[p.x][p.y] < Infinity {
      NegatedWalk(g, end, p, destinations[p.x][p.y]);
    }
  }

  /** The `map` and `min` of `find_single_destination_shortest_path`: one
      more than the distance of each point, and the least of these; None
      for no points, and where `u32::MAX + 1` panics. */
  method LeastDistance(g: seq<seq<int>>, end: Point, points: seq<Point>, destinations: seq<seq<nat>>) returns (r: Option<nat>)
    requires IsTable(destinations, Cols(g), Rows(g))
    requires forall k :: 0 <= k < |points| ==>
      InBounds(g, points[k]) && destinations[points[k].x][points[k].y] <= Infinity &&
      (destinations[points[k].x][points[k].y] < Infinity ==> HasWalk(g, points[k], end, destinations[points[k].x][points[k].y]))
    ensures r.None? <==>
      points == [] || exists k :: 0 <= k < |points| && InBounds(g, points[k]) && destinations[points[k].x][points[k].y] == Infinity
    ensures r.Some? ==> r.value >= 1 && exists k :: 0 <= k < |points| && HasWalk(g, points[k], end, r.value - 1)
    ensures r.Some? ==> forall k :: 0 <= k < |points| && InBounds(g, points[k]) ==>
      r.value <= destinations[points[k].x][points[k].y] + 1
  {
    r := None;
    ghost var best := 0;
    for i := 0 to |points|
      invariant r.None? <==> i == 0
      invariant r.Some? ==> best < i && r.value == destinations[points[best].x][points[best].y] + 1
      invariant forall k :: 0 <= k < i ==> destinations[points[k].x][points[k].y] < Infinity
      invariant r.Some? ==> forall k :: 0 <= k < i ==> r.value <= destinations[points[k].x][points[k].y] + 1
    {
      var point := points[i];
      var d := destinations[point.x][point.y];
      if d == Infinity {
        return None;
      }
      if r.None? || d + 1 < r.value {
        r := Some(d + 1);
        best := i;
      }
    }
  }

  /** `find_single_destination_shortest_path`: a search on the negated map
      from the end, without a stop, then the least of one more than the
      distance of each point of elevation 1. None where there is no such
      point, and where the source panics (the end outside the map, or a
      point the search never reached). The answer is one more than the
      length of a walk up from a point of elevation 1 to the end, and no
      walk from any such point is shorter. */
  method FindSingleDestinationShortestPath(h: HeightMap) returns (r: Option<nat>)
    requires IsMatrix(h.elevations)
    ensures r.Some? ==> r.value >= 1 && exists p :: p in StartPointsFrom(h.elevations, 0) && HasWalk(h.elevations, p, h.end, r.value - 1)
    ensures r.Some? ==> forall p, n: nat :: p in StartPointsFrom(h.elevations, 0) && HasWalk(h.elevations, p, h.end, n) ==>
      r.value <= n + 1
  {
    var g := h.elevations;
    var startPoints := GetStartPoints(g);
    StartPoints(g);
    var negated := Negate(g);
    NegatedStep(g, h.end, h.end);
    var found := Dijkstras(negated, h.end, None);
    if found.None? {
      return None;
    }
    forall k | 0 <= k < |startPoints|
      ensures InBounds(g, startPoints[k]) && found.value[startPoints[k].x][startPoints[k].y] <= Infinity &&
        (found.value[startPoints[k].x][startPoints[k].y] < Infinity ==>
          HasWalk(g, startPoints[k], h.end, found.value[startPoints[k].x][startPoints[k].y]))
    {
      assert startPoints[k] in startPoints;
      NegatedDistance(g, h.end, found.value, startPoints[k]);
    }
    r := LeastDistance(g, h.end, startPoints, found.value);
    if r.Some? {
      ghost var k :| 0 <= k < |startPoints| && HasWalk(g, startPoints[k], h.end, r.value - 1);
      assert startPoints[k] in startPoints;
    }
    forall p, n: nat | p in startPoints && HasWalk(g, p, h.end, n) && r.Some? ensures r.value <= n + 1 {
      var k :| 0 <= k < |startPoints| && startPoints[k] == p;
      ReversedWalk(g, p, h.end, n);
      assert Cols(negated) == Cols(g) && Rows(negated) == Rows(g);
      assert Shortest(negated, h.end, found.value, p);
    }
  }
}
