// Day 16: opening pressure valves.  Shortest tunnel distances come from a
// Dijkstra run per valve; a depth-first search over bitmask states records,
// for every set of opened valves, the most pressure any opening order
// releases; the elephant variant pairs two disjoint sets.
module Day16 {
  import opened Common

  type Valve = string
  type Tunnels = map<Valve, seq<Valve>>

  /** `u32::MAX`, the distance of a valve not (yet) reached. */
  const Infinity: nat := 0xFFFF_FFFF

  datatype QueueItem = QueueItem(valve: Valve, priority: nat)

  /** Every tunnel leads to a valve that has its own tunnel list. */
  predicate Closed(tunnels: Tunnels) {
    forall u, v :: u in tunnels && v in tunnels[u] ==> v in tunnels
  }

  // ---------------------------------------------------------------------
  // What a finished distance table promises

  /** `u` has been expanded: no tunnel out of it can shorten a distance. */
  ghost predicate Relaxed(tunnels: Tunnels, dist: map<Valve, nat>, u: Valve)
    requires u in dist
  {
    u in tunnels && forall v :: v in tunnels[u] ==> v in dist && dist[v] <= dist[u] + 1
  }

  /** `v` is reached through a tunnel from a valve at most one step closer. */
  ghost predicate HasPredecessor(tunnels: Tunnels, dist: map<Valve, nat>, v: Valve)
    requires v in dist
  {
    exists u :: u in tunnels && v in tunnels[u] && u in dist && dist[u] + 1 <= dist[v]
  }

  /** `v` is reached through a tunnel from a valve exactly one step closer. */
  ghost predicate HasParent(tunnels: Tunnels, dist: map<Valve, nat>, v: Valve)
    requires v in dist
  {
    exists u :: u in tunnels && v in tunnels[u] && u in dist && dist[u] + 1 == dist[v]
  }

  predicate Bounded(dist: map<Valve, nat>) {
    forall v :: v in dist ==> dist[v] <= Infinity
  }

  /** The result of `dijkstra`: keys are the source and every tunnel key, the
    * source is at 0, every finite distance is relaxed and has a parent. */
  ghost predicate ShortestDistances(tunnels: Tunnels, source: Valve, dist: map<Valve, nat>) {
    && dist.Keys == tunnels.Keys + {source}
    && dist[source] == 0
    && Bounded(dist)
    && (forall u :: u in dist && dist[u] < Infinity ==> Relaxed(tunnels, dist, u))
    && (forall v :: v in dist && v != source && dist[v] < Infinity ==> HasParent(tunnels, dist, v))
  }

  // ---------------------------------------------------------------------
  // Paths through the tunnels

  predicate Step(tunnels: Tunnels, p: seq<Valve>, i: nat)
    requires i + 1 < |p|
  {
    p[i] in tunnels && p[i + 1] in tunnels[p[i]]
  }

  predicate IsPath(tunnels: Tunnels, p: seq<Valve>) {
    |p| > 0 && forall i :: 0 <= i < |p| - 1 ==> Step(tunnels, p, i)
  }

  /** No path shorter than `dist[v]` leads from the source to `v`. */
  lemma {:induction false} PathBound(tunnels: Tunnels, source: Valve, dist: map<Valve, nat>, p: seq<Valve>)
    requires ShortestDistances(tunnels, source, dist)
    requires IsPath(tunnels, p) && p[0] == source && |p| <= Infinity
    ensures p[|p| - 1] in dist && dist[p[|p| - 1]] <= |p| - 1
  {
    if |p| > 1 {
      var q := p[..|p| - 1];
      assert IsPath(tunnels, q) by {
        forall i | 0 <= i < |q| - 1 ensures Step(tunnels, q, i) {
          assert Step(tunnels, p, i);
        }
      }
      PathBound(tunnels, source, dist, q);
      assert Step(tunnels, p, |p| - 2);
      assert Relaxed(tunnels, dist, q[|q| - 1]);
    }
  }

  /** Every finite distance is the length of some path from the source. */
  lemma {:induction false} PathToValve(tunnels: Tunnels, source: Valve, dist: map<Valve, nat>, v: Valve)
      returns (p: seq<Valve>)
    requires ShortestDistances(tunnels, source, dist)
    requires v in dist && dist[v] < Infinity
    ensures IsPath(tunnels, p) && p[0] == source && p[|p| - 1] == v && |p| == dist[v] + 1
    decreases dist[v]
  {
    if v == source {
      p := [source];
    } else {
      var u := Parent(tunnels, source, dist, v);
      var q := PathToValve(tunnels, source, dist, u);
      p := ExtendPath(tunnels, q, v);
    }
  }

  lemma Parent(tunnels: Tunnels, source: Valve, dist: map<Valve, nat>, v: Valve) returns (u: Valve)
    requires ShortestDistances(tunnels, source, dist)
    requires v in dist && v != source && dist[v] < Infinity
    ensures u in tunnels && v in tunnels[u] && u in dist && dist[u] + 1 == dist[v]
  {
    assert HasParent(tunnels, dist, v);
    u :| u in tunnels && v in tunnels[u] && u in dist && dist[u] + 1 == dist[v];
  }

  lemma ExtendPath(tunnels: Tunnels, q: seq<Valve>, v: Valve) returns (p: seq<Valve>)
    requires IsPath(tunnels, q) && q[|q| - 1] in tunnels && v in tunnels[q[|q| - 1]]
    ensures p == q + [v] && IsPath(tunnels, p)
  {
    p := q + [v];
    forall i | 0 <= i < |p| - 1 ensures Step(tunnels, p, i) {
      if i < |q| - 1 {
        assert Step(tunnels, q, i);
      }
    }
  }

  /** The table is determined: `dist[v]` is the length of a shortest path, and
    * `Infinity` exactly when no path reaches `v`. */
  lemma ShortestDistancesUnique(tunnels: Tunnels, source: Valve, d1: map<Valve, nat>, d2: map<Valve, nat>)
    requires ShortestDistances(tunnels, source, d1) && ShortestDistances(tunnels, source, d2)
    ensures d1 == d2
  {
    forall v | v in d1 ensures d1[v] == d2[v] {
      if d1[v] < Infinity {
        var p := PathToValve(tunnels, source, d1, v);
        PathBound(tunnels, source, d2, p);
      }
      if d2[v] < Infinity {
        var p := PathToValve(tunnels, source, d2, v);
        PathBound(tunnels, source, d1, p);
      }
    }
  }

  // ---------------------------------------------------------------------
  // The search

  /** The sum of the distances of `keys`, which falls with every improvement. */
  function Potential(dist: map<Valve, nat>, keys: seq<Valve>): nat
    requires forall k :: k in keys ==> k in dist
  {
    if keys == [] then 0 else dist[keys[0]] + Potential(dist, keys[1..])
  }

  lemma {:induction false} PotentialFalls(dist: map<Valve, nat>, keys: seq<Valve>, v: Valve, a: nat)
    requires forall k :: k in keys ==> k in dist
    requires v in dist && a < dist[v]
    ensures Potential(dist[v := a], keys) <= Potential(dist, keys)
    ensures v in keys ==> Potential(dist[v := a], keys) < Potential(dist, keys)
  {
    if keys != [] {
      PotentialFalls(dist, keys[1..], v, a);
    }
  }

  /** The first item of least priority: the one `BinaryHeap<Reverse<_>>` pops. */
  function MinIndex(heap: seq<QueueItem>): (m: nat)
    requires |heap| > 0
    ensures m < |heap|
    ensures forall k :: 0 <= k < |heap| ==> heap[m].priority <= heap[k].priority
  {
    if |heap| == 1 then 0
    else
      var m := MinIndex(heap[1..]);
      if heap[0].priority <= heap[1..][m].priority then 0 else m + 1
  }

  predicate QueueOk(heap: seq<QueueItem>, dist: map<Valve, nat>) {
    forall k :: 0 <= k < |heap| ==> heap[k].valve in dist && heap[k].priority < Infinity
  }

  /** Every reached valve is still queued at its distance, or already expanded. */
  ghost predicate Settled(tunnels: Tunnels, dist: map<Valve, nat>, heap: seq<QueueItem>) {
    forall u :: u in dist && dist[u] < Infinity ==> QueueItem(u, dist[u]) in heap || Relaxed(tunnels, dist, u)
  }

  ghost predicate Traced(tunnels: Tunnels, source: Valve, dist: map<Valve, nat>) {
    forall v :: v in dist && v != source && dist[v] < Infinity ==> HasPredecessor(tunnels, dist, v)
  }

  ghost predicate SearchInvariant(tunnels: Tunnels, source: Valve, dist: map<Valve, nat>, heap: seq<QueueItem>) {
    && dist.Keys == tunnels.Keys + {source}
    && dist[source] == 0
    && Bounded(dist)
    && QueueOk(heap, dist)
    && Settled(tunnels, dist, heap)
    && Traced(tunnels, source, dist)
  }

  /** Lowering `dist[v]` to `a` keeps every other valve's predecessor. */
  lemma LowerKeepsTraced(tunnels: Tunnels, source: Valve, dist: map<Valve, nat>, u: Valve, v: Valve, a: nat)
    requires Traced(tunnels, source, dist)
    requires v in dist && a < dist[v] && v != source
    requires u in tunnels && v in tunnels[u] && u in dist && dist[u] + 1 <= a
    ensures Traced(tunnels, source, dist[v := a])
  {
    var d := dist[v := a];
    forall w | w in d && w != source && d[w] < Infinity ensures HasPredecessor(tunnels, d, w) {
      if w == v {
        assert u in tunnels && w in tunnels[u] && u in d && d[u] + 1 <= d[w];
      } else {
        assert HasPredecessor(tunnels, dist, w);
        var x :| x in tunnels && w in tunnels[x] && x in dist && dist[x] + 1 <= dist[w];
        assert x in tunnels && w in tunnels[x] && x in d && d[x] + 1 <= d[w];
      }
    }
  }

  /** Lowering `dist[v]` and queueing it keeps every valve settled except `u`,
    * whose expansion is under way. */
  lemma LowerKeepsSettled(tunnels: Tunnels, dist: map<Valve, nat>, heap: seq<QueueItem>, u: Valve, v: Valve, a: nat)
    requires u in dist && v in dist && a < dist[v]
    requires forall w :: w in dist && w != u && dist[w] < Infinity ==> QueueItem(w, dist[w]) in heap || Relaxed(tunnels, dist, w)
    ensures forall w :: w in dist && w != u && dist[v := a][w] < Infinity ==>
      QueueItem(w, dist[v := a][w]) in heap + [QueueItem(v, a)] || Relaxed(tunnels, dist[v := a], w)
  {
    var d := dist[v := a];
    var h := heap + [QueueItem(v, a)];
    forall w | w in d && w != u && d[w] < Infinity ensures QueueItem(w, d[w]) in h || Relaxed(tunnels, d, w) {
      if w == v {
        assert h[|heap|] == QueueItem(w, d[w]);
      } else if QueueItem(w, dist[w]) in heap {
        assert QueueItem(w, d[w]) in h;
      } else {
        assert Relaxed(tunnels, dist, w);
      }
    }
  }

  /** The table `dijkstra` starts from: the source at 0, every other tunnel
    * key at `Infinity`; `keys` lists the table's keys. */
  method InitialDistances(tunnels: Tunnels, source: Valve) returns (dist: map<Valve, nat>, keys: seq<Valve>)
    ensures dist.Keys == tunnels.Keys + {source}
    ensures dist[source] == 0
    ensures forall v :: v in dist && v != source ==> dist[v] == Infinity
    ensures forall k :: k in keys <==> k in dist
  {
    dist := map[source := 0];
    keys := [source];
    var remaining := tunnels.Keys;
    while remaining != {}
      invariant remaining <= tunnels.Keys
      invariant dist.Keys == {source} + (tunnels.Keys - remaining)
      invariant dist[source] == 0
      invariant forall v :: v in dist && v != source ==> dist[v] == Infinity
      invariant forall k :: k in keys <==> k in dist
      decreases remaining
    {
      var t :| t in remaining;
      if t != source {
        dist := dist[t := Infinity];
        keys := keys + [t];
      }
      remaining := remaining - {t};
    }
  }

  /** The distance table's own invariant; `keys` lists its keys. */
  ghost predicate TableOk(tunnels: Tunnels, source: Valve, d: map<Valve, nat>, keys: seq<Valve>) {
    && d.Keys == tunnels.Keys + {source} && d[source] == 0
    && Bounded(d) && Traced(tunnels, source, d)
    && (forall k :: k in keys <==> k in d)
  }

  /** The queue's invariant while `u` is being expanded. */
  ghost predicate QueueSettled(tunnels: Tunnels, d: map<Valve, nat>, h: seq<QueueItem>, u: Valve) {
    && QueueOk(h, d)
    && (forall w :: w in d && w != u && d[w] < Infinity ==> QueueItem(w, d[w]) in h || Relaxed(tunnels, d, w))
  }

  lemma LowerKeepsTable(tunnels: Tunnels, source: Valve, d: map<Valve, nat>, keys: seq<Valve>, u: Valve, v: Valve, a: nat)
    requires TableOk(tunnels, source, d, keys)
    requires v in d && a < d[v]
    requires u in tunnels && v in tunnels[u] && u in d && d[u] + 1 <= a
    ensures TableOk(tunnels, source, d[v := a], keys)
  {
    LowerKeepsTraced(tunnels, source, d, u, v, a);
  }

  lemma LowerKeepsQueue(tunnels: Tunnels, d: map<Valve, nat>, h: seq<QueueItem>, u: Valve, v: Valve, a: nat)
    requires QueueSettled(tunnels, d, h, u)
    requires u in d && v in d && a < d[v] && a < Infinity
    ensures QueueSettled(tunnels, d[v := a], h + [QueueItem(v, a)], u)
  {
    var nh := h + [QueueItem(v, a)];
    assert QueueOk(nh, d[v := a]) by {
      forall k | 0 <= k < |nh| ensures nh[k].valve in d[v := a] && nh[k].priority < Infinity {
        if k < |h| {
          assert nh[k] == h[k];
        }
      }
    }
    LowerKeepsSettled(tunnels, d, h, u, v, a);
  }

  /** The state of the inner loop over `u`'s neighbours, starting from
    * `dist` and `heap`: every valve but `u` settled, `u` unchanged, and the
    * potential no higher (strictly lower once anything was queued). */
  ghost predicate Relaxing(tunnels: Tunnels, source: Valve, dist: map<Valve, nat>, heap: seq<QueueItem>,
                           keys: seq<Valve>, u: Valve, d: map<Valve, nat>, h: seq<QueueItem>)
    requires forall k :: k in keys ==> k in dist
  {
    && TableOk(tunnels, source, d, keys) && QueueSettled(tunnels, d, h, u)
    && u in dist && u in d && d[u] == dist[u]
    && Potential(d, keys) <= Potential(dist, keys)
    && (|h| == |heap| || Potential(d, keys) < Potential(dist, keys))
  }

  /** One improvement through a tunnel out of `u` keeps the loop state. */
  lemma RelaxStep(tunnels: Tunnels, source: Valve, dist: map<Valve, nat>, heap: seq<QueueItem>,
                  keys: seq<Valve>, u: Valve, d: map<Valve, nat>, h: seq<QueueItem>, v: Valve, a: nat)
    requires forall k :: k in keys ==> k in dist
    requires Relaxing(tunnels, source, dist, heap, keys, u, d, h)
    requires u in tunnels && v in tunnels[u] && v in d && a == d[u] + 1 && a < d[v]
    ensures Relaxing(tunnels, source, dist, heap, keys, u, d[v := a], h + [QueueItem(v, a)])
  {
    assert v in keys && v != u;
    PotentialFalls(d, keys, v, a);
    LowerKeepsTable(tunnels, source, d, keys, u, v, a);
    LowerKeepsQueue(tunnels, d, h, u, v, a);
  }

  /** Lowering one distance keeps every upper bound on the first `j` valves. */
  lemma LowerKeepsBounds(valves: seq<Valve>, j: nat, d: map<Valve, nat>, v: Valve, a: nat, bound: nat)
    requires j < |valves| && valves[j] == v && v in d && a < d[v] && a <= bound
    requires forall k :: 0 <= k < j ==> valves[k] in d && d[valves[k]] <= bound
    ensures forall k :: 0 <= k < j + 1 ==> valves[k] in d[v := a] && d[v := a][valves[k]] <= bound
  {
  }

  /** The inner `for neighbour in &tunnels[&valve]` loop: lower each
    * neighbour's distance to `dist[u] + 1` where that is shorter, queueing it.
    * `ok` is false where `unwrap` meets a neighbour that is not a key. */
  method RelaxNeighbours(tunnels: Tunnels, source: Valve, dist: map<Valve, nat>, heap: seq<QueueItem>,
                         keys: seq<Valve>, u: Valve)
      returns (ok: bool, dist': map<Valve, nat>, heap': seq<QueueItem>)
    requires dist.Keys == tunnels.Keys + {source} && dist[source] == 0
    requires Bounded(dist) && QueueOk(heap, dist) && Traced(tunnels, source, dist)
    requires u in tunnels && u in dist && dist[u] < Infinity
    requires forall w :: w in dist && w != u && dist[w] < Infinity ==> QueueItem(w, dist[w]) in heap || Relaxed(tunnels, dist, w)
    requires forall k :: k in keys <==> k in dist
    ensures ok ==> SearchInvariant(tunnels, source, dist', heap')
    ensures ok ==> Potential(dist', keys) <= Potential(dist, keys)
    ensures ok ==> |heap'| == |heap| || Potential(dist', keys) < Potential(dist, keys)
    ensures ok ==> forall k :: k in keys <==> k in dist'
    ensures Closed(tunnels) ==> ok
  {
    dist', heap' := dist, heap;
    var neighbours := tunnels[u];
    for j := 0 to |neighbours|
      invariant Scanned(tunnels, source, dist, heap, keys, u, dist', heap', j)
    {
      ok, dist', heap' := RelaxTunnel(tunnels, source, dist, heap, keys, u, dist', heap', j);
      if !ok {
        return false, dist', heap';
      }
    }
    RelaxFinish(tunnels, source, dist, heap, keys, u, dist', heap');
    return true, dist', heap';
  }

  /** The first `j` tunnels out of `u` have been relaxed. */
  ghost predicate Scanned(tunnels: Tunnels, source: Valve, dist: map<Valve, nat>, heap: seq<QueueItem>,
                          keys: seq<Valve>, u: Valve, d: map<Valve, nat>, h: seq<QueueItem>, j: nat)
    requires forall k :: k in keys ==> k in dist
  {
    && u in tunnels && j <= |tunnels[u]|
    && Relaxing(tunnels, source, dist, heap, keys, u, d, h)
    && forall k :: 0 <= k < j ==> tunnels[u][k] in d && d[tunnels[u][k]] <= dist[u] + 1
  }

  /** One pass of the loop body: relax the `j`th tunnel out of `u`, or fail
    * where its far end is not a key. */
  method RelaxTunnel(tunnels: Tunnels, source: Valve, dist: map<Valve, nat>, heap: seq<QueueItem>,
                     keys: seq<Valve>, u: Valve, d: map<Valve, nat>, h: seq<QueueItem>, j: nat)
      returns (ok: bool, d': map<Valve, nat>, h': seq<QueueItem>)
    requires forall k :: k in keys ==> k in dist
    requires Scanned(tunnels, source, dist, heap, keys, u, d, h, j) && j < |tunnels[u]|
    ensures ok ==> Scanned(tunnels, source, dist, heap, keys, u, d', h', j + 1)
    ensures !ok ==> !Closed(tunnels)
  {
    var v := tunnels[u][j];
    if v !in d {
      return false, d, h;
    }
    var alt := d[u] + 1;
    if alt < d[v] {
      RelaxStep(tunnels, source, dist, heap, keys, u, d, h, v, alt);
      LowerKeepsBounds(tunnels[u], j, d, v, alt, dist[u] + 1);
      return true, d[v := alt], h + [QueueItem(v, alt)];
    }
    ScanKeep(tunnels, source, dist, heap, keys, u, d, h, j);
    return true, d, h;
  }

  /** A tunnel whose far end is already close enough needs no change. */
  lemma ScanKeep(tunnels: Tunnels, source: Valve, dist: map<Valve, nat>, heap: seq<QueueItem>,
                 keys: seq<Valve>, u: Valve, d: map<Valve, nat>, h: seq<QueueItem>, j: nat)
    requires forall k :: k in keys ==> k in dist
    requires Scanned(tunnels, source, dist, heap, keys, u, d, h, j) && j < |tunnels[u]|
    requires tunnels[u][j] in d && d[tunnels[u][j]] <= d[u] + 1
    ensures Scanned(tunnels, source, dist, heap, keys, u, d, h, j + 1)
  {
  }

  /** Once every tunnel out of `u` is relaxed, the search invariant holds again. */
  lemma RelaxFinish(tunnels: Tunnels, source: Valve, dist: map<Valve, nat>, heap: seq<QueueItem>,
                    keys: seq<Valve>, u: Valve, d: map<Valve, nat>, h: seq<QueueItem>)
    requires forall k :: k in keys <==> k in dist
    requires u in tunnels && Scanned(tunnels, source, dist, heap, keys, u, d, h, |tunnels[u]|)
    ensures SearchInvariant(tunnels, source, d, h)
    ensures Potential(d, keys) <= Potential(dist, keys)
    ensures |h| == |heap| || Potential(d, keys) < Potential(dist, keys)
    ensures forall k :: k in keys <==> k in d
  {
    assert Relaxed(tunnels, d, u) by {
      forall v | v in tunnels[u] ensures v in d && d[v] <= d[u] + 1 {
        var k :| 0 <= k < |tunnels[u]| && tunnels[u][k] == v;
      }
    }
  }

  /** An empty queue leaves every reached valve expanded: the table is final. */
  lemma Finished(tunnels: Tunnels, source: Valve, dist: map<Valve, nat>)
    requires SearchInvariant(tunnels, source, dist, [])
    ensures ShortestDistances(tunnels, source, dist)
  {
    forall v | v in dist && v != source && dist[v] < Infinity ensures HasParent(tunnels, dist, v) {
      assert HasPredecessor(tunnels, dist, v);
      var u :| u in tunnels && v in tunnels[u] && u in dist && dist[u] + 1 <= dist[v];
      assert Relaxed(tunnels, dist, u);
    }
  }

  /** `heap.pop()`: the first item of least priority and the rest. */
  method Pop(heap: seq<QueueItem>) returns (item: QueueItem, rest: seq<QueueItem>)
    requires |heap| > 0
    ensures item in heap && |rest| == |heap| - 1
    ensures forall k :: 0 <= k < |heap| ==> item.priority <= heap[k].priority
    ensures forall k :: 0 <= k < |rest| ==> rest[k] in heap
    ensures forall x :: x in heap && x != item ==> x in rest
  {
    var m := MinIndex(heap);
    item := heap[m];
    rest := heap[..m] + heap[m + 1..];
    forall x | x in heap && x != item ensures x in rest {
      var k :| 0 <= k < |heap| && heap[k] == x;
      if k < m {
        assert rest[k] == heap[k];
      } else {
        assert rest[k - 1] == heap[k];
      }
    }
  }

  /** `dijkstra(tunnels, source)`: distances in unit steps from `source`.
    * `None` stands for the panics: `tunnels[&valve]` on a valve without a
    * tunnel list, and `unwrap` on a neighbour that is not a key. */
  method Dijkstra(tunnels: Tunnels, source: Valve) returns (result: Option<map<Valve, nat>>)
    ensures result.Some? ==> ShortestDistances(tunnels, source, result.value)
    ensures Closed(tunnels) && source in tunnels ==> result.Some?
  {
    var dist: map<Valve, nat>, keys: seq<Valve> := InitialDistances(tunnels, source);
    var heap := [QueueItem(source, 0)];
    assert Settled(tunnels, dist, heap) by {
      forall u | u in dist && dist[u] < Infinity ensures QueueItem(u, dist[u]) in heap {
        assert u == source;
      }
    }
    while heap != []
      invariant SearchInvariant(tunnels, source, dist, heap)
      invariant forall k :: k in keys <==> k in dist
      decreases Potential(dist, keys), |heap|
    {
      var item, rest := Pop(heap);
      ghost var before := heap;
      heap := rest;
      var u := item.valve;
      if item.priority < dist[u] {
        assert Settled(tunnels, dist, heap) by {
          forall w | w in dist && dist[w] < Infinity && QueueItem(w, dist[w]) in before
            ensures QueueItem(w, dist[w]) in heap {}
        }
        continue;
      }
      if u !in tunnels {
        assert u == source;
        return None;
      }
      var ok;
      ok, dist, heap := RelaxNeighbours(tunnels, source, dist, heap, keys, u);
      if !ok {
        return None;
      }
    }
    Finished(tunnels, source, dist);
    return Some(dist);
  }

  // ---------------------------------------------------------------------
  // Opening valves

  /** A `u16` set of opened valves, one bit per valve. */
  datatype Mask = Mask(bits: bv16)

  /** `a & b != 0` */
  predicate Overlaps(a: Mask, b: Mask) {
    a.bits & b.bits != 0
  }

  /** `a | b` */
  function Union(a: Mask, b: Mask): Mask {
    Mask(a.bits | b.bits)
  }

  /** What `visit` sees: the valves with positive flow (and the start) in
    * the order their maps are walked, each valve's bit, its flow rate, and
    * the shortest distances between them. */
  datatype Network = Network(order: seq<Valve>, bits: map<Valve, Mask>, rates: map<Valve, nat>,
                             distances: map<Valve, map<Valve, nat>>)

  /** Every valve a distance map mentions has its own distance map, a bit and
    * a rate, and is walked by `order`. */
  predicate NetworkOk(net: Network) {
    forall u, v :: u in net.distances && v in net.distances[u] ==>
      v in net.order && v in net.distances && v in net.bits && v in net.rates
  }

  /** Opening the valves of `tour` in turn, starting at `at` with `budget`
    * minutes left: each must be reachable, closed (its bit not yet in
    * `state`) and reachable and opened in time; each then releases its rate
    * for every minute left.  The result is the final state and flow. */
  function Follow(net: Network, at: Valve, budget: nat, state: Mask, flow: nat, tour: seq<Valve>): Option<(Mask, nat)>
    requires NetworkOk(net) && at in net.distances
    decreases |tour|
  {
    if tour == [] then Some((state, flow))
    else
      var u := tour[0];
      if u !in net.distances[at] || Overlaps(net.bits[u], state) then None
      else
        var d := net.distances[at][u];
        if d == Infinity || d + 1 > budget then None
        else
          var left := budget - d - 1;
          Follow(net, u, left, Union(net.bits[u], state), flow + left * net.rates[u], tour[1..])
  }

  /** A tour whose first valve can be opened continues from that valve. */
  lemma FollowOpensFirst(net: Network, at: Valve, budget: nat, state: Mask, flow: nat, tour: seq<Valve>)
    requires NetworkOk(net) && at in net.distances && |tour| > 0
    requires var u := tour[0];
      u in net.distances[at] && !Overlaps(net.bits[u], state) &&
      net.distances[at][u] != Infinity && net.distances[at][u] + 1 <= budget
    ensures var u := tour[0];
      var left := budget - net.distances[at][u] - 1;
      Follow(net, at, budget, state, flow, tour) ==
        Follow(net, u, left, Union(net.bits[u], state), flow + left * net.rates[u], tour[1..])
  {
  }

  /** `visit(start, budget, state, flow, answer)`: record `flow` for `state`,
    * then try every valve `start`'s distance map reaches.  `None` is the
    * `u32` overflow panic on `distance + 1` for an unreachable valve. */
  function Explore(net: Network, start: Valve, budget: nat, state: Mask, flow: nat,
                   answer: map<Mask, nat>): Option<map<Mask, nat>>
    requires NetworkOk(net) && start in net.distances
    decreases budget, |net.order| + 1
  {
    var current := if state in answer then answer[state] else 0;
    ExploreFrom(net, start, budget, state, flow, 0, answer[state := Max(current, flow)])
  }

  /** The loop of `visit` from the `i`th valve of `order` on. */
  function ExploreFrom(net: Network, start: Valve, budget: nat, state: Mask, flow: nat, i: nat,
                       answer: map<Mask, nat>): Option<map<Mask, nat>>
    requires NetworkOk(net) && start in net.distances && i <= |net.order|
    decreases budget, |net.order| - i
  {
    if i == |net.order| then Some(answer)
    else
      var u := net.order[i];
      if u !in net.distances[start] || Overlaps(net.bits[u], state) then
        ExploreFrom(net, start, budget, state, flow, i + 1, answer)
      else
        var d := net.distances[start][u];
        if d == Infinity then None
        else if d + 1 > budget then ExploreFrom(net, start, budget, state, flow, i + 1, answer)
        else
          var left := budget - d - 1;
          match Explore(net, u, left, Union(net.bits[u], state), flow + left * net.rates[u], answer)
          case None => None
          case Some(next) => ExploreFrom(net, start, budget, state, flow, i + 1, next)
  }

  /** Answers only grow. */
  ghost predicate Extends(answer: map<Mask, nat>, result: map<Mask, nat>) {
    forall s :: s in answer ==> s in result && answer[s] <= result[s]
  }

  /** A finished tour's state is recorded with at least its flow. */
  predicate Covers(result: map<Mask, nat>, outcome: Option<(Mask, nat)>) {
    outcome.Some? ==> outcome.value.0 in result && outcome.value.1 <= result[outcome.value.0]
  }

  lemma CoversGrow(answer: map<Mask, nat>, result: map<Mask, nat>, outcome: Option<(Mask, nat)>)
    requires Covers(answer, outcome) && Extends(answer, result)
    ensures Covers(result, outcome)
  {
  }

  /** The valves `order` walks from index `i` on. */
  function WalkedFrom(order: seq<Valve>, i: nat): (first: set<Valve>)
    requires i <= |order|
    ensures forall k :: i <= k < |order| ==> order[k] in first
    ensures forall v :: v in first ==> v in order
    decreases |order| - i
  {
    if i == |order| then {} else {order[i]} + WalkedFrom(order, i + 1)
  }

  /** Every tour from here that opens a valve of `first` first is covered. */
  ghost predicate DominatesFrom(net: Network, at: Valve, budget: nat, state: Mask, flow: nat, first: set<Valve>,
                                result: map<Mask, nat>)
    requires NetworkOk(net) && at in net.distances
  {
    forall tour :: |tour| > 0 && tour[0] in first ==> Covers(result, Follow(net, at, budget, state, flow, tour))
  }

  /** Every value `result` records is the old one or the flow of such a tour. */
  ghost predicate AttainedFrom(net: Network, at: Valve, budget: nat, state: Mask, flow: nat, first: set<Valve>,
                               answer: map<Mask, nat>, result: map<Mask, nat>)
    requires NetworkOk(net) && at in net.distances
  {
    forall s :: s in result ==>
      ((s in answer && result[s] == answer[s]) ||
       exists tour :: |tour| > 0 && tour[0] in first && Follow(net, at, budget, state, flow, tour) == Some((s, result[s])))
  }

  /** Every tour from here is covered. */
  ghost predicate Dominates(net: Network, at: Valve, budget: nat, state: Mask, flow: nat, result: map<Mask, nat>)
    requires NetworkOk(net) && at in net.distances
  {
    forall tour :: Covers(result, Follow(net, at, budget, state, flow, tour))
  }

  /** Every value `result` records is the old one or the flow of some tour. */
  ghost predicate Attained(net: Network, at: Valve, budget: nat, state: Mask, flow: nat,
                           answer: map<Mask, nat>, result: map<Mask, nat>)
    requires NetworkOk(net) && at in net.distances
  {
    forall s :: s in result ==>
      ((s in answer && result[s] == answer[s]) ||
       exists tour :: Follow(net, at, budget, state, flow, tour) == Some((s, result[s])))
  }

  /** `visit` leaves, for every state, the larger of the old answer and the
    * best flow of any tour from `start` that ends in that state: the most
    * pressure over all orders of opening valves, each opened at most once
    * and only while minutes remain. */
  lemma {:induction false} ExploreMeaning(net: Network, start: Valve, budget: nat, state: Mask, flow: nat,
                                          answer: map<Mask, nat>)
    requires NetworkOk(net) && start in net.distances
    requires Explore(net, start, budget, state, flow, answer).Some?
    ensures Extends(answer, Explore(net, start, budget, state, flow, answer).value)
    ensures Dominates(net, start, budget, state, flow, Explore(net, start, budget, state, flow, answer).value)
    ensures Attained(net, start, budget, state, flow, answer, Explore(net, start, budget, state, flow, answer).value)
    decreases budget, |net.order| + 1, 0
  {
    var current := if state in answer then answer[state] else 0;
    var best := Max(current, flow);
    assert best >= flow && best >= current;
    var recorded := answer[state := best];
    var result := Explore(net, start, budget, state, flow, answer).value;
    assert ExploreFrom(net, start, budget, state, flow, 0, recorded) == Some(result);
    ExploreFromMeaning(net, start, budget, state, flow, 0, recorded);
    var first := WalkedFrom(net.order, 0);
    forall tour ensures Covers(result, Follow(net, start, budget, state, flow, tour)) {
      if tour == [] {
        assert state in recorded && recorded[state] >= flow;
      } else if Follow(net, start, budget, state, flow, tour).Some? {
        assert tour[0] in net.order;
        var k :| 0 <= k < |net.order| && net.order[k] == tour[0];
      }
    }
    forall s | s in result && !(s in answer && result[s] == answer[s])
      ensures exists tour :: Follow(net, start, budget, state, flow, tour) == Some((s, result[s]))
    {
      if s in recorded && result[s] == recorded[s] {
        assert s == state && result[s] == flow;
        assert Follow(net, start, budget, state, flow, []) == Some((s, result[s]));
      }
    }
  }

  lemma {:induction false} ExploreFromMeaning(net: Network, start: Valve, budget: nat, state: Mask, flow: nat, i: nat,
                                              answer: map<Mask, nat>)
    requires NetworkOk(net) && start in net.distances && i <= |net.order|
    requires ExploreFrom(net, start, budget, state, flow, i, answer).Some?
    ensures Extends(answer, ExploreFrom(net, start, budget, state, flow, i, answer).value)
    ensures DominatesFrom(net, start, budget, state, flow, WalkedFrom(net.order, i),
                          ExploreFrom(net, start, budget, state, flow, i, answer).value)
    ensures AttainedFrom(net, start, budget, state, flow, WalkedFrom(net.order, i), answer,
                         ExploreFrom(net, start, budget, state, flow, i, answer).value)
    decreases budget, |net.order| - i, 1
  {
    if i < |net.order| {
      var u := net.order[i];
      if u !in net.distances[start] || Overlaps(net.bits[u], state) || net.distances[start][u] + 1 > budget {
        SkipMeaning(net, start, budget, state, flow, i, answer);
      } else if net.distances[start][u] == Infinity {
        assert false;
      } else {
        OpenMeaning(net, start, budget, state, flow, i, answer);
      }
    }
  }

  /** A valve `visit` cannot open adds no tour. */
  lemma {:induction false} SkipMeaning(net: Network, start: Valve, budget: nat, state: Mask, flow: nat, i: nat,
                                       answer: map<Mask, nat>)
    requires NetworkOk(net) && start in net.distances && i < |net.order|
    requires var u := net.order[i];
      u !in net.distances[start] || Overlaps(net.bits[u], state) || net.distances[start][u] + 1 > budget
    requires ExploreFrom(net, start, budget, state, flow, i, answer).Some?
    ensures Extends(answer, ExploreFrom(net, start, budget, state, flow, i, answer).value)
    ensures DominatesFrom(net, start, budget, state, flow, WalkedFrom(net.order, i),
                          ExploreFrom(net, start, budget, state, flow, i, answer).value)
    ensures AttainedFrom(net, start, budget, state, flow, WalkedFrom(net.order, i), answer,
                         ExploreFrom(net, start, budget, state, flow, i, answer).value)
    decreases budget, |net.order| - i, 0
  {
    var u := net.order[i];
    var first, rest := WalkedFrom(net.order, i), WalkedFrom(net.order, i + 1);
    assert first == {u} + rest;
    var result := ExploreFrom(net, start, budget, state, flow, i, answer).value;
    assert ExploreFrom(net, start, budget, state, flow, i + 1, answer) == Some(result);
    ExploreFromMeaning(net, start, budget, state, flow, i + 1, answer);
    forall tour | |tour| > 0 && tour[0] in first ensures Covers(result, Follow(net, start, budget, state, flow, tour)) {
      if tour[0] == u {
        assert Follow(net, start, budget, state, flow, tour).None?;
      }
    }
  }

  /** A valve `visit` opens adds exactly the tours that open it first. */
  lemma {:induction false} OpenMeaning(net: Network, start: Valve, budget: nat, state: Mask, flow: nat, i: nat,
                                       answer: map<Mask, nat>)
    requires NetworkOk(net) && start in net.distances && i < |net.order|
    requires var u := net.order[i];
      u in net.distances[start] && !Overlaps(net.bits[u], state) &&
      net.distances[start][u] != Infinity && net.distances[start][u] + 1 <= budget
    requires ExploreFrom(net, start, budget, state, flow, i, answer).Some?
    ensures Extends(answer, ExploreFrom(net, start, budget, state, flow, i, answer).value)
    ensures DominatesFrom(net, start, budget, state, flow, WalkedFrom(net.order, i),
                          ExploreFrom(net, start, budget, state, flow, i, answer).value)
    ensures AttainedFrom(net, start, budget, state, flow, WalkedFrom(net.order, i), answer,
                         ExploreFrom(net, start, budget, state, flow, i, answer).value)
    decreases budget, |net.order| - i, 0
  {
    var u := net.order[i];
    var first, rest := WalkedFrom(net.order, i), WalkedFrom(net.order, i + 1);
    assert first == {u} + rest;
    var result := ExploreFrom(net, start, budget, state, flow, i, answer).value;
    var d := net.distances[start][u];
    var left := budget - d - 1;
    var state' := Union(net.bits[u], state);
    var flow' := flow + left * net.rates[u];
    var next := Explore(net, u, left, state', flow', answer).value;
    ExploreMeaning(net, u, left, state', flow', answer);
    assert ExploreFrom(net, start, budget, state, flow, i + 1, next) == Some(result);
    ExploreFromMeaning(net, start, budget, state, flow, i + 1, next);
    OpenDominates(net, start, budget, state, flow, u, left, state', flow', first, rest, next, result);
    OpenAttains(net, start, budget, state, flow, u, left, state', flow', first, rest, answer, next, result);
  }

  /** Tours that open `u` first are covered by what the search from `u` recorded. */
  lemma OpenDominates(net: Network, start: Valve, budget: nat, state: Mask, flow: nat, u: Valve,
                      left: nat, state': Mask, flow': nat, first: set<Valve>, rest: set<Valve>,
                      next: map<Mask, nat>, result: map<Mask, nat>)
    requires NetworkOk(net) && start in net.distances
    requires u in net.distances[start] && !Overlaps(net.bits[u], state)
    requires net.distances[start][u] != Infinity && net.distances[start][u] + 1 <= budget
    requires left == budget - net.distances[start][u] - 1
    requires state' == Union(net.bits[u], state) && flow' == flow + left * net.rates[u]
    requires first == {u} + rest
    requires Dominates(net, u, left, state', flow', next) && Extends(next, result)
    requires DominatesFrom(net, start, budget, state, flow, rest, result)
    ensures DominatesFrom(net, start, budget, state, flow, first, result)
  {
    forall tour | |tour| > 0 && tour[0] in first ensures Covers(result, Follow(net, start, budget, state, flow, tour)) {
      if tour[0] == u {
        FollowOpensFirst(net, start, budget, state, flow, tour);
        var outcome := Follow(net, u, left, state', flow', tour[1..]);
        assert Covers(next, outcome);
        CoversGrow(next, result, outcome);
      } else {
        assert tour[0] in rest;
      }
    }
  }

  /** Values the search from `u` recorded are flows of tours that open `u` first. */
  lemma OpenAttains(net: Network, start: Valve, budget: nat, state: Mask, flow: nat, u: Valve,
                    left: nat, state': Mask, flow': nat, first: set<Valve>, rest: set<Valve>,
                    answer: map<Mask, nat>, next: map<Mask, nat>, result: map<Mask, nat>)
    requires NetworkOk(net) && start in net.distances
    requires u in net.distances[start] && !Overlaps(net.bits[u], state)
    requires net.distances[start][u] != Infinity && net.distances[start][u] + 1 <= budget
    requires left == budget - net.distances[start][u] - 1
    requires state' == Union(net.bits[u], state) && flow' == flow + left * net.rates[u]
    requires first == {u} + rest
    requires Attained(net, u, left, state', flow', answer, next)
    requires AttainedFrom(net, start, budget, state, flow, rest, next, result)
    ensures AttainedFrom(net, start, budget, state, flow, first, answer, result)
  {
    forall s | s in result && !(s in answer && result[s] == answer[s])
      ensures exists tour :: |tour| > 0 && tour[0] in first && Follow(net, start, budget, state, flow, tour) == Some((s, result[s]))
    {
      if s in next && result[s] == next[s] {
        assert !(s in answer && next[s] == answer[s]);
        var t :| Follow(net, u, left, state', flow', t) == Some((s, next[s]));
        var tour := [u] + t;
        assert tour[1..] == t && tour[0] == u;
        FollowOpensFirst(net, start, budget, state, flow, tour);
        assert |tour| > 0 && tour[0] in first && Follow(net, start, budget, state, flow, tour) == Some((s, result[s]));
      } else {
        var t :| |t| > 0 && t[0] in rest && Follow(net, start, budget, state, flow, t) == Some((s, result[s]));
        assert t[0] in first;
      }
    }
  }

  // ---------------------------------------------------------------------
  // The search itself, updating the shared answer map in place

  /** The state `visit` threads through its recursion: the network it reads
    * and the `answer` map it updates. */
  class Search {
    const net: Network
    var answer: map<Mask, nat>

    constructor (net: Network)
      ensures this.net == net && answer == map[]
    {
      this.net := net;
      answer := map[];
    }

    /** `visit(start, budget, state, flow)`; `false` is a panic, after which
      * `answer` is of no interest. */
    method Visit(start: Valve, budget: nat, state: Mask, flow: nat) returns (ok: bool)
      requires NetworkOk(net) && start in net.distances
      modifies this
      ensures ok == Explore(net, start, budget, state, flow, old(answer)).Some?
      ensures ok ==> answer == Explore(net, start, budget, state, flow, old(answer)).value
      decreases budget
    {
      var current := if state in answer then answer[state] else 0;
      answer := answer[state := Max(current, flow)];
      var i := 0;
      while i < |net.order|
        invariant i <= |net.order|
        invariant ExploreFrom(net, start, budget, state, flow, i, answer) == Explore(net, start, budget, state, flow, old(answer))
      {
        var u := net.order[i];
        if u in net.distances[start] && !Overlaps(net.bits[u], state) {
          var d := net.distances[start][u];
          if d == Infinity {
            return false;
          }
          if d + 1 <= budget {
            var left := budget - d - 1;
            ok := Visit(u, left, Union(net.bits[u], state), flow + left * net.rates[u]);
            if !ok {
              return false;
            }
          }
        }
        i := i + 1;
      }
      return true;
    }
  }

  // ---------------------------------------------------------------------
  // Building the network: `get_all_states`

  predicate Distinct<T(==)>(s: seq<T>) {
    forall i, j :: 0 <= i < j < |s| ==> s[i] != s[j]
  }

  /** The flow rates kept: the positive ones and the start's. */
  function Positive(flowRates: map<Valve, nat>, start: Valve): map<Valve, nat> {
    map k | k in flowRates && (flowRates[k] != 0 || k == start) :: flowRates[k]
  }

  /** `1 << i` as a `u16`. */
  function BitOf(i: nat): Mask
    requires i < 16
  {
    Mask((1 as bv16) << i)
  }

  /** Two bits overlap exactly when they are the same bit. */
  lemma BitsSeparate(i: nat, j: nat)
    requires i < 16 && j < 16
    ensures Overlaps(BitOf(i), BitOf(j)) <==> i == j
  {
  }

  /** `enumerate().map(|(i, k)| (k, 1 << i))` over the kept valves in the
    * order they are walked. */
  function Bitmap(walk: seq<Valve>): (bits: map<Valve, Mask>)
    requires |walk| <= 16 && Distinct(walk)
    ensures bits.Keys == set k | k in walk
    ensures forall k :: 0 <= k < |walk| ==> bits[walk[k]] == BitOf(k)
  {
    map k | 0 <= k < |walk| :: walk[k] := BitOf(k)
  }

  /** Each kept valve gets its own bit: two valves share a bit only if they
    * are the same valve. */
  lemma BitmapSeparate(walk: seq<Valve>, u: Valve, v: Valve)
    requires |walk| <= 16 && Distinct(walk)
    requires u in walk && v in walk
    ensures Overlaps(Bitmap(walk)[u], Bitmap(walk)[v]) <==> u == v
  {
    var i :| 0 <= i < |walk| && walk[i] == u;
    var j :| 0 <= j < |walk| && walk[j] == v;
    BitsSeparate(i, j);
  }

  /** The rows of a distance table restricted to the kept valves. */
  function Restrict(dist: map<Valve, nat>, kept: map<Valve, nat>): map<Valve, nat> {
    map v | v in dist && v in kept :: dist[v]
  }

  /** The network `visit` is given: rows and columns of the pairwise table
    * restricted to the kept valves. */
  function NetworkOf(flowRates: map<Valve, nat>, start: Valve, walk: seq<Valve>,
                     pairwise: map<Valve, map<Valve, nat>>): Network
    requires |walk| <= 16 && Distinct(walk)
  {
    var kept := Positive(flowRates, start);
    Network(walk, Bitmap(walk), kept, map k | k in pairwise && k in kept :: Restrict(pairwise[k], kept))
  }

  /** One `dijkstra` table per tunnel key. */
  ghost predicate AllShortest(tunnels: Tunnels, pairwise: map<Valve, map<Valve, nat>>) {
    pairwise.Keys == tunnels.Keys && forall t :: t in pairwise ==> ShortestDistances(tunnels, t, pairwise[t])
  }

  /** `walk` is the order the kept valves are enumerated in. */
  ghost predicate Walks(flowRates: map<Valve, nat>, start: Valve, walk: seq<Valve>) {
    Distinct(walk) && forall k :: k in walk <==> k in Positive(flowRates, start)
  }

  /** Every valve a pairwise row mentions has its own row. */
  predicate RowsClosed(pairwise: map<Valve, map<Valve, nat>>) {
    forall u, v :: u in pairwise && v in pairwise[u] ==> v in pairwise
  }

  lemma AllShortestRowsClosed(tunnels: Tunnels, pairwise: map<Valve, map<Valve, nat>>)
    requires AllShortest(tunnels, pairwise)
    ensures RowsClosed(pairwise)
  {
    forall u, v | u in pairwise && v in pairwise[u] ensures v in pairwise {
      assert ShortestDistances(tunnels, u, pairwise[u]);
    }
  }

  lemma NetworkOfOk(flowRates: map<Valve, nat>, start: Valve, walk: seq<Valve>,
                    pairwise: map<Valve, map<Valve, nat>>)
    requires |walk| <= 16 && Walks(flowRates, start, walk) && RowsClosed(pairwise)
    ensures NetworkOk(NetworkOf(flowRates, start, walk, pairwise))
  {
  }

  /** Every pairwise table and the network can be built, and `visit` can start. */
  predicate Feasible(flowRates: map<Valve, nat>, tunnels: Tunnels, start: Valve, walk: seq<Valve>) {
    Closed(tunnels) && start in tunnels && start in flowRates && |walk| <= 16
  }

  /** `pairwise_distances`: `dijkstra` from every tunnel key; `None` if one panics. */
  method AllDistances(tunnels: Tunnels) returns (pairwise: Option<map<Valve, map<Valve, nat>>>)
    ensures pairwise.Some? ==> AllShortest(tunnels, pairwise.value)
    ensures Closed(tunnels) ==> pairwise.Some?
  {
    var table: map<Valve, map<Valve, nat>> := map[];
    var todo := tunnels.Keys;
    while todo != {}
      invariant todo <= tunnels.Keys && table.Keys == tunnels.Keys - todo
      invariant forall t :: t in table ==> ShortestDistances(tunnels, t, table[t])
      decreases |todo|
    {
      var t :| t in todo;
      var dist := Dijkstra(tunnels, t);
      if dist.None? {
        return None;
      }
      table := table[t := dist.value];
      todo := todo - {t};
    }
    return Some(table);
  }

  /** `get_all_states(flow_rates, tunnels, start, time)`: the best flow of
    * every set of opened valves.  `None` stands for the panics: a `dijkstra`
    * failure, a seventeenth kept valve overflowing the `u16` shift, a start
    * without a distance row, and an unreachable valve. */
  method GetAllStates(flowRates: map<Valve, nat>, tunnels: Tunnels, start: Valve, time: nat, walk: seq<Valve>)
      returns (states: Option<map<Mask, nat>>, ghost pairwise: map<Valve, map<Valve, nat>>)
    requires Walks(flowRates, start, walk)
    ensures states.Some? || Feasible(flowRates, tunnels, start, walk) ==>
      && |walk| <= 16 && AllShortest(tunnels, pairwise)
      && NetworkOk(NetworkOf(flowRates, start, walk, pairwise))
      && start in NetworkOf(flowRates, start, walk, pairwise).distances
      && states == Explore(NetworkOf(flowRates, start, walk, pairwise), start, time, Mask(0), 0, map[])
  {
    pairwise := map[];
    var table := AllDistances(tunnels);
    if table.None? || |walk| > 16 {
      return None, pairwise;
    }
    pairwise := table.value;
    var net := NetworkOf(flowRates, start, walk, table.value);
    AllShortestRowsClosed(tunnels, pairwise);
    NetworkOfOk(flowRates, start, walk, pairwise);
    if start !in net.distances {
      return None, pairwise;
    }
    var search := new Search(net);
    var ok := search.Visit(start, time, Mask(0), 0);
    if !ok {
      return None, pairwise;
    }
    return Some(search.answer), pairwise;
  }

  // ---------------------------------------------------------------------
  // What the bits guarantee about tours

  /** Distinct valves have disjoint bits, and no bit is empty. */
  predicate SeparateBits(net: Network) {
    forall u, v :: u in net.bits && v in net.bits ==> (Overlaps(net.bits[u], net.bits[v]) <==> u == v)
  }

  lemma NetworkOfSeparate(flowRates: map<Valve, nat>, start: Valve, walk: seq<Valve>,
                          pairwise: map<Valve, map<Valve, nat>>)
    requires |walk| <= 16 && Distinct(walk)
    ensures SeparateBits(NetworkOf(flowRates, start, walk, pairwise))
  {
    var bits := Bitmap(walk);
    forall u, v | u in bits && v in bits ensures Overlaps(bits[u], bits[v]) <==> u == v {
      BitmapSeparate(walk, u, v);
    }
  }

  lemma UnionOverlaps(x: Mask, a: Mask, b: Mask)
    ensures Overlaps(x, Union(a, b)) ==> Overlaps(x, a) || Overlaps(x, b)
    ensures Overlaps(x, a) || Overlaps(x, b) ==> Overlaps(x, Union(a, b))
  {
    AndOrNonzero(x.bits, a.bits, b.bits);
  }

  lemma AndOrNonzero(x: bv16, a: bv16, b: bv16)
    ensures (x & (a | b) != 0) <==> (x & a != 0 || x & b != 0)
  {
  }

  /** A tour `visit` can follow opens every valve at most once, and none
    * whose bit was already set when it started. */
  lemma {:induction false} FollowOpensEachOnce(net: Network, at: Valve, budget: nat, state: Mask, flow: nat,
                                               tour: seq<Valve>)
    requires NetworkOk(net) && SeparateBits(net) && at in net.distances
    requires Follow(net, at, budget, state, flow, tour).Some?
    ensures Distinct(tour)
    ensures forall k :: 0 <= k < |tour| ==> tour[k] in net.bits && !Overlaps(net.bits[tour[k]], state)
    decreases |tour|
  {
    if tour != [] {
      var u := tour[0];
      var d := net.distances[at][u];
      var left := budget - d - 1;
      var state' := Union(net.bits[u], state);
      var tail := tour[1..];
      FollowOpensFirst(net, at, budget, state, flow, tour);
      FollowOpensEachOnce(net, u, left, state', flow + left * net.rates[u], tail);
      forall k | 0 <= k < |tour| ensures tour[k] in net.bits && !Overlaps(net.bits[tour[k]], state) {
        if k > 0 {
          assert tour[k] == tail[k - 1];
          UnionOverlaps(net.bits[tour[k]], net.bits[u], state);
        }
      }
      forall i, j | 0 <= i < j < |tour| ensures tour[i] != tour[j] {
        if i > 0 {
          assert tour[i] == tail[i - 1] && tour[j] == tail[j - 1];
        } else {
          assert tour[j] == tail[j - 1];
          UnionOverlaps(net.bits[tour[j]], net.bits[u], state);
        }
      }
    }
  }

  // ---------------------------------------------------------------------
  // The answers

  /** `values().max()`: `None` for the `unwrap` on an empty map. */
  method MaxValue(m: map<Mask, nat>) returns (r: Option<nat>)
    ensures r.Some? <==> m.Keys != {}
    ensures r.Some? ==> (exists s :: s in m && m[s] == r.value) && forall s :: s in m ==> m[s] <= r.value
  {
    var todo := m.Keys;
    r := None;
    while todo != {}
      invariant todo <= m.Keys
      invariant r.None? <==> todo == m.Keys
      invariant r.Some? ==> (exists s :: s in m && m[s] == r.value) && forall s :: s in m && s !in todo ==> m[s] <= r.value
      decreases |todo|
    {
      var s :| s in todo;
      if r.None? || m[s] > r.value {
        r := Some(m[s]);
      }
      todo := todo - {s};
    }
  }

  /** `best` is released by some tour and no tour releases more. */
  ghost predicate BestFlow(net: Network, start: Valve, time: nat, best: nat)
    requires NetworkOk(net) && start in net.distances
  {
    && (exists tour :: Follow(net, start, time, Mask(0), 0, tour).Some? && Follow(net, start, time, Mask(0), 0, tour).value.1 == best)
    && forall tour :: Follow(net, start, time, Mask(0), 0, tour).Some? ==> Follow(net, start, time, Mask(0), 0, tour).value.1 <= best
  }

  /** `visit` always records the state it starts in, with at least its flow. */
  lemma ExploreRecordsState(net: Network, start: Valve, budget: nat, state: Mask, flow: nat, answer: map<Mask, nat>)
    requires NetworkOk(net) && start in net.distances
    requires Explore(net, start, budget, state, flow, answer).Some?
    ensures var result := Explore(net, start, budget, state, flow, answer).value;
      state in result && flow <= result[state]
  {
    ExploreMeaning(net, start, budget, state, flow, answer);
    assert Covers(Explore(net, start, budget, state, flow, answer).value, Follow(net, start, budget, state, flow, []));
  }

  /** The largest value of the map `visit` leaves is the most pressure any tour releases. */
  lemma BestOfStates(net: Network, start: Valve, time: nat, best: nat)
    requires NetworkOk(net) && start in net.distances
    requires Explore(net, start, time, Mask(0), 0, map[]).Some?
    requires var m := Explore(net, start, time, Mask(0), 0, map[]).value;
      (exists s :: s in m && m[s] == best) && forall s :: s in m ==> m[s] <= best
    ensures BestFlow(net, start, time, best)
  {
    var m := Explore(net, start, time, Mask(0), 0, map[]).value;
    ExploreMeaning(net, start, time, Mask(0), 0, map[]);
    var s :| s in m && m[s] == best;
    var tour :| Follow(net, start, time, Mask(0), 0, tour) == Some((s, m[s]));
    forall t | Follow(net, start, time, Mask(0), 0, t).Some?
      ensures Follow(net, start, time, Mask(0), 0, t).value.1 <= best
    {
      assert Covers(m, Follow(net, start, time, Mask(0), 0, t));
    }
  }

  /** `get_most_pressure_possible`: the most pressure one walker releases. */
  method GetMostPressure(flowRates: map<Valve, nat>, tunnels: Tunnels, start: Valve, time: nat, walk: seq<Valve>)
      returns (r: Option<nat>, ghost pairwise: map<Valve, map<Valve, nat>>)
    requires Walks(flowRates, start, walk)
    ensures r.Some? ==>
      && |walk| <= 16 && AllShortest(tunnels, pairwise)
      && NetworkOk(NetworkOf(flowRates, start, walk, pairwise))
      && start in NetworkOf(flowRates, start, walk, pairwise).distances
      && BestFlow(NetworkOf(flowRates, start, walk, pairwise), start, time, r.value)
    ensures Feasible(flowRates, tunnels, start, walk) ==>
      && |walk| <= 16 && AllShortest(tunnels, pairwise)
      && NetworkOk(NetworkOf(flowRates, start, walk, pairwise))
      && start in NetworkOf(flowRates, start, walk, pairwise).distances
      && (r.Some? <==> Explore(NetworkOf(flowRates, start, walk, pairwise), start, time, Mask(0), 0, map[]).Some?)
  {
    var states;
    states, pairwise := GetAllStates(flowRates, tunnels, start, time, walk);
    if states.None? {
      return None, pairwise;
    }
    r := MaxValue(states.value);
    if r.Some? {
      BestOfStates(NetworkOf(flowRates, start, walk, pairwise), start, time, r.value);
    } else {
      ExploreRecordsState(NetworkOf(flowRates, start, walk, pairwise), start, time, Mask(0), 0, map[]);
      assert false;
    }
  }

  // ---------------------------------------------------------------------
  // With the elephant

  lemma OverlapsSymmetric(a: Mask, b: Mask)
    ensures Overlaps(a, b) ==> Overlaps(b, a)
  {
    AndCommutes(a.bits, b.bits);
  }

  lemma AndCommutes(x: bv16, y: bv16)
    ensures x & y == y & x
  {
  }

  /** Two different states with no valve in common: what the walker and the
    * elephant can open between them. */
  predicate DisjointPair(states: map<Mask, nat>, a: Mask, b: Mask) {
    a in states && b in states && a != b && !Overlaps(a, b)
  }

  /** The states `visit` records from the start with no valve open, or None
    * where it panics or cannot start. */
  ghost function Searched(net: Network, start: Valve, time: nat): Option<map<Mask, nat>> {
    if NetworkOk(net) && start in net.distances then Explore(net, start, time, Mask(0), 0, map[]) else None
  }

  /** Some two states have no valve in common. */
  ghost predicate HasDisjointPair(states: map<Mask, nat>) {
    exists a, b :: DisjointPair(states, a, b)
  }

  /** `best` is the largest sum of a disjoint pair of states. */
  ghost predicate BestPair(states: map<Mask, nat>, best: nat) {
    && (exists a, b :: DisjointPair(states, a, b) && states[a] + states[b] == best)
    && (forall a, b :: DisjointPair(states, a, b) ==> states[a] + states[b] <= best)
  }

  /** Keys `p < q` of `keys` form a pair the loops push. */
  predicate Candidate(keys: seq<Mask>, p: int, q: int) {
    0 <= p < q < |keys| && !Overlaps(keys[p], keys[q])
  }

  /** The sum of the two answers of a candidate pair. */
  function PairFlow(states: map<Mask, nat>, keys: seq<Mask>, p: nat, q: nat): nat
    requires p < |keys| && q < |keys| && keys[p] in states && keys[q] in states
  {
    states[keys[p]] + states[keys[q]]
  }

  /** What the loops have pushed before reaching `(i, j)`. */
  ghost predicate PairsSoFar(states: map<Mask, nat>, keys: seq<Mask>, i: int, j: int, r: Option<nat>)
    requires forall k :: 0 <= k < |keys| ==> keys[k] in states
  {
    && (r.None? <==> forall p, q :: Candidate(keys, p, q) && (p < i || (p == i && q < j)) ==> false)
    && (r.Some? ==> exists p, q :: Candidate(keys, p, q) && (p < i || (p == i && q < j)) && PairFlow(states, keys, p, q) == r.value)
    && (r.Some? ==> forall p, q :: Candidate(keys, p, q) && (p < i || (p == i && q < j)) ==> PairFlow(states, keys, p, q) <= r.value)
  }

  /** The `keys` vector: the states of the map in its iteration order. */
  method KeysOf(states: map<Mask, nat>) returns (keys: seq<Mask>)
    ensures Distinct(keys) && forall s :: s in keys <==> s in states
  {
    var todo := states.Keys;
    keys := [];
    while todo != {}
      invariant todo <= states.Keys && Distinct(keys)
      invariant forall s :: s in keys <==> s in states && s !in todo
      decreases |todo|
    {
      var s :| s in todo;
      keys := keys + [s];
      todo := todo - {s};
    }
  }

  /** The loops over `i < j` of `get_most_pressure_possible_with_elephant`
    * and the `max` of the pushed pairs' sums; `None` for the underflow of
    * `keys.len() - 1` on no keys and the `unwrap` on no pair. */
  method BestDisjointPair(states: map<Mask, nat>, keys: seq<Mask>) returns (r: Option<nat>)
    requires Distinct(keys) && forall s :: s in keys <==> s in states
    ensures r.Some? <==> exists a, b :: DisjointPair(states, a, b)
    ensures r.Some? ==> exists a, b :: DisjointPair(states, a, b) && states[a] + states[b] == r.value
    ensures r.Some? ==> forall a, b :: DisjointPair(states, a, b) ==> states[a] + states[b] <= r.value
  {
    if |keys| == 0 {
      return None;
    }
    r := None;
    var i := 0;
    while i < |keys| - 1
      invariant i <= |keys| - 1
      invariant PairsSoFar(states, keys, i, i + 1, r)
    {
      r := ScanRow(states, keys, i, r);
      NextRow(states, keys, i, r);
      i := i + 1;
    }
    PairsMeaning(states, keys, i, r);
  }

  /** The inner loop: every `j > i`. */
  method ScanRow(states: map<Mask, nat>, keys: seq<Mask>, i: nat, r: Option<nat>) returns (r': Option<nat>)
    requires forall k :: 0 <= k < |keys| ==> keys[k] in states
    requires i + 1 < |keys| && PairsSoFar(states, keys, i, i + 1, r)
    ensures PairsSoFar(states, keys, i, |keys|, r')
  {
    r' := r;
    var j := i + 1;
    while j < |keys|
      invariant i + 1 <= j <= |keys|
      invariant PairsSoFar(states, keys, i, j, r')
    {
      ghost var before := r';
      var disjoint := !Overlaps(keys[i], keys[j]);
      var sum := states[keys[i]] + states[keys[j]];
      if disjoint && (r'.None? || sum > r'.value) {
        r' := Some(sum);
      }
      PairStep(states, keys, i, j, disjoint, sum, before, r');
      j := j + 1;
    }
  }

  /** Pushing the pair `(i, j)` when its states are disjoint, and taking the larger sum. */
  lemma PairStep(states: map<Mask, nat>, keys: seq<Mask>, i: nat, j: nat, disjoint: bool, sum: nat,
                 r: Option<nat>, r': Option<nat>)
    requires forall k :: 0 <= k < |keys| ==> keys[k] in states
    requires i < j < |keys| && PairsSoFar(states, keys, i, j, r)
    requires disjoint == !Overlaps(keys[i], keys[j]) && sum == PairFlow(states, keys, i, j)
    requires r' == if disjoint && (r.None? || sum > r.value) then Some(sum) else r
    ensures PairsSoFar(states, keys, i, j + 1, r')
  {
    if Candidate(keys, i, j) {
      assert Candidate(keys, i, j) && (i < i || (i == i && j < j + 1));
    }
  }

  lemma NextRow(states: map<Mask, nat>, keys: seq<Mask>, i: nat, r: Option<nat>)
    requires forall k :: 0 <= k < |keys| ==> keys[k] in states
    requires i + 1 < |keys| + 1 && PairsSoFar(states, keys, i, |keys|, r)
    ensures PairsSoFar(states, keys, i + 1, i + 2, r)
  {
    forall p, q | Candidate(keys, p, q) && (p < i + 1 || (p == i + 1 && q < i + 2))
      ensures p < i || (p == i && q < |keys|)
    {
    }
  }

  /** The index pairs the loops visit are exactly the disjoint pairs of states. */
  lemma PairsMeaning(states: map<Mask, nat>, keys: seq<Mask>, i: nat, r: Option<nat>)
    requires Distinct(keys) && forall s :: s in keys <==> s in states
    requires |keys| > 0 && i == |keys| - 1 && PairsSoFar(states, keys, i, i + 1, r)
    ensures r.Some? <==> exists a, b :: DisjointPair(states, a, b)
    ensures r.Some? ==> exists a, b :: DisjointPair(states, a, b) && states[a] + states[b] == r.value
    ensures r.Some? ==> forall a, b :: DisjointPair(states, a, b) ==> states[a] + states[b] <= r.value
  {
    if r.Some? {
      PairsAttained(states, keys, i, r);
      PairsBounded(states, keys, i, r);
    } else {
      PairsNone(states, keys, i);
    }
  }

  /** The best pushed sum is the sum of some disjoint pair. */
  lemma PairsAttained(states: map<Mask, nat>, keys: seq<Mask>, i: nat, r: Option<nat>)
    requires Distinct(keys) && forall s :: s in keys <==> s in states
    requires |keys| > 0 && i == |keys| - 1 && PairsSoFar(states, keys, i, i + 1, r) && r.Some?
    ensures exists a, b :: DisjointPair(states, a, b) && states[a] + states[b] == r.value
  {
    var p, q :| Candidate(keys, p, q) && (p < i || (p == i && q < i + 1)) && PairFlow(states, keys, p, q) == r.value;
    assert DisjointPair(states, keys[p], keys[q]);
  }

  /** No disjoint pair sums to more than the best pushed sum. */
  lemma PairsBounded(states: map<Mask, nat>, keys: seq<Mask>, i: nat, r: Option<nat>)
    requires Distinct(keys) && forall s :: s in keys <==> s in states
    requires |keys| > 0 && i == |keys| - 1 && PairsSoFar(states, keys, i, i + 1, r) && r.Some?
    ensures forall a, b :: DisjointPair(states, a, b) ==> states[a] + states[b] <= r.value
  {
    forall a, b | DisjointPair(states, a, b) ensures states[a] + states[b] <= r.value {
      PairCovered(states, keys, i, a, b);
    }
  }

  /** Where nothing was pushed there is no disjoint pair. */
  lemma PairsNone(states: map<Mask, nat>, keys: seq<Mask>, i: nat)
    requires Distinct(keys) && forall s :: s in keys <==> s in states
    requires |keys| > 0 && i == |keys| - 1 && PairsSoFar(states, keys, i, i + 1, None)
    ensures forall a, b :: !DisjointPair(states, a, b)
  {
    forall a, b | DisjointPair(states, a, b) ensures false {
      PairCovered(states, keys, i, a, b);
    }
  }

  /** Every disjoint pair of states is some candidate pair of keys. */
  lemma PairCovered(states: map<Mask, nat>, keys: seq<Mask>, i: nat, a: Mask, b: Mask)
    requires Distinct(keys) && forall s :: s in keys <==> s in states
    requires |keys| > 0 && i == |keys| - 1 && DisjointPair(states, a, b)
    ensures exists p, q :: Candidate(keys, p, q) && p < i && PairFlow(states, keys, p, q) == states[a] + states[b]
  {
    var p :| 0 <= p < |keys| && keys[p] == a;
    var q :| 0 <= q < |keys| && keys[q] == b;
    if p < q {
      assert Candidate(keys, p, q) && p < i;
    } else {
      OverlapsSymmetric(b, a);
      assert Candidate(keys, q, p) && q < i;
    }
  }

  /** `get_most_pressure_possible_with_elephant`: the best sum of the
    * answers of two states with no valve in common. */
  method GetMostPressureWithElephant(flowRates: map<Valve, nat>, tunnels: Tunnels, start: Valve, time: nat,
                                     walk: seq<Valve>)
      returns (r: Option<nat>, ghost states: map<Mask, nat>, ghost pairwise: map<Valve, map<Valve, nat>>)
    requires Walks(flowRates, start, walk)
    ensures r.Some? || Feasible(flowRates, tunnels, start, walk) ==>
      && |walk| <= 16 && AllShortest(tunnels, pairwise)
      && NetworkOk(NetworkOf(flowRates, start, walk, pairwise))
      && start in NetworkOf(flowRates, start, walk, pairwise).distances
    ensures r.Some? ==> Searched(NetworkOf(flowRates, start, walk, pairwise), start, time) == Some(states)
    ensures r.Some? ==> BestPair(states, r.value)
    ensures Feasible(flowRates, tunnels, start, walk) ==>
      && (Searched(NetworkOf(flowRates, start, walk, pairwise), start, time).Some? ==>
            Searched(NetworkOf(flowRates, start, walk, pairwise), start, time) == Some(states))
      && (r.Some? <==> Searched(NetworkOf(flowRates, start, walk, pairwise), start, time).Some? && HasDisjointPair(states))
  {
    var all;
    all, pairwise := GetAllStates(flowRates, tunnels, start, time, walk);
    states := if all.Some? then all.value else map[];
    r := PairUp(all);
  }

  /** The pairing half of `get_most_pressure_possible_with_elephant`, on
    * what `get_all_states` gave; a panic there is a panic here. */
  method PairUp(all: Option<map<Mask, nat>>) returns (r: Option<nat>)
    ensures r.Some? <==> all.Some? && HasDisjointPair(all.value)
    ensures r.Some? ==> BestPair(all.value, r.value)
  {
    if all.None? {
      return None;
    }
    var keys := KeysOf(all.value);
    r := BestDisjointPair(all.value, keys);
  }
}
