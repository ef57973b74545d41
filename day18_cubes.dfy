/** Day 18: the droplet's surface.  The cubes are stored in an octree; the
    surface area counts every face not shared with another cube, and the
    exterior area counts the faces reached by a flood fill from the corner. */
module Day18 {
  import opened Common
  import opened Day18Point
  import opened Day18Octree
  import opened Day18Create

  // ---------------------------------------------------------------------
  // `get_adjacent_positions`

  /** The face neighbours: up a step on x, y, z while below `upper`, then
      down a step on x, y, z while above 0. */
  function Adjacent(p: Point, upper: Ordinate): (ns: seq<Point>)
    ensures |ns| <= 6
  {
    (if p.x < upper then [p.(x := p.x + 1)] else [])
    + (if p.y < upper then [p.(y := p.y + 1)] else [])
    + (if p.z < upper then [p.(z := p.z + 1)] else [])
    + (if p.x > 0 then [p.(x := p.x - 1)] else [])
    + (if p.y > 0 then [p.(y := p.y - 1)] else [])
    + (if p.z > 0 then [p.(z := p.z - 1)] else [])
  }

  /** Two cubes share a face: they differ in one coordinate, by one. */
  predicate Touching(p: Point, n: Point) {
    Abs(p.x - n.x) + Abs(p.y - n.y) + Abs(p.z - n.z) == 1
  }

  /** The neighbours are exactly the cubes sharing a face, except that no
      step goes up from `upper` or beyond it. */
  lemma AdjacentMeaning(p: Point, upper: Ordinate, n: Point)
    ensures n in Adjacent(p, upper) <==>
      && Touching(p, n)
      && (n.x > p.x ==> p.x < upper)
      && (n.y > p.y ==> p.y < upper)
      && (n.z > p.z ==> p.z < upper)
  {
  }

  /** At most six neighbours, none twice, none the cube itself. */
  lemma AdjacentDistinct(p: Point, upper: Ordinate)
    ensures |Adjacent(p, upper)| <= 6
    ensures forall i, j :: 0 <= i < j < |Adjacent(p, upper)| ==> Adjacent(p, upper)[i] != Adjacent(p, upper)[j]
    ensures p !in Adjacent(p, upper)
  {
  }

  /** Within `[0, upper]` on every axis the neighbours stay there, and all
      six exist strictly inside. */
  lemma AdjacentWithin(p: Point, upper: Ordinate)
    requires p.x <= upper && p.y <= upper && p.z <= upper
    ensures forall n :: n in Adjacent(p, upper) ==> n.x <= upper && n.y <= upper && n.z <= upper
    ensures 0 < p.x < upper && 0 < p.y < upper && 0 < p.z < upper ==> |Adjacent(p, upper)| == 6
  {
  }

  // ---------------------------------------------------------------------
  // `count_open_facing_sides`

  /** `find` says the cube is there. */
  predicate Occupied(tree: Tree, n: Point)
    requires Shaped(tree)
  {
    Find(tree, n) == Some(Ok(true))
  }

  /** How many of the cells are found, or `None` if a `find` panics. */
  function Hits(tree: Tree, ns: seq<Point>): (r: Option<nat>)
    requires Shaped(tree)
    ensures r.Some? ==> r.value <= |ns|
  {
    if ns == [] then Some(0)
    else
      match Hits(tree, ns[..|ns| - 1])
      case None => None
      case Some(k) =>
        match Find(tree, ns[|ns| - 1])
        case None => None
        case Some(f) => Some(if f == Ok(true) then k + 1 else k)
  }

  /** The contacts counted: found neighbours of every cube. */
  function Contacts(tree: Tree, positions: seq<Point>): (r: Option<nat>)
    requires Shaped(tree)
    ensures r.Some? ==> r.value <= 6 * |positions|
  {
    if positions == [] then Some(0)
    else
      var p := positions[|positions| - 1];
      match Contacts(tree, positions[..|positions| - 1])
      case None => None
      case Some(c) =>
        match Hits(tree, Adjacent(p, 100))
        case None => None
        case Some(h) => Some(c + h)
  }

  /** Six faces a cube, less the contacts; the `usize` subtraction never
      underflows, since each cube has at most six contacts. */
  function OpenSides(positions: seq<Point>, tree: Tree): Option<nat>
    requires Shaped(tree)
  {
    match Contacts(tree, positions)
    case None => None
    case Some(c) => Some(6 * |positions| - c)
  }

  /** `count_open_facing_sides`; `None` is a panic in `find`. */
  method CountOpenFacingSides(positions: seq<Point>, tree: Tree) returns (r: Option<nat>)
    requires Shaped(tree)
    ensures r == OpenSides(positions, tree)
  {
    var total := 0;
    var i := 0;
    while i < |positions|
      invariant 0 <= i <= |positions|
      invariant Contacts(tree, positions[..i]).Some? && Contacts(tree, positions[..i]).value == total
    {
      var hits := CountFound(tree, Adjacent(positions[i], 100));
      ContactsStep(tree, positions, i, total);
      if hits.None? {
        ContactsNoneStays(tree, positions, i + 1);
        return None;
      }
      total := total + hits.value;
      i := i + 1;
    }
    assert positions[..i] == positions;
    OpenSidesOf(positions, tree, total);
    var open := 6 * |positions| - total;
    return Some(open);
  }

  /** The inner loop of `count_open_facing_sides`: the found cells among
      a cube's neighbours. */
  method CountFound(tree: Tree, adjacent: seq<Point>) returns (r: Option<nat>)
    requires Shaped(tree)
    ensures r == Hits(tree, adjacent)
  {
    var j := 0;
    var hits := 0;
    while j < |adjacent|
      invariant 0 <= j <= |adjacent|
      invariant Hits(tree, adjacent[..j]) == Some(hits)
    {
      assert adjacent[..j + 1][..j] == adjacent[..j];
      var found := Find(tree, adjacent[j]);
      if found.None? {
        NoneStays(tree, adjacent, j + 1);
        return None;
      }
      if found == Some(Ok(true)) {
        hits := hits + 1;
      }
      j := j + 1;
    }
    assert adjacent[..j] == adjacent;
    return Some(hits);
  }

  lemma ContactsStep(tree: Tree, ps: seq<Point>, i: nat, c: nat)
    requires Shaped(tree) && i < |ps| && Contacts(tree, ps[..i]) == Some(c)
    ensures Hits(tree, Adjacent(ps[i], 100)).None? ==> Contacts(tree, ps[..i + 1]).None?
    ensures Hits(tree, Adjacent(ps[i], 100)).Some? ==>
      Contacts(tree, ps[..i + 1]).Some? && Contacts(tree, ps[..i + 1]).value == c + Hits(tree, Adjacent(ps[i], 100)).value
  {
    assert ps[..i + 1][..i] == ps[..i];
  }

  /** Once a `find` panics, the count stays a panic. */
  lemma {:induction false} NoneStays(tree: Tree, ns: seq<Point>, k: nat)
    requires Shaped(tree) && k <= |ns| && Hits(tree, ns[..k]).None?
    ensures Hits(tree, ns).None?
    decreases |ns| - k
  {
    if k < |ns| {
      assert ns[..k + 1][..k] == ns[..k];
      NoneStays(tree, ns, k + 1);
    } else {
      assert ns[..k] == ns;
    }
  }

  lemma {:induction false} ContactsNoneStays(tree: Tree, ps: seq<Point>, k: nat)
    requires Shaped(tree) && k <= |ps| && Contacts(tree, ps[..k]).None?
    ensures Contacts(tree, ps).None?
    decreases |ps| - k
  {
    if k < |ps| {
      assert ps[..k + 1][..k] == ps[..k];
      ContactsNoneStays(tree, ps, k + 1);
    } else {
      assert ps[..k] == ps;
    }
  }

  /** How many of the cells are in the set. */
  function CountIn(ns: seq<Point>, cubes: set<Point>): (r: nat)
    ensures r <= |ns|
  {
    if ns == [] then 0 else CountIn(ns[..|ns| - 1], cubes) + (if ns[|ns| - 1] in cubes then 1 else 0)
  }

  /** Neighbours of every cube that are cubes themselves. */
  function Contacting(positions: seq<Point>, cubes: set<Point>): nat {
    if positions == [] then 0
    else Contacting(positions[..|positions| - 1], cubes) + CountIn(Adjacent(positions[|positions| - 1], 100), cubes)
  }

  /** A tree whose `find` answers membership in `cubes` and never panics. */
  ghost predicate Holds(tree: Tree, cubes: set<Point>)
    requires Shaped(tree)
  {
    forall q :: Find(tree, q).Some? && (Find(tree, q) == Some(Ok(true)) <==> q in cubes)
  }

  lemma {:induction false} HitsCount(tree: Tree, cubes: set<Point>, ns: seq<Point>)
    requires Shaped(tree) && Holds(tree, cubes)
    ensures Hits(tree, ns) == Some(CountIn(ns, cubes))
  {
    if ns != [] {
      HitsCount(tree, cubes, ns[..|ns| - 1]);
      assert Find(tree, ns[|ns| - 1]).Some?;
    }
  }

  lemma {:induction false} ContactsCount(tree: Tree, cubes: set<Point>, ps: seq<Point>)
    requires Shaped(tree) && Holds(tree, cubes)
    ensures Contacts(tree, ps) == Some(Contacting(ps, cubes))
  {
    if ps != [] {
      ContactsCount(tree, cubes, ps[..|ps| - 1]);
      HitsCount(tree, cubes, Adjacent(ps[|ps| - 1], 100));
    }
  }

  /** On a tree holding exactly the cubes, the open sides are six per cube
      less the shared faces counted from both sides. */
  lemma OpenSidesOfHeld(positions: seq<Point>, tree: Tree)
    requires Shaped(tree) && Holds(tree, Elements(positions))
    ensures OpenSides(positions, tree) == Some(6 * |positions| - Contacting(positions, Elements(positions)))
  {
    var c := Contacting(positions, Elements(positions));
    ContactsCount(tree, Elements(positions), positions);
    OpenSidesOf(positions, tree, c);
  }

  /** The open sides are six per cube less the contacts. */
  lemma OpenSidesOf(positions: seq<Point>, tree: Tree, c: nat)
    requires Shaped(tree) && Contacts(tree, positions) == Some(c)
    ensures c <= 6 * |positions|
    ensures OpenSides(positions, tree).Some? && OpenSides(positions, tree).value == 6 * |positions| - c
  {
  }

  // ---------------------------------------------------------------------
  // `count_outside_faces`

  /** Every point there is; each `u8` coordinate is below 256. */
  function AllPoints(): set<Point> {
    set x: Ordinate, y: Ordinate, z: Ordinate | 0 <= x < 0x100 && 0 <= y < 0x100 && 0 <= z < 0x100 :: Point(x, y, z)
  }

  lemma InAllPoints(p: Point)
    ensures p in AllPoints()
  {
    assert p == Point(p.x, p.y, p.z);
  }

  /** The cells `find` reports found. */
  ghost function FoundSet(tree: Tree): set<Point>
    requires Shaped(tree)
  {
    set p | p in AllPoints() && Occupied(tree, p)
  }

  lemma FoundSetMeaning(tree: Tree, p: Point)
    requires Shaped(tree)
    ensures p in FoundSet(tree) <==> Occupied(tree, p)
  {
    InAllPoints(p);
  }

  /** The faces between the region's cells and found cells. */
  function FacesOf(found: set<Point>, region: seq<Point>, adj: Point -> seq<Point>): nat {
    if region == [] then 0
    else FacesOf(found, region[..|region| - 1], adj) + CountIn(adj(region[|region| - 1]), found)
  }

  /** The region is connected: it starts at `start`, and each later cell is
      a neighbour of an earlier one. */
  ghost predicate Spanning(region: seq<Point>, start: Point, adj: Point -> seq<Point>) {
    && (|region| > 0 ==> region[0] == start)
    && forall k :: 0 < k < |region| ==> exists j :: 0 <= j < k && region[k] in adj(region[j])
  }

  /** No cell of the region is found, and none twice. */
  predicate Clear(found: set<Point>, region: seq<Point>) {
    && (forall k :: 0 <= k < |region| ==> region[k] !in found)
    && (forall j, k :: 0 <= j < k < |region| ==> region[j] != region[k])
  }

  /** Every neighbour of the region is in it or found. */
  ghost predicate Closed(found: set<Point>, region: seq<Point>, adj: Point -> seq<Point>) {
    forall k, n :: 0 <= k < |region| && n in adj(region[k]) ==> n in region || n in found
  }

  /** What `count_outside_faces` computes: the connected region of cells not
      found around `start`, and the faces between it and found cells, plus
      one when `start` itself is found. */
  ghost predicate OutsideFaces(found: set<Point>, start: Point, adj: Point -> seq<Point>, region: seq<Point>, faces: nat) {
    && Clear(found, region)
    && Spanning(region, start, adj)
    && Closed(found, region, adj)
    && (start !in found ==> |region| > 0)
    && faces == CountIn([start], found) + FacesOf(found, region, adj)
  }

  /** Every stacked cell is `start` or a neighbour of a visited one. */
  ghost predicate Reached(stack: seq<Point>, start: Point, adj: Point -> seq<Point>, order: seq<Point>) {
    forall i :: 0 <= i < |stack| ==> stack[i] == start || exists j :: 0 <= j < |order| && stack[i] in adj(order[j])
  }

  /** Every neighbour of a visited cell is visited, found or stacked. */
  ghost predicate Pending(found: set<Point>, adj: Point -> seq<Point>, stack: seq<Point>, visited: set<Point>, order: seq<Point>) {
    forall k, n :: 0 <= k < |order| && n in adj(order[k]) ==> n in visited || n in found || n in stack
  }

  /** The state of the flood fill between pops. */
  ghost predicate FillInv(found: set<Point>, start: Point, adj: Point -> seq<Point>, stack: seq<Point>, visited: set<Point>, order: seq<Point>, count: nat) {
    && (forall v :: v in visited <==> v in order)
    && Clear(found, order)
    && Spanning(order, start, adj)
    && (|order| == 0 ==> stack == [start] || (stack == [] && start in found))
    && Reached(stack, start, adj, order)
    && Pending(found, adj, stack, visited, order)
    && count + CountIn(stack, found) == CountIn([start], found) + FacesOf(found, order, adj)
  }

  /** The neighbour function of the fill. */
  function Neighbours(upper: Ordinate): Point -> seq<Point> {
    p => Adjacent(p, upper)
  }

  /** `get_max_point`, which returns the node's upper corner. */
  function GetMaxPoint(tree: Tree): Point {
    tree.maxPoint
  }

  /** `count_outside_faces`: a depth-first flood fill from `start` bounded by
      `max_point.x + 5`, counting one face for each pop of a found cell.
      `None` is a panic: the `u8` bound above 255, or a `find`.  The ghost
      `region` is the fill's visiting order. */
  method CountOutsideFaces(start: Point, tree: Tree) returns (r: Option<nat>, ghost region: seq<Point>)
    requires Shaped(tree)
    ensures GetMaxPoint(tree).x + 5 >= 0x100 ==> r.None?
    ensures GetMaxPoint(tree).x + 5 < 0x100 && MidsFit(tree) ==> r.Some?
    ensures r.Some? ==> OutsideFaces(FoundSet(tree), start, Neighbours(GetMaxPoint(tree).x + 5), region, r.value)
  {
    if GetMaxPoint(tree).x + 5 >= 0x100 {
      return None, [];
    }
    var max: Ordinate := GetMaxPoint(tree).x + 5;
    r, region := Fill(tree, start, max);
    assert Neighbours(max) == Neighbours(GetMaxPoint(tree).x + 5);
  }

  /** The flood fill of `count_outside_faces` below the bound `max`. */
  method Fill(tree: Tree, start: Point, max: Ordinate) returns (r: Option<nat>, ghost region: seq<Point>)
    requires Shaped(tree)
    ensures MidsFit(tree) ==> r.Some?
    ensures r.Some? ==> OutsideFaces(FoundSet(tree), start, Neighbours(max), region, r.value)
  {
    region := [];
    var visited: set<Point> := {};
    var stack := [start];
    var total := 0;
    while stack != []
      invariant FillInv(FoundSet(tree), start, Neighbours(max), stack, visited, region, total)
      decreases AllPoints() - visited, |stack|
    {
      var panicked;
      stack, visited, region, total, panicked := FillPop(tree, start, max, stack, visited, region, total);
      if panicked {
        return None, region;
      }
    }
    FillDone(FoundSet(tree), start, Neighbours(max), visited, region, total);
    return Some(total), region;
  }

  /** One pass of the loop of `count_outside_faces`: pop a cell; skip it if
      visited, count a face if found, else visit it and push its
      neighbours.  `panicked` is a panic in `find`. */
  method FillPop(tree: Tree, start: Point, max: Ordinate, stack: seq<Point>, visited: set<Point>, ghost order: seq<Point>, total: nat)
    returns (stack': seq<Point>, visited': set<Point>, ghost order': seq<Point>, total': nat, panicked: bool)
    requires Shaped(tree) && stack != []
    requires FillInv(FoundSet(tree), start, Neighbours(max), stack, visited, order, total)
    ensures panicked ==> !MidsFit(tree)
    ensures !panicked ==> FillInv(FoundSet(tree), start, Neighbours(max), stack', visited', order', total')
    ensures !panicked ==> AllPoints() - visited' < AllPoints() - visited || (visited' == visited && |stack'| < |stack|)
  {
    ghost var found := FoundSet(tree);
    var current := stack[|stack| - 1];
    var rest := stack[..|stack| - 1];
    stack', visited', order', total', panicked := rest, visited, order, total, false;
    if current in visited {
      FillSkip(found, start, Neighbours(max), stack, visited, order, total);
    } else {
      var f := Find(tree, current);
      if f.None? {
        FindNoPanicHere(tree, current);
        panicked := true;
        return;
      }
      FoundSetMeaning(tree, current);
      if f == Some(Ok(true)) {
        FillFound(found, start, Neighbours(max), stack, visited, order, total);
        total' := total + 1;
      } else {
        InAllPoints(current);
        FillVisit(found, start, Neighbours(max), stack, visited, order, total);
        assert Neighbours(max)(current) == Adjacent(current, max);
        stack' := rest + Adjacent(current, max);
        visited' := visited + {current};
        order' := order + [current];
      }
    }
  }

  lemma FindNoPanicHere(tree: Tree, p: Point)
    requires Shaped(tree) && Find(tree, p).None?
    ensures !MidsFit(tree)
  {
    if MidsFit(tree) {
      FindNoPanic(tree, p);
    }
  }

  lemma CountInAppend(s: seq<Point>, t: seq<Point>, cubes: set<Point>)
    ensures CountIn(s + t, cubes) == CountIn(s, cubes) + CountIn(t, cubes)
    decreases |t|
  {
    if t != [] {
      assert (s + t)[..|s + t| - 1] == s + t[..|t| - 1];
      CountInAppend(s, t[..|t| - 1], cubes);
    } else {
      assert s + t == s;
    }
  }

  /** Popping a cell already visited. */
  lemma FillSkip(found: set<Point>, start: Point, adj: Point -> seq<Point>, stack: seq<Point>, visited: set<Point>, order: seq<Point>, count: nat)
    requires FillInv(found, start, adj, stack, visited, order, count)
    requires stack != [] && stack[|stack| - 1] in visited
    ensures FillInv(found, start, adj, stack[..|stack| - 1], visited, order, count)
  {
    assert stack[|stack| - 1] !in found;
    Popped(found, start, adj, stack, visited, order, count, count);
  }

  /** Popping a found cell counts one face. */
  lemma FillFound(found: set<Point>, start: Point, adj: Point -> seq<Point>, stack: seq<Point>, visited: set<Point>, order: seq<Point>, count: nat)
    requires FillInv(found, start, adj, stack, visited, order, count)
    requires stack != [] && stack[|stack| - 1] !in visited && stack[|stack| - 1] in found
    ensures FillInv(found, start, adj, stack[..|stack| - 1], visited, order, count + 1)
  {
    Popped(found, start, adj, stack, visited, order, count, count + 1);
  }

  /** Dropping a stacked cell that is visited or found keeps the state,
      with the count taking the face it stood for. */
  lemma Popped(found: set<Point>, start: Point, adj: Point -> seq<Point>, stack: seq<Point>, visited: set<Point>, order: seq<Point>, count: nat, count': nat)
    requires FillInv(found, start, adj, stack, visited, order, count)
    requires stack != [] && (stack[|stack| - 1] in visited || stack[|stack| - 1] in found)
    requires count' == count + (if stack[|stack| - 1] in found then 1 else 0)
    ensures FillInv(found, start, adj, stack[..|stack| - 1], visited, order, count')
  {
    var rest, top := stack[..|stack| - 1], stack[|stack| - 1];
    PopReached(start, adj, stack, order);
    PopPending(found, adj, stack, visited, order);
    assert CountIn(stack, found) == CountIn(rest, found) + (if top in found then 1 else 0);
  }

  lemma PopReached(start: Point, adj: Point -> seq<Point>, stack: seq<Point>, order: seq<Point>)
    requires Reached(stack, start, adj, order) && stack != []
    ensures Reached(stack[..|stack| - 1], start, adj, order)
  {
    var rest := stack[..|stack| - 1];
    forall i | 0 <= i < |rest|
      ensures rest[i] == start || exists j :: 0 <= j < |order| && rest[i] in adj(order[j])
    {
      assert rest[i] == stack[i];
    }
  }

  lemma PopPending(found: set<Point>, adj: Point -> seq<Point>, stack: seq<Point>, visited: set<Point>, order: seq<Point>)
    requires Pending(found, adj, stack, visited, order)
    requires stack != [] && (stack[|stack| - 1] in visited || stack[|stack| - 1] in found)
    ensures Pending(found, adj, stack[..|stack| - 1], visited, order)
  {
    var rest := stack[..|stack| - 1];
    forall k, n | 0 <= k < |order| && n in adj(order[k])
      ensures n in visited || n in found || n in rest
    {
      if n !in visited && n !in found {
        var i :| 0 <= i < |stack| && stack[i] == n;
        assert i < |rest| && rest[i] == n;
      }
    }
  }

  /** Popping a new cell that is not found visits it and pushes its
      neighbours. */
  lemma FillVisit(found: set<Point>, start: Point, adj: Point -> seq<Point>, stack: seq<Point>, visited: set<Point>, order: seq<Point>, count: nat)
    requires FillInv(found, start, adj, stack, visited, order, count)
    requires stack != [] && stack[|stack| - 1] !in visited && stack[|stack| - 1] !in found
    ensures var current := stack[|stack| - 1];
      FillInv(found, start, adj, stack[..|stack| - 1] + adj(current), visited + {current}, order + [current], count)
  {
    VisitSpanning(start, adj, stack, visited, order);
    VisitReached(start, adj, stack, order);
    VisitPending(found, adj, stack, visited, order);
    VisitCount(found, start, adj, stack, order, count);
    VisitClear(found, order, stack[|stack| - 1]);
  }

  lemma VisitReached(start: Point, adj: Point -> seq<Point>, stack: seq<Point>, order: seq<Point>)
    requires Reached(stack, start, adj, order) && stack != []
    ensures var current := stack[|stack| - 1];
      Reached(stack[..|stack| - 1] + adj(current), start, adj, order + [current])
  {
    var current := stack[|stack| - 1];
    var rest := stack[..|stack| - 1];
    var stack' := rest + adj(current);
    var order' := order + [current];
    forall i | 0 <= i < |stack'|
      ensures stack'[i] == start || exists j :: 0 <= j < |order'| && stack'[i] in adj(order'[j])
    {
      if i < |rest| {
        assert stack'[i] == stack[i];
        if stack[i] != start {
          var j :| 0 <= j < |order| && stack[i] in adj(order[j]);
          assert order'[j] == order[j];
        }
      } else {
        assert stack'[i] in adj(order'[|order|]);
      }
    }
  }

  lemma VisitPending(found: set<Point>, adj: Point -> seq<Point>, stack: seq<Point>, visited: set<Point>, order: seq<Point>)
    requires Pending(found, adj, stack, visited, order) && stack != []
    ensures var current := stack[|stack| - 1];
      Pending(found, adj, stack[..|stack| - 1] + adj(current), visited + {current}, order + [current])
  {
    var current := stack[|stack| - 1];
    var rest := stack[..|stack| - 1];
    var stack' := rest + adj(current);
    var order' := order + [current];
    assert stack == rest + [current];
    forall k, n | 0 <= k < |order'| && n in adj(order'[k])
      ensures n in visited + {current} || n in found || n in stack'
    {
      if k < |order| {
        assert order'[k] == order[k];
      }
    }
  }

  lemma VisitCount(found: set<Point>, start: Point, adj: Point -> seq<Point>, stack: seq<Point>, order: seq<Point>, count: nat)
    requires stack != [] && stack[|stack| - 1] !in found
    requires count + CountIn(stack, found) == CountIn([start], found) + FacesOf(found, order, adj)
    ensures var current := stack[|stack| - 1];
      count + CountIn(stack[..|stack| - 1] + adj(current), found) == CountIn([start], found) + FacesOf(found, order + [current], adj)
  {
    var current := stack[|stack| - 1];
    CountInAppend(stack[..|stack| - 1], adj(current), found);
    assert (order + [current])[..|order|] == order;
  }

  lemma VisitClear(found: set<Point>, order: seq<Point>, current: Point)
    requires Clear(found, order) && current !in order && current !in found
    ensures Clear(found, order + [current])
  {
  }

  lemma VisitSpanning(start: Point, adj: Point -> seq<Point>, stack: seq<Point>, visited: set<Point>, order: seq<Point>)
    requires Spanning(order, start, adj) && stack != [] && stack[|stack| - 1] !in visited
    requires forall v :: v in visited <==> v in order
    requires |order| == 0 ==> stack == [start]
    requires forall i :: 0 <= i < |stack| ==> stack[i] == start || exists j :: 0 <= j < |order| && stack[i] in adj(order[j])
    ensures Spanning(order + [stack[|stack| - 1]], start, adj)
  {
    var current := stack[|stack| - 1];
    var order' := order + [current];
    if |order| > 0 {
      assert order[0] in visited;
      assert current != start;
      assert exists j :: 0 <= j < |order| && current in adj(order[j]);
    }
    forall k | 0 < k < |order'| ensures exists j :: 0 <= j < k && order'[k] in adj(order'[j]) {
      if k < |order| {
        var j :| 0 <= j < k && order[k] in adj(order[j]);
        assert order'[j] == order[j];
      } else {
        var j :| 0 <= j < |order| && current in adj(order[j]);
        assert order'[j] == order[j];
      }
    }
  }

  /** An empty stack ends the fill with the region its visiting order. */
  lemma FillDone(found: set<Point>, start: Point, adj: Point -> seq<Point>, visited: set<Point>, order: seq<Point>, count: nat)
    requires FillInv(found, start, adj, [], visited, order, count)
    ensures OutsideFaces(found, start, adj, order, count)
  {
  }

  // ---------------------------------------------------------------------
  // Reading the input

  /** `parse_input` on the lines of the input: every line read as a point,
      stopping at the first error; `None` is a panic in `from_str`. */
  function ParseLines(lines: seq<string>): Option<Result<seq<Point>, ParseIntError>> {
    if lines == [] then Some(Ok([]))
    else
      match FromStr(lines[0])
      case None => None
      case Some(Err(e)) => Some(Err(e))
      case Some(Ok(p)) =>
        match ParseLines(lines[1..])
        case None => None
        case Some(Err(e)) => Some(Err(e))
        case Some(Ok(ps)) => Some(Ok([p] + ps))
  }

  /** A successful read has one point per line, each the line's reading. */
  lemma {:induction false} ParseLinesMeaning(lines: seq<string>)
    requires ParseLines(lines).Some? && ParseLines(lines).value.Ok?
    ensures var ps := ParseLines(lines).value.value;
      |ps| == |lines| && forall i :: 0 <= i < |lines| ==> FromStr(lines[i]) == Some(Ok(ps[i]))
    decreases |lines|
  {
    if lines != [] {
      ParseLinesCons(lines);
      ParseLinesMeaning(lines[1..]);
      var ps := ParseLines(lines).value.value;
      var rest := ParseLines(lines[1..]).value.value;
      forall i | 0 < i < |lines| ensures FromStr(lines[i]) == Some(Ok(ps[i])) {
        assert lines[i] == lines[1..][i - 1] && ps[i] == rest[i - 1];
      }
    }
  }

  /** A successful read of several lines is the first line's point before
      the points of the rest. */
  lemma ParseLinesCons(lines: seq<string>)
    requires lines != [] && ParseLines(lines).Some? && ParseLines(lines).value.Ok?
    ensures ParseLines(lines[1..]).Some? && ParseLines(lines[1..]).value.Ok?
    ensures FromStr(lines[0]).Some? && FromStr(lines[0]).value.Ok?
    ensures ParseLines(lines).value.value == [FromStr(lines[0]).value.value] + ParseLines(lines[1..]).value.value
  {
  }

  /** A failed read names a line that does not read as a point. */
  lemma {:induction false} ParseLinesError(lines: seq<string>)
    requires ParseLines(lines).Some? && ParseLines(lines).value.Err?
    ensures exists i :: 0 <= i < |lines| && FromStr(lines[i]) == Some(Err(ParseIntError))
    decreases |lines|
  {
    if FromStr(lines[0]) != Some(Err(ParseIntError)) {
      ParseLinesError(lines[1..]);
      var i :| 1 <= i + 1 < |lines| && FromStr(lines[1..][i]) == Some(Err(ParseIntError));
      assert lines[1..][i] == lines[i + 1];
    }
  }

  /** `parse_input`: one point per line of the input. */
  function ParseInput(input: string): Option<Result<seq<Point>, ParseIntError>> {
    ParseLines(Split(input, '\n'))
  }

  /** The lines of a list of points, as the puzzle writes them. */
  function Lines(ps: seq<Point>): (lines: seq<string>)
    ensures |lines| == |ps| && forall i :: 0 <= i < |ps| ==> lines[i] == ToStr(ps[i])
  {
    if ps == [] then [] else [ToStr(ps[0])] + Lines(ps[1..])
  }

  /** Lines that each read as their point read as the list. */
  lemma {:induction false} ParseLinesOfLines(ps: seq<Point>)
    ensures ParseLines(Lines(ps)) == Some(Ok(ps))
    decreases |ps|
  {
    if ps != [] {
      var lines := Lines(ps);
      assert lines[0] == ToStr(ps[0]);
      FromStrToStr(ps[0]);
      assert lines[1..] == Lines(ps[1..]);
      ParseLinesOfLines(ps[1..]);
      ParseLinesStep(lines, ps[0], ps[1..]);
      assert [ps[0]] + ps[1..] == ps;
    }
  }

  /** Reading a line's point before the points of the rest. */
  lemma ParseLinesStep(lines: seq<string>, p: Point, rest: seq<Point>)
    requires lines != [] && FromStr(lines[0]) == Some(Ok(p)) && ParseLines(lines[1..]) == Some(Ok(rest))
    ensures ParseLines(lines) == Some(Ok([p] + rest))
  {
  }

  /** Reading the written points gives them back. */
  lemma ParseInputRoundTrip(ps: seq<Point>)
    requires ps != []
    ensures ParseInput(Join(Lines(ps), '\n')) == Some(Ok(ps))
  {
    var lines := Lines(ps);
    forall i, j | 0 <= i < |lines| && 0 <= j < |lines[i]| ensures lines[i][j] != '\n' {
      ToStrChars(ps[i], j);
    }
    SplitJoin(lines, '\n');
    ParseLinesOfLines(ps);
  }

  /** A written point holds digits and commas only. */
  lemma ToStrChars(p: Point, j: nat)
    requires j < |ToStr(p)|
    ensures IsDigit(ToStr(p)[j]) || ToStr(p)[j] == ','
  {
    var a, b, c := NatToString(p.x), NatToString(p.y), NatToString(p.z);
    assert [a, b, c][1..] == [b, c] && [b, c][1..] == [c];
    assert Join([c], ',') == c;
    assert Join([b, c], ',') == b + [','] + c;
    assert ToStr(p) == a + [','] + (b + [','] + c);
    if j < |a| {
      assert ToStr(p)[j] == a[j];
    } else if j > |a| && j < |a| + 1 + |b| {
      assert ToStr(p)[j] == b[j - |a| - 1];
    } else if j > |a| + 1 + |b| {
      assert ToStr(p)[j] == c[j - |a| - 2 - |b|];
    }
  }

  /** `main` moves every cube up by one on each axis, to leave room for the
      fill's start at the origin; `None` is the `u8` overflow of a
      coordinate 255. */
  function ShiftUp(ps: seq<Point>): (r: Option<seq<Point>>)
    ensures r.Some? <==> forall i :: 0 <= i < |ps| ==> ps[i].x < 0xFF && ps[i].y < 0xFF && ps[i].z < 0xFF
    ensures r.Some? ==> |r.value| == |ps| && forall i :: 0 <= i < |ps| ==>
      r.value[i] == Point(ps[i].x + 1, ps[i].y + 1, ps[i].z + 1)
  {
    if ps == [] then Some([])
    else
      var p := ps[0];
      if p.x == 0xFF || p.y == 0xFF || p.z == 0xFF then None
      else
        match ShiftUp(ps[1..])
        case None => None
        case Some(rest) => Some([Point(p.x + 1, p.y + 1, p.z + 1)] + rest)
  }

  // ---------------------------------------------------------------------
  // The tree `main` builds

  /** When every coordinate is at least 1, as `main` makes them, a tree
      `create_tree` builds finds exactly the given cubes and never panics. */
  lemma CreatedHolds(positions: seq<Point>)
    requires forall i :: 0 <= i < |positions| ==> positions[i].x >= 1 && positions[i].y >= 1 && positions[i].z >= 1
    requires Created(positions).Some? && Created(positions).value.Ok?
    ensures var t := Created(positions).value.value;
      Shaped(t) && MidsFit(t) && Holds(t, Elements(positions))
  {
    CreatedFrom(positions);
    var u := Created(positions).value.value;
    var pw := FirstPowerOfTwo(MaxCoord(positions), 0).value;
    FirstPowerOfTwoMeaning(MaxCoord(positions), 0);
    CubesInRoot(positions, pw);
    var t := Root(MinCoord(positions), pw);
    InsertAllFacts(t, positions);
    assert GetMidPoint(u).Some?;
    forall q ensures Find(u, q).Some? && (Find(u, q) == Some(Ok(true)) <==> q in Elements(positions)) {
      HeldAt(t, positions, q);
    }
  }

  /** One point of that tree: found if it is one of the cubes, not found
      otherwise, and never a panic. */
  lemma HeldAt(t: Tree, positions: seq<Point>, q: Point)
    requires WellFormed(t) && Shaped(t) && Stored(t) == {}
    requires forall p :: InBox(p, t) ==> Find(t, p) == Some(Ok(false))
    requires forall i :: 0 <= i < |positions| ==> InBox(positions[i], t)
    requires InsertAll(t, positions).Some? && InsertAll(t, positions).value.Ok?
    requires Shaped(InsertAll(t, positions).value.value) && MidsFit(InsertAll(t, positions).value.value)
    requires Stored(InsertAll(t, positions).value.value) == Stored(t) + Elements(positions)
    ensures var u := InsertAll(t, positions).value.value;
      Find(u, q).Some? && (Find(u, q) == Some(Ok(true)) <==> q in positions)
  {
    var u := InsertAll(t, positions).value.value;
    FindNoPanic(u, q);
    if InBox(q, t) {
      InsertAllFind(t, positions, q);
    } else if Find(u, q) == Some(Ok(true)) {
      FindTrueIsStored(u, q);
      assert false;
    }
  }
}
