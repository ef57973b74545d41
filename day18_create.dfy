/** Day 18: `create_tree`, which sizes a cube-shaped octree around the
    droplet and inserts every cube. */
module Day18Create {
  import opened Common
  import opened Day18Point
  import opened Day18Octree

  /** The smallest coordinate of any cube. */
  function MinCoord(ps: seq<Point>): (m: Ordinate)
    requires |ps| > 0
    ensures forall i :: 0 <= i < |ps| ==> m <= ps[i].x && m <= ps[i].y && m <= ps[i].z
    ensures exists i :: 0 <= i < |ps| && (m == ps[i].x || m == ps[i].y || m == ps[i].z)
  {
    var p := ps[|ps| - 1];
    var here := Min(Min(p.x, p.y), p.z);
    if |ps| == 1 then here else Min(MinCoord(ps[..|ps| - 1]), here)
  }

  /** The largest coordinate of any cube. */
  function MaxCoord(ps: seq<Point>): (m: Ordinate)
    requires |ps| > 0
    ensures forall i :: 0 <= i < |ps| ==> ps[i].x <= m && ps[i].y <= m && ps[i].z <= m
    ensures exists i :: 0 <= i < |ps| && (m == ps[i].x || m == ps[i].y || m == ps[i].z)
  {
    var p := ps[|ps| - 1];
    var here := Max(Max(p.x, p.y), p.z);
    if |ps| == 1 then here else Max(MaxCoord(ps[..|ps| - 1]), here)
  }

  /** The search `(0..).map(|exp| 2u8.pow(exp)).find(|v| *v >= max)` from
      exponent `e`; `None` is the `u8` overflow of `2^8`. */
  function FirstPowerOfTwo(hi: int, e: nat): (r: Option<int>)
    requires e <= 8
    ensures r.Some? ==> IsPowerOfTwo(r.value) && hi <= r.value && Pow(2, e) <= r.value <= 128
    decreases 8 - e
  {
    if e == 8 then None
    else
      PowTwoFacts(e);
      PowTwoMonotone(e, 7);
      if Pow(2, e) >= hi then Some(Pow(2, e))
      else
        PowTwoFacts(e + 1);
        FirstPowerOfTwo(hi, e + 1)
  }

  lemma {:induction false} PowTwoFacts(e: nat)
    ensures IsPowerOfTwo(Pow(2, e)) && Pow(2, e) >= 1
    ensures e > 0 ==> Pow(2, e) / 2 == Pow(2, e - 1)
    ensures Pow(2, 7) == 128
  {
    if e > 0 {
      PowTwoFacts(e - 1);
    }
  }

  lemma {:induction false} PowTwoMonotone(e: nat, f: nat)
    requires e <= f
    ensures Pow(2, e) <= Pow(2, f)
    decreases f - e
  {
    if e < f {
      PowTwoMonotone(e, f - 1);
      PowTwoFacts(f);
    }
  }

  /** The search finds the smallest power of two at least `hi`, unless that
      exceeds 128. */
  lemma {:induction false} FirstPowerOfTwoMeaning(hi: int, e: nat)
    requires e <= 8 && (e > 0 ==> Pow(2, e - 1) < hi)
    ensures FirstPowerOfTwo(hi, e).Some? <==> hi <= 128
    ensures FirstPowerOfTwo(hi, e).Some? ==>
      var v := FirstPowerOfTwo(hi, e).value;
      IsPowerOfTwo(v) && hi <= v <= 128 && (v == 1 || v / 2 < hi)
    decreases 8 - e
  {
    PowTwoFacts(e);
    if e < 8 {
      PowTwoMonotone(e, 7);
      if Pow(2, e) < hi {
        FirstPowerOfTwoMeaning(hi, e + 1);
      }
    }
  }

  /** The inserts of `create_tree`'s loop, in order; the first error or
      panic ends them. */
  function InsertAll(t: Tree, ps: seq<Point>): (r: Option<Result<Tree, OctreeError>>)
    requires WellFormed(t)
    ensures r.Some? && r.value.Err? ==>
      r.value.error == OctreeError(OUT_OF_BOUNDS) || r.value.error == OctreeError(ALREADY_EXISTS)
    ensures r.Some? && r.value.Ok? ==> WellFormed(r.value.value)
    ensures r.Some? && r.value.Ok? ==> r.value.value.minPoint == t.minPoint && r.value.value.maxPoint == t.maxPoint
  {
    if ps == [] then Some(Ok(t))
    else
      match InsertAll(t, ps[..|ps| - 1])
      case None => None
      case Some(Err(e)) => Some(Err(e))
      case Some(Ok(u)) => InsertChecked(u, ps[|ps| - 1])
  }

  /** `insert`, with the shape it keeps. */
  function InsertChecked(t: Tree, p: Point): (r: Option<Result<Tree, OctreeError>>)
    requires WellFormed(t)
    ensures r == Insert(t, p)
    ensures r.Some? && r.value.Ok? ==> WellFormed(r.value.value)
    ensures r.Some? && r.value.Ok? ==> r.value.value.minPoint == t.minPoint && r.value.value.maxPoint == t.maxPoint
  {
    if Insert(t, p).Some? && Insert(t, p).value.Ok? then
      InsertKeepsShape(t, p);
      Insert(t, p)
    else
      Insert(t, p)
  }

  /** The empty tree `create_tree` starts from: a cube of side `pw` at
      `(lo, lo, lo)`, which finds nothing in its box. */
  function Root(lo: Ordinate, pw: int): (t: Tree)
    requires IsPowerOfTwo(pw) && 2 <= pw && lo + pw < 0x100
    ensures t == New(Point(lo, lo, lo), Point(lo + pw, lo + pw, lo + pw))
    ensures WellFormed(t) && Shaped(t) && ChildrenFit(t) && Stored(t) == {}
    ensures GetMidPoint(t).Some? <==> lo + pw + lo < 0x100
    ensures GetMidPoint(t).Some? ==> forall p :: InBox(p, t) ==> Find(t, p) == Some(Ok(false))
  {
    var t := New(Point(lo, lo, lo), Point(lo + pw, lo + pw, lo + pw));
    assert WellFormed(t);
    forall p | GetMidPoint(t).Some? && InBox(p, t) ensures Find(t, p) == Some(Ok(false)) {
      InBoxValidates(t, p);
      FindFresh(t.minPoint, t.maxPoint, p);
    }
    t
  }

  /** The result of `create_tree`.  `None` is a panic: no cubes, the power
      of two above 128, `min + power_of_two` above 255, or the unbounded
      recursion of `insert` on a box of side 1, which keeps handing every
      point in bounds to an octant with the same box. */
  function Created(positions: seq<Point>): (r: Option<Result<Tree, OctreeError>>)
    ensures positions == [] ==> r.None?
    ensures r.Some? && r.value.Err? ==>
      r.value.error == OctreeError(OUT_OF_BOUNDS) || r.value.error == OctreeError(ALREADY_EXISTS)
    ensures r.Some? && r.value.Ok? ==> WellFormed(r.value.value)
  {
    if positions == [] then None
    else
      var lo := MinCoord(positions);
      match FirstPowerOfTwo(MaxCoord(positions), 0)
      case None => None
      case Some(pw) =>
        if lo + pw >= 0x100 then None
        else
          if pw == 1 then
            var t := New(Point(lo, lo, lo), Point(lo + pw, lo + pw, lo + pw));
            if ValidatePoint(t, positions[0]).Err? then Some(Err(ValidatePoint(t, positions[0]).error)) else None
          else
            FirstPowerOfTwoMeaning(MaxCoord(positions), 0);
            InsertAll(Root(lo, pw), positions)
  }

  /** `create_tree`. */
  method CreateTree(positions: seq<Point>) returns (r: Option<Result<Tree, OctreeError>>)
    ensures r == Created(positions)
  {
    if positions == [] {
      return None;
    }
    var lo := MinCoord(positions);
    var pwr := FirstPowerOfTwo(MaxCoord(positions), 0);
    if pwr.None? || lo + pwr.value >= 0x100 {
      return None;
    }
    var pw := pwr.value;
    if pw == 1 {
      var v := ValidatePoint(New(Point(lo, lo, lo), Point(lo + 1, lo + 1, lo + 1)), positions[0]);
      return if v.Err? then Some(Err(v.error)) else None;
    }
    FirstPowerOfTwoMeaning(MaxCoord(positions), 0);
    var tree := Root(lo, pw);
    r := InsertPositions(tree, positions);
  }

  /** The loop of `create_tree`: `tree.insert(position)?` for each cube. */
  method InsertPositions(t: Tree, positions: seq<Point>) returns (r: Option<Result<Tree, OctreeError>>)
    requires WellFormed(t)
    ensures r == InsertAll(t, positions)
  {
    var tree := t;
    var i := 0;
    while i < |positions|
      invariant 0 <= i <= |positions| && WellFormed(tree)
      invariant InsertAll(t, positions[..i]) == Some(Ok(tree))
    {
      assert positions[..i + 1][..i] == positions[..i];
      var step := InsertChecked(tree, positions[i]);
      if step.None? || step.value.Err? {
        InsertAllStops(t, positions, i + 1);
        return step;
      }
      tree := step.value.value;
      i := i + 1;
    }
    assert positions[..i] == positions;
    return Some(Ok(tree));
  }

  /** After an error or a panic the later inserts are not made. */
  lemma {:induction false} InsertAllStops(t: Tree, ps: seq<Point>, k: nat)
    requires WellFormed(t) && 0 < k <= |ps|
    requires InsertAll(t, ps[..k]).None? || InsertAll(t, ps[..k]).value.Err?
    ensures InsertAll(t, ps) == InsertAll(t, ps[..k])
    decreases |ps| - k
  {
    if k < |ps| {
      assert ps[..k + 1][..k] == ps[..k];
      InsertAllStops(t, ps, k + 1);
    } else {
      assert ps[..k] == ps;
    }
  }

  /** Every midpoint below the root fits a `u8`. */
  predicate ChildrenFit(t: Tree) {
    forall i :: 0 <= i < |t.children| ==> ChildMidsFit(t.children[i])
  }

  /** What a run of successful inserts does to the tree: the held points grow
      by the inserted ones, and every midpoint fits. */
  lemma {:induction false} InsertAllFacts(t: Tree, ps: seq<Point>)
    requires WellFormed(t) && ChildrenFit(t)
    requires InsertAll(t, ps).Some? && InsertAll(t, ps).value.Ok?
    ensures var u := InsertAll(t, ps).value.value;
      && Shaped(t) && Shaped(u)
      && Stored(u) == Stored(t) + Elements(ps)
      && (ps != [] ==> MidsFit(u))
      && (ps == [] ==> u == t)
  {
    WellFormedShaped(t);
    var u := InsertAll(t, ps).value.value;
    WellFormedShaped(u);
    if ps != [] {
      var init := ps[..|ps| - 1];
      var last := ps[|ps| - 1];
      InsertAllFacts(t, init);
      var u' := InsertAll(t, init).value.value;
      assert ChildrenFit(u');
      assert u == Insert(u', last).value.value;
      InsertKeepsShape(u', last);
      InsertMidsFit(u', last);
    }
  }

  /** After a run of successful inserts an inserted point is found, and
      every other point of the box answers as before. */
  lemma {:induction false} InsertAllFind(t: Tree, ps: seq<Point>, q: Point)
    requires WellFormed(t) && InBox(q, t)
    requires InsertAll(t, ps).Some? && InsertAll(t, ps).value.Ok?
    ensures Shaped(t) && Shaped(InsertAll(t, ps).value.value)
    ensures Find(InsertAll(t, ps).value.value, q) == if q in ps then Some(Ok(true)) else Find(t, q)
  {
    WellFormedShaped(t);
    var u := InsertAll(t, ps).value.value;
    WellFormedShaped(u);
    if ps != [] {
      var init := ps[..|ps| - 1];
      var last := ps[|ps| - 1];
      InsertAllFind(t, init, q);
      var u' := InsertAll(t, init).value.value;
      assert u == Insert(u', last).value.value;
      InSnoc(ps, q);
      if q == last {
        InsertThenFind(u', last);
      } else {
        InsertKeepsOthers(u', last, q);
      }
    }
  }

  /** A tree `create_tree` builds is the run of inserts into its root. */
  lemma CreatedFrom(positions: seq<Point>)
    requires Created(positions).Some? && Created(positions).value.Ok?
    ensures positions != [] && FirstPowerOfTwo(MaxCoord(positions), 0).Some?
    ensures var lo, pw := MinCoord(positions), FirstPowerOfTwo(MaxCoord(positions), 0).value;
      && IsPowerOfTwo(pw) && 2 <= pw && lo + pw < 0x100
      && Created(positions) == InsertAll(Root(lo, pw), positions)
  {
    FirstPowerOfTwoMeaning(MaxCoord(positions), 0);
  }

  /** With every coordinate at least 1, every cube lies in the root's box. */
  lemma CubesInRoot(positions: seq<Point>, pw: int)
    requires forall i :: 0 <= i < |positions| ==> positions[i].x >= 1 && positions[i].y >= 1 && positions[i].z >= 1
    requires positions != [] && IsPowerOfTwo(pw) && 2 <= pw && MinCoord(positions) + pw < 0x100
    requires MaxCoord(positions) <= pw
    ensures forall i :: 0 <= i < |positions| ==> InBox(positions[i], Root(MinCoord(positions), pw))
  {
    var lo := MinCoord(positions);
    var t := Root(lo, pw);
    assert lo >= 1;
    forall i | 0 <= i < |positions| ensures InBox(positions[i], t) {
      var p := positions[i];
      assert lo <= p.x < lo + pw && lo <= p.y < lo + pw && lo <= p.z < lo + pw;
    }
  }

  /** `create_tree` spans `min` to `min` plus the smallest power of two not
      below the largest coordinate, at least 2, on every axis. */
  lemma CreatedBox(positions: seq<Point>)
    requires Created(positions).Some? && Created(positions).value.Ok?
    ensures var t := Created(positions).value.value;
      var m := MinCoord(positions);
      && t.minPoint == Point(m, m, m)
      && t.maxPoint == Point(m + Side(t), m + Side(t), m + Side(t))
      && IsPowerOfTwo(Side(t)) && 2 <= Side(t)
      && MaxCoord(positions) <= Side(t) && Side(t) / 2 < MaxCoord(positions)
  {
    FirstPowerOfTwoMeaning(MaxCoord(positions), 0);
  }

  /** The cubes of a list, as a set. */
  function Elements(ps: seq<Point>): (r: set<Point>)
    ensures forall x :: x in r <==> x in ps
  {
    if ps == [] then {} else Elements(ps[..|ps| - 1]) + {ps[|ps| - 1]}
  }
}
