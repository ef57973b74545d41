/** Day 18: the octree that stores the droplet's cubes.  A node covers the
    box from `minPoint` (inclusive) to `maxPoint` (exclusive) and has eight
    children, one per octant around its midpoint; a child is an empty leaf,
    a leaf holding one point, or a smaller tree. */
module Day18Octree {
  import opened Common
  import opened Day18Point

  /** `OctreeError`, with its message. */
  datatype OctreeError = OctreeError(msg: string)

  const OUT_OF_BOUNDS := "Point out of bounds."
  const ALREADY_EXISTS := "Point already exists!"

  datatype Octree = Leaf(point: Option<Point>) | Branch(tree: Tree)

  /** `Tree`; `children` always has eight entries, indexed by `Octant`. */
  datatype Tree = Tree(minPoint: Point, maxPoint: Point, children: seq<Octree>)

  datatype Octant =
    | TopLeftFront | TopRightFront | BottomRightFront | BottomLeftFront
    | TopLeftBack | TopRightBack | BottomRightBack | BottomLeftBack

  /** `octant as usize`. */
  function Index(o: Octant): (i: nat)
    ensures i < 8
  {
    match o
    case TopLeftFront => 0
    case TopRightFront => 1
    case BottomRightFront => 2
    case BottomLeftFront => 3
    case TopLeftBack => 4
    case TopRightBack => 5
    case BottomRightBack => 6
    case BottomLeftBack => 7
  }

  /** Which half of each axis an octant covers: "Right", "Top" and "Back"
      are the upper halves of x, y and z. */
  predicate UpperX(o: Octant) {
    o.TopRightFront? || o.BottomRightFront? || o.TopRightBack? || o.BottomRightBack?
  }

  predicate UpperY(o: Octant) {
    o.TopLeftFront? || o.TopRightFront? || o.TopLeftBack? || o.TopRightBack?
  }

  predicate UpperZ(o: Octant) {
    o.TopLeftBack? || o.TopRightBack? || o.BottomRightBack? || o.BottomLeftBack?
  }

  /** Distinct octants have distinct indices. */
  lemma IndexInjective(o: Octant, u: Octant)
    requires Index(o) == Index(u)
    ensures o == u
  {
  }

  /** `Tree::new`: eight empty leaves. */
  function New(minPoint: Point, maxPoint: Point): (t: Tree)
    ensures Shaped(t) && Stored(t) == {}
  {
    var t := Tree(minPoint, maxPoint, seq(8, _ => Leaf(None)));
    assert forall i :: 0 <= i < 8 ==> LeafPoints(t.children[i]) == {};
    StoredOfLeaves(t.children, 8);
    t
  }

  /** Every node has its eight children. */
  predicate Shaped(t: Tree)
    decreases t
  {
    && |t.children| == 8
    && forall i :: 0 <= i < 8 ==> (t.children[i].Branch? ==> Shaped(t.children[i].tree))
  }

  // ---------------------------------------------------------------------
  // Bounds and the midpoint

  /** `validate_point`: an error when the point is below `minPoint` or not
      below `maxPoint`, in `Point`'s lexicographic order. */
  function ValidatePoint(t: Tree, p: Point): (r: Result<(), OctreeError>)
    ensures r.Err? ==> r.error == OctreeError(OUT_OF_BOUNDS)
  {
    if Below(p, t.minPoint) || !Below(p, t.maxPoint) then Err(OctreeError(OUT_OF_BOUNDS)) else Ok(())
  }

  /** The point lies inside the node's box on every axis. */
  predicate InBox(p: Point, t: Tree) {
    && t.minPoint.x <= p.x < t.maxPoint.x
    && t.minPoint.y <= p.y < t.maxPoint.y
    && t.minPoint.z <= p.z < t.maxPoint.z
  }

  /** A point inside the box on every axis passes validation. */
  lemma InBoxValidates(t: Tree, p: Point)
    requires InBox(p, t)
    ensures ValidatePoint(t, p).Ok?
  {
    CmpMeaning(p, t.minPoint);
    CmpMeaning(p, t.maxPoint);
  }

  /** Validation is lexicographic, not per axis: a point far outside the box
      on two axes still passes it. */
  lemma ValidateIsLexicographic()
    ensures var t := New(Point(0, 0, 0), Point(2, 2, 2));
      !InBox(Point(1, 5, 5), t) && ValidatePoint(t, Point(1, 5, 5)).Ok?
  {
  }

  /** The midpoint, by integer halving on each axis. */
  function Mid(t: Tree): Point {
    Point((t.maxPoint.x + t.minPoint.x) / 2, (t.maxPoint.y + t.minPoint.y) / 2, (t.maxPoint.z + t.minPoint.z) / 2)
  }

  /** `get_mid_point`; `None` is the panic of a `u8` sum above 255. */
  function GetMidPoint(t: Tree): (r: Option<Point>)
    ensures r.Some? ==> r.value == Mid(t)
  {
    if t.maxPoint.x + t.minPoint.x >= 0x100 || t.maxPoint.y + t.minPoint.y >= 0x100 || t.maxPoint.z + t.minPoint.z >= 0x100
    then None
    else Some(Mid(t))
  }

  /** `get_octant`: `Less` against the midpoint on an axis picks the lower
      half, `Equal` or `Greater` the upper half. */
  function GetOctant(mid: Point, p: Point): (o: Octant)
    ensures UpperX(o) <==> p.x >= mid.x
    ensures UpperY(o) <==> p.y >= mid.y
    ensures UpperZ(o) <==> p.z >= mid.z
  {
    var lx, ly, lz := CompareInt(p.x, mid.x) == Less, CompareInt(p.y, mid.y) == Less, CompareInt(p.z, mid.z) == Less;
    if lx && ly && lz then BottomLeftFront
    else if lx && ly then BottomLeftBack
    else if ly && lz then BottomRightFront
    else if ly then BottomRightBack
    else if lx && lz then TopLeftFront
    else if lx then TopLeftBack
    else if lz then TopRightFront
    else TopRightBack
  }

  /** The box of a new child, per octant, as `insert` lists them. */
  function ChildBox(o: Octant, lo: Point, hi: Point, mid: Point): (Point, Point) {
    match o
    case TopLeftFront => (Point(lo.x, mid.y, lo.z), Point(mid.x, hi.y, mid.z))
    case TopRightFront => (Point(mid.x, mid.y, lo.z), Point(hi.x, hi.y, mid.z))
    case BottomRightFront => (Point(mid.x, lo.y, lo.z), Point(hi.x, mid.y, mid.z))
    case BottomLeftFront => (Point(lo.x, lo.y, lo.z), Point(mid.x, mid.y, mid.z))
    case TopLeftBack => (Point(lo.x, mid.y, mid.z), Point(mid.x, hi.y, hi.z))
    case TopRightBack => (Point(mid.x, mid.y, mid.z), Point(hi.x, hi.y, hi.z))
    case BottomRightBack => (Point(mid.x, lo.y, mid.z), Point(hi.x, mid.y, hi.z))
    case BottomLeftBack => (Point(lo.x, lo.y, mid.z), Point(mid.x, mid.y, hi.z))
  }

  /** Each octant's box is the lower or upper half on every axis, as the
      octant's name says, so it agrees with `get_octant`. */
  lemma ChildBoxByAxes(o: Octant, lo: Point, hi: Point, mid: Point)
    ensures ChildBox(o, lo, hi, mid).0 ==
      Point(if UpperX(o) then mid.x else lo.x, if UpperY(o) then mid.y else lo.y, if UpperZ(o) then mid.z else lo.z)
    ensures ChildBox(o, lo, hi, mid).1 ==
      Point(if UpperX(o) then hi.x else mid.x, if UpperY(o) then hi.y else mid.y, if UpperZ(o) then hi.z else mid.z)
  {
  }

  // ---------------------------------------------------------------------
  // `find`

  /** A subtree in a child has its eight children. */
  predicate ChildShaped(c: Octree) {
    c.Branch? ==> Shaped(c.tree)
  }

  /** `find`: check the bounds, then follow the octant of the point down to
      a leaf; `None` is a panic. */
  function Find(t: Tree, p: Point): (r: Option<Result<bool, OctreeError>>)
    requires Shaped(t)
    ensures ValidatePoint(t, p).Err? ==> r == Some(Err(OctreeError(OUT_OF_BOUNDS)))
    ensures r.Some? && r.value.Err? ==> r.value.error == OctreeError(OUT_OF_BOUNDS)
    decreases t, 1
  {
    match ValidatePoint(t, p)
    case Err(e) => Some(Err(e))
    case Ok(_) =>
      match GetMidPoint(t)
      case None => None
      case Some(mid) => FindIn(t.children[Index(GetOctant(mid, p))], p)
  }

  /** The `match child` of `find`. */
  function FindIn(c: Octree, p: Point): (r: Option<Result<bool, OctreeError>>)
    requires ChildShaped(c)
    ensures r.Some? && r.value.Err? ==> r.value.error == OctreeError(OUT_OF_BOUNDS)
    decreases c, 0
  {
    match c
    case Leaf(None) => Some(Ok(false))
    case Leaf(Some(q)) => Some(Ok(q == p))
    case Branch(sub) => Find(sub, p)
  }

  /** On a fresh tree, a point in bounds is not found, one out of bounds is
      the bounds error, and only the midpoint's overflow panics. */
  lemma FindFresh(minPoint: Point, maxPoint: Point, p: Point)
    ensures var t := New(minPoint, maxPoint);
      Find(t, p) ==
        if ValidatePoint(t, p).Err? then Some(Err(OctreeError(OUT_OF_BOUNDS)))
        else if GetMidPoint(t).None? then None
        else Some(Ok(false))
  {
  }

  // ---------------------------------------------------------------------
  // The points a tree holds

  function LeafPoints(c: Octree): set<Point>
    decreases c, 1
  {
    match c
    case Leaf(None) => {}
    case Leaf(Some(q)) => {q}
    case Branch(sub) => Stored(sub)
  }

  /** The points held in the first `n` children, and below them. */
  function StoredIn(cs: seq<Octree>, n: nat): set<Point>
    requires n <= |cs|
    decreases cs, n
  {
    if n == 0 then {} else StoredIn(cs, n - 1) + LeafPoints(cs[n - 1])
  }

  /** Every point held in a leaf of the tree. */
  function Stored(t: Tree): set<Point>
    decreases t, 0
  {
    StoredIn(t.children, |t.children|)
  }

  lemma {:induction false} StoredOfLeaves(cs: seq<Octree>, n: nat)
    requires n <= |cs|
    requires forall i :: 0 <= i < n ==> LeafPoints(cs[i]) == {}
    ensures StoredIn(cs, n) == {}
  {
    if n > 0 {
      StoredOfLeaves(cs, n - 1);
    }
  }

  lemma {:induction false} StoredInChild(cs: seq<Octree>, n: nat, i: nat)
    requires i < n <= |cs|
    ensures LeafPoints(cs[i]) <= StoredIn(cs, n)
  {
    if i < n - 1 {
      StoredInChild(cs, n - 1, i);
    }
  }

  /** Replacing one child changes the points by that child's points. */
  lemma {:induction false} StoredInReplace(cs: seq<Octree>, n: nat, i: nat, c: Octree)
    requires i < |cs| && n <= |cs|
    ensures StoredIn(cs[i := c], n) + (if i < n then LeafPoints(cs[i]) else {}) ==
      StoredIn(cs, n) + (if i < n then LeafPoints(c) else {})
  {
    if n > 0 {
      StoredInReplace(cs, n - 1, i, c);
      assert cs[i := c][n - 1] == if i == n - 1 then c else cs[n - 1];
    }
  }

  /** Only a held point is ever found. */
  lemma {:induction false} FindTrueIsStored(t: Tree, p: Point)
    requires Shaped(t) && Find(t, p) == Some(Ok(true))
    ensures p in Stored(t)
    decreases t
  {
    var i := Index(GetOctant(Mid(t), p));
    StoredInChild(t.children, 8, i);
    if t.children[i].Branch? {
      FindTrueIsStored(t.children[i].tree, p);
    }
  }

  // ---------------------------------------------------------------------
  // Shape of the trees `insert` works on

  predicate IsPowerOfTwo(n: int)
    decreases if n < 0 then 0 else n
  {
    n == 1 || (n >= 2 && n % 2 == 0 && IsPowerOfTwo(n / 2))
  }

  /** The side of the node's box along x. */
  function Side(t: Tree): int {
    t.maxPoint.x - t.minPoint.x
  }

  /** A cube whose side is a power of two, at least 2. */
  predicate IsCube(t: Tree) {
    && Side(t) >= 2 && IsPowerOfTwo(Side(t))
    && t.maxPoint.y - t.minPoint.y == Side(t)
    && t.maxPoint.z - t.minPoint.z == Side(t)
  }

  /** The trees `create_tree` builds: cubes whose every subtree covers the
      box of its octant. */
  predicate WellFormed(t: Tree)
    decreases t, 1
  {
    && |t.children| == 8
    && IsCube(t)
    && forall o :: ChildFits(ChildBox(o, t.minPoint, t.maxPoint, Mid(t)), t.children[Index(o)])
  }

  /** A child that is a subtree covers the given box and is well formed. */
  predicate ChildFits(box: (Point, Point), c: Octree)
    decreases c, 0
  {
    c.Branch? ==> (c.tree.minPoint, c.tree.maxPoint) == box && WellFormed(c.tree)
  }

  /** The index of every child names an octant. */
  function OctantOf(i: nat): (o: Octant)
    requires i < 8
    ensures Index(o) == i
  {
    match i
    case 0 => TopLeftFront
    case 1 => TopRightFront
    case 2 => BottomRightFront
    case 3 => BottomLeftFront
    case 4 => TopLeftBack
    case 5 => TopRightBack
    case 6 => BottomRightBack
    case 7 => BottomLeftBack
  }

  lemma {:induction false} WellFormedShaped(t: Tree)
    requires WellFormed(t)
    ensures Shaped(t)
    decreases t
  {
    forall i | 0 <= i < 8 && t.children[i].Branch? ensures Shaped(t.children[i].tree) {
      var o := OctantOf(i);
      assert ChildFits(ChildBox(o, t.minPoint, t.maxPoint, Mid(t)), t.children[Index(o)]);
      WellFormedShaped(t.children[i].tree);
    }
  }

  /** The boxes of a cube's octants have half its side; below side 2 they
      are cubes again. */
  lemma HalfCube(t: Tree, o: Octant)
    requires IsCube(t)
    ensures var (lo, hi) := ChildBox(o, t.minPoint, t.maxPoint, Mid(t));
      && hi.x - lo.x == hi.y - lo.y == hi.z - lo.z == Side(t) / 2
      && (Side(t) != 2 ==> IsCube(New(lo, hi)))
  {
    var s := Side(t);
    ChildBoxByAxes(o, t.minPoint, t.maxPoint, Mid(t));
    assert s % 2 == 0 && (s != 2 ==> s >= 4 && IsPowerOfTwo(s / 2));
    assert (t.maxPoint.x + t.minPoint.x) / 2 == t.minPoint.x + s / 2;
    assert (t.maxPoint.y + t.minPoint.y) / 2 == t.minPoint.y + s / 2;
    assert (t.maxPoint.z + t.minPoint.z) / 2 == t.minPoint.z + s / 2;
  }

  /** A point in a node's box lies in the box of the octant `get_octant`
      gives it. */
  lemma InChildBox(t: Tree, p: Point)
    requires InBox(p, t)
    ensures var (lo, hi) := ChildBox(GetOctant(Mid(t), p), t.minPoint, t.maxPoint, Mid(t));
      InBox(p, New(lo, hi))
  {
    ChildBoxByAxes(GetOctant(Mid(t), p), t.minPoint, t.maxPoint, Mid(t));
  }

  // ---------------------------------------------------------------------
  // `insert`

  /** The node with child `i` replaced. */
  function Place(t: Tree, i: nat, c: Octree): (u: Tree)
    requires i < |t.children|
    ensures u.minPoint == t.minPoint && u.maxPoint == t.maxPoint && |u.children| == |t.children|
  {
    t.(children := t.children[i := c])
  }

  /** A subtree's outcome as a child. */
  function AsBranch(r: Option<Result<Tree, OctreeError>>): Option<Result<Octree, OctreeError>> {
    match r
    case None => None
    case Some(Err(e)) => Some(Err(e))
    case Some(Ok(n)) => Some(Ok(Branch(n)))
  }

  /** `insert`: check the bounds, refuse a point already found, then put it
      in its octant.  `None` is a panic. */
  function Insert(t: Tree, p: Point): (r: Option<Result<Tree, OctreeError>>)
    requires WellFormed(t)
    ensures ValidatePoint(t, p).Err? ==> r == Some(Err(OctreeError(OUT_OF_BOUNDS)))
    ensures r.Some? && r.value.Err? ==>
      r.value.error == OctreeError(OUT_OF_BOUNDS) || r.value.error == OctreeError(ALREADY_EXISTS)
    decreases Side(t), 1
  {
    WellFormedShaped(t);
    match ValidatePoint(t, p)
    case Err(e) => Some(Err(e))
    case Ok(_) =>
      match Find(t, p)
      case None => None
      case Some(Err(e)) => Some(Err(e))
      case Some(Ok(found)) =>
        if found then Some(Err(OctreeError(ALREADY_EXISTS)))
        else
          match Put(t, p)
          case None => None
          case Some(Err(e)) => Some(Err(e))
          case Some(Ok(c)) => Some(Ok(Place(t, Index(GetOctant(Mid(t), p)), c)))
  }

  /** The `match child` of `insert`: the new content of the point's octant.
      `None` is the `unreachable!()` of an octant whose leaf already holds
      another point. */
  function Put(t: Tree, p: Point): (r: Option<Result<Octree, OctreeError>>)
    requires WellFormed(t)
    ensures r.Some? && r.value.Err? ==>
      r.value.error == OctreeError(OUT_OF_BOUNDS) || r.value.error == OctreeError(ALREADY_EXISTS)
    decreases Side(t), 0
  {
    var o := GetOctant(Mid(t), p);
    HalfCube(t, o);
    match t.children[Index(o)]
    case Leaf(Some(_)) => None
    case Branch(sub) =>
      assert ChildFits(ChildBox(o, t.minPoint, t.maxPoint, Mid(t)), t.children[Index(o)]);
      AsBranch(Insert(sub, p))
    case Leaf(None) =>
      if t.maxPoint.x - t.minPoint.x == 2 && t.maxPoint.y - t.minPoint.y == 2 && t.maxPoint.z - t.minPoint.z == 2 then
        Some(Ok(Leaf(Some(p))))
      else
        var (lo, hi) := ChildBox(o, t.minPoint, t.maxPoint, Mid(t));
        AsBranch(Insert(New(lo, hi), p))
  }

  /** Inserting a point that is already there is refused. */
  lemma InsertExisting(t: Tree, p: Point)
    requires WellFormed(t) && Shaped(t) && Find(t, p) == Some(Ok(true))
    ensures Insert(t, p) == Some(Err(OctreeError(ALREADY_EXISTS)))
  {
  }

  /** A point out of bounds is refused with the bounds error. */
  lemma InsertOutOfBounds(t: Tree, p: Point)
    requires WellFormed(t) && ValidatePoint(t, p).Err?
    ensures Insert(t, p) == Some(Err(OctreeError(OUT_OF_BOUNDS)))
  {
  }

  /** What a successful `insert` is made of. */
  lemma InsertParts(t: Tree, p: Point)
    requires WellFormed(t) && Insert(t, p).Some? && Insert(t, p).value.Ok?
    ensures Shaped(t) && ValidatePoint(t, p).Ok? && GetMidPoint(t) == Some(Mid(t))
    ensures Find(t, p) == Some(Ok(false))
    ensures Put(t, p).Some? && Put(t, p).value.Ok?
    ensures Insert(t, p).value.value == Place(t, Index(GetOctant(Mid(t), p)), Put(t, p).value.value)
  {
    WellFormedShaped(t);
  }

  /** Replacing a child by one that fits its octant keeps the node well
      formed. */
  lemma PlaceWellFormed(t: Tree, o: Octant, c: Octree)
    requires WellFormed(t) && ChildFits(ChildBox(o, t.minPoint, t.maxPoint, Mid(t)), c)
    ensures WellFormed(Place(t, Index(o), c))
  {
    var u := Place(t, Index(o), c);
    forall o' ensures ChildFits(ChildBox(o', u.minPoint, u.maxPoint, Mid(u)), u.children[Index(o')]) {
      if Index(o') == Index(o) {
        IndexInjective(o', o);
      } else {
        assert u.children[Index(o')] == t.children[Index(o')];
      }
    }
  }

  /** Replacing a child changes the held points by that child's points. */
  lemma PlaceStored(t: Tree, i: nat, c: Octree)
    requires i < |t.children|
    ensures Stored(Place(t, i, c)) + LeafPoints(t.children[i]) == Stored(t) + LeafPoints(c)
  {
    StoredInReplace(t.children, |t.children|, i, c);
  }

  /** `find` on a node with one child replaced. */
  lemma PlaceFind(t: Tree, i: nat, c: Octree, q: Point)
    requires Shaped(t) && i < 8 && ChildShaped(c)
    requires ValidatePoint(t, q).Ok? && GetMidPoint(t).Some?
    ensures Shaped(Place(t, i, c))
    ensures Find(Place(t, i, c), q) ==
      if Index(GetOctant(Mid(t), q)) == i then FindIn(c, q) else Find(t, q)
  {
    var u := Place(t, i, c);
    assert forall j :: 0 <= j < 8 ==> u.children[j] == if j == i then c else t.children[j];
  }

  /** The new child fits the octant and holds the point besides what the
      old one held. */
  lemma {:induction false} PutKeepsShape(t: Tree, p: Point)
    requires WellFormed(t) && Put(t, p).Some? && Put(t, p).value.Ok?
    ensures var o := GetOctant(Mid(t), p);
      && ChildFits(ChildBox(o, t.minPoint, t.maxPoint, Mid(t)), Put(t, p).value.value)
      && LeafPoints(Put(t, p).value.value) == LeafPoints(t.children[Index(o)]) + {p}
    decreases Side(t), 0
  {
    var o := GetOctant(Mid(t), p);
    HalfCube(t, o);
    var (lo, hi) := ChildBox(o, t.minPoint, t.maxPoint, Mid(t));
    if t.children[Index(o)].Branch? {
      assert ChildFits((lo, hi), t.children[Index(o)]);
      InsertKeepsShape(t.children[Index(o)].tree, p);
    } else if Side(t) != 2 {
      InsertKeepsShape(New(lo, hi), p);
    }
  }

  /** `insert` keeps the tree well formed and its box, and adds exactly the
      point to those it holds. */
  lemma {:induction false} InsertKeepsShape(t: Tree, p: Point)
    requires WellFormed(t) && Insert(t, p).Some? && Insert(t, p).value.Ok?
    ensures WellFormed(Insert(t, p).value.value)
    ensures Stored(Insert(t, p).value.value) == Stored(t) + {p}
    ensures Insert(t, p).value.value.minPoint == t.minPoint && Insert(t, p).value.value.maxPoint == t.maxPoint
    decreases Side(t), 1
  {
    InsertParts(t, p);
    var o := GetOctant(Mid(t), p);
    var c := Put(t, p).value.value;
    PutKeepsShape(t, p);
    PlaceWellFormed(t, o, c);
    PlaceStored(t, Index(o), c);
    StoredInChild(t.children, 8, Index(o));
    StoredInChild(Place(t, Index(o), c).children, 8, Index(o));
  }

  /** A successful `insert` found the midpoint of the node. */
  lemma InsertHasMid(t: Tree, p: Point)
    requires WellFormed(t) && Insert(t, p).Some? && Insert(t, p).value.Ok?
    ensures GetMidPoint(t).Some?
  {
    InsertParts(t, p);
  }

  /** The new child holds the point where `find` looks for it. */
  lemma {:induction false} PutFinds(t: Tree, p: Point)
    requires WellFormed(t) && Put(t, p).Some? && Put(t, p).value.Ok?
    ensures ChildShaped(Put(t, p).value.value) && FindIn(Put(t, p).value.value, p) == Some(Ok(true))
    decreases Side(t), 0
  {
    var o := GetOctant(Mid(t), p);
    HalfCube(t, o);
    var (lo, hi) := ChildBox(o, t.minPoint, t.maxPoint, Mid(t));
    PutKeepsShape(t, p);
    if t.children[Index(o)].Branch? {
      assert ChildFits((lo, hi), t.children[Index(o)]);
      InsertThenFind(t.children[Index(o)].tree, p);
    } else if Side(t) != 2 {
      InsertThenFind(New(lo, hi), p);
    }
  }

  /** After `insert` succeeds the point is found. */
  lemma {:induction false} InsertThenFind(t: Tree, p: Point)
    requires WellFormed(t) && Insert(t, p).Some? && Insert(t, p).value.Ok?
    ensures InsertShaped(t, p) && Find(Insert(t, p).value.value, p) == Some(Ok(true))
    decreases Side(t), 1
  {
    InsertParts(t, p);
    var c := Put(t, p).value.value;
    PutFinds(t, p);
    PlaceFind(t, Index(GetOctant(Mid(t), p)), c, p);
  }

  predicate InsertShaped(t: Tree, p: Point)
    requires WellFormed(t) && Insert(t, p).Some? && Insert(t, p).value.Ok?
  {
    Shaped(Insert(t, p).value.value)
  }

  /** The new child answers `find` as the old one did for every other point
      of the octant's box. */
  lemma {:induction false} PutKeepsOthers(t: Tree, p: Point, q: Point)
    requires WellFormed(t) && Put(t, p).Some? && Put(t, p).value.Ok?
    requires q != p && InBox(q, t) && GetOctant(Mid(t), q) == GetOctant(Mid(t), p)
    ensures ChildShaped(Put(t, p).value.value) && ChildShaped(t.children[Index(GetOctant(Mid(t), p))])
    ensures FindIn(Put(t, p).value.value, q) == FindIn(t.children[Index(GetOctant(Mid(t), p))], q)
    decreases Side(t), 0
  {
    var o := GetOctant(Mid(t), p);
    HalfCube(t, o);
    var (lo, hi) := ChildBox(o, t.minPoint, t.maxPoint, Mid(t));
    PutFinds(t, p);
    WellFormedShaped(t);
    InChildBox(t, q);
    if t.children[Index(o)].Branch? {
      assert ChildFits((lo, hi), t.children[Index(o)]);
      InsertKeepsOthers(t.children[Index(o)].tree, p, q);
    } else if Side(t) != 2 {
      InsertKeepsOthers(New(lo, hi), p, q);
      InsertHasMid(New(lo, hi), p);
      InBoxValidates(New(lo, hi), q);
      FindFresh(lo, hi, q);
    }
  }

  /** `insert` does not change what `find` says about any other point
      inside the box on every axis. */
  lemma {:induction false} InsertKeepsOthers(t: Tree, p: Point, q: Point)
    requires WellFormed(t) && Insert(t, p).Some? && Insert(t, p).value.Ok?
    requires q != p && InBox(q, t)
    ensures InsertShaped(t, p) && Shaped(t)
    ensures Find(Insert(t, p).value.value, q) == Find(t, q)
    decreases Side(t), 1
  {
    InsertParts(t, p);
    var c := Put(t, p).value.value;
    var i := Index(GetOctant(Mid(t), p));
    PutFinds(t, p);
    InBoxValidates(t, q);
    PlaceFind(t, i, c, q);
    if Index(GetOctant(Mid(t), q)) == i {
      IndexInjective(GetOctant(Mid(t), q), GetOctant(Mid(t), p));
      PutKeepsOthers(t, p, q);
    }
  }

  /** In a node of side 2 a new point becomes a leaf. */
  lemma LeafAtSideTwo(t: Tree, p: Point)
    requires WellFormed(t) && Side(t) == 2 && Insert(t, p).Some? && Insert(t, p).value.Ok?
    ensures var u := Insert(t, p).value.value;
      |u.children| == 8 && u.children[Index(GetOctant(Mid(t), p))] == Leaf(Some(p))
  {
    InsertParts(t, p);
    SideTwoHasLeaves(t);
    assert Put(t, p) == Some(Ok(Leaf(Some(p))));
  }

  /** A node of side 2 has no subtrees, since its octants have side 1. */
  lemma SideTwoHasLeaves(t: Tree)
    requires WellFormed(t) && Side(t) == 2
    ensures forall i :: 0 <= i < 8 ==> t.children[i].Leaf?
  {
    forall i | 0 <= i < 8 ensures t.children[i].Leaf? {
      var o := OctantOf(i);
      HalfCube(t, o);
      assert ChildFits(ChildBox(o, t.minPoint, t.maxPoint, Mid(t)), t.children[Index(o)]);
      UnitBoxHoldsLeaf(ChildBox(o, t.minPoint, t.maxPoint, Mid(t)), t.children[Index(o)]);
    }
  }

  /** No subtree fits a box of side 1. */
  lemma UnitBoxHoldsLeaf(box: (Point, Point), c: Octree)
    requires ChildFits(box, c) && box.1.x - box.0.x == 1
    ensures c.Leaf?
  {
  }

  // ---------------------------------------------------------------------
  // Panics in `find`

  /** The midpoint of every node fits in a `u8`. */
  predicate MidsFit(t: Tree)
    decreases t, 1
  {
    GetMidPoint(t).Some? && forall i :: 0 <= i < |t.children| ==> ChildMidsFit(t.children[i])
  }

  predicate ChildMidsFit(c: Octree)
    decreases c, 0
  {
    c.Branch? ==> MidsFit(c.tree)
  }

  /** On such a tree `find` never panics. */
  lemma {:induction false} FindNoPanic(t: Tree, p: Point)
    requires Shaped(t) && MidsFit(t)
    ensures Find(t, p).Some?
    decreases t
  {
    if ValidatePoint(t, p).Ok? {
      var i := Index(GetOctant(Mid(t), p));
      if t.children[i].Branch? {
        assert ChildMidsFit(t.children[i]);
        FindNoPanic(t.children[i].tree, p);
      }
    }
  }

  /** The new child keeps every midpoint in range. */
  lemma {:induction false} PutMidsFit(t: Tree, p: Point)
    requires WellFormed(t) && Put(t, p).Some? && Put(t, p).value.Ok?
    requires ChildMidsFit(t.children[Index(GetOctant(Mid(t), p))])
    ensures ChildMidsFit(Put(t, p).value.value)
    decreases Side(t), 0
  {
    var o := GetOctant(Mid(t), p);
    HalfCube(t, o);
    var (lo, hi) := ChildBox(o, t.minPoint, t.maxPoint, Mid(t));
    if t.children[Index(o)].Branch? {
      assert ChildFits((lo, hi), t.children[Index(o)]);
      InsertMidsFit(t.children[Index(o)].tree, p);
    } else if Side(t) != 2 {
      InsertMidsFit(New(lo, hi), p);
    }
  }

  /** A tree grown by successful inserts from a fresh one keeps every
      midpoint in range. */
  lemma {:induction false} InsertMidsFit(t: Tree, p: Point)
    requires WellFormed(t) && (forall i :: 0 <= i < |t.children| ==> ChildMidsFit(t.children[i]))
    requires Insert(t, p).Some? && Insert(t, p).value.Ok?
    ensures MidsFit(Insert(t, p).value.value)
    decreases Side(t), 1
  {
    InsertParts(t, p);
    var i := Index(GetOctant(Mid(t), p));
    var u := Insert(t, p).value.value;
    PutMidsFit(t, p);
    assert forall j :: 0 <= j < 8 ==> u.children[j] == if j == i then Put(t, p).value.value else t.children[j];
  }
}
