/** Day 18: the two-cube example of `count_open_facing_sides`. */
module Day18Example {
  import opened Common
  import opened Day18Point
  import opened Day18Octree
  import opened Day18Create
  import opened Day18

  /** On a node of side 2, a point whose octant is still empty is stored as
      that octant's leaf. */
  lemma InsertIntoUnitLeaf(t: Tree, p: Point)
    requires WellFormed(t) && Shaped(t) && Side(t) == 2 && InBox(p, t) && GetMidPoint(t).Some?
    requires Find(t, p) == Some(Ok(false))
    requires t.children[Index(GetOctant(Mid(t), p))] == Leaf(None)
    ensures Insert(t, p) == Some(Ok(Place(t, Index(GetOctant(Mid(t), p)), Leaf(Some(p)))))
  {
    InBoxValidates(t, p);
  }

  /** The root `create_tree` builds for the two cubes, and its midpoint. */
  lemma TwoCubesRoot()
    ensures var ps := [Point(1, 1, 1), Point(2, 1, 1)];
      && MinCoord(ps) == 1 && MaxCoord(ps) == 2 && FirstPowerOfTwo(2, 0) == Some(2)
      && IsPowerOfTwo(2) && Created(ps) == InsertAll(Root(1, 2), ps)
  {
    var ps := [Point(1, 1, 1), Point(2, 1, 1)];
    assert MinCoord(ps) == 1 && MaxCoord(ps) == 2;
    assert Pow(2, 0) == 1 && Pow(2, 1) == 2;
    PowTwoFacts(1);
  }

  /** The first cube becomes the leaf of the root's octant 3. */
  lemma FirstCube()
    ensures InsertAll(Root(1, 2), [Point(1, 1, 1)]) == Some(Ok(Place(Root(1, 2), 3, Leaf(Some(Point(1, 1, 1))))))
  {
    PowTwoFacts(1);
    var r, a := Root(1, 2), Point(1, 1, 1);
    assert Mid(r) == Point(2, 2, 2);
    assert Index(GetOctant(Mid(r), a)) == 3;
    InsertIntoUnitLeaf(r, a);
    assert [a][..0] == [];
  }

  /** The second cube becomes the leaf of octant 2. */
  lemma SecondCube()
    requires IsPowerOfTwo(2)
    ensures var u := Place(Root(1, 2), 3, Leaf(Some(Point(1, 1, 1))));
      WellFormed(u) && Insert(u, Point(2, 1, 1)).Some? && Insert(u, Point(2, 1, 1)).value.Ok?
  {
    var r, a, b := Root(1, 2), Point(1, 1, 1), Point(2, 1, 1);
    assert Mid(r) == Point(2, 2, 2);
    assert Index(GetOctant(Mid(r), a)) == 3 && Index(GetOctant(Mid(r), b)) == 2;
    InsertIntoUnitLeaf(r, a);
    var u := Place(r, 3, Leaf(Some(a)));
    InsertKeepsOthers(r, a, b);
    InsertKeepsShape(r, a);
    WellFormedShaped(u);
    assert u.children[2] == Leaf(None);
    InsertIntoUnitLeaf(u, b);
  }

  /** `create_tree` succeeds on the two cubes. */
  lemma TwoCubesCreated()
    ensures var ps := [Point(1, 1, 1), Point(2, 1, 1)];
      Created(ps).Some? && Created(ps).value.Ok?
  {
    var ps := [Point(1, 1, 1), Point(2, 1, 1)];
    TwoCubesRoot();
    FirstCube();
    SecondCube();
    CreatedTwo(ps, Point(1, 1, 1), Point(2, 1, 1), Root(1, 2), Place(Root(1, 2), 3, Leaf(Some(Point(1, 1, 1)))));
  }

  /** Two points are created when the first goes into the root and the
      second into the tree that gives. */
  lemma CreatedTwo(ps: seq<Point>, a: Point, b: Point, t: Tree, u: Tree)
    requires ps == [a, b]
    requires WellFormed(t) && Created(ps) == InsertAll(t, ps)
    requires InsertAll(t, [a]) == Some(Ok(u))
    requires Insert(u, b).Some? && Insert(u, b).value.Ok?
    ensures Created(ps).Some? && Created(ps).value.Ok?
  {
    InsertAllSnoc(t, [a], b, u);
    assert [a] + [b] == ps;
  }

  /** Inserting one more point after the others. */
  lemma InsertAllSnoc(t: Tree, ps: seq<Point>, x: Point, u: Tree)
    requires WellFormed(t) && InsertAll(t, ps) == Some(Ok(u))
    ensures WellFormed(u) && InsertAll(t, ps + [x]) == Insert(u, x)
  {
    assert (ps + [x])[..|ps|] == ps;
  }

  /** Counting from the front of a list. */
  lemma {:induction false} CountInCons(x: Point, ns: seq<Point>, cubes: set<Point>)
    ensures CountIn([x] + ns, cubes) == (if x in cubes then 1 else 0) + CountIn(ns, cubes)
    decreases |ns|
  {
    if ns != [] {
      assert ([x] + ns)[..|ns|] == [x] + ns[..|ns| - 1];
      CountInCons(x, ns[..|ns| - 1], cubes);
    }
  }

  /** A list with exactly one cube among its elements. */
  lemma CountInSix(n0: Point, n1: Point, n2: Point, n3: Point, n4: Point, n5: Point, cubes: set<Point>)
    requires n0 in cubes <==> !(n1 in cubes || n2 in cubes || n3 in cubes || n4 in cubes || n5 in cubes)
    requires !(n0 in cubes) ==> (n3 in cubes && !(n1 in cubes || n2 in cubes || n4 in cubes || n5 in cubes))
    ensures CountIn([n0, n1, n2, n3, n4, n5], cubes) == 1
  {
    assert [n0, n1, n2, n3, n4, n5] == [n0] + ([n1] + ([n2] + ([n3] + ([n4] + [n5]))));
    assert [n5] == [n5] + [];
    CountInCons(n5, [], cubes);
    CountInCons(n4, [n5], cubes);
    CountInCons(n3, [n4] + [n5], cubes);
    CountInCons(n2, [n3] + ([n4] + [n5]), cubes);
    CountInCons(n1, [n2] + ([n3] + ([n4] + [n5])), cubes);
    CountInCons(n0, [n1] + ([n2] + ([n3] + ([n4] + [n5]))), cubes);
  }

  /** Each of the two cubes has the other as its one neighbour. */
  lemma TwoCubesContacts()
    ensures Contacting([Point(1, 1, 1), Point(2, 1, 1)], {Point(1, 1, 1), Point(2, 1, 1)}) == 2
  {
    var a, b := Point(1, 1, 1), Point(2, 1, 1);
    assert [a, b][..1] == [a] && [a][..0] == [];
    var cubes := {a, b};
    assert Adjacent(a, 100) == [Point(2, 1, 1), Point(1, 2, 1), Point(1, 1, 2), Point(0, 1, 1), Point(1, 0, 1), Point(1, 1, 0)];
    assert Adjacent(b, 100) == [Point(3, 1, 1), Point(2, 2, 1), Point(2, 1, 2), Point(1, 1, 1), Point(2, 0, 1), Point(2, 1, 0)];
    CountInSix(Point(2, 1, 1), Point(1, 2, 1), Point(1, 1, 2), Point(0, 1, 1), Point(1, 0, 1), Point(1, 1, 0), cubes);
    CountInSix(Point(3, 1, 1), Point(2, 2, 1), Point(2, 1, 2), Point(1, 1, 1), Point(2, 0, 1), Point(2, 1, 0), cubes);
  }

  /** Two cubes side by side leave ten faces open. */
  lemma TwoCubes()
    ensures var ps := [Point(1, 1, 1), Point(2, 1, 1)];
      && Created(ps).Some? && Created(ps).value.Ok? && Shaped(Created(ps).value.value)
      && OpenSides(ps, Created(ps).value.value) == Some(10)
  {
    var ps := [Point(1, 1, 1), Point(2, 1, 1)];
    TwoCubesCreated();
    TwoCubesHeld(ps);
    OpenSidesOfHeld(ps, Created(ps).value.value);
    assert Elements(ps) == {Point(1, 1, 1), Point(2, 1, 1)};
    TwoCubesContacts();
  }

  /** The tree built from the two cubes holds exactly them. */
  lemma TwoCubesHeld(ps: seq<Point>)
    requires ps == [Point(1, 1, 1), Point(2, 1, 1)]
    requires Created(ps).Some? && Created(ps).value.Ok?
    ensures Shaped(Created(ps).value.value) && Holds(Created(ps).value.value, Elements(ps))
  {
    assert ps[0].x >= 1 && ps[0].y >= 1 && ps[0].z >= 1;
    assert ps[1].x >= 1 && ps[1].y >= 1 && ps[1].z >= 1;
    CreatedHolds(ps);
  }
}
