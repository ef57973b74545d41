/** The five rock shapes, the endless shape sequence and the cells of a rock
    when it appears in the chamber. */
module Day17Rock {
  import opened Day17Coordinate

  datatype RockType = Minus | Plus | L | I | Square

  /** The shape yielded for each value of the iterator's index. */
  function RockOfIndex(i: nat): RockType
    requires i < 5
  {
    match i
    case 0 => Minus
    case 1 => Plus
    case 2 => L
    case 3 => I
    case 4 => Square
  }

  /** The index after one call of `next`. */
  function NextIndex(i: nat): (j: nat)
    requires i < 5
    ensures j < 5
    ensures j == if i == 4 then 0 else i + 1
  {
    (i + 1) % 5
  }

  /** The index after `k` calls of `next`. */
  function AdvanceIndex(i: nat, k: nat): (j: nat)
    requires i < 5
    ensures j < 5
    decreases k
  {
    if k == 0 then i else AdvanceIndex(NextIndex(i), k - 1)
  }

  /** `k` calls of `next` move the index on by `k` modulo 5; in particular
      five calls bring it back to where it was. */
  lemma {:induction false} AdvanceIndexMod(i: nat, k: nat)
    requires i < 5
    ensures AdvanceIndex(i, k) == (i + k) % 5
    decreases k
  {
    if k > 0 {
      AdvanceIndexMod(NextIndex(i), k - 1);
    }
  }

  /** After `i` calls of `next` from index 0 the index is `i % 5`; one more
      call makes it `(i + 1) % 5`. */
  lemma NextIndexMod(i: nat)
    ensures NextIndex(i % 5) == (i + 1) % 5
  {
  }

  /** `RockIterator` from rock.rs: an endless iterator over the shapes. */
  class RockIterator {
    var startIndex: nat

    ghost predicate Valid()
      reads this
    {
      startIndex < 5
    }

    constructor ()
      ensures Valid() && startIndex == 0
    {
      startIndex := 0;
    }

    /** `next`: the shape at the index, then the index moves on modulo 5
        (an index of 5 or more reaches `unreachable!()`). */
    method Next() returns (rock: RockType)
      requires Valid()
      modifies this
      ensures Valid()
      ensures rock == RockOfIndex(old(startIndex))
      ensures startIndex == NextIndex(old(startIndex))
    {
      rock := RockOfIndex(startIndex);
      startIndex := (startIndex + 1) % 5;
    }
  }

  /** A cell written as an offset from a rock's lower-left corner. */
  datatype Offset = Offset(dx: nat, dy: nat)

  /** The shapes as drawn in the puzzle, cell offsets from the lower-left
      corner of their bounding box. */
  function Offsets(rock: RockType): seq<Offset> {
    match rock
    case Minus => [Offset(0, 0), Offset(1, 0), Offset(2, 0), Offset(3, 0)]
    case Plus => [Offset(1, 0), Offset(0, 1), Offset(1, 1), Offset(2, 1), Offset(1, 2)]
    case L => [Offset(0, 0), Offset(1, 0), Offset(2, 0), Offset(2, 1), Offset(2, 2)]
    case I => [Offset(0, 0), Offset(0, 1), Offset(0, 2), Offset(0, 3)]
    case Square => [Offset(0, 0), Offset(1, 0), Offset(0, 1), Offset(1, 1)]
  }

  /** Horizontal extent of a shape. */
  function ShapeWidth(rock: RockType): nat {
    match rock
    case Minus => 4
    case Plus => 3
    case L => 3
    case I => 1
    case Square => 2
  }

  /** Vertical extent of a shape. */
  function ShapeHeight(rock: RockType): nat {
    match rock
    case Minus => 1
    case Plus => 3
    case L => 3
    case I => 4
    case Square => 2
  }

  /** The cells of a shape whose lower-left corner is at (`ax`, `ay`). */
  function Place(rock: RockType, ax: nat, ay: nat): (cells: seq<Coordinate>)
    ensures |cells| == |Offsets(rock)|
    ensures forall i :: 0 <= i < |cells| ==>
      cells[i] == Coordinate(ax + Offsets(rock)[i].dx, ay + Offsets(rock)[i].dy)
  {
    seq(|Offsets(rock)|, i requires 0 <= i < |Offsets(rock)| =>
      Coordinate(ax + Offsets(rock)[i].dx, ay + Offsets(rock)[i].dy))
  }

  /** The geometric facts about a placed shape that the physics relies on:
      its cells are distinct, lie in its bounding box and touch its left and
      bottom edges, and its first cell is on the bottom row. */
  lemma PlaceShape(rock: RockType, ax: nat, ay: nat)
    ensures var cells := Place(rock, ax, ay);
      && (forall i, j :: 0 <= i < j < |cells| ==> cells[i] != cells[j])
      && (forall i :: 0 <= i < |cells| ==>
            ax <= cells[i].x < ax + ShapeWidth(rock) && ay <= cells[i].y < ay + ShapeHeight(rock))
      && cells[0].y == ay
      && (exists i :: 0 <= i < |cells| && cells[i].x == ax)
      && (exists i :: 0 <= i < |cells| && cells[i].y == ay + ShapeHeight(rock) - 1)
  {
    var cells := Place(rock, ax, ay);
    match rock
    case Minus => assert cells[0].x == ax;
    case Plus => assert cells[1].x == ax && cells[4].y == ay + 2;
    case L => assert cells[0].x == ax && cells[4].y == ay + 2;
    case I => assert cells[0].x == ax && cells[3].y == ay + 3;
    case Square => assert cells[0].x == ax && cells[2].y == ay + 1;
  }

  /** `create_rock`: the shape with its lower-left corner at x = 2 and three
      rows above the current height. */
  function CreateRock(rock: RockType, currentHeight: nat): (cells: seq<Coordinate>)
    ensures |cells| == |Offsets(rock)|
    ensures |cells| == if rock == Plus || rock == L then 5 else 4
    ensures forall i, j :: 0 <= i < j < |cells| ==> cells[i] != cells[j]
    ensures forall i :: 0 <= i < |cells| ==> 2 <= cells[i].x <= 5
    ensures forall i :: 0 <= i < |cells| ==> cells[i].y >= currentHeight + 3
    ensures exists i :: 0 <= i < |cells| && cells[i].x == 2
    ensures cells[0].y == currentHeight + 3
  {
    var minX, minY := 2, currentHeight + 3;
    match rock
    case Minus =>
      [Coordinate(minX, minY), Coordinate(minX + 1, minY), Coordinate(minX + 2, minY),
       Coordinate(minX + 3, minY)]
    case Plus =>
      var cells := [Coordinate(minX + 1, minY), Coordinate(minX, minY + 1), Coordinate(minX + 1, minY + 1),
       Coordinate(minX + 2, minY + 1), Coordinate(minX + 1, minY + 2)];
      assert cells[1].x == 2;
      cells
    case L =>
      [Coordinate(minX, minY), Coordinate(minX + 1, minY), Coordinate(minX + 2, minY),
       Coordinate(minX + 2, minY + 1), Coordinate(minX + 2, minY + 2)]
    case I =>
      [Coordinate(minX, minY), Coordinate(minX, minY + 1), Coordinate(minX, minY + 2),
       Coordinate(minX, minY + 3)]
    case Square =>
      [Coordinate(minX, minY), Coordinate(minX + 1, minY), Coordinate(minX, minY + 1),
       Coordinate(minX + 1, minY + 1)]
  }

  /** `create_rock` agrees with the drawn shapes: it places the shape's
      bounding box at (2, height + 3). */
  lemma CreateRockIsPlace(rock: RockType, currentHeight: nat)
    ensures CreateRock(rock, currentHeight) == Place(rock, 2, currentHeight + 3)
  {
  }

  /** The unit test of rock.rs. */
  lemma CreateRockMinusExample()
    ensures CreateRock(Minus, 0) ==
      [Coordinate(2, 3), Coordinate(3, 3), Coordinate(4, 3), Coordinate(5, 3)]
  {
  }
}
