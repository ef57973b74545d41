// Day 23, part one's answer: the empty ground tiles in the smallest
// rectangle that holds every elf.
module Day23Ground {
  import opened Common
  import opened Day23

  // ---------------------------------------------------------------------
  // `count_empty_ground_tiles`

  function MinOf(s: seq<int>): (m: int)
    requires |s| > 0
    ensures m in s && forall k :: 0 <= k < |s| ==> m <= s[k]
  {
    if |s| == 1 then s[0] else Min(s[0], MinOf(s[1..]))
  }

  function MaxOf(s: seq<int>): (m: int)
    requires |s| > 0
    ensures m in s && forall k :: 0 <= k < |s| ==> s[k] <= m
  {
    if |s| == 1 then s[0] else Max(s[0], MaxOf(s[1..]))
  }

  lemma MinAtMostMax(s: seq<int>)
    requires |s| > 0
    ensures MinOf(s) <= MaxOf(s)
  {
    assert MinOf(s) <= s[0] <= MaxOf(s);
  }

  function Xs(positions: seq<Position>): (xs: seq<int>)
    ensures |xs| == |positions| && forall k :: 0 <= k < |positions| ==> xs[k] == positions[k].x
  {
    seq(|positions|, k requires 0 <= k < |positions| => positions[k].x)
  }

  function Ys(positions: seq<Position>): (ys: seq<int>)
    ensures |ys| == |positions| && forall k :: 0 <= k < |positions| ==> ys[k] == positions[k].y
  {
    seq(|positions|, k requires 0 <= k < |positions| => positions[k].y)
  }

  /** `count_empty_ground_tiles`: the bounding box's area less the number of
    * elves.  `None` is a panic: no elves, an `i8` overflow in `max + 1` or in
    * the width or height, or more elves than cells (the `u32` subtraction). */
  function CountEmptyGroundTiles(positions: seq<Position>): (r: Option<nat>)
    ensures positions == [] ==> r.None?
    ensures r.Some? ==>
      && |positions| > 0
      && r.value + |positions| == BoxWidth(positions) * BoxHeight(positions)
  {
    if positions == [] then None
    else
      var x0, x1 := MinOf(Xs(positions)), MaxOf(Xs(positions)) + 1;
      var y0, y1 := MinOf(Ys(positions)), MaxOf(Ys(positions)) + 1;
      assert x1 - x0 == BoxWidth(positions) && y1 - y0 == BoxHeight(positions);
      EmptyInBox(x0, x1, y0, y1, |positions|)
  }

  /** The width of the bounding box, `max_x + 1 - min_x`. */
  function BoxWidth(positions: seq<Position>): int
    requires |positions| > 0
  {
    MaxOf(Xs(positions)) + 1 - MinOf(Xs(positions))
  }

  /** The height of the bounding box, `max_y + 1 - min_y`. */
  function BoxHeight(positions: seq<Position>): int
    requires |positions| > 0
  {
    MaxOf(Ys(positions)) + 1 - MinOf(Ys(positions))
  }

  /** The box `min_x..max_x` by `min_y..max_y` less `n` elves, with the `i8`
    * and `u32` panics; `Area` is the product of the sides (`AreaIsProduct`). */
  function EmptyInBox(minX: int, maxX: int, minY: int, maxY: int, n: nat): (r: Option<nat>)
    requires minX <= maxX && minY <= maxY
    ensures r.Some? ==> r.value + n == (maxX - minX) * (maxY - minY)
  {
    if maxX > 127 || maxY > 127 || maxX - minX > 127 || maxY - minY > 127 then None
    else
      var area := Area(maxX - minX, maxY - minY);
      AreaIsProduct(maxX - minX, maxY - minY);
      if area < n then None else Some(area - n)
  }

  /** A ground tile, as a pair of unbounded ordinates. */
  type Tile = (int, int)

  /** The tiles `(x, y)` with `x0 <= x < x1`. */
  ghost function RowCells(x0: int, x1: int, y: int): set<Tile> {
    set x | x0 <= x < x1 :: (x, y)
  }

  /** A row holds its width in tiles. */
  lemma {:induction false} RowCellsCount(x0: int, x1: int, y: int)
    requires x0 <= x1
    ensures |RowCells(x0, x1, y)| == x1 - x0
    decreases x1 - x0
  {
    if x0 < x1 {
      RowCellsCount(x0 + 1, x1, y);
      assert RowCells(x0, x1, y) == {(x0, y)} + RowCells(x0 + 1, x1, y);
    } else {
      assert RowCells(x0, x1, y) == {};
    }
  }

  /** The tiles with `x0 <= x < x1` and `y0 <= y < y1`. */
  ghost function BoxCells(x0: int, x1: int, y0: int, y1: int): set<Tile> {
    set x, y | x0 <= x < x1 && y0 <= y < y1 :: (x, y)
  }

  /** `h` rows of `w` cells. */
  function Area(w: nat, h: nat): nat {
    if h == 0 then 0 else w + Area(w, h - 1)
  }

  lemma {:induction false} AreaIsProduct(w: nat, h: nat)
    ensures Area(w, h) == w * h
  {
    if h > 0 {
      AreaIsProduct(w, h - 1);
      assert w * h == w + w * (h - 1);
    }
  }

  /** A box holds width times height cells. */
  lemma {:induction false} BoxCellsCount(x0: int, x1: int, y0: int, y1: int)
    requires x0 <= x1 && y0 <= y1
    ensures |BoxCells(x0, x1, y0, y1)| == Area(x1 - x0, y1 - y0)
    decreases y1 - y0
  {
    if y0 < y1 {
      FirstRow(x0, x1, y0, y1);
      BoxCellsCount(x0, x1, y0 + 1, y1);
    }
  }

  /** A box is its first row and, disjoint from it, the rows below. */
  lemma FirstRow(x0: int, x1: int, y0: int, y1: int)
    requires x0 <= x1 && y0 < y1
    ensures |BoxCells(x0, x1, y0, y1)| == (x1 - x0) + |BoxCells(x0, x1, y0 + 1, y1)|
  {
    var row, rest := RowCells(x0, x1, y0), BoxCells(x0, x1, y0 + 1, y1);
    assert row !! rest;
    assert BoxCells(x0, x1, y0, y1) == row + rest;
    RowCellsCount(x0, x1, y0);
  }

  function TileOf(p: Position): Tile {
    (p.x, p.y)
  }

  /** The cells the elves stand on. */
  ghost function Occupied(s: seq<Position>): set<Tile> {
    set k | 0 <= k < |s| :: TileOf(s[k])
  }

  /** Elves on distinct positions cover as many cells as there are elves. */
  lemma {:induction false} DistinctCardinality(s: seq<Position>)
    requires Distinct(s)
    ensures |Occupied(s)| == |s|
    decreases |s|
  {
    if s != [] {
      var init := s[..|s| - 1];
      assert Distinct(init) by {
        forall i, j | 0 <= i < j < |init| ensures init[i] != init[j] {
          assert init[i] == s[i] && init[j] == s[j];
        }
      }
      DistinctCardinality(init);
      OccupiedSnoc(s);
      LastNotOccupied(s);
    }
  }

  /** The cells of a list are those of its first elements and of its last. */
  lemma OccupiedSnoc(s: seq<Position>)
    requires s != []
    ensures Occupied(s) == Occupied(s[..|s| - 1]) + {TileOf(s[|s| - 1])}
  {
    var init, last := s[..|s| - 1], s[|s| - 1];
    var a, b := Occupied(init), Occupied(s);
    forall c | c in b ensures c in a + {TileOf(last)} {
      var k :| 0 <= k < |s| && TileOf(s[k]) == c;
      if k < |s| - 1 {
        assert init[k] == s[k];
      }
    }
    forall c | c in a ensures c in b {
      var k :| 0 <= k < |init| && TileOf(init[k]) == c;
      assert init[k] == s[k];
    }
  }

  /** On distinct positions the last elf's cell is not among the others'. */
  lemma LastNotOccupied(s: seq<Position>)
    requires s != [] && Distinct(s)
    ensures TileOf(s[|s| - 1]) !in Occupied(s[..|s| - 1])
  {
    var init := s[..|s| - 1];
    forall k | 0 <= k < |init| ensures TileOf(init[k]) != TileOf(s[|s| - 1]) {
      assert init[k] == s[k];
    }
  }

  lemma SubsetDifferenceSize(a: set<Tile>, b: set<Tile>)
    requires b <= a
    ensures |a - b| == |a| - |b|
  {
    assert a == (a - b) + b;
    assert (a - b) !! b;
  }

  /** The cells of the smallest box that holds every elf. */
  ghost function BoundingBox(positions: seq<Position>): set<Tile>
    requires |positions| > 0
  {
    BoxCells(MinOf(Xs(positions)), MaxOf(Xs(positions)) + 1, MinOf(Ys(positions)), MaxOf(Ys(positions)) + 1)
  }

  /** Every elf lies in its bounding box. */
  lemma ElvesInBox(positions: seq<Position>)
    requires |positions| > 0
    ensures Occupied(positions) <= BoundingBox(positions)
  {
    var xs, ys := Xs(positions), Ys(positions);
    forall c | c in Occupied(positions) ensures c in BoundingBox(positions) {
      var k :| 0 <= k < |positions| && TileOf(positions[k]) == c;
      assert xs[k] == c.0 && ys[k] == c.1;
    }
  }

  /** The box count once the elves are known to fill part of the box. */
  lemma EmptyInBoxValue(x0: int, x1: int, y0: int, y1: int, elves: set<Tile>)
    requires x0 <= x1 <= 127 && y0 <= y1 <= 127 && x1 - x0 <= 127 && y1 - y0 <= 127
    requires elves <= BoxCells(x0, x1, y0, y1)
    ensures EmptyInBox(x0, x1, y0, y1, |elves|).Some?
    ensures EmptyInBox(x0, x1, y0, y1, |elves|).value == |BoxCells(x0, x1, y0, y1) - elves|
  {
    SubsetDifferenceSize(BoxCells(x0, x1, y0, y1), elves);
    BoxCellsCount(x0, x1, y0, y1);
  }

  /** Within the `i8` bounds, the answer is the number of free cells of the
    * bounding box. */
  lemma EmptyGroundInBox(positions: seq<Position>)
    requires Distinct(positions) && |positions| > 0
    requires MaxOf(Xs(positions)) < 127 && MaxOf(Ys(positions)) < 127
    requires MaxOf(Xs(positions)) + 1 - MinOf(Xs(positions)) <= 127 && MaxOf(Ys(positions)) + 1 - MinOf(Ys(positions)) <= 127
    ensures CountEmptyGroundTiles(positions).Some?
    ensures CountEmptyGroundTiles(positions).value == |BoundingBox(positions) - Occupied(positions)|
  {
    DistinctCardinality(positions);
    EmptyGroundByCardinality(positions);
  }

  /** The same, for any elves that cover as many cells as there are elves. */
  lemma EmptyGroundByCardinality(positions: seq<Position>)
    requires |positions| > 0 && |Occupied(positions)| == |positions|
    requires MaxOf(Xs(positions)) < 127 && MaxOf(Ys(positions)) < 127
    requires MaxOf(Xs(positions)) + 1 - MinOf(Xs(positions)) <= 127 && MaxOf(Ys(positions)) + 1 - MinOf(Ys(positions)) <= 127
    ensures CountEmptyGroundTiles(positions).Some?
    ensures CountEmptyGroundTiles(positions).value == |BoundingBox(positions) - Occupied(positions)|
  {
    var xs, ys := Xs(positions), Ys(positions);
    var x0, x1, y0, y1 := MinOf(xs), MaxOf(xs) + 1, MinOf(ys), MaxOf(ys) + 1;
    MinAtMostMax(xs);
    MinAtMostMax(ys);
    CountIsBox(positions, x0, x1, y0, y1);
    FreeCellsOfBox(positions, x0, x1, y0, y1);
  }

  /** The box count for the extremes, less the cells the elves cover, is
      the number of free cells of the bounding box. */
  lemma FreeCellsOfBox(positions: seq<Position>, x0: int, x1: int, y0: int, y1: int)
    requires |positions| > 0 && x0 == MinOf(Xs(positions)) && x1 == MaxOf(Xs(positions)) + 1
    requires y0 == MinOf(Ys(positions)) && y1 == MaxOf(Ys(positions)) + 1
    requires x0 <= x1 <= 127 && y0 <= y1 <= 127 && x1 - x0 <= 127 && y1 - y0 <= 127
    ensures EmptyInBox(x0, x1, y0, y1, |Occupied(positions)|).Some?
    ensures EmptyInBox(x0, x1, y0, y1, |Occupied(positions)|).value == |BoundingBox(positions) - Occupied(positions)|
  {
    ElvesInBox(positions);
    EmptyInBoxValue(x0, x1, y0, y1, Occupied(positions));
  }

  /** The answer for some elves is the box count for their extremes. */
  lemma CountIsBox(positions: seq<Position>, x0: int, x1: int, y0: int, y1: int)
    requires |positions| > 0 && x0 == MinOf(Xs(positions)) && x1 == MaxOf(Xs(positions)) + 1
    requires y0 == MinOf(Ys(positions)) && y1 == MaxOf(Ys(positions)) + 1
    requires x0 <= x1 && y0 <= y1
    ensures CountEmptyGroundTiles(positions) == EmptyInBox(x0, x1, y0, y1, |positions|)
  {
  }

  /** For elves on distinct cells the answer is the number of cells of the
    * bounding box that hold no elf; no elves, or a box too wide for an `i8`,
    * is a panic. */
  lemma EmptyGroundMeaning(positions: seq<Position>)
    requires Distinct(positions)
    ensures CountEmptyGroundTiles(positions).Some? <==>
      |positions| > 0 && MaxOf(Xs(positions)) < 127 && MaxOf(Ys(positions)) < 127 &&
      MaxOf(Xs(positions)) + 1 - MinOf(Xs(positions)) <= 127 && MaxOf(Ys(positions)) + 1 - MinOf(Ys(positions)) <= 127
    ensures CountEmptyGroundTiles(positions).Some? ==>
      CountEmptyGroundTiles(positions).value == |BoundingBox(positions) - Occupied(positions)|
  {
    if |positions| > 0 {
      var xs, ys := Xs(positions), Ys(positions);
      var x0, x1, y0, y1 := MinOf(xs), MaxOf(xs) + 1, MinOf(ys), MaxOf(ys) + 1;
      if x1 <= 127 && y1 <= 127 && x1 - x0 <= 127 && y1 - y0 <= 127 {
        EmptyGroundInBox(positions);
      } else {
        MinAtMostMax(xs);
        MinAtMostMax(ys);
        CountIsBox(positions, x0, x1, y0, y1);
      }
    }
  }
}
