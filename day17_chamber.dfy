/** The day 17 chamber: the set of cells occupied by rocks at rest, and its
    height. */
module Day17Chamber {
  import opened Day17Coordinate

  /** Some cell of `cells` is in the topmost occupied row `m`. */
  ghost predicate IsTopRow(cells: set<Coordinate>, m: nat) {
    (exists c :: c in cells && c.y == m) && forall c :: c in cells ==> c.y <= m
  }

  lemma {:induction false} TopRowExists(cells: set<Coordinate>)
    requires cells != {}
    ensures exists m :: IsTopRow(cells, m)
    decreases |cells|
  {
    var c :| c in cells;
    if cells == {c} {
      assert IsTopRow(cells, c.y);
    } else {
      var rest := cells - {c};
      TopRowExists(rest);
      var m :| IsTopRow(rest, m);
      assert forall d :: d in cells ==> d == c || d in rest;
      if c.y <= m {
        assert IsTopRow(cells, m);
      } else {
        assert IsTopRow(cells, c.y);
      }
    }
  }

  /** The largest `y` among the cells (`iter().map(|c| c.y).max()`). */
  function MaxY(cells: set<Coordinate>): (m: nat)
    requires cells != {}
    ensures exists c :: c in cells && c.y == m
    ensures forall c :: c in cells ==> c.y <= m
  {
    TopRowExists(cells);
    var m :| m in (set c | c in cells :: c.y) && forall c :: c in cells ==> c.y <= m; m
  }

  /** `Chamber` from chamber.rs. The source builds it in simulator.rs without
      `cycle_height`; the model gives it the field it declares. */
  datatype Chamber = Chamber(width: nat, rocks: set<Coordinate>, cycleHeight: nat) {

    /** `get_height`: one more than the highest occupied row, 0 when empty. */
    function GetHeight(): (h: nat)
      ensures rocks == {} ==> h == 0
      ensures forall c :: c in rocks ==> c.y < h
      ensures rocks != {} ==> exists c :: c in rocks && c.y == h - 1
    {
      if rocks == {} then 0 else MaxY(rocks) + 1
    }

    /** `get_adjusted_height`: the height plus the height skipped by cycles,
        less one. The `u64` subtraction needs that sum to be at least 1. */
    function GetAdjustedHeight(): (h: nat)
      requires GetHeight() + cycleHeight >= 1
      ensures rocks != {} ==> exists c :: c in rocks && c.y + cycleHeight == h
      ensures forall c :: c in rocks ==> c.y + cycleHeight <= h
      ensures rocks == {} ==> h + 1 == cycleHeight
    {
      GetHeight() + cycleHeight - 1
    }
  }

  /** The height of a set of cells, the quantity `get_height` reports. */
  function Height(rocks: set<Coordinate>): nat {
    Chamber(7, rocks, 0).GetHeight()
  }

  /** Adding cells never lowers the height, and removing cells never raises it. */
  lemma HeightMonotone(small: set<Coordinate>, large: set<Coordinate>)
    requires small <= large
    ensures Height(small) <= Height(large)
  {
    if small != {} {
      var c :| c in small && c.y == Height(small) - 1;
      assert c in large;
    }
  }

  /** The height after adding cells is the larger of the old height and one
      more than the highest added cell. */
  lemma HeightOfUnion(rocks: set<Coordinate>, added: set<Coordinate>, top: nat)
    requires forall c :: c in added ==> c.y <= top
    ensures Height(rocks + added) <= Common.Max(Height(rocks), top + 1)
  {
    var u := rocks + added;
    if u != {} {
      var c :| c in u && c.y == Height(u) - 1;
      if c in rocks {
        assert c.y < Height(rocks);
      }
    }
  }
}
