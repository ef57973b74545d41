/** The day 17 falling-rock simulation: jet pushes and one-cell falls until a
    rock rests, and the pruning of the chamber to the cells on its contour,
    traced through Moore (8-connected) neighbourhoods. */
module Day17Simulator {
  import opened Common
  import opened Day17Coordinate
  import opened Day17Parser
  import opened Day17Rock
  import opened Day17Chamber

  /** The chamber is seven columns wide. */
  const Width: nat := 7

  // ---------------------------------------------------------------------
  // Moving a rock
  // ---------------------------------------------------------------------

  /** Every cell moved by (`dx`, `dy`); the move must not leave the
      quadrant of unsigned ordinates. */
  function Translate(cells: seq<Coordinate>, dx: int, dy: int): (r: seq<Coordinate>)
    requires forall i :: 0 <= i < |cells| ==> cells[i].x + dx >= 0 && cells[i].y + dy >= 0
    ensures |r| == |cells|
    ensures forall i :: 0 <= i < |cells| ==> r[i] == Coordinate(cells[i].x + dx, cells[i].y + dy)
  {
    seq(|cells|, i requires 0 <= i < |cells| => Coordinate(cells[i].x + dx, cells[i].y + dy))
  }

  /** Moving a placed shape is placing it at the moved corner. */
  lemma TranslatePlace(rock: RockType, ax: nat, ay: nat, dx: int, dy: int)
    requires ax + dx >= 0 && ay + dy >= 0
    ensures forall i :: 0 <= i < |Place(rock, ax, ay)| ==>
      Place(rock, ax, ay)[i].x + dx >= 0 && Place(rock, ax, ay)[i].y + dy >= 0
    ensures Translate(Place(rock, ax, ay), dx, dy) == Place(rock, ax + dx, ay + dy)
  {
  }

  /** The `iter_mut().for_each(...)` updates of run_simulation: every part
      of the rock moved in place. */
  method ShiftRock(rock: array<Coordinate>, dx: int, dy: int)
    requires forall i :: 0 <= i < rock.Length ==> rock[i].x + dx >= 0 && rock[i].y + dy >= 0
    modifies rock
    ensures rock[..] == Translate(old(rock[..]), dx, dy)
  {
    for i := 0 to rock.Length
      invariant forall j :: 0 <= j < i ==> rock[j] == Coordinate(old(rock[j]).x + dx, old(rock[j]).y + dy)
      invariant forall j :: i <= j < rock.Length ==> rock[j] == old(rock[j])
    {
      rock[i] := Coordinate(rock[i].x + dx, rock[i].y + dy);
    }
  }

  // ---------------------------------------------------------------------
  // Collision checks
  // ---------------------------------------------------------------------

  /** Some cell lies in column `x`. */
  function AnyInColumn(cells: seq<Coordinate>, x: nat): (b: bool)
    ensures b <==> exists i :: 0 <= i < |cells| && cells[i].x == x
  {
    if cells == [] then false
    else if cells[0].x == x then true
    else
      var rest := AnyInColumn(cells[1..], x);
      assert rest ==> exists i :: 0 <= i < |cells| && cells[i].x == x by {
        if rest {
          var i :| 0 <= i < |cells[1..]| && cells[1..][i].x == x;
          assert cells[i + 1].x == x;
        }
      }
      rest
  }

  /** Some cell is occupied (`iter().any(|part| rocks.contains(..))`). */
  function AnyOccupied(cells: seq<Coordinate>, rocks: set<Coordinate>): (b: bool)
    ensures b <==> exists i :: 0 <= i < |cells| && cells[i] in rocks
  {
    if cells == [] then false
    else if cells[0] in rocks then true
    else
      var rest := AnyOccupied(cells[1..], rocks);
      assert rest ==> exists i :: 0 <= i < |cells| && cells[i] in rocks by {
        if rest {
          var i :| 0 <= i < |cells[1..]| && cells[1..][i] in rocks;
          assert cells[i + 1] in rocks;
        }
      }
      rest
  }

  /** `is_blocked_below`: only the first part is compared with the floor;
      the other parts' `y - 1` would underflow if one of them were at y = 0
      while the first is not, so the caller must order the parts with the
      lowest first. */
  function IsBlockedBelow(rock: seq<Coordinate>, rocks: set<Coordinate>): (b: bool)
    requires |rock| > 0
    requires rock[0].y > 0 ==> forall i :: 0 <= i < |rock| ==> rock[i].y > 0
    ensures b <==> (rock[0].y == 0 ||
      exists i :: 0 <= i < |rock| && rock[i].y > 0 && Coordinate(rock[i].x, rock[i].y - 1) in rocks)
  {
    if rock[0].y == 0 then true
    else
      var below := Translate(rock, 0, -1);
      var b := AnyOccupied(below, rocks);
      assert b ==> exists i :: 0 <= i < |rock| && Coordinate(rock[i].x, rock[i].y - 1) in rocks by {
        if b {
          var i :| 0 <= i < |below| && below[i] in rocks;
          assert below[i] == Coordinate(rock[i].x, rock[i].y - 1);
        }
      }
      b
  }

  /** `is_blocked_left`: a part is at the left wall, or the cell to the
      left of a part is occupied. */
  function IsBlockedLeft(rock: seq<Coordinate>, rocks: set<Coordinate>): (b: bool)
    ensures b <==> ((exists i :: 0 <= i < |rock| && rock[i].x == 0) ||
      exists i :: 0 <= i < |rock| && rock[i].x > 0 && Coordinate(rock[i].x - 1, rock[i].y) in rocks)
  {
    if AnyInColumn(rock, 0) then true
    else
      var left := Translate(rock, -1, 0);
      var b := AnyOccupied(left, rocks);
      assert b ==> exists i :: 0 <= i < |rock| && rock[i].x > 0 && Coordinate(rock[i].x - 1, rock[i].y) in rocks by {
        if b {
          var i :| 0 <= i < |left| && left[i] in rocks;
          assert left[i] == Coordinate(rock[i].x - 1, rock[i].y);
        }
      }
      b
  }

  /** `is_blocked_right`: a part is in column 6, the last one, or the cell to
      the right of a part is occupied. */
  function IsBlockedRight(rock: seq<Coordinate>, rocks: set<Coordinate>): (b: bool)
    ensures b <==> ((exists i :: 0 <= i < |rock| && rock[i].x == 6) ||
      exists i :: 0 <= i < |rock| && Coordinate(rock[i].x + 1, rock[i].y) in rocks)
  {
    var isAtWall := AnyInColumn(rock, 6);
    var right := Translate(rock, 1, 0);
    var hasRockRight := AnyOccupied(right, rocks);
    assert hasRockRight ==> exists i :: 0 <= i < |rock| && Coordinate(rock[i].x + 1, rock[i].y) in rocks by {
      if hasRockRight {
        var i :| 0 <= i < |right| && right[i] in rocks;
        assert right[i] == Coordinate(rock[i].x + 1, rock[i].y);
      }
    }
    isAtWall || hasRockRight
  }

  // ---------------------------------------------------------------------
  // One rock, from spawn to rest
  // ---------------------------------------------------------------------

  /** The lower-left corner of a rock's bounding box. */
  datatype Position = Position(ax: nat, ay: nat)

  /** Where a rock is at rest, and the number of jets used so far. */
  datatype Rest = Rest(at: Position, jet: nat)

  /** The cells of a rock of shape `rock` at `p`. */
  function CellsAt(rock: RockType, p: Position): seq<Coordinate> {
    Place(rock, p.ax, p.ay)
  }

  /** The part of the loop body of run_simulation that applies one jet. */
  function Push(rock: RockType, p: Position, rocks: set<Coordinate>, dir: JetDirection): (q: Position)
    ensures q.ay == p.ay
  {
    PlaceShape(rock, p.ax, p.ay);
    match dir
    case Left => if IsBlockedLeft(CellsAt(rock, p), rocks) then p else Position(p.ax - 1, p.ay)
    case Right => if IsBlockedRight(CellsAt(rock, p), rocks) then p else Position(p.ax + 1, p.ay)
  }

  /** The cells are inside columns 0..6 and none of them is occupied. */
  ghost predicate ClearCells(cells: seq<Coordinate>, rocks: set<Coordinate>) {
    forall i :: 0 <= i < |cells| ==> cells[i].x < Width && cells[i] !in rocks
  }

  /** The rock is inside the chamber's columns and clear of resting rocks. */
  ghost predicate Clear(rock: RockType, p: Position, rocks: set<Coordinate>) {
    ClearCells(CellsAt(rock, p), rocks)
  }

  /** `is_blocked_below` for a rock of shape `rock` at `p`. */
  function CannotFall(rock: RockType, p: Position, rocks: set<Coordinate>): (b: bool)
    ensures !b ==> p.ay > 0
  {
    PlaceShape(rock, p.ax, p.ay);
    IsBlockedBelow(CellsAt(rock, p), rocks)
  }

  /** The inner `loop` of run_simulation as a recursive function: one jet per
      push, each push followed by a fall attempt; the rock rests at the first
      fall that is blocked. */
  function Settle(rock: RockType, p: Position, rocks: set<Coordinate>, pattern: seq<JetDirection>, jet: nat): (r: Rest)
    requires |pattern| > 0
    ensures r.jet > jet
    decreases p.ay
  {
    var q := Push(rock, p, rocks, pattern[jet % |pattern|]);
    if CannotFall(rock, q, rocks) then Rest(q, jet + 1)
    else Settle(rock, Position(q.ax, q.ay - 1), rocks, pattern, jet + 1)
  }

  /** A push either leaves every cell where it was or moves every cell one
      column left (Left) or right (Right); no cell changes row. */
  lemma PushMovesByOne(rock: RockType, p: Position, rocks: set<Coordinate>, dir: JetDirection)
    ensures var q := Push(rock, p, rocks, dir);
      q.ay == p.ay &&
      (q == p || (dir == Left && q.ax + 1 == p.ax) || (dir == Right && q.ax == p.ax + 1))
    ensures var cells, moved := CellsAt(rock, p), CellsAt(rock, Push(rock, p, rocks, dir));
      |moved| == |cells| &&
      (moved == cells ||
       (dir == Left && forall i :: 0 <= i < |cells| ==> moved[i] == Coordinate(cells[i].x - 1, cells[i].y)) ||
       (dir == Right && forall i :: 0 <= i < |cells| ==> moved[i] == Coordinate(cells[i].x + 1, cells[i].y)))
  {
  }

  /** Past a left push that is not blocked, clear cells stay clear. */
  lemma PushLeftKeepsClear(cells: seq<Coordinate>, rocks: set<Coordinate>)
    requires ClearCells(cells, rocks) && !IsBlockedLeft(cells, rocks)
    ensures forall i :: 0 <= i < |cells| ==> cells[i].x >= 1
    ensures ClearCells(Translate(cells, -1, 0), rocks)
  {
  }

  /** Past a right push that is not blocked, clear cells stay clear: no cell
      was in the last column, so none leaves the chamber. */
  lemma PushRightKeepsClear(cells: seq<Coordinate>, rocks: set<Coordinate>)
    requires ClearCells(cells, rocks) && !IsBlockedRight(cells, rocks)
    ensures ClearCells(Translate(cells, 1, 0), rocks)
  {
    var moved := Translate(cells, 1, 0);
    forall i | 0 <= i < |cells| ensures moved[i].x < Width && moved[i] !in rocks {
      assert cells[i].x != 6;
    }
  }

  /** Past a fall that is not blocked, clear cells stay clear. */
  lemma FallKeepsClearCells(cells: seq<Coordinate>, rocks: set<Coordinate>)
    requires |cells| > 0 && (cells[0].y > 0 ==> forall i :: 0 <= i < |cells| ==> cells[i].y > 0)
    requires ClearCells(cells, rocks) && !IsBlockedBelow(cells, rocks)
    ensures forall i :: 0 <= i < |cells| ==> cells[i].y >= 1
    ensures ClearCells(Translate(cells, 0, -1), rocks)
  {
    var moved := Translate(cells, 0, -1);
    forall i | 0 <= i < |cells| ensures moved[i] !in rocks {
      assert moved[i] == Coordinate(cells[i].x, cells[i].y - 1);
    }
  }

  /** The left edge of a placed shape is its corner's column. */
  lemma PlaceLeftEdge(rock: RockType, ax: nat, ay: nat)
    ensures exists i :: 0 <= i < |Place(rock, ax, ay)| && Place(rock, ax, ay)[i].x == ax
  {
    PlaceShape(rock, ax, ay);
  }

  /** A left push keeps a clear rock clear. */
  lemma PushLeftKeepsClearAt(rock: RockType, p: Position, rocks: set<Coordinate>)
    requires Clear(rock, p, rocks)
    ensures Clear(rock, Push(rock, p, rocks, Left), rocks)
  {
    var cells := CellsAt(rock, p);
    if !IsBlockedLeft(cells, rocks) {
      PlaceLeftEdge(rock, p.ax, p.ay);
      PushLeftKeepsClear(cells, rocks);
      TranslatePlace(rock, p.ax, p.ay, -1, 0);
    }
  }

  /** A right push keeps a clear rock clear. */
  lemma PushRightKeepsClearAt(rock: RockType, p: Position, rocks: set<Coordinate>)
    requires Clear(rock, p, rocks)
    ensures Clear(rock, Push(rock, p, rocks, Right), rocks)
  {
    var cells := CellsAt(rock, p);
    if !IsBlockedRight(cells, rocks) {
      PushRightKeepsClear(cells, rocks);
      TranslatePlace(rock, p.ax, p.ay, 1, 0);
    }
  }

  /** The wall and collision checks keep a clear rock clear: a push never
      moves a cell out of columns 0..6 or into an occupied cell. */
  lemma PushKeepsClear(rock: RockType, p: Position, rocks: set<Coordinate>, dir: JetDirection)
    requires Clear(rock, p, rocks)
    ensures Clear(rock, Push(rock, p, rocks, dir), rocks)
  {
    match dir
    case Left => PushLeftKeepsClearAt(rock, p, rocks);
    case Right => PushRightKeepsClearAt(rock, p, rocks);
  }

  /** A fall that is not blocked moves a clear rock one row down into free
      cells. */
  lemma FallKeepsClear(rock: RockType, p: Position, rocks: set<Coordinate>)
    requires Clear(rock, p, rocks)
    requires !CannotFall(rock, p, rocks)
    ensures p.ay > 0
    ensures Clear(rock, Position(p.ax, p.ay - 1), rocks)
  {
    PlaceShape(rock, p.ax, p.ay);
    FallKeepsClearCells(CellsAt(rock, p), rocks);
    TranslatePlace(rock, p.ax, p.ay, 0, -1);
  }

  /** A rock that starts clear comes to rest clear: inside the walls and on
      no occupied cell. */
  lemma {:induction false} SettleKeepsClear(rock: RockType, p: Position, rocks: set<Coordinate>,
                                            pattern: seq<JetDirection>, jet: nat)
    requires |pattern| > 0
    requires Clear(rock, p, rocks)
    ensures Clear(rock, Settle(rock, p, rocks, pattern, jet).at, rocks)
    decreases p.ay
  {
    var q := Push(rock, p, rocks, pattern[jet % |pattern|]);
    PushKeepsClear(rock, p, rocks, pattern[jet % |pattern|]);
    if !CannotFall(rock, q, rocks) {
      FallKeepsClear(rock, q, rocks);
      SettleKeepsClear(rock, Position(q.ax, q.ay - 1), rocks, pattern, jet + 1);
    }
  }

  /** A rock that cannot fall is on the floor or on a cell below the
      height, so its bottom row is at most the height. */
  lemma BlockedIsLow(rock: RockType, q: Position, rocks: set<Coordinate>)
    requires CannotFall(rock, q, rocks)
    ensures q.ay <= Height(rocks)
  {
    PlaceShape(rock, q.ax, q.ay);
    var cells := CellsAt(rock, q);
    if q.ay > 0 {
      var i :| 0 <= i < |cells| && cells[i].y > 0 && Coordinate(cells[i].x, cells[i].y - 1) in rocks;
      assert cells[i].y - 1 < Height(rocks);
    }
  }

  /** A rock that is clear of all occupied cells rests no higher than the
      current height: its fall is only blocked by the floor or by a cell
      below the height. */
  lemma {:induction false} SettleNoHigherThanHeight(rock: RockType, p: Position, rocks: set<Coordinate>,
                                                    pattern: seq<JetDirection>, jet: nat)
    requires |pattern| > 0
    requires Clear(rock, p, rocks)
    ensures Settle(rock, p, rocks, pattern, jet).at.ay <= Height(rocks)
    decreases p.ay
  {
    var q := Push(rock, p, rocks, pattern[jet % |pattern|]);
    PushKeepsClear(rock, p, rocks, pattern[jet % |pattern|]);
    if CannotFall(rock, q, rocks) {
      BlockedIsLow(rock, q, rocks);
    } else {
      FallKeepsClear(rock, q, rocks);
      SettleNoHigherThanHeight(rock, Position(q.ax, q.ay - 1), rocks, pattern, jet + 1);
    }
  }

  /** A rock spawned by `create_rock` is clear of the chamber. */
  lemma SpawnIsClear(rock: RockType, rocks: set<Coordinate>)
    ensures Clear(rock, Position(2, Height(rocks) + 3), rocks)
  {
    var cells := CellsAt(rock, Position(2, Height(rocks) + 3));
    PlaceShape(rock, 2, Height(rocks) + 3);
    forall i | 0 <= i < |cells| ensures cells[i].x < Width && cells[i] !in rocks {
      assert cells[i].y >= Height(rocks);
    }
  }

  /** One jet applied to the rock's parts in place. */
  method ApplyJet(rock: array<Coordinate>, kind: RockType, ghost p: Position, rocks: set<Coordinate>,
                  dir: JetDirection)
    requires rock[..] == CellsAt(kind, p)
    modifies rock
    ensures rock[..] == CellsAt(kind, Push(kind, p, rocks, dir))
  {
    PlaceShape(kind, p.ax, p.ay);
    ghost var q := Push(kind, p, rocks, dir);
    match dir
    case Left =>
      if !IsBlockedLeft(rock[..], rocks) {
        assert q == Position(p.ax - 1, p.ay);
        ShiftPlaced(rock, kind, p.ax, p.ay, -1);
      } else {
        assert q == p;
      }
    case Right =>
      if !IsBlockedRight(rock[..], rocks) {
        assert q == Position(p.ax + 1, p.ay);
        ShiftPlaced(rock, kind, p.ax, p.ay, 1);
      } else {
        assert q == p;
      }
  }

  /** The parts of a placed rock moved sideways in place are the rock placed
      there. */
  method ShiftPlaced(rock: array<Coordinate>, kind: RockType, ghost ax: nat, ghost ay: nat, dx: int)
    requires rock[..] == Place(kind, ax, ay) && ax + dx >= 0
    modifies rock
    ensures rock[..] == Place(kind, ax + dx, ay)
  {
    TranslatePlace(kind, ax, ay, dx, 0);
    ShiftRock(rock, dx, 0);
  }

  /** One step of `Settle` when the pushed rock cannot fall: it rests. */
  lemma SettleRests(rock: RockType, p: Position, rocks: set<Coordinate>, pattern: seq<JetDirection>, jet: nat)
    requires |pattern| > 0
    requires var q := Push(rock, p, rocks, pattern[jet % |pattern|]);
      CannotFall(rock, q, rocks)
    ensures Settle(rock, p, rocks, pattern, jet) == Rest(Push(rock, p, rocks, pattern[jet % |pattern|]), jet + 1)
  {
  }

  /** One step of `Settle` when the pushed rock can fall: it goes on one row
      lower with the next jet. */
  lemma SettleFalls(rock: RockType, p: Position, rocks: set<Coordinate>, pattern: seq<JetDirection>, jet: nat)
    requires |pattern| > 0
    requires var q := Push(rock, p, rocks, pattern[jet % |pattern|]);
      !CannotFall(rock, q, rocks)
    ensures Push(rock, p, rocks, pattern[jet % |pattern|]).ay > 0
    ensures var q := Push(rock, p, rocks, pattern[jet % |pattern|]);
      Settle(rock, p, rocks, pattern, jet) == Settle(rock, Position(q.ax, q.ay - 1), rocks, pattern, jet + 1)
  {
    var q := Push(rock, p, rocks, pattern[jet % |pattern|]);
    PlaceShape(rock, q.ax, q.ay);
  }

  /** `is_blocked_below` on the rock's array of parts. */
  method RockCannotFall(rock: array<Coordinate>, ghost kind: RockType, ghost q: Position, rocks: set<Coordinate>)
    returns (blocked: bool)
    requires rock[..] == CellsAt(kind, q)
    ensures blocked == CannotFall(kind, q, rocks)
  {
    PlaceShape(kind, q.ax, q.ay);
    blocked := IsBlockedBelow(rock[..], rocks);
  }

  /** One fall applied to the rock's parts in place. */
  method Fall(rock: array<Coordinate>, ghost kind: RockType, ghost q: Position)
    requires rock[..] == CellsAt(kind, q) && q.ay > 0
    modifies rock
    ensures rock[..] == CellsAt(kind, Position(q.ax, q.ay - 1))
  {
    TranslatePlace(kind, q.ax, q.ay, 0, -1);
    ShiftRock(rock, 0, -1);
  }

  /** One pass of the inner `loop` of run_simulation: push by the next
      jet, then fall one row unless blocked. */
  method Step(rock: array<Coordinate>, kind: RockType, ghost p: Position, rocks: set<Coordinate>,
              pattern: seq<JetDirection>, jet: nat) returns (blocked: bool, ghost q: Position)
    requires |pattern| > 0
    requires rock[..] == CellsAt(kind, p)
    modifies rock
    ensures q == Push(kind, p, rocks, pattern[jet % |pattern|])
    ensures blocked == CannotFall(kind, q, rocks)
    ensures blocked ==> rock[..] == CellsAt(kind, q) && Settle(kind, p, rocks, pattern, jet) == Rest(q, jet + 1)
    ensures !blocked ==> (q.ay > 0 && rock[..] == CellsAt(kind, Position(q.ax, q.ay - 1)) &&
      Settle(kind, p, rocks, pattern, jet) == Settle(kind, Position(q.ax, q.ay - 1), rocks, pattern, jet + 1))
  {
    var thisPattern := pattern[jet % |pattern|];
    q := Push(kind, p, rocks, thisPattern);
    ApplyJet(rock, kind, p, rocks, thisPattern);
    blocked := RockCannotFall(rock, kind, q, rocks);
    if blocked {
      SettleRests(kind, p, rocks, pattern, jet);
    } else {
      SettleFalls(kind, p, rocks, pattern, jet);
      Fall(rock, kind, q);
    }
  }

  /** The inner `loop` of run_simulation on the rock's array of parts: push
      by the next jet, then fall or come to rest. */
  method DropRock(rock: array<Coordinate>, kind: RockType, ghost start: Position, rocks: set<Coordinate>,
                  pattern: seq<JetDirection>, jet: nat) returns (nextJet: nat, ghost at: Position)
    requires |pattern| > 0
    requires rock[..] == CellsAt(kind, start)
    modifies rock
    ensures Settle(kind, start, rocks, pattern, jet) == Rest(at, nextJet)
    ensures rock[..] == CellsAt(kind, at)
  {
    ghost var p := start;
    nextJet := jet;
    while true
      invariant rock[..] == CellsAt(kind, p)
      invariant Settle(kind, p, rocks, pattern, nextJet) == Settle(kind, start, rocks, pattern, jet)
      decreases p.ay
    {
      var blocked;
      ghost var q;
      blocked, q := Step(rock, kind, p, rocks, pattern, nextJet);
      nextJet := nextJet + 1;
      if blocked {
        at := q;
        return;
      }
      p := Position(q.ax, q.ay - 1);
    }
  }

  // ---------------------------------------------------------------------
  // Moore neighbourhood
  // ---------------------------------------------------------------------

  /** `c` is one of the eight cells around `centre`. */
  predicate IsMooreNeighbour(c: Coordinate, centre: Coordinate) {
    c != centre && -1 <= c.x - centre.x <= 1 && -1 <= c.y - centre.y <= 1
  }

  /** The neighbour list built by `MooreNeighbourhoodIterator::new`, clockwise
      from the cell above, leaving out the cells whose `x - 1` or `y - 1`
      would underflow. */
  function Neighbours(centre: Coordinate): (r: seq<Coordinate>)
    ensures |r| >= 3
    ensures forall i :: 0 <= i < |r| ==> IsMooreNeighbour(r[i], centre)
  {
    var x, y := centre.x, centre.y;
    [Coordinate(x, y + 1), Coordinate(x + 1, y + 1), Coordinate(x + 1, y)]
    + (if y > 0 then [Coordinate(x + 1, y - 1)] else [])
    + (if y > 0 then [Coordinate(x, y - 1)] else [])
    + (if x > 0 && y > 0 then [Coordinate(x - 1, y - 1)] else [])
    + (if x > 0 then [Coordinate(x - 1, y)] else [])
    + (if x > 0 then [Coordinate(x - 1, y + 1)] else [])
  }

  /** The list holds every neighbour exactly once, starting with the cell
      above: eight of them, five on the floor row or the left column, three
      in the corner. */
  lemma NeighboursMeaning(centre: Coordinate)
    ensures var r := Neighbours(centre);
      && (forall c :: IsMooreNeighbour(c, centre) ==> c in r)
      && (forall i, j :: 0 <= i < j < |r| ==> r[i] != r[j])
      && |r| == (if centre.x > 0 && centre.y > 0 then 8 else if centre.x > 0 || centre.y > 0 then 5 else 3)
      && r[0] == Coordinate(centre.x, centre.y + 1)
  {
    var r := Neighbours(centre);
    forall c | IsMooreNeighbour(c, centre) ensures c in r {
      var x, y := centre.x, centre.y;
      if c.y == y + 1 {
        assert c == Coordinate(x, y + 1) || c == Coordinate(x + 1, y + 1) || c == Coordinate(x - 1, y + 1);
      } else if c.y == y {
        assert c == Coordinate(x + 1, y) || c == Coordinate(x - 1, y);
      } else {
        assert c == Coordinate(x + 1, y - 1) || c == Coordinate(x, y - 1) || c == Coordinate(x - 1, y - 1);
      }
    }
  }

  /** `iter().position(..)`: the first index holding `c`. */
  function IndexOf(s: seq<Coordinate>, c: Coordinate): (k: nat)
    requires c in s
    ensures k < |s| && s[k] == c
    ensures forall j :: 0 <= j < k ==> s[j] != c
  {
    if s[0] == c then 0 else 1 + IndexOf(s[1..], c)
  }

  /** `MooreNeighbourhoodIterator::new`: the neighbour list, rotated to start
      at `start` when one is given. `position(..).unwrap()` panics (here:
      `None`) when `start` is not a neighbour. */
  function NeighbourhoodFrom(centre: Coordinate, start: Option<Coordinate>): (r: Option<seq<Coordinate>>)
    ensures r.Some? ==> forall i :: 0 <= i < |r.value| ==> IsMooreNeighbour(r.value[i], centre)
  {
    var neighbours := Neighbours(centre);
    match start
    case None => Some(neighbours)
    case Some(s) =>
      if s in neighbours then
        var k := IndexOf(neighbours, s);
        var rotated := neighbours[k..] + neighbours[..k];
        assert forall i :: 0 <= i < |rotated| ==> rotated[i] in neighbours;
        Some(rotated)
      else None
  }

  /** The scan panics exactly when the given start is not a neighbour;
      otherwise it is the neighbour list rotated to begin at that start. */
  lemma NeighbourhoodFromMeaning(centre: Coordinate, start: Option<Coordinate>)
    ensures var r := NeighbourhoodFrom(centre, start);
      && (r.None? <==> start.Some? && start.value !in Neighbours(centre))
      && (start.None? ==> r == Some(Neighbours(centre)))
      && (r.Some? ==>
            exists k ::
              0 <= k < |Neighbours(centre)| && r.value == Neighbours(centre)[k..] + Neighbours(centre)[..k])
      && (r.Some? && start.Some? ==> r.value[0] == start.value)
  {
    var neighbours := Neighbours(centre);
    if start.None? {
      assert neighbours == neighbours[0..] + neighbours[..0];
    }
  }

  // ---------------------------------------------------------------------
  // Contour tracing
  // ---------------------------------------------------------------------

  /** The comparator given to `max_by` in `_boundry_trace`: larger means
      smaller `x`, then larger `y`. */
  function StartOrder(a: Coordinate, b: Coordinate): Ordering {
    CompareInt(a.x, b.x).Reverse().Then(CompareInt(a.y, b.y))
  }

  ghost predicate IsTraceStart(cells: set<Coordinate>, s: Coordinate) {
    s in cells && forall c :: c in cells ==> s.x < c.x || (s.x == c.x && c.y <= s.y)
  }

  lemma {:induction false} TraceStartExists(cells: set<Coordinate>)
    requires cells != {}
    ensures exists s :: IsTraceStart(cells, s)
    decreases |cells|
  {
    var c :| c in cells;
    if cells == {c} {
      assert IsTraceStart(cells, c);
    } else {
      var rest := cells - {c};
      TraceStartExists(rest);
      var s :| IsTraceStart(rest, s);
      assert forall d :: d in cells ==> d == c || d in rest;
      if s.x < c.x || (s.x == c.x && c.y <= s.y) {
        assert IsTraceStart(cells, s);
      } else {
        assert IsTraceStart(cells, c);
      }
    }
  }

  /** The maximum under `StartOrder`: the cell with the smallest `x`, and of
      those the largest `y` (the `x` comparison is reversed). */
  function TraceStart(cells: set<Coordinate>): (s: Coordinate)
    requires cells != {}
    ensures s in cells
    ensures forall c :: c in cells ==> s.x < c.x || (s.x == c.x && c.y <= s.y)
    ensures forall c :: c in cells ==> StartOrder(c, s) != Greater
  {
    TraceStartExists(cells);
    var s :| s in cells && forall c :: c in cells ==> s.x < c.x || (s.x == c.x && c.y <= s.y); s
  }

  /** How a trace ends: with the boundary set, with a panic of the source
      (an exhausted neighbour iterator, or a previous point that is not a
      neighbour), or by running out of the step budget the model imposes. */
  datatype TraceOutcome = Traced(boundary: set<Coordinate>) | Panicked | OutOfFuel

  /** The variables of the `while` loop of `_boundry_trace`: the cells
      collected so far, the rest of the neighbourhood being scanned, the point
      examined last and the point about to be examined. */
  datatype Walk = Walk(boundary: set<Coordinate>, neighbourhood: seq<Coordinate>,
                       previous: Option<Coordinate>, current: Coordinate)

  /** One pass of the loop body: an occupied `current` is collected and the
      scan restarts around it from the point examined last; then the scan
      moves on. `None` is a panic of an `unwrap`: a previous point that is
      not a neighbour, or an exhausted scan. */
  function Advance(chamber: set<Coordinate>, w: Walk): (r: Option<Walk>)
    ensures r.Some? ==> r.value.previous == Some(w.current)
    ensures r.Some? ==> r.value.boundary == if w.current in chamber then w.boundary + {w.current} else w.boundary
  {
    var collected := if w.current in chamber then w.boundary + {w.current} else w.boundary;
    var scan := if w.current in chamber then NeighbourhoodFrom(w.current, w.previous) else Some(w.neighbourhood);
    if scan.None? || scan.value == [] then None
    else Some(Walk(collected, scan.value[1..], Some(w.current), scan.value[0]))
  }

  /** The loop of `_boundry_trace` run from `w` with `budget` passes left: it
      stops when the point about to be examined is the start. */
  function TraceWalk(chamber: set<Coordinate>, start: Coordinate, w: Walk, budget: nat): TraceOutcome
    decreases budget
  {
    if w.current == start then Traced(w.boundary)
    else if budget == 0 then OutOfFuel
    else match Advance(chamber, w)
      case None => Panicked
      case Some(next) => TraceWalk(chamber, start, next, budget - 1)
  }

  /** Where the walk begins: the start cell collected, about to examine the
      cell above it. */
  function FirstWalk(start: Coordinate): Walk {
    var around := Neighbours(start);
    Walk({start}, around[1..], None, around[0])
  }

  /** `_boundry_trace` with a budget of `fuel` passes of its loop. */
  function Trace(chamber: set<Coordinate>, fuel: nat): TraceOutcome
    requires chamber != {}
  {
    TraceWalk(chamber, TraceStart(chamber), FirstWalk(TraceStart(chamber)), fuel)
  }

  /** A pass with budget left that does not panic leaves the outcome of the
      walk to the following passes. */
  lemma TraceWalkStep(chamber: set<Coordinate>, start: Coordinate, w: Walk, budget: nat, remaining: nat, next: Walk)
    requires w.current != start && budget == remaining + 1 && Advance(chamber, w) == Some(next)
    ensures TraceWalk(chamber, start, w, budget) == TraceWalk(chamber, start, next, remaining)
  {
  }

  /** A pass with budget left that panics ends the walk with the panic. */
  lemma TraceWalkPanics(chamber: set<Coordinate>, start: Coordinate, w: Walk, budget: nat)
    requires w.current != start && budget > 0 && Advance(chamber, w).None?
    ensures TraceWalk(chamber, start, w, budget) == Panicked
  {
  }

  /** A walk only ever adds cells of the chamber to what it has collected. */
  lemma {:induction false} TraceWalkWithin(chamber: set<Coordinate>, start: Coordinate, w: Walk, budget: nat)
    requires w.boundary <= chamber
    ensures var r := TraceWalk(chamber, start, w, budget);
      r.Traced? ==> w.boundary <= r.boundary <= chamber
    decreases budget
  {
    if w.current != start && budget > 0 && Advance(chamber, w).Some? {
      var next := Advance(chamber, w).value;
      TraceWalkStep(chamber, start, w, budget, budget - 1, next);
      TraceWalkWithin(chamber, start, next, budget - 1);
    }
  }

  /** More budget never changes a walk that ends within its budget: the
      budget only decides whether a walk is cut short. */
  lemma {:induction false} TraceWalkMoreFuel(chamber: set<Coordinate>, start: Coordinate, w: Walk,
                                             budget: nat, more: nat)
    requires budget <= more
    requires !TraceWalk(chamber, start, w, budget).OutOfFuel?
    ensures TraceWalk(chamber, start, w, more) == TraceWalk(chamber, start, w, budget)
    decreases budget
  {
    if w.current != start {
      assert budget > 0;
      if Advance(chamber, w).None? {
        TraceWalkPanics(chamber, start, w, budget);
        TraceWalkPanics(chamber, start, w, more);
      } else {
        var next := Advance(chamber, w).value;
        TraceWalkStep(chamber, start, w, budget, budget - 1, next);
        TraceWalkMoreFuel(chamber, start, next, budget - 1, more - 1);
        TraceWalkStep(chamber, start, w, more, more - 1, next);
      }
    }
  }

  /** A trace that ends within its budget ends the same way with any larger
      budget; a traced boundary holds the start cell and only chamber cells. */
  lemma TraceMeaning(chamber: set<Coordinate>, fuel: nat, more: nat)
    requires chamber != {} && fuel <= more
    ensures !Trace(chamber, fuel).OutOfFuel? ==> Trace(chamber, more) == Trace(chamber, fuel)
    ensures Trace(chamber, fuel).Traced? ==>
      TraceStart(chamber) in Trace(chamber, fuel).boundary && Trace(chamber, fuel).boundary <= chamber
  {
    var start := TraceStart(chamber);
    TraceWalkWithin(chamber, start, FirstWalk(start), fuel);
    if !Trace(chamber, fuel).OutOfFuel? {
      TraceWalkMoreFuel(chamber, start, FirstWalk(start), fuel, more);
    }
  }

  /** Every collected cell other than the start touches another collected
      cell. */
  ghost predicate Linked(boundary: set<Coordinate>, start: Coordinate) {
    forall c :: c in boundary && c != start ==> exists d :: d in boundary && IsMooreNeighbour(c, d)
  }

  /** Collecting a neighbour of a collected cell keeps the cells linked. */
  lemma LinkedAdd(boundary: set<Coordinate>, start: Coordinate, c: Coordinate, d: Coordinate)
    requires Linked(boundary, start) && d in boundary && IsMooreNeighbour(c, d)
    ensures Linked(boundary + {c}, start)
  {
    forall e | e in boundary + {c} && e != start
      ensures exists f :: f in boundary + {c} && IsMooreNeighbour(e, f)
    {
      if e == c {
        assert d in boundary + {c};
      } else {
        var f :| f in boundary && IsMooreNeighbour(e, f);
        assert f in boundary + {c};
      }
    }
  }

  /** What holds between two passes of the loop: the collected cells are
      linked chamber cells, and the point about to be examined and the rest
      of the scan all touch the cell whose neighbourhood is being scanned. */
  ghost predicate Walking(chamber: set<Coordinate>, start: Coordinate, w: Walk, centre: Coordinate) {
    && start in w.boundary && w.boundary <= chamber && centre in w.boundary
    && IsMooreNeighbour(w.current, centre)
    && (forall i :: 0 <= i < |w.neighbourhood| ==> IsMooreNeighbour(w.neighbourhood[i], centre))
    && Linked(w.boundary, start)
  }

  /** One pass of the `while` loop of `_boundry_trace`, on the loop's own
      variables: spend one pass of the budget, examine `current`, collecting
      it and restarting the scan around it when it is occupied, then take the
      next point of the scan. `stop` reports the panic that ends the walk. */
  method WalkStep(chamber: set<Coordinate>, start: Coordinate, boundary: set<Coordinate>,
                  neighbourhood: seq<Coordinate>, previous: Option<Coordinate>, current: Coordinate,
                  budget: nat, ghost centre: Coordinate)
    returns (stop: bool, boundary': set<Coordinate>, neighbourhood': seq<Coordinate>,
             previous': Option<Coordinate>, current': Coordinate, budget': nat, ghost centre': Coordinate)
    requires current != start && budget > 0
    requires Walking(chamber, start, Walk(boundary, neighbourhood, previous, current), centre)
    ensures budget' < budget
    ensures stop ==> TraceWalk(chamber, start, Walk(boundary, neighbourhood, previous, current), budget) == Panicked
    ensures !stop ==> Walking(chamber, start, Walk(boundary', neighbourhood', previous', current'), centre')
    ensures !stop ==>
      TraceWalk(chamber, start, Walk(boundary', neighbourhood', previous', current'), budget')
        == TraceWalk(chamber, start, Walk(boundary, neighbourhood, previous, current), budget)
  {
    budget' := budget - 1;
    boundary', neighbourhood', previous', current', centre' := boundary, neighbourhood, previous, current, centre;
    if current in chamber {
      LinkedAdd(boundary, start, current, centre);
      boundary' := boundary + {current};
      var next := NeighbourhoodFrom(current, previous);
      if next.None? {
        TraceWalkPanics(chamber, start, Walk(boundary, neighbourhood, previous, current), budget);
        return true, boundary', neighbourhood', previous', current', budget', centre';
      }
      neighbourhood' := next.value;
      centre' := current;
    }
    previous' := Some(current);
    if neighbourhood' == [] {
      TraceWalkPanics(chamber, start, Walk(boundary, neighbourhood, previous, current), budget);
      return true, boundary', neighbourhood', previous', current', budget', centre';
    }
    current' := neighbourhood'[0];
    neighbourhood' := neighbourhood'[1..];
    stop := false;
    assert Advance(chamber, Walk(boundary, neighbourhood, previous, current))
      == Some(Walk(boundary', neighbourhood', previous', current'));
    TraceWalkStep(chamber, start, Walk(boundary, neighbourhood, previous, current), budget, budget',
                  Walk(boundary', neighbourhood', previous', current'));
  }

  /** `_boundry_trace`: walk from the start cell, scanning neighbours from the
      point examined last, and collect every occupied cell stepped on until
      the walk reaches the start again. At most `fuel` passes are made. */
  method TraceBoundary(chamber: set<Coordinate>, fuel: nat) returns (outcome: TraceOutcome)
    requires chamber != {}
    ensures outcome == Trace(chamber, fuel)
    ensures outcome.Traced? ==> TraceStart(chamber) in outcome.boundary && outcome.boundary <= chamber
    ensures outcome.Traced? ==> Linked(outcome.boundary, TraceStart(chamber))
  {
    var start := TraceStart(chamber);
    var boundary := {start};
    var neighbourhood := Neighbours(start);
    ghost var centre := start;
    var previous: Option<Coordinate> := None;
    var current := neighbourhood[0];
    neighbourhood := neighbourhood[1..];
    var budget := fuel;
    ghost var goal := Trace(chamber, fuel);
    while current != start
      invariant Walking(chamber, start, Walk(boundary, neighbourhood, previous, current), centre)
      invariant TraceWalk(chamber, start, Walk(boundary, neighbourhood, previous, current), budget) == goal
      decreases budget
    {
      if budget == 0 {
        return OutOfFuel;
      }
      var stop;
      stop, boundary, neighbourhood, previous, current, budget, centre :=
        WalkStep(chamber, start, boundary, neighbourhood, previous, current, budget, centre);
      if stop {
        return Panicked;
      }
    }
    return Traced(boundary);
  }

  /** The shift by `SHIFT_AMOUNT` = 2 in both directions. */
  function ShiftUp(cells: set<Coordinate>): set<Coordinate> {
    set c | c in cells :: Coordinate(c.x + 2, c.y + 2)
  }

  /** The shift back; every cell must be at least 2 in both ordinates. */
  function ShiftDown(cells: set<Coordinate>): set<Coordinate>
    requires forall c :: c in cells ==> c.x >= 2 && c.y >= 2
  {
    set c | c in cells :: Coordinate(c.x - 2, c.y - 2)
  }

  /** The shifted chamber with the walls at x = 1 and x = width + 2 (one cell
      per row from 1 to the top row) and the floor at y = 1 between them. */
  function Padded(chamber: set<Coordinate>, width: nat): (padded: set<Coordinate>)
    requires chamber != {}
    ensures ShiftUp(chamber) <= padded
  {
    var shifted := ShiftUp(chamber);
    var c :| c in chamber;
    assert Coordinate(c.x + 2, c.y + 2) in shifted;
    var rightWallX := width + 2;
    var maxY := MaxY(shifted);
    var leftWall := set y: nat | 1 <= y < maxY + 1 :: Coordinate(1, y);
    var rightWall := set y: nat | 1 <= y < maxY + 1 :: Coordinate(rightWallX, y);
    var floor := set x: nat | 2 <= x < rightWallX :: Coordinate(x, 1);
    shifted + leftWall + rightWall + floor
  }

  /** Every padded cell off the walls and the floor is a shifted cell of the
      chamber. */
  lemma PaddedOffWalls(chamber: set<Coordinate>, width: nat, c: Coordinate)
    requires chamber != {}
    requires c in Padded(chamber, width) && !(c.x == 1 || c.x == width + 2 || c.y == 1)
    ensures c in ShiftUp(chamber) && c.x >= 2 && c.y >= 2
  {
  }

  /** With the walls in place the trace starts at the top of the left wall. */
  lemma PaddedTraceStart(chamber: set<Coordinate>, width: nat)
    requires chamber != {}
    ensures TraceStart(Padded(chamber, width)) == Coordinate(1, MaxY(ShiftUp(chamber)))
  {
    var padded := Padded(chamber, width);
    var shifted := ShiftUp(chamber);
    var top := Coordinate(1, MaxY(shifted));
    var c :| c in chamber;
    assert Coordinate(c.x + 2, c.y + 2) in shifted;
    assert top in padded;
    forall d | d in padded ensures top.x < d.x || (top.x == d.x && d.y <= top.y) {
      if d in shifted {
        assert d.x >= 2;
      }
    }
    var s := TraceStart(padded);
    assert s.x <= top.x && (s.x == top.x ==> top.y <= s.y);
  }

  /** The traced cells without the walls and the floor. */
  function Strip(cells: set<Coordinate>, width: nat): set<Coordinate> {
    set c | c in cells && !(c.x == 1 || c.x == width + 2 || c.y == 1)
  }

  /** Stripping a subset of the padded chamber and shifting it back gives a
      subset of the chamber. */
  lemma StripShiftDown(chamber: set<Coordinate>, width: nat, boundary: set<Coordinate>)
    requires chamber != {}
    requires boundary <= Padded(chamber, width)
    ensures forall c :: c in Strip(boundary, width) ==> c.x >= 2 && c.y >= 2
    ensures ShiftDown(Strip(boundary, width)) <= chamber
  {
    var kept := Strip(boundary, width);
    forall c | c in kept ensures c in ShiftUp(chamber) && c.x >= 2 && c.y >= 2 {
      PaddedOffWalls(chamber, width, c);
    }
    forall c | c in ShiftDown(kept) ensures c in chamber {
      var d :| d in kept && c == Coordinate(d.x - 2, d.y - 2);
      assert d in ShiftUp(chamber);
    }
  }

  /** `boundry_trace` with a budget of `fuel` passes for the trace: pad the
      chamber, trace it, strip the walls and the floor and shift back. The
      pruned chamber keeps only cells of the chamber. */
  function Prune(chamber: set<Coordinate>, width: nat, fuel: nat): (r: TraceOutcome)
    requires chamber != {}
    ensures r.Traced? ==> r.boundary <= chamber
    ensures !r.Traced? ==> r == Trace(Padded(chamber, width), fuel)
  {
    var traced := Trace(Padded(chamber, width), fuel);
    if traced.Traced? then
      TraceMeaning(Padded(chamber, width), fuel, fuel);
      StripShiftDown(chamber, width, traced.boundary);
      Traced(ShiftDown(Strip(traced.boundary, width)))
    else traced
  }

  /** A pruning that ends within its budget ends the same way with any
      larger budget. */
  lemma PruneMoreFuel(chamber: set<Coordinate>, width: nat, fuel: nat, more: nat)
    requires chamber != {} && fuel <= more
    requires !Prune(chamber, width, fuel).OutOfFuel?
    ensures Prune(chamber, width, more) == Prune(chamber, width, fuel)
  {
    TraceMeaning(Padded(chamber, width), fuel, more);
  }

  /** `boundry_trace`: pad, trace, strip the walls and the floor, shift back. */
  method BoundaryTrace(chamber: set<Coordinate>, width: nat, fuel: nat) returns (outcome: TraceOutcome)
    requires chamber != {}
    ensures outcome == Prune(chamber, width, fuel)
  {
    var padded := Padded(chamber, width);
    var traced := TraceBoundary(padded, fuel);
    if !traced.Traced? {
      return traced;
    }
    StripShiftDown(chamber, width, traced.boundary);
    var kept := Strip(traced.boundary, width);
    return Traced(ShiftDown(kept));
  }

  // ---------------------------------------------------------------------
  // The simulation
  // ---------------------------------------------------------------------

  /** The chamber after all rocks; or the rock whose trace panicked or ran
      out of its step budget; or the panic of `pattern_iter.next().unwrap()`
      when the first rock meets an empty jet pattern. */
  datatype SimulationOutcome = Simulated(chamber: Chamber) | TraceFailed(rock: nat) | JetsExhausted

  /** Where a rock spawned on `rocks` comes to rest. */
  ghost function Landing(rockType: RockType, rocks: set<Coordinate>, pattern: seq<JetDirection>, jet: nat): Rest
    requires |pattern| > 0
  {
    Settle(rockType, Position(2, Height(rocks) + 3), rocks, pattern, jet)
  }

  /** A spawned rock lands clear of the chamber and no higher than its
      height. */
  lemma LandingIsClear(rockType: RockType, rocks: set<Coordinate>, pattern: seq<JetDirection>, jet: nat)
    requires |pattern| > 0
    ensures Clear(rockType, Landing(rockType, rocks, pattern, jet).at, rocks)
    ensures Landing(rockType, rocks, pattern, jet).at.ay <= Height(rocks)
  {
    SpawnIsClear(rockType, rocks);
    SettleKeepsClear(rockType, Position(2, Height(rocks) + 3), rocks, pattern, jet);
    SettleNoHigherThanHeight(rockType, Position(2, Height(rocks) + 3), rocks, pattern, jet);
  }

  /** The cells of a clear rock are free and inside the walls, and lie
      below the top of its bounding box. */
  lemma LandedCells(rockType: RockType, rocks: set<Coordinate>, at: Position, settled: set<Coordinate>)
    requires Clear(rockType, at, rocks)
    requires settled == CellSet(CellsAt(rockType, at))
    ensures settled !! rocks
    ensures forall c :: c in settled ==> c.x < Width && c.y <= at.ay + ShapeHeight(rockType) - 1
  {
    PlaceShape(rockType, at.ax, at.ay);
  }

  /** The cells of a rock as a set. */
  function CellSet(cells: seq<Coordinate>): (r: set<Coordinate>)
    ensures forall c :: c in r <==> exists k :: 0 <= k < |cells| && cells[k] == c
  {
    set k | 0 <= k < |cells| :: cells[k]
  }

  /** One pass of the `for` loop of run_simulation up to the trace: spawn
      the rock at the current height, let it settle and add its parts. The
      rock lands on free cells inside the walls, so the chamber keeps to its
      columns and grows by at most the rock's own height (at most four). */
  method AddRock(rocks: set<Coordinate>, rockType: RockType, pattern: seq<JetDirection>, jet: nat)
    returns (added: set<Coordinate>, nextJet: nat)
    requires |pattern| > 0
    requires forall c :: c in rocks ==> c.x < Width
    ensures var r := Landing(rockType, rocks, pattern, jet);
      nextJet == r.jet && added == rocks + CellSet(CellsAt(rockType, r.at))
    ensures CellSet(CellsAt(rockType, Landing(rockType, rocks, pattern, jet).at)) !! rocks
    ensures forall c :: c in added ==> c.x < Width
    ensures Height(rocks) <= Height(added) <= Height(rocks) + 4
  {
    var parts;
    parts, nextJet := SpawnAndDrop(rocks, rockType, pattern, jet);
    ghost var at := Landing(rockType, rocks, pattern, jet).at;
    LandingIsClear(rockType, rocks, pattern, jet);
    var settled := set k | 0 <= k < |parts| :: parts[k];
    LandedCells(rockType, rocks, at, settled);
    added := rocks + settled;
    HeightOfUnion(rocks, settled, at.ay + ShapeHeight(rockType) - 1);
    HeightMonotone(rocks, added);
  }

  /** The rock's parts in a fresh array, the `Vec` that run_simulation
      moves in place. */
  method NewRock(cells: seq<Coordinate>) returns (rock: array<Coordinate>)
    ensures fresh(rock) && rock[..] == cells
  {
    rock := new Coordinate[|cells|](k requires 0 <= k < |cells| => cells[k]);
  }

  /** The spawn and the inner `loop` of run_simulation: the rock is created
      at the current height and its parts are moved until it rests. */
  method SpawnAndDrop(rocks: set<Coordinate>, rockType: RockType, pattern: seq<JetDirection>, jet: nat)
    returns (parts: seq<Coordinate>, nextJet: nat)
    requires |pattern| > 0
    ensures parts == CellsAt(rockType, Landing(rockType, rocks, pattern, jet).at)
    ensures nextJet == Landing(rockType, rocks, pattern, jet).jet
  {
    var currentHeight := Chamber(Width, rocks, 0).GetHeight();
    ghost var spawn := Position(2, Height(rocks) + 3);
    var cells := CreateRock(rockType, currentHeight);
    CreateRockIsPlace(rockType, currentHeight);
    assert cells == CellsAt(rockType, spawn);
    var rock := NewRock(cells);
    ghost var at;
    nextJet, at := DropRock(rock, rockType, spawn, rocks, pattern, jet);
    parts := rock[..];
  }

  /** The tower after some rocks, as a value: the pruned resting rocks and
      the number of jets used; or the rock at which the simulation stopped. */
  datatype Tower = Standing(rocks: set<Coordinate>, jet: nat) | Stopped(outcome: SimulationOutcome)

  /** One pass of the `for` loop of run_simulation on a standing tower: the
      rock with index `index` lands, its cells are added and the chamber is
      pruned. */
  ghost function Drop(rockType: RockType, rocks: set<Coordinate>, pattern: seq<JetDirection>, jet: nat,
                      fuel: nat, index: nat): Tower
    requires |pattern| > 0
  {
    var r := Landing(rockType, rocks, pattern, jet);
    var cells := CellsAt(rockType, r.at);
    PlaceShape(rockType, r.at.ax, r.at.ay);
    assert cells[0] in CellSet(cells);
    var pruned := Prune(rocks + CellSet(cells), Width, fuel);
    if pruned.Traced? then Standing(pruned.boundary, r.jet) else Stopped(TraceFailed(index))
  }

  /** One pass of the `for` loop of run_simulation on a tower: the rock
      with index `k`, whose shape follows the order of `RockIterator`, lands
      on a standing tower; a tower that stopped stays as it is. */
  ghost function NextTower(pattern: seq<JetDirection>, fuel: nat, k: nat, t: Tower): Tower {
    match t
    case Stopped(_) => t
    case Standing(rocks, jet) =>
      if |pattern| == 0 then Stopped(JetsExhausted)
      else Drop(RockOfIndex(k % 5), rocks, pattern, jet, fuel, k)
  }

  /** `NextTower` for one pattern and one trace budget, as a step function. */
  ghost function StepOf(pattern: seq<JetDirection>, fuel: nat): (nat, Tower) -> Tower {
    (k: nat, t: Tower) => NextTower(pattern, fuel, k, t)
  }

  /** `n` steps from the empty chamber, the `k`-th step given index `k`. */
  ghost function Iterate(step: (nat, Tower) -> Tower, n: nat): Tower
    decreases n
  {
    if n == 0 then Standing({}, 0) else step(n - 1, Iterate(step, n - 1))
  }

  /** The tower after the first `n` rocks, with `fuel` passes for each
      trace. */
  ghost function Stack(pattern: seq<JetDirection>, n: nat, fuel: nat): Tower {
    Iterate(StepOf(pattern, fuel), n)
  }

  /** What run_simulation returns for a tower. */
  function Finished(t: Tower): SimulationOutcome {
    match t
    case Standing(rocks, _) => Simulated(Chamber(Width, rocks, 0))
    case Stopped(outcome) => outcome
  }

  /** A property that the empty chamber has and every step keeps holds
      after any number of steps. */
  lemma {:induction false} IterateKeeps(step: (nat, Tower) -> Tower, inv: (nat, Tower) -> bool, n: nat)
    requires inv(0, Standing({}, 0))
    requires forall k: nat, t: Tower :: inv(k, t) ==> inv(k + 1, step(k, t))
    ensures inv(n, Iterate(step, n))
    decreases n
  {
    if n > 0 {
      IterateKeeps(step, inv, n - 1);
    }
  }

  /** When a step leaves stopped towers alone, a stopped tower stays the
      same through any further steps. */
  lemma {:induction false} IterateStays(step: (nat, Tower) -> Tower, k: nat, n: nat)
    requires forall j: nat, t: Tower :: t.Stopped? ==> step(j, t) == t
    requires k <= n && Iterate(step, k).Stopped?
    ensures Iterate(step, n) == Iterate(step, k)
    decreases n - k
  {
    if k < n {
      assert Iterate(step, k + 1) == step(k, Iterate(step, k));
      IterateStays(step, k + 1, n);
    }
  }

  /** A dropped rock that does not stand stops the tower at its own index. */
  lemma DropStops(rockType: RockType, rocks: set<Coordinate>, pattern: seq<JetDirection>, jet: nat,
                  fuel: nat, index: nat)
    requires |pattern| > 0
    ensures Drop(rockType, rocks, pattern, jet, fuel, index).Stopped? ==>
      Drop(rockType, rocks, pattern, jet, fuel, index).outcome == TraceFailed(index)
  {
  }

  /** A dropped rock keeps the tower inside the walls and raises it by at
      most four rows. */
  lemma DropBounds(rockType: RockType, rocks: set<Coordinate>, pattern: seq<JetDirection>, jet: nat,
                   fuel: nat, index: nat)
    requires |pattern| > 0
    requires forall c :: c in rocks ==> c.x < Width
    ensures var t := Drop(rockType, rocks, pattern, jet, fuel, index);
      t.Standing? ==> (forall c :: c in t.rocks ==> c.x < Width) && Height(t.rocks) <= Height(rocks) + 4
  {
    var r := Landing(rockType, rocks, pattern, jet);
    var settled := CellSet(CellsAt(rockType, r.at));
    var t := Drop(rockType, rocks, pattern, jet, fuel, index);
    if t.Standing? {
      LandingIsClear(rockType, rocks, pattern, jet);
      LandedCells(rockType, rocks, r.at, settled);
      HeightOfUnion(rocks, settled, r.at.ay + ShapeHeight(rockType) - 1);
      assert t.rocks <= rocks + settled;
      HeightMonotone(t.rocks, rocks + settled);
    }
  }

  /** What `n` rocks leave: a tower inside the walls at most `4 * n` rows
      high, or a stop at one of those rocks (at rock 0 when there are no
      jets). */
  ghost predicate Bounded(pattern: seq<JetDirection>, n: nat, t: Tower) {
    && (t.Standing? ==> (forall c :: c in t.rocks ==> c.x < Width) && Height(t.rocks) <= 4 * n)
    && (t.Stopped? ==> (t.outcome.TraceFailed? && t.outcome.rock < n && |pattern| > 0)
                       || (t.outcome.JetsExhausted? && |pattern| == 0 && n > 0))
  }

  /** One more rock keeps a tower bounded. */
  lemma NextTowerBounded(pattern: seq<JetDirection>, fuel: nat, k: nat, t: Tower)
    requires Bounded(pattern, k, t)
    ensures Bounded(pattern, k + 1, NextTower(pattern, fuel, k, t))
  {
    if t.Standing? && |pattern| > 0 {
      DropBounds(RockOfIndex(k % 5), t.rocks, pattern, t.jet, fuel, k);
      DropStops(RockOfIndex(k % 5), t.rocks, pattern, t.jet, fuel, k);
    }
  }

  /** After `n` rocks the tower stands inside the walls and at most `4 * n`
      rows high, or it stopped at one of those rocks: at rock 0 when there
      are no jets. */
  lemma StackBounds(pattern: seq<JetDirection>, n: nat, fuel: nat)
    ensures var t := Stack(pattern, n, fuel);
      t.Standing? ==> (forall c :: c in t.rocks ==> c.x < Width) && Height(t.rocks) <= 4 * n
    ensures var t := Stack(pattern, n, fuel);
      t.Stopped? ==> (t.outcome.TraceFailed? && t.outcome.rock < n && |pattern| > 0)
                     || (t.outcome.JetsExhausted? && |pattern| == 0 && n > 0)
  {
    var step := StepOf(pattern, fuel);
    var inv := (k: nat, t: Tower) => Bounded(pattern, k, t);
    forall k: nat, t: Tower | inv(k, t) ensures inv(k + 1, step(k, t)) {
      NextTowerBounded(pattern, fuel, k, t);
    }
    IterateKeeps(step, inv, n);
    assert inv(n, Stack(pattern, n, fuel));
  }

  /** The chamber a simulation of `n` rocks returns keeps to the walls and
      is at most `4 * n` rows high. */
  lemma FinishedBounds(pattern: seq<JetDirection>, n: nat, fuel: nat)
    ensures var outcome := Finished(Stack(pattern, n, fuel));
      outcome.Simulated? ==>
        (forall c :: c in outcome.chamber.rocks ==> c.x < Width) && outcome.chamber.GetHeight() <= 4 * n
  {
    StackBounds(pattern, n, fuel);
  }

  /** A stopped tower stays stopped the same way, whatever rocks follow. */
  lemma StoppedStays(pattern: seq<JetDirection>, k: nat, n: nat, fuel: nat)
    requires k <= n && Stack(pattern, k, fuel).Stopped?
    ensures Stack(pattern, n, fuel) == Stack(pattern, k, fuel)
  {
    IterateStays(StepOf(pattern, fuel), k, n);
  }

  /** Without jets no rock can fall: any simulation of at least one rock
      stops at the first one. */
  lemma NoJetsStops(n: nat, fuel: nat)
    requires n > 0
    ensures Stack([], n, fuel) == Stopped(JetsExhausted)
  {
    assert Stack([], 1, fuel) == Stopped(JetsExhausted);
    StoppedStays([], 1, n, fuel);
  }

  /** A simulation of at least one rock without jets returns the panic. */
  lemma NoJetsFinished(pattern: seq<JetDirection>, n: nat, fuel: nat)
    requires |pattern| == 0 && n > 0
    ensures Finished(Stack(pattern, n, fuel)) == JetsExhausted
  {
    assert pattern == [];
    NoJetsStops(n, fuel);
  }

  /** A simulation whose trace fails at rock `k` returns that rock. */
  lemma FailedFinished(pattern: seq<JetDirection>, k: nat, n: nat, fuel: nat)
    requires k < n && Stack(pattern, k + 1, fuel) == Stopped(TraceFailed(k))
    ensures Finished(Stack(pattern, n, fuel)) == TraceFailed(k)
  {
    StoppedStays(pattern, k + 1, n, fuel);
  }

  /** One more rock on a standing tower. */
  lemma StackStep(pattern: seq<JetDirection>, i: nat, fuel: nat, rocks: set<Coordinate>, jet: nat)
    requires Stack(pattern, i, fuel) == Standing(rocks, jet)
    ensures Stack(pattern, i + 1, fuel) == NextTower(pattern, fuel, i, Standing(rocks, jet))
  {
    assert Iterate(StepOf(pattern, fuel), i + 1) == StepOf(pattern, fuel)(i, Iterate(StepOf(pattern, fuel), i));
  }

  /** The pass of run_simulation's `for` loop for rock `i` on a standing
      tower: the rock lands and the chamber is pruned; `ok` is false when the
      trace does not come back. */
  method SimulateRock(pattern: seq<JetDirection>, fuel: nat, i: nat, rockType: RockType,
                      rocks: set<Coordinate>, jet: nat)
    returns (ok: bool, rocks': set<Coordinate>, jet': nat)
    requires |pattern| > 0 && rockType == RockOfIndex(i % 5)
    requires Stack(pattern, i, fuel) == Standing(rocks, jet)
    requires forall c :: c in rocks ==> c.x < Width
    ensures Stack(pattern, i + 1, fuel) == if ok then Standing(rocks', jet') else Stopped(TraceFailed(i))
    ensures ok ==> forall c :: c in rocks' ==> c.x < Width
  {
    StackStep(pattern, i, fuel, rocks, jet);
    var added, nextJet := AddRock(rocks, rockType, pattern, jet);
    var traced := BoundaryTrace(added, Width, fuel);
    if !traced.Traced? {
      return false, rocks, jet;
    }
    return true, traced.boundary, nextJet;
  }

  /** One whole pass of run_simulation's `for` loop, rock `i` of `n`: take
      the next shape, fail on an empty pattern, else drop the rock and
      prune. `stop` is what the simulation returns when the pass ends it. */
  method Pass(rockIterator: RockIterator, pattern: seq<JetDirection>, fuel: nat, i: nat, n: nat,
              rocks: set<Coordinate>, jet: nat)
    returns (stop: Option<SimulationOutcome>, rocks': set<Coordinate>, jet': nat)
    requires i < n
    requires rockIterator.Valid() && rockIterator.startIndex == i % 5
    requires Stack(pattern, i, fuel) == Standing(rocks, jet)
    requires forall c :: c in rocks ==> c.x < Width
    modifies rockIterator
    ensures rockIterator.Valid() && rockIterator.startIndex == (i + 1) % 5
    ensures stop.Some? ==> stop.value == Finished(Stack(pattern, n, fuel))
    ensures stop.None? ==> Stack(pattern, i + 1, fuel) == Standing(rocks', jet')
    ensures stop.None? ==> forall c :: c in rocks' ==> c.x < Width
  {
    var rockType := rockIterator.Next();
    NextIndexMod(i);
    rocks', jet' := rocks, jet;
    if |pattern| == 0 {
      NoJetsFinished(pattern, n, fuel);
      return Some(JetsExhausted), rocks', jet';
    }
    var ok;
    ok, rocks', jet' := SimulateRock(pattern, fuel, i, rockType, rocks, jet);
    if !ok {
      FailedFinished(pattern, i, n, fuel);
      return Some(TraceFailed(i)), rocks', jet';
    }
    stop := None;
  }

  /** `run_simulation`: drop `simulationLength` rocks, cycling through the
      shapes and the jets, and prune the chamber after each rest. The result
      is the tower `Stack` describes, and so its height grows by at most
      four rows per rock. */
  method RunSimulation(pattern: seq<JetDirection>, simulationLength: nat, traceFuel: nat)
    returns (outcome: SimulationOutcome)
    requires simulationLength < 0x1_0000
    ensures outcome == Finished(Stack(pattern, simulationLength, traceFuel))
    ensures outcome.Simulated? ==> forall c :: c in outcome.chamber.rocks ==> c.x < Width
    ensures outcome.Simulated? ==> outcome.chamber.GetHeight() <= 4 * simulationLength
  {
    FinishedBounds(pattern, simulationLength, traceFuel);
    var rockIterator := new RockIterator();
    var chamber := Chamber(Width, {}, 0);
    var jet := 0;
    for i := 0 to simulationLength
      invariant rockIterator.Valid() && rockIterator.startIndex == i % 5
      invariant chamber.width == Width && chamber.cycleHeight == 0
      invariant Stack(pattern, i, traceFuel) == Standing(chamber.rocks, jet)
      invariant forall c :: c in chamber.rocks ==> c.x < Width
    {
      var stop, rocks, nextJet := Pass(rockIterator, pattern, traceFuel, i, simulationLength, chamber.rocks, jet);
      if stop.Some? {
        return stop.value;
      }
      chamber, jet := chamber.(rocks := rocks), nextJet;
    }
    return Simulated(chamber);
  }
}
