/** Day 24: the valley a minute later, the moves of the expedition and the
    search heuristic. */
module Day24 {
  import opened Common
  import opened Day24Valley

  // ---------------------------------------------------------------------
  // One minute of wind

  /** The open cells, away from the walls: 1 to `size - 2` both ways. */
  predicate Interior(p: Coordinate, width: nat, height: nat) {
    1 <= p.x <= width - 2 && 1 <= p.y <= height - 2
  }

  /** Where the blizzard `b` at `p` is a minute later.  It moves one cell
      in its direction, and one that leaves the open cells comes back at
      the first or last of them.  `None` is a panic: `todo!()` for a part
      that is no blizzard, or `p.y - 1` / `p.x - 1` below zero. */
  function Moved(b: Part, p: Coordinate, width: nat, height: nat): Option<Coordinate>
    requires width >= 2 && height >= 2
  {
    var lastY, lastX := height - 2, width - 2;
    if !b.Blizzard? then None
    else
      match b.dir
      case Up => if p.y == 1 then Some(Coordinate(p.x, lastY)) else if p.y == 0 then None else Some(Coordinate(p.x, p.y - 1))
      case Down => if p.y == lastY then Some(Coordinate(p.x, 1)) else Some(Coordinate(p.x, p.y + 1))
      case Left => if p.x == 1 then Some(Coordinate(lastX, p.y)) else if p.x == 0 then None else Some(Coordinate(p.x - 1, p.y))
      case Right => if p.x == lastX then Some(Coordinate(1, p.y)) else Some(Coordinate(p.x + 1, p.y))
  }

  /** On the open cells a blizzard turns in a cycle: numbering the open
      rows (or columns) from 0, it goes one back or one on, modulo their
      count, and it never leaves them. */
  lemma MovedCycles(b: Part, p: Coordinate, width: nat, height: nat)
    requires width >= 2 && height >= 2 && b.Blizzard? && Interior(p, width, height)
    ensures Moved(b, p, width, height).Some?
    ensures var q := Moved(b, p, width, height).value;
      var rows, cols := height - 2, width - 2;
      && Interior(q, width, height)
      && (b.dir == Up ==> q.x == p.x && q.y - 1 == (p.y - 1 + rows - 1) % rows)
      && (b.dir == Down ==> q.x == p.x && q.y - 1 == (p.y - 1 + 1) % rows)
      && (b.dir == Left ==> q.y == p.y && q.x - 1 == (p.x - 1 + cols - 1) % cols)
      && (b.dir == Right ==> q.y == p.y && q.x - 1 == (p.x - 1 + 1) % cols)
  {
    var rows, cols := height - 2, width - 2;
    match b.dir
    case Up =>
      if p.y == 1 { DivModUnique(rows - 1, rows, 0, rows - 1); } else { DivModUnique(p.y - 2 + rows, rows, 1, p.y - 2); }
    case Down =>
      if p.y == rows { DivModUnique(rows, rows, 1, 0); } else { DivModUnique(p.y, rows, 0, p.y); }
    case Left =>
      if p.x == 1 { DivModUnique(cols - 1, cols, 0, cols - 1); } else { DivModUnique(p.x - 2 + cols, cols, 1, p.x - 2); }
    case Right =>
      if p.x == cols { DivModUnique(cols, cols, 1, 0); } else { DivModUnique(p.x, cols, 0, p.x); }
  }

  /** With at least two open rows and two open columns no blizzard stays
      where it is. */
  lemma NoBlizzardStays(b: Part, p: Coordinate, width: nat, height: nat)
    requires width >= 4 && height >= 4 && b.Blizzard? && Interior(p, width, height)
    ensures Moved(b, p, width, height).Some? && Moved(b, p, width, height).value != p
  {
  }

  function Opposite(d: Direction): Direction {
    match d
    case Up => Down
    case Down => Up
    case Left => Right
    case Right => Left
  }

  /** A blizzard of the opposite direction undoes a move on the open
      cells. */
  lemma MovedInverse(id: U16, d: Direction, p: Coordinate, width: nat, height: nat)
    requires width >= 2 && height >= 2 && Interior(p, width, height)
    ensures Moved(Blizzard(id, d), p, width, height).Some?
    ensures Moved(Blizzard(id, Opposite(d)), Moved(Blizzard(id, d), p, width, height).value, width, height) == Some(p)
  {
  }

  /** The moves of a list of blizzards, in order (`new_positions`); `None`
      when one of them panics. */
  function NewPositions(blizzards: seq<(Part, Coordinate)>, width: nat, height: nat): (r: Option<seq<Move>>)
    requires width >= 2 && height >= 2
    ensures r.Some? <==> forall i :: 0 <= i < |blizzards| ==> Moved(blizzards[i].0, blizzards[i].1, width, height).Some?
    ensures r.Some? ==> |r.value| == |blizzards| && forall i :: 0 <= i < |blizzards| ==>
      && blizzards[i].0.Blizzard?
      && r.value[i] == Move(blizzards[i].0, blizzards[i].1, Moved(blizzards[i].0, blizzards[i].1, width, height).value)
  {
    if blizzards == [] then Some([])
    else
      var n := |blizzards| - 1;
      var (b, p) := blizzards[n];
      match NewPositions(blizzards[..n], width, height)
      case None =>
        assert exists i :: 0 <= i < n && Moved(blizzards[..n][i].0, blizzards[..n][i].1, width, height).None?;
        None
      case Some(ms) =>
        match Moved(b, p, width, height)
        case None => None
        case Some(q) => Some(ms + [Move(b, p, q)])
  }

  /** `ValleyIterator::next` on the cells: every blizzard listed moves, then
      the moves are applied.  `None` is a panic: a valley less than two
      cells wide or high (`size - 2` below zero), a blizzard move that
      panics, or a move to a cell past the end of the vector. */
  function NextData(data: seq<Part>, width: nat, height: nat): (r: Option<seq<Part>>)
    ensures r.Some? ==> |r.value| == |data|
  {
    if width < 2 || height < 2 then None
    else
      match NewPositions(Blizzards(data, width), width, height)
      case None => None
      case Some(moves) =>
        if MovesInside(moves, width, |data|) then
          GroupsOfMoves(moves, width, |data|);
          Some(ApplyGroups(data, width, Grouped(moves), Keys(moves)))
        else None
  }

  // ---------------------------------------------------------------------
  // Blizzards stay in the open cells

  predicate Weather(p: Part) {
    p.Blizzard? || p.Overlap?
  }

  /** Blizzards and overlaps are only found on open cells. */
  predicate WeatherInside(data: seq<Part>, width: nat, height: nat)
    requires width > 0
  {
    forall i :: 0 <= i < |data| && Weather(data[i]) ==> Interior(GetCoordinate(i, width), width, height)
  }

  /** A valley as the puzzle draws it: a full grid with its weather on the
      open cells. */
  predicate WellFormed(data: seq<Part>, width: nat, height: nat) {
    width >= 2 && height >= 2 && |data| == width * height && WeatherInside(data, width, height)
  }

  /** In a well-formed valley the next minute is always defined and is
      well-formed again: the blizzards never reach the walls. */
  lemma NextWellFormed(data: seq<Part>, width: nat, height: nat)
    requires WellFormed(data, width, height)
    ensures NextData(data, width, height).Some?
    ensures WellFormed(NextData(data, width, height).value, width, height)
  {
    var blizzards := Blizzards(data, width);
    forall k | 0 <= k < |blizzards|
      ensures Moved(blizzards[k].0, blizzards[k].1, width, height).Some?
      ensures Interior(blizzards[k].1, width, height)
      ensures Interior(Moved(blizzards[k].0, blizzards[k].1, width, height).value, width, height)
    {
      ListedInside(data, width, height, k);
      MovedCycles(blizzards[k].0, blizzards[k].1, width, height);
    }
    var moves := NewPositions(blizzards, width, height).value;
    forall i | 0 <= i < |moves|
      ensures IndexOf(moves[i].from, width) < |data| && IndexOf(moves[i].to, width) < |data|
      ensures Interior(moves[i].to, width, height)
    {
      IndexInGrid(moves[i].from, width, height);
      IndexInGrid(moves[i].to, width, height);
    }
    GroupsOfMoves(moves, width, |data|);
    GroupedMeaning(moves);
    var keys := Keys(moves);
    forall j | 0 <= j < |keys| ensures Interior(keys[j], width, height) {
      assert keys[j] in keys;
    }
    GroupsKeepWeatherInside(data, width, height, Grouped(moves), keys);
  }

  /** A listed blizzard is on an open cell of a well-formed valley. */
  lemma ListedInside(data: seq<Part>, width: nat, height: nat, k: nat)
    requires WellFormed(data, width, height) && k < |Blizzards(data, width)|
    ensures var (b, c) := Blizzards(data, width)[k];
      b.Blizzard? && Interior(c, width, height)
  {
    var (b, c) := Blizzards(data, width)[k];
    BlizzardsMeaning(data, width, b, c);
    var i := IndexOf(c, width);
    CoordinateIndex(i, c, width);
    assert Weather(data[i]);
  }

  lemma {:induction false} GroupsKeepWeatherInside(data: seq<Part>, width: nat, height: nat, g: map<Coordinate, seq<Arrival>>, keys: seq<Coordinate>)
    requires width > 0 && GroupsInside(g, keys, width, |data|) && WeatherInside(data, width, height)
    requires forall j :: 0 <= j < |keys| ==> Interior(keys[j], width, height)
    ensures WeatherInside(ApplyGroups(data, width, g, keys), width, height)
  {
    if keys != [] {
      var n := |keys| - 1;
      assert GroupsInside(g, keys[..n], width, |data|) by {
        forall i | 0 <= i < n ensures keys[..n][i] == keys[i] { }
      }
      GroupsKeepWeatherInside(data, width, height, g, keys[..n]);
      GroupKeepsWeatherInside(ApplyGroups(data, width, g, keys[..n]), width, height, keys[n], g[keys[n]]);
    }
  }

  lemma GroupKeepsWeatherInside(data: seq<Part>, width: nat, height: nat, k: Coordinate, arrivals: seq<Arrival>)
    requires width > 0 && IndexOf(k, width) < |data| && ArrivalsInside(arrivals, width, |data|) && AllBlizzards(arrivals)
    requires WeatherInside(data, width, height) && Interior(k, width, height)
    ensures WeatherInside(ApplyGroup(data, width, k, arrivals), width, height)
  {
    if |arrivals| == 1 {
      SetKeepsWeatherInside(data, width, height, k, arrivals[0].part);
      RemoveKeepsWeatherInside(SetAt(data, width, k, arrivals[0].part), width, height, arrivals[0].from, arrivals[0].part);
    } else {
      SetKeepsWeatherInside(data, width, height, k, OverlapOf(arrivals));
      RemoveEachKeepsWeatherInside(SetAt(data, width, k, OverlapOf(arrivals)), width, height, arrivals);
    }
  }

  lemma SetKeepsWeatherInside(data: seq<Part>, width: nat, height: nat, k: Coordinate, p: Part)
    requires width > 0 && IndexOf(k, width) < |data| && WeatherInside(data, width, height) && Interior(k, width, height)
    ensures WeatherInside(SetAt(data, width, k, p), width, height)
  {
    CoordinateIndex(0, k, width);
  }

  lemma RemoveKeepsWeatherInside(data: seq<Part>, width: nat, height: nat, c: Coordinate, part: Part)
    requires width > 0 && IndexOf(c, width) < |data| && WeatherInside(data, width, height)
    ensures WeatherInside(RemoveAt(data, width, c, part), width, height)
  {
    var i := IndexOf(c, width);
    RemovedMeaning(data[i], part);
  }

  lemma {:induction false} RemoveEachKeepsWeatherInside(data: seq<Part>, width: nat, height: nat, arrivals: seq<Arrival>)
    requires width > 0 && ArrivalsInside(arrivals, width, |data|) && WeatherInside(data, width, height)
    ensures WeatherInside(RemoveEach(data, width, arrivals), width, height)
  {
    if arrivals != [] {
      var n := |arrivals| - 1;
      assert ArrivalsInside(arrivals[..n], width, |data|) by {
        forall i | 0 <= i < n ensures arrivals[..n][i] == arrivals[i] { }
      }
      RemoveEachKeepsWeatherInside(data, width, height, arrivals[..n]);
      RemoveKeepsWeatherInside(RemoveEach(data, width, arrivals[..n]), width, height, arrivals[n].from, arrivals[n].part);
    }
  }

  // ---------------------------------------------------------------------
  // The iterator

  /** `ValleyIterator`: owns the valley it steps. */
  class ValleyIterator {
    var valley: Valley

    constructor(valley: Valley)
      ensures this.valley == valley
    {
      this.valley := valley;
    }

    /** `next`: the valley moves on a minute in place, and a copy of it is
        yielded; `None` stands for the panics `NextData` names. */
    method Next() returns (r: Option<Valley>)
      modifies valley
      ensures r.None? <==> NextData(old(valley.data), old(valley.width), old(valley.height)).None?
      ensures r.Some? ==>
        && valley.data == NextData(old(valley.data), old(valley.width), old(valley.height)).value
        && valley.width == old(valley.width) && valley.height == old(valley.height)
        && fresh(r.value)
        && r.value.data == valley.data && r.value.width == valley.width && r.value.height == valley.height
        && r.value.Valid()
    {
      var v := valley;
      if v.width < 2 || v.height < 2 {
        return None;
      }
      var moves := NewPositions(Blizzards(v.data, v.width), v.width, v.height);
      if moves.None? {
        return None;
      }
      if !MovesInside(moves.value, v.width, |v.data|) {
        return None;
      }
      v.SetBlizzards(moves.value);
      var copy := new Valley(v.data, v.width, v.height);
      r := Some(copy);
    }
  }

  // ---------------------------------------------------------------------
  // The expedition

  /** The cells the expedition may try next, in the order `left`, `up`,
      `right`, `down`, `wait`, before any is checked. */
  function Candidates(p: Coordinate, width: nat, height: nat): seq<Coordinate>
    requires width >= 1 && height >= 1
  {
    (if p.x > 0 then [Coordinate(p.x - 1, p.y)] else [])
    + (if p.y > 0 then [Coordinate(p.x, p.y - 1)] else [])
    + (if p.x < width - 1 then [Coordinate(p.x + 1, p.y)] else [])
    + (if p.y < height - 1 then [Coordinate(p.x, p.y + 1)] else [])
    + [p]
  }

  /** The cells holding open ground, in order; `None` is the panic of
      `get_part` on an index past the vector. */
  function ClearOnly(cs: seq<Coordinate>, data: seq<Part>, width: nat): (r: Option<seq<Coordinate>>)
    ensures r.Some? <==> forall i :: 0 <= i < |cs| ==> IndexOf(cs[i], width) < |data|
    ensures r.Some? ==> forall c :: c in r.value <==> c in cs && data[IndexOf(c, width)] == ClearGround
  {
    if cs == [] then Some([])
    else
      var n := |cs| - 1;
      match ClearOnly(cs[..n], data, width)
      case None =>
        assert exists i :: 0 <= i < n && IndexOf(cs[..n][i], width) >= |data|;
        None
      case Some(rest) =>
        InSnoc(cs, cs[n]);
        if IndexOf(cs[n], width) >= |data| then None
        else
          assert forall c :: c in cs ==> c in cs[..n] || c == cs[n] by {
            forall c | c in cs ensures c in cs[..n] || c == cs[n] {
              InSnoc(cs, c);
            }
          }
          Some(rest + (if data[IndexOf(cs[n], width)] == ClearGround then [cs[n]] else []))
  }

  /** `get_next_positions`; `None` is a panic: `size - 1` below zero in an
      empty valley, or a cell past the vector. */
  function GetNextPositions(p: Coordinate, data: seq<Part>, width: nat, height: nat): (r: Option<seq<Coordinate>>)
    ensures width == 0 || height == 0 ==> r.None?
    ensures r.Some? ==> (p in r.value <==> IndexOf(p, width) < |data| && data[IndexOf(p, width)] == ClearGround)
    ensures r.Some? ==> forall q :: q in r.value ==>
      && Abs(q.x - p.x) + Abs(q.y - p.y) <= 1
      && IndexOf(q, width) < |data| && data[IndexOf(q, width)] == ClearGround
  {
    if width == 0 || height == 0 then None
    else
      CandidatesNear(p, width, height);
      ClearOnly(Candidates(p, width, height), data, width)
  }

  /** Every candidate is at most one step away, and waiting is one of them. */
  lemma CandidatesNear(p: Coordinate, width: nat, height: nat)
    requires width >= 1 && height >= 1
    ensures p in Candidates(p, width, height)
    ensures forall q :: q in Candidates(p, width, height) ==> Abs(q.x - p.x) + Abs(q.y - p.y) <= 1
  {
    var l := if p.x > 0 then [Coordinate(p.x - 1, p.y)] else [];
    var u := if p.y > 0 then [Coordinate(p.x, p.y - 1)] else [];
    var r := if p.x < width - 1 then [Coordinate(p.x + 1, p.y)] else [];
    var d := if p.y < height - 1 then [Coordinate(p.x, p.y + 1)] else [];
    assert Candidates(p, width, height) == l + u + r + d + [p];
    forall q | q in Candidates(p, width, height) ensures Abs(q.x - p.x) + Abs(q.y - p.y) <= 1 {
      assert q in l || q in u || q in r || q in d || q == p;
    }
  }

  /** From a cell of the grid, the expedition may go to exactly the cells
      of the grid at most one step away, across or up and down, that hold
      open ground; in a full grid the answer is always defined. */
  lemma NextPositionsMeaning(p: Coordinate, data: seq<Part>, width: nat, height: nat, q: Coordinate)
    requires p.x < width && p.y < height
    ensures |data| == width * height ==> GetNextPositions(p, data, width, height).Some?
    ensures GetNextPositions(p, data, width, height).Some? ==>
      (q in GetNextPositions(p, data, width, height).value <==>
        Abs(q.x - p.x) + Abs(q.y - p.y) <= 1 && q.x < width && q.y < height && IndexOf(q, width) < |data| && data[IndexOf(q, width)] == ClearGround)
  {
    var cs := Candidates(p, width, height);
    CandidatesMeaning(p, width, height, q);
    if |data| == width * height {
      forall i | 0 <= i < |cs| ensures IndexOf(cs[i], width) < |data| {
        CandidatesMeaning(p, width, height, cs[i]);
        IndexInGrid(cs[i], width, height);
      }
    }
  }

  /** The candidates are the cells of the grid at most one step away. */
  lemma CandidatesMeaning(p: Coordinate, width: nat, height: nat, q: Coordinate)
    requires p.x < width && p.y < height
    ensures q in Candidates(p, width, height) <==> Abs(q.x - p.x) + Abs(q.y - p.y) <= 1 && q.x < width && q.y < height
  {
    var l := if p.x > 0 then [Coordinate(p.x - 1, p.y)] else [];
    var u := if p.y > 0 then [Coordinate(p.x, p.y - 1)] else [];
    var r := if p.x < width - 1 then [Coordinate(p.x + 1, p.y)] else [];
    var d := if p.y < height - 1 then [Coordinate(p.x, p.y + 1)] else [];
    assert Candidates(p, width, height) == l + u + r + d + [p];
    assert q in l + u + r + d + [p] <==> q in l || q in u || q in r || q in d || q == p;
  }

  // ---------------------------------------------------------------------
  // The heuristic

  /** `h`: the distance still to go, as a `u32`.  `None` is a panic: a
      `usize` difference below zero (a cell past the goal), or a sum that
      does not fit `u32`. */
  function H(pos: Coordinate, end: Coordinate): (r: Option<nat>)
    ensures r.Some? ==> r.value == Abs(end.x - pos.x) + Abs(end.y - pos.y)
    ensures r == Some(0) <==> pos == end
  {
    if end.x < pos.x || end.y < pos.y then None
    else
      var d := (end.x - pos.x) + (end.y - pos.y);
      if d >= 0x1_0000_0000 then None else Some(d)
  }

  /** The heuristic is the Manhattan distance to the goal, for every cell
      up and to the left of it, and it is 0 at the goal. */
  lemma HeuristicMeaning(pos: Coordinate, end: Coordinate)
    ensures H(pos, end).Some? <==> pos.x <= end.x && pos.y <= end.y && Abs(end.x - pos.x) + Abs(end.y - pos.y) < 0x1_0000_0000
    ensures H(pos, end).Some? ==> H(pos, end).value == Abs(end.x - pos.x) + Abs(end.y - pos.y)
    ensures H(end, end) == Some(0)
  {
  }

  /** A step changes the heuristic by at most one, so the search's
      estimate never overstates the time left. */
  lemma HeuristicConsistent(p: Coordinate, q: Coordinate, end: Coordinate)
    requires Abs(q.x - p.x) + Abs(q.y - p.y) <= 1
    requires H(p, end).Some? && H(q, end).Some?
    ensures H(p, end).value <= H(q, end).value + 1
  {
  }
}
