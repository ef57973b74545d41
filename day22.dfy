/** Day 22: reading the path and walking it over the board. */
module Day22 {
  import opened Common
  import opened Day22Board

  datatype Step = TurnStep(turn: Turn) | Move(distance: U32)

  // ---------------------------------------------------------------------
  // The path

  /** `collect_buffer`: the digits gathered so far as one move, none when
      there are none; text that is no `u32` is the panic of `unwrap`. */
  function Flush(buffer: string): (r: Option<seq<Step>>)
    ensures r.Some? ==> |r.value| <= 1
  {
    if buffer == [] then Some([])
    else
      var distance :- ParseUnsigned(buffer, U32_LIMIT);
      Some([Move(distance)])
  }

  /** The steps read from `cs` when `buffer` has been gathered before it:
      'L' and 'R' end the number and turn; every other character is
      gathered. */
  function PathFrom(cs: string, buffer: string): (r: Option<seq<Step>>)
    ensures r.Some? ==> Separated(r.value)
  {
    if cs == [] then Flush(buffer)
    else if cs[0] == 'L' || cs[0] == 'R' then
      var number :- Flush(buffer);
      var rest :- PathFrom(cs[1..], []);
      var turn := TurnStep(if cs[0] == 'L' then AntiClockwise else Clockwise);
      TurnSeparates(number, turn, rest);
      Some(number + [turn] + rest)
    else PathFrom(cs[1..], buffer + [cs[0]])
  }

  /** At most one step, a turn, then separated steps are separated. */
  lemma TurnSeparates(number: seq<Step>, turn: Step, rest: seq<Step>)
    requires |number| <= 1 && turn.TurnStep? && Separated(rest)
    ensures Separated(number + [turn] + rest)
  {
    var all := number + [turn] + rest;
    var n := |number|;
    forall i | 0 <= i < |all| - 1 ensures all[i].TurnStep? || all[i + 1].TurnStep? {
      if i > n {
        assert all[i] == rest[i - n - 1] && all[i + 1] == rest[i - n];
      }
    }
  }

  /** `parse_path` as a value: no two moves follow each other, since only a
      turn ends a number. */
  function PathOf(input: string): (r: Option<seq<Step>>)
    ensures r.Some? ==> Separated(r.value)
  {
    PathFrom(input, [])
  }

  /** Steps followed by what the rest reads as, or the panic. */
  function Then(steps: seq<Step>, rest: Option<seq<Step>>): Option<seq<Step>> {
    if rest.Some? then Some(steps + rest.value) else None
  }

  /** `parse_path`: one pass over the characters, gathering digits in a
      buffer and pushing a move before every turn and at the end. */
  method ParsePath(input: string) returns (r: Option<seq<Step>>)
    ensures r == PathOf(input)
  {
    var path: seq<Step> := [];
    var buffer: string := [];
    var i := 0;
    assert input[i..] == input;
    assert Then(path, PathFrom(input, buffer)) == PathFrom(input, buffer) by {
      if PathFrom(input, buffer).Some? {
        assert path + PathFrom(input, buffer).value == PathFrom(input, buffer).value;
      }
    }
    while i < |input|
      invariant 0 <= i <= |input|
      invariant PathOf(input) == Then(path, PathFrom(input[i..], buffer))
    {
      var ch := input[i];
      assert input[i..][0] == ch && input[i..][1..] == input[i + 1..];
      if ch == 'L' || ch == 'R' {
        var number := Flush(buffer);
        if number.None? {
          return None;
        }
        var turn := TurnStep(if ch == 'L' then AntiClockwise else Clockwise);
        assert PathFrom(input[i..], buffer) == Then(number.value + [turn], PathFrom(input[i + 1..], []));
        ThenAssociates(path, number.value + [turn], PathFrom(input[i + 1..], []));
        path := path + (number.value + [turn]);
        buffer := [];
      } else {
        assert PathFrom(input[i..], buffer) == PathFrom(input[i + 1..], buffer + [ch]);
        buffer := buffer + [ch];
      }
      i := i + 1;
    }
    assert input[i..] == [];
    r := Then(path, Flush(buffer));
  }

  lemma ThenAssociates(path: seq<Step>, more: seq<Step>, rest: Option<seq<Step>>)
    ensures Then(path, Then(more, rest)) == Then(path + more, rest)
  {
    if rest.Some? {
      assert path + (more + rest.value) == path + more + rest.value;
    }
  }

  /** The text of a path: each move's distance in decimal, turns as 'L'
      and 'R'. */
  function Render(steps: seq<Step>): string {
    if steps == [] then ""
    else
      (match steps[0]
       case TurnStep(AntiClockwise) => "L"
       case TurnStep(Clockwise) => "R"
       case Move(d) => NatToString(d)) + Render(steps[1..])
  }

  /** No two moves follow each other: their digits would run together. */
  predicate Separated(steps: seq<Step>) {
    forall i :: 0 <= i < |steps| - 1 ==> steps[i].TurnStep? || steps[i + 1].TurnStep?
  }

  /** Digits and other characters that are no turn go to the buffer. */
  lemma {:induction false} GatherDigits(digits: string, rest: string, buffer: string)
    requires forall i :: 0 <= i < |digits| ==> digits[i] != 'L' && digits[i] != 'R'
    ensures PathFrom(digits + rest, buffer) == PathFrom(rest, buffer + digits)
  {
    if digits != [] {
      assert (digits + rest)[0] == digits[0] && (digits + rest)[1..] == digits[1..] + rest;
      assert PathFrom(digits + rest, buffer) == PathFrom(digits[1..] + rest, buffer + [digits[0]]);
      GatherDigits(digits[1..], rest, buffer + [digits[0]]);
      assert buffer + [digits[0]] + digits[1..] == buffer + digits;
    } else {
      assert digits + rest == rest && buffer + digits == buffer;
    }
  }

  /** A decimal distance is one move. */
  lemma FlushNumber(d: U32)
    ensures Flush(NatToString(d)) == Some([Move(d)])
  {
  }

  /** Reading the text of a path whose moves are separated by turns gives
      the path back. */
  lemma {:induction false} ParseRender(steps: seq<Step>)
    requires Separated(steps)
    ensures PathOf(Render(steps)) == Some(steps)
    decreases |steps|, 1
  {
    if steps != [] {
      assert Separated(steps[1..]) by {
        forall i | 0 <= i < |steps[1..]| - 1 ensures steps[1..][i].TurnStep? || steps[1..][i + 1].TurnStep? {
          assert steps[1..][i] == steps[i + 1] && steps[1..][i + 1] == steps[i + 2];
        }
      }
      match steps[0]
      case TurnStep(t) =>
        var text := Render(steps);
        assert text == (if t == AntiClockwise then "L" else "R") + Render(steps[1..]);
        assert text[1..] == Render(steps[1..]);
        ParseRender(steps[1..]);
        assert [] + [TurnStep(t)] + steps[1..] == steps;
      case Move(d) =>
        var digits := NatToString(d);
        assert Render(steps) == digits + Render(steps[1..]);
        assert forall i :: 0 <= i < |digits| ==> digits[i] != 'L' && digits[i] != 'R';
        GatherDigits(digits, Render(steps[1..]), []);
        assert [] + digits == digits;
        FlushNumber(d);
        if |steps| == 1 {
          assert steps[1..] == [] && steps == [Move(d)];
        } else {
          MoveThenTurn(d, steps);
        }
    }
  }

  /** After a move the next step is a turn, which ends the number. */
  lemma {:induction false} MoveThenTurn(d: U32, steps: seq<Step>)
    requires |steps| >= 2 && steps[0] == Move(d) && steps[1].TurnStep? && Separated(steps[2..])
    decreases |steps|, 0
    ensures PathFrom(Render(steps[1..]), NatToString(d)) == Some(steps)
  {
    var t := steps[1].turn;
    var tail := steps[1..];
    assert tail[1..] == steps[2..];
    var text := Render(tail);
    assert text == (if t == AntiClockwise then "L" else "R") + Render(steps[2..]);
    assert text[1..] == Render(steps[2..]);
    FlushNumber(d);
    ParseRender(steps[2..]);
    assert [Move(d)] + [TurnStep(t)] + steps[2..] == steps;
  }

  /** A buffer that does not end in a digit is no number. */
  lemma FlushNonDigit(buffer: string)
    requires buffer != [] && !IsDigit(buffer[|buffer| - 1])
    ensures Flush(buffer) == None
  {
    var digits := if buffer[0] == '+' then buffer[1..] else buffer;
    if digits != [] {
      assert digits[|digits| - 1] == buffer[|buffer| - 1];
    }
  }

  /** A text whose last character is neither a digit nor a turn, such as
      a final line break, ends in the buffer and makes the path panic. */
  lemma {:induction false} TrailingCharacterPanics(cs: string, c: char, buffer: string)
    requires !IsDigit(c) && c != 'L' && c != 'R'
    ensures PathFrom(cs + [c], buffer) == None
  {
    var text := cs + [c];
    assert text[0] == (if cs == [] then c else cs[0]);
    if cs == [] {
      assert text[1..] == [];
      FlushNonDigit(buffer + [c]);
    } else {
      assert text[1..] == cs[1..] + [c];
      if cs[0] == 'L' || cs[0] == 'R' {
        TrailingCharacterPanics(cs[1..], c, []);
      } else {
        TrailingCharacterPanics(cs[1..], c, buffer + [cs[0]]);
      }
    }
  }

  /** The path as evidently meant: the text after the board is the last
      line of the file, so one final line break is dropped before it is
      read. */
  function PathOfLine(input: string): Option<seq<Step>> {
    if |input| > 0 && input[|input| - 1] == '\n' then PathOf(input[..|input| - 1]) else PathOf(input)
  }

  /** The text of a path has no line break. */
  lemma {:induction false} RenderHasNoLineBreak(steps: seq<Step>)
    ensures forall i :: 0 <= i < |Render(steps)| ==> Render(steps)[i] != '\n'
  {
    if steps != [] {
      RenderHasNoLineBreak(steps[1..]);
      var head := match steps[0]
        case TurnStep(AntiClockwise) => "L"
        case TurnStep(Clockwise) => "R"
        case Move(d) => NatToString(d);
      assert Render(steps) == head + Render(steps[1..]);
      forall i | 0 <= i < |Render(steps)| ensures Render(steps)[i] != '\n' {
        if i >= |head| {
          assert Render(steps)[i] == Render(steps[1..])[i - |head|];
        } else if steps[0].Move? {
          assert IsDigit(head[i]);
        }
      }
    }
  }

  /** A separated path reads back from its line with or without the final
      line break. */
  lemma LineReadsBack(steps: seq<Step>)
    requires Separated(steps)
    ensures PathOfLine(Render(steps) + "\n") == Some(steps)
    ensures PathOfLine(Render(steps)) == Some(steps)
  {
    ParseRender(steps);
    RenderHasNoLineBreak(steps);
    var line := Render(steps) + "\n";
    assert line[..|line| - 1] == Render(steps);
  }

  // ---------------------------------------------------------------------
  // Moving across the board

  /** The state one step on in `move_across_map`, before the wall check:
      over to the connected part at the part's edge, one tile on
      otherwise.  The `u32` edge arithmetic can panic, and so can a missing
      part. */
  function Advance(m: Map, s: State): (r: Option<State>)
    ensures s.part >= |m.parts| ==> r.None?
    ensures r.Some? ==>
      || r == MovePart(m, s)
      || (r.value.part == s.part && r.value.facing == s.facing && OneTile(s.position, r.value.position, s.facing))
  {
    if s.part >= |m.parts| then None
    else
      var part := m.parts[s.part];
      var p := s.position;
      match s.facing
      case Up =>
        if p.y == part.start.y then MovePart(m, s)
        else
          var y :- Sub(p.y, 1);
          Some(s.(position := p.(y := y)))
      case Right =>
        var end :- Add(part.start.x, Width(part));
        var last :- Sub(end, 1);
        if p.x == last then MovePart(m, s)
        else
          var x :- Add(p.x, 1);
          Some(s.(position := p.(x := x)))
      case Down =>
        var end :- Add(part.start.y, Height(part));
        var last :- Sub(end, 1);
        if p.y == last then MovePart(m, s)
        else
          var y :- Add(p.y, 1);
          Some(s.(position := p.(y := y)))
      case Left =>
        if p.x == part.start.x then MovePart(m, s)
        else
          var x :- Sub(p.x, 1);
          Some(s.(position := p.(x := x)))
  }

  /** `q` is the tile next to `p` in direction `f`. */
  predicate OneTile(p: Coordinate, q: Coordinate, f: Facing) {
    match f
    case Up => q.x == p.x && q.y == p.y - 1
    case Right => q.x == p.x + 1 && q.y == p.y
    case Down => q.x == p.x && q.y == p.y + 1
    case Left => q.x == p.x - 1 && q.y == p.y
  }

  /** Whether the part a state stands on has a wall under it. */
  function Blocked(m: Map, s: State): Option<bool> {
    if s.part >= |m.parts| then None else HasWall(m.parts[s.part], s.position)
  }

  /** The loop of `move_across_map` for a given step and wall check: up to
      `distance` steps, stopping in front of the first wall. */
  function Moving(advance: State -> Option<State>, blocked: State -> Option<bool>, s: State, distance: nat): Option<State>
    decreases distance
  {
    if distance == 0 then Some(s)
    else
      var next :- advance(s);
      var wall :- blocked(next);
      if wall then Some(s) else Moving(advance, blocked, next, distance - 1)
  }

  /** This board's step and wall check, as the loop takes them. */
  function AdvanceOn(m: Map): State -> Option<State> {
    st => Advance(m, st)
  }

  function BlockedOn(m: Map): State -> Option<bool> {
    st => Blocked(m, st)
  }

  /** `move_across_map` as a value: the loop over this board's steps and
      walls.  A move that does not panic takes at most `distance` steps and
      ends on the board. */
  function MoveAcross(m: Map, s: State, distance: nat): (r: Option<State>)
    ensures r.Some? && s.part < |m.parts| ==> r.value.part < |m.parts|
  {
    var r := Moving(AdvanceOn(m), BlockedOn(m), s, distance);
    if r.Some? then
      MoveAcrossMeaning(AdvanceOn(m), BlockedOn(m), s, distance);
      var k := Taken(AdvanceOn(m), BlockedOn(m), s, distance);
      assert k > 0 ==> BlockedOn(m)(Steps(AdvanceOn(m), s, k).value) == Some(false);
      r
    else
      r
  }

  /** `k` steps, walls or not. */
  function Steps(advance: State -> Option<State>, s: State, k: nat): Option<State>
    decreases k
  {
    if k == 0 then Some(s)
    else
      var next :- advance(s);
      Steps(advance, next, k - 1)
  }

  /** How many steps the loop takes. */
  function Taken(advance: State -> Option<State>, blocked: State -> Option<bool>, s: State, distance: nat): nat
    decreases distance
  {
    if distance == 0 then 0
    else match advance(s)
      case None => 0
      case Some(next) =>
        if blocked(next) == Some(false) then 1 + Taken(advance, blocked, next, distance - 1) else 0
  }

  /** A move that does not panic takes `k` steps, no more than the
      distance, onto tiles without a wall; it stops early only in front of
      a wall. */
  lemma {:induction false} MoveAcrossMeaning(advance: State -> Option<State>, blocked: State -> Option<bool>, s: State, distance: nat)
    requires Moving(advance, blocked, s, distance).Some?
    ensures var k := Taken(advance, blocked, s, distance);
      var t := Moving(advance, blocked, s, distance).value;
      && k <= distance
      && Steps(advance, s, k) == Some(t)
      && (forall j :: 1 <= j <= k ==> Steps(advance, s, j).Some? && blocked(Steps(advance, s, j).value) == Some(false))
      && (k < distance ==> advance(t).Some? && blocked(advance(t).value) == Some(true))
    decreases distance
  {
    if distance > 0 {
      var next := advance(s).value;
      if blocked(next) == Some(false) {
        MoveAcrossMeaning(advance, blocked, next, distance - 1);
        forall j | 1 <= j <= Taken(advance, blocked, s, distance)
          ensures Steps(advance, s, j).Some? && blocked(Steps(advance, s, j).value) == Some(false)
        {
          assert Steps(advance, s, j) == Steps(advance, next, j - 1);
        }
      }
    }
  }

  /** One pass of the loop in `move_across_map`: the potential state and
      its wall check.  `stop` is the `break` (or a panic, when `next` is
      `None`); otherwise `next` is the state the loop goes on from. */
  method TryStep(m: Map, s: State, remaining: nat) returns (next: Option<State>, stop: bool)
    requires remaining > 0
    ensures stop ==> next == MoveAcross(m, s, remaining)
    ensures !stop ==> next.Some? && MoveAcross(m, s, remaining) == MoveAcross(m, next.value, remaining - 1)
  {
    var potential := Advance(m, s);
    if potential.None? {
      return None, true;
    }
    var wall := Blocked(m, potential.value);
    if wall.None? {
      return None, true;
    }
    if wall.value {
      return Some(s), true;
    }
    return potential, false;
  }

  /** `move_across_map`: a loop of at most `distance` steps that breaks in
      front of a wall. */
  method MoveAcrossMap(m: Map, s: State, distance: U32) returns (r: Option<State>)
    ensures r == MoveAcross(m, s, distance)
  {
    var state := s;
    var left: nat := distance;
    while left > 0
      invariant MoveAcross(m, s, distance) == MoveAcross(m, state, left)
    {
      var next, stop := TryStep(m, state, left);
      if stop {
        return next;
      }
      state := next.value;
      left := left - 1;
    }
    NoDistanceStays(m, state);
    return Some(state);
  }

  /** A move of distance 0 stays where it is. */
  lemma NoDistanceStays(m: Map, s: State)
    ensures MoveAcross(m, s, 0) == Some(s)
  {
    assert Moving(AdvanceOn(m), BlockedOn(m), s, 0) == Some(s);
  }

  // ---------------------------------------------------------------------
  // Following the path

  /** `follow_step` as a value: a move, or a turn on the spot. */
  function Followed(m: Map, s: State, step: Step): (r: Option<State>)
    ensures step.TurnStep? ==> r.Some? && r.value.position == s.position && r.value.part == s.part
    ensures step.TurnStep? ==> FacingValue(r.value.facing) == (FacingValue(s.facing) + Quarter(step.turn)) % 4
    ensures step.Move? ==> r == MoveAcross(m, s, step.distance)
  {
    match step
    case Move(distance) => MoveAcross(m, s, distance)
    case TurnStep(Clockwise) => Some(s.(facing := TurnClockwise(s.facing)))
    case TurnStep(AntiClockwise) => Some(s.(facing := TurnAnticlockwise(s.facing)))
  }

  /** A turn as quarter turns clockwise. */
  function Quarter(t: Turn): nat {
    if t == Clockwise then 1 else 3
  }

  /** `follow_step`. */
  method FollowStep(m: Map, s: State, step: Step) returns (r: Option<State>)
    ensures r == Followed(m, s, step)
  {
    match step
    case Move(distance) =>
      r := MoveAcrossMap(m, s, distance);
    case TurnStep(Clockwise) =>
      r := Some(s.(facing := TurnClockwise(s.facing)));
    case TurnStep(AntiClockwise) =>
      r := Some(s.(facing := TurnAnticlockwise(s.facing)));
  }

  /** The state `walk` starts in: the first part's top left, facing right;
      a board without parts is the panic of `get_part(0)`. */
  function Initial(m: Map): Option<State> {
    if |m.parts| == 0 then None else Some(State(m.parts[0].start, Right, 0))
  }

  /** The steps of the path, one after the other. */
  function WalkFrom(m: Map, s: State, path: seq<Step>): (r: Option<State>)
    ensures r.Some? && s.part < |m.parts| ==> r.value.part < |m.parts|
    decreases path
  {
    if path == [] then Some(s)
    else
      var next :- Followed(m, s, path[0]);
      WalkFrom(m, next, path[1..])
  }

  /** `walk` as a value: a board without parts panics, and a walk that
      does not panic ends on one of the parts. */
  function Walked(m: Map, path: seq<Step>): (r: Option<State>)
    ensures |m.parts| == 0 ==> r.None?
    ensures r.Some? ==> r.value.part < |m.parts|
  {
    var start :- Initial(m);
    WalkFrom(m, start, path)
  }

  /** `walk`: follow every step from the initial state. */
  method Walk(m: Map, path: seq<Step>) returns (r: Option<State>)
    ensures r == Walked(m, path)
  {
    if |m.parts| == 0 {
      return None;
    }
    var state := State(m.parts[0].start, Right, 0);
    for i := 0 to |path|
      invariant Walked(m, path) == WalkFrom(m, state, path[i..])
    {
      assert path[i..][0] == path[i] && path[i..][1..] == path[i + 1..];
      var next := FollowStep(m, state, path[i]);
      if next.None? {
        return None;
      }
      state := next.value;
    }
    assert path[|path|..] == [];
    return Some(state);
  }

  /** All quarter turns of a path of turns. */
  function Quarters(path: seq<Step>): nat
    requires forall i :: 0 <= i < |path| ==> path[i].TurnStep?
  {
    if path == [] then 0 else Quarter(path[0].turn) + Quarters(path[1..])
  }

  /** A path of turns only stays where it starts and ends up looking the
      sum of its quarter turns further clockwise. */
  lemma {:induction false} TurnsStay(m: Map, s: State, path: seq<Step>)
    requires forall i :: 0 <= i < |path| ==> path[i].TurnStep?
    ensures WalkFrom(m, s, path).Some?
    ensures WalkFrom(m, s, path).value.position == s.position && WalkFrom(m, s, path).value.part == s.part
    ensures FacingValue(WalkFrom(m, s, path).value.facing) == (FacingValue(s.facing) + Quarters(path)) % 4
    decreases path
  {
    if path != [] {
      var next := Followed(m, s, path[0]).value;
      assert forall i :: 0 <= i < |path[1..]| ==> path[1..][i] == path[i + 1];
      TurnsStay(m, next, path[1..]);
    }
  }

  /** So a walk of turns only ends on the first part's top left, facing as
      far clockwise from right as its quarter turns say. */
  lemma WalkOfTurns(m: Map, path: seq<Step>)
    requires |m.parts| > 0
    requires forall i :: 0 <= i < |path| ==> path[i].TurnStep?
    ensures Walked(m, path).Some?
    ensures Walked(m, path).value.position == m.parts[0].start && Walked(m, path).value.part == 0
    ensures FacingValue(Walked(m, path).value.facing) == Quarters(path) % 4
  {
    TurnsStay(m, State(m.parts[0].start, Right, 0), path);
  }

  /** A one-row part of four tiles, the third a wall, that wraps onto
      itself left and right. */
  function Corridor(): Map {
    Map([MapPart(Coordinate(1, 1), 4, [[OpenTile, OpenTile, SolidWall, OpenTile]])],
        [map[Right := Connection(0, LeftEdge), Left := Connection(0, RightEdge)]])
  }

  /** Leaving the corridor's last tile to the right, unturned and
      mirrored, is its first tile. */
  lemma CorridorCrossing()
    ensures Crossed(Corridor().parts[0], Corridor().parts[0], Coordinate(4, 1), Right, NoRotation) == Some(Coordinate(1, 1))
  {
    var part := Corridor().parts[0];
    assert Width(part) == 4;
    assert Flipped(Coordinate(4, 1), part, Right) == Some(Coordinate(1, 1));
    assert Translate(1, 1, 1) == Some(1);
  }

  /** At the right end of the corridor the walker comes back in at its
      left end. */
  lemma CorridorWraps()
    ensures Advance(Corridor(), State(Coordinate(4, 1), Right, 0)) == Some(State(Coordinate(1, 1), Right, 0))
  {
    var m := Corridor();
    var s := State(Coordinate(4, 1), Right, 0);
    CorridorMovePart();
    assert Width(m.parts[0]) == 4;
    assert Add(1, 4) == Some(5) && Sub(5, 1) == Some(4);
  }

  /** Crossing the corridor's right edge enters it again at its left edge. */
  lemma CorridorMovePart()
    ensures MovePart(Corridor(), State(Coordinate(4, 1), Right, 0)) == Some(State(Coordinate(1, 1), Right, 0))
  {
    var m := Corridor();
    var s := State(Coordinate(4, 1), Right, 0);
    CorridorCrossing();
    assert m.connections[0][Right] == Connection(0, LeftEdge);
    assert EntryRotation(Right, LeftEdge) == NoRotation;
    MovePartVia(m, s, Coordinate(1, 1));
  }

  /** The corridor's first two tiles are open and its third is a wall. */
  lemma CorridorTiles()
    ensures HasWall(Corridor().parts[0], Coordinate(1, 1)) == Some(false)
    ensures HasWall(Corridor().parts[0], Coordinate(2, 1)) == Some(false)
    ensures HasWall(Corridor().parts[0], Coordinate(3, 1)) == Some(true)
  {
    var row := Corridor().parts[0].tiles[0];
    assert row[0] == OpenTile && row[1] == OpenTile && row[2] == SolidWall;
  }

  /** From the last tile facing right the walker wraps to the first tile,
      steps to the second and stops there in front of the wall. */
  lemma CorridorExample()
    ensures MoveAcross(Corridor(), State(Coordinate(4, 1), Right, 0), 5) == Some(State(Coordinate(2, 1), Right, 0))
  {
    var m := Corridor();
    CorridorWraps();
    assert Width(m.parts[0]) == 4;
    var s0, s1, s2 := State(Coordinate(4, 1), Right, 0), State(Coordinate(1, 1), Right, 0), State(Coordinate(2, 1), Right, 0);
    var s3 := State(Coordinate(3, 1), Right, 0);
    assert Advance(m, s1) == Some(s2);
    assert Advance(m, s2) == Some(s3);
    CorridorTiles();
    var advance, blocked := AdvanceOn(m), BlockedOn(m);
    assert advance(s0) == Some(s1) && advance(s1) == Some(s2) && advance(s2) == Some(s3);
    assert blocked(s1) == Some(false) && blocked(s2) == Some(false) && blocked(s3) == Some(true);
    assert Moving(advance, blocked, s2, 3) == Some(s2);
    assert Moving(advance, blocked, s1, 4) == Some(s2);
    assert Moving(advance, blocked, s0, 5) == Some(s2);
  }
}
