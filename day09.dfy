/** Day 9: a rope of two knots on a grid; the tail follows the head, and
    every place the tail occupies is recorded. */
module Day09 {
  import opened Common

  /** Distances are i16. */
  const DistanceBound: nat := 0x8000

  type Position = (int, int)

  datatype Motion = Right(distance: int) | Up(distance: int) | Left(distance: int) | Down(distance: int)

  /** The direction of a motion, which the source passes on as a closure
      moving a position by one place. */
  datatype Direction = East | North | West | South

  function DirectionOf(m: Motion): Direction {
    match m
    case Right(_) => East
    case Up(_) => North
    case Left(_) => West
    case Down(_) => South
  }

  /** The closure of `run_motion`: one place in the direction. */
  function Shift(p: Position, d: Direction): Position {
    match d
    case East => (p.0 + 1, p.1)
    case North => (p.0, p.1 + 1)
    case West => (p.0 - 1, p.1)
    case South => (p.0, p.1 - 1)
  }

  /** The one-place offset of a direction. */
  function Offset(d: Direction): Position {
    match d
    case East => (1, 0)
    case North => (0, 1)
    case West => (-1, 0)
    case South => (0, -1)
  }

  /** Two knots touch when they are at most one place apart on each
      axis, diagonals and overlap included. */
  predicate Touching(a: Position, b: Position) {
    Abs(a.0 - b.0) <= 1 && Abs(a.1 - b.1) <= 1
  }

  /** The larger of the distances along the two axes. */
  function Chebyshev(a: Position, b: Position): nat {
    Max(Abs(a.0 - b.0), Abs(a.1 - b.1))
  }

  // ---------------------------------------------------------------------
  // Parsing
  // ---------------------------------------------------------------------

  /** `parse_motion`: a letter R, U, L or D, a space and an i16; text after
      a second space is ignored, and anything else panics. */
  function ParseMotion(input: string): (r: Option<Motion>)
    ensures r.Some? ==> -(DistanceBound as int) <= r.value.distance < DistanceBound
    ensures r.Some? ==> |Split(input, ' ')| >= 2 && Split(input, ' ')[0] in {"R", "U", "L", "D"}
    ensures r.Some? ==> (r.value.Right? <==> Split(input, ' ')[0] == "R") && (r.value.Up? <==> Split(input, ' ')[0] == "U")
    ensures r.Some? ==> (r.value.Left? <==> Split(input, ' ')[0] == "L") && (r.value.Down? <==> Split(input, ' ')[0] == "D")
  {
    var parts := Split(input, ' ');
    if |parts| < 2 then None
    else
      match ParseSigned(parts[1], DistanceBound)
      case None => None
      case Some(d) =>
        if parts[0] == "R" then Some(Right(d))
        else if parts[0] == "U" then Some(Up(d))
        else if parts[0] == "L" then Some(Left(d))
        else if parts[0] == "D" then Some(Down(d))
        else None
  }

  /** `parse_motions`: one motion per non-empty line, in order. */
  function ParseMotions(input: string): (r: Option<seq<Motion>>)
    ensures r.Some? <==> forall line :: line in NonEmpty(Split(input, '\n')) ==> ParseMotion(line).Some?
    ensures r.Some? ==> |r.value| == |NonEmpty(Split(input, '\n'))|
  {
    var lines := NonEmpty(Split(input, '\n'));
    var parsed := MapAll(ParseMotion, lines);
    assert parsed.Some? <==> forall i :: 0 <= i < |lines| ==> ParseMotion(lines[i]).Some?;
    assert (forall i :: 0 <= i < |lines| ==> ParseMotion(lines[i]).Some?) <==> forall line :: line in lines ==> ParseMotion(line).Some?;
    parsed
  }

  function MotionLetter(m: Motion): string {
    match m
    case Right(_) => "R"
    case Up(_) => "U"
    case Left(_) => "L"
    case Down(_) => "D"
  }

  /** A motion as a line of the puzzle input. */
  function MotionLine(m: Motion): string {
    MotionLetter(m) + " " + IntToString(m.distance)
  }

  function MotionLines(motions: seq<Motion>): (lines: seq<string>)
    ensures |lines| == |motions| && forall i :: 0 <= i < |motions| ==> lines[i] == MotionLine(motions[i])
  {
    seq(|motions|, i requires 0 <= i < |motions| => MotionLine(motions[i]))
  }

  /** A printed motion holds no line break. */
  lemma MotionLinePlain(m: Motion)
    requires -(DistanceBound as int) <= m.distance < DistanceBound
    ensures forall j :: 0 <= j < |MotionLine(m)| ==> MotionLine(m)[j] != '\n'
  {
    IntToStringReadsBack(m.distance, DistanceBound);
    var letter := MotionLetter(m);
    var number := IntToString(m.distance);
    assert MotionLine(m) == letter + " " + number;
    forall j | 0 <= j < |MotionLine(m)| ensures MotionLine(m)[j] != '\n' {
      if j > 1 {
        assert MotionLine(m)[j] == number[j - 2];
      }
    }
  }

  /** A motion with an i16 distance reads back from its line. */
  lemma ParseMotionLine(m: Motion)
    requires -(DistanceBound as int) <= m.distance < DistanceBound
    ensures ParseMotion(MotionLine(m)) == Some(m)
  {
    var letter := MotionLetter(m);
    var number := IntToString(m.distance);
    IntToStringReadsBack(m.distance, DistanceBound);
    SplitFirstPiece(letter, ' ', number);
    SplitNoSeparator(number, ' ');
    assert MotionLine(m) == letter + [' '] + number;
    assert Split(MotionLine(m), ' ') == [letter, number];
  }

  /** Lines of motions, each ended by a newline, read back as the motions. */
  lemma ParseMotionLines(motions: seq<Motion>)
    requires forall i :: 0 <= i < |motions| ==> -(DistanceBound as int) <= motions[i].distance < DistanceBound
    ensures ParseMotions(Join(MotionLines(motions) + [""], '\n')) == Some(motions)
  {
    var lines := MotionLines(motions);
    var pieces := lines + [""];
    forall i, j | 0 <= i < |pieces| && 0 <= j < |pieces[i]| ensures pieces[i][j] != '\n' {
      MotionLinePlain(motions[i]);
    }
    SplitJoin(pieces, '\n');
    assert forall i :: 0 <= i < |lines| ==> lines[i] != "";
    NonEmptyDropsLast(lines);
    forall i | 0 <= i < |lines| ensures ParseMotion(lines[i]) == Some(motions[i]) {
      ParseMotionLine(motions[i]);
    }
    var r := ParseMotions(Join(pieces, '\n'));
    assert r.value == motions;
  }

  // ---------------------------------------------------------------------
  // The tail's move
  // ---------------------------------------------------------------------

  /** `move_tail`: a tail touching the head stays; one two places away in
      line steps once toward it; otherwise it steps diagonally, one place on
      each axis (toward the head, and in the negative direction on an axis
      where the two agree). */
  function MoveTail(tail: Position, head: Position): (r: Position)
    ensures Abs(r.0 - tail.0) <= 1 && Abs(r.1 - tail.1) <= 1
    ensures r == tail <==> Touching(tail, head)
  {
    var xDiff := tail.0 - head.0;
    var yDiff := tail.1 - head.1;
    var moveX := if xDiff < 0 then 1 else -1;
    var moveY := if yDiff < 0 then 1 else -1;
    if Abs(xDiff) <= 1 && Abs(yDiff) <= 1 then tail
    else if Abs(xDiff) == 0 && Abs(yDiff) == 2 then (tail.0, tail.1 + moveY)
    else if Abs(xDiff) == 2 && Abs(yDiff) == 0 then (tail.0 + moveX, tail.1)
    else (tail.0 + moveX, tail.1 + moveY)
  }

  /** A tail at most two places from the head ends up touching it, and
      each of its coordinates moves toward the head's, never past it. */
  lemma MoveTailCatchesUp(tail: Position, head: Position)
    requires Chebyshev(tail, head) <= 2
    ensures Touching(MoveTail(tail, head), head)
    ensures var r := MoveTail(tail, head);
      (if tail.0 <= head.0 then tail.0 <= r.0 <= head.0 else head.0 <= r.0 <= tail.0) &&
      (if tail.1 <= head.1 then tail.1 <= r.1 <= head.1 else head.1 <= r.1 <= tail.1)
  {
  }

  /** In line with the head and further than two places away, the tail
      still steps diagonally, sideways off the line: the rule only makes
      sense for the distances a rope that moves one place at a time
      reaches. */
  lemma MoveTailFarInLine()
    ensures MoveTail((0, 3), (0, 0)) == (-1, 2)
  {
  }

  // ---------------------------------------------------------------------
  // The rope as a value
  // ---------------------------------------------------------------------

  /** The fields of the source's `State`. */
  datatype RopeState = RopeState(visited: set<Position>, head: Position, tail: Position)

  /** One iteration of `move_head`'s loop: the head moves, the tail
      follows and is recorded. */
  function Step(s: RopeState, d: Direction): (r: RopeState)
    ensures r.visited == s.visited + {r.tail}
  {
    var head := Shift(s.head, d);
    var tail := MoveTail(s.tail, head);
    RopeState(s.visited + {tail}, head, tail)
  }

  /** `n` iterations of the loop. */
  function Steps(s: RopeState, d: Direction, n: nat): RopeState
    decreases n
  {
    if n == 0 then s else Step(Steps(s, d, n - 1), d)
  }

  /** `move_head`: record the tail, then `distance` steps, none when it
      is zero or negative. */
  function MoveHeadSpec(s: RopeState, distance: int, d: Direction): RopeState {
    Steps(RopeState(s.visited + {s.tail}, s.head, s.tail), d, if distance > 0 then distance else 0)
  }

  /** `run_motion`. */
  function RunMotionSpec(s: RopeState, m: Motion): RopeState {
    MoveHeadSpec(s, m.distance, DirectionOf(m))
  }

  /** After `n` steps the head has moved `n` places in the direction. */
  lemma {:induction false} StepsMoveHead(s: RopeState, d: Direction, n: nat)
    ensures Steps(s, d, n).head == (s.head.0 + n * Offset(d).0, s.head.1 + n * Offset(d).1)
  {
    if n > 0 {
      StepsMoveHead(s, d, n - 1);
    }
  }

  /** A rope whose knots touch keeps them touching. */
  lemma {:induction false} StepsKeepTouching(s: RopeState, d: Direction, n: nat)
    requires Touching(s.head, s.tail)
    ensures Touching(Steps(s, d, n).head, Steps(s, d, n).tail)
  {
    if n > 0 {
      StepsKeepTouching(s, d, n - 1);
      var before := Steps(s, d, n - 1);
      MoveTailCatchesUp(before.tail, Shift(before.head, d));
    }
  }

  /** Places are only ever added to the record, at most one per step, and
      the tail's place is always among them after a step. */
  lemma {:induction false} StepsRecord(s: RopeState, d: Direction, n: nat)
    ensures s.visited <= Steps(s, d, n).visited
    ensures |Steps(s, d, n).visited| <= |s.visited| + n
    ensures n > 0 ==> Steps(s, d, n).tail in Steps(s, d, n).visited
  {
    if n > 0 {
      StepsRecord(s, d, n - 1);
      var before := Steps(s, d, n - 1);
      var after := Steps(s, d, n);
      assert after.visited == before.visited + {after.tail};
    }
  }

  /** A motion records the tail's start and its final place, keeps what
      was recorded and adds at most one place per step after the start. */
  lemma RunMotionRecords(s: RopeState, m: Motion)
    ensures var r := RunMotionSpec(s, m);
      s.visited + {s.tail, r.tail} <= r.visited &&
      |r.visited| <= |s.visited| + 1 + (if m.distance > 0 then m.distance else 0)
  {
    var start := RopeState(s.visited + {s.tail}, s.head, s.tail);
    var n := if m.distance > 0 then m.distance else 0;
    StepsRecord(start, DirectionOf(m), n);
    assert |start.visited| <= |s.visited| + 1;
  }

  // ---------------------------------------------------------------------
  // The rope as the source's mutable state
  // ---------------------------------------------------------------------

  class Rope {
    var visited: set<Position>
    var head: Position
    var tail: Position

    /** `get_initial_state`: both knots at the origin, nothing recorded. */
    constructor ()
      ensures visited == {} && head == (0, 0) && tail == (0, 0)
    {
      visited := {};
      head := (0, 0);
      tail := (0, 0);
    }

    function State(): RopeState
      reads this
    {
      RopeState(visited, head, tail)
    }

    /** `move_head`: the tail's place is recorded, then for each of
        `distance` steps the head moves, the tail follows and its new
        place is recorded. */
    method MoveHead(distance: int, d: Direction)
      modifies this
      ensures State() == MoveHeadSpec(old(State()), distance, d)
    {
      var start := RopeState(visited + {tail}, head, tail);
      visited := visited + {tail};
      var n := if distance > 0 then distance else 0;
      var i := 0;
      while i < n
        invariant 0 <= i <= n
        invariant State() == Steps(start, d, i)
      {
        head := Shift(head, d);
        tail := MoveTail(tail, head);
        visited := visited + {tail};
        i := i + 1;
      }
    }

    /** `run_motion`: `move_head` with the motion's direction and
        distance. */
    method RunMotion(m: Motion)
      modifies this
      ensures State() == RunMotionSpec(old(State()), m)
    {
      MoveHead(m.distance, DirectionOf(m));
    }
  }

  // ---------------------------------------------------------------------
  // The examples
  // ---------------------------------------------------------------------

  function ExampleMotions(): seq<Motion> {
    [Right(4), Up(4), Left(3), Down(1), Right(4), Down(1), Left(5), Right(2)]
  }

  /** The example input "R 4\nU 4\nL 3\nD 1\nR 4\nD 1\nL 5\nR 2\n", as its
      lines. */
  lemma ExampleParse()
    ensures ParseMotions(Join(MotionLines(ExampleMotions()) + [""], '\n')) == Some(ExampleMotions())
  {
    ParseMotionLines(ExampleMotions());
  }

  /** A move in line with the tail pulls it straight along. */
  lemma ExampleDirectMotions()
    ensures RunMotionSpec(RopeState({}, (1, 0), (0, 0)), Right(1)) == RopeState({(0, 0), (1, 0)}, (2, 0), (1, 0))
    ensures RunMotionSpec(RopeState({}, (0, -1), (0, 0)), Down(1)) == RopeState({(0, 0), (0, -1)}, (0, -2), (0, -1))
  {
  }

  /** A move away from a diagonal tail pulls it diagonally. */
  lemma ExampleDiagonalMotions()
    ensures RunMotionSpec(RopeState({}, (1, 1), (0, 0)), Up(1)) == RopeState({(0, 0), (1, 1)}, (1, 2), (1, 1))
    ensures RunMotionSpec(RopeState({}, (1, 1), (0, 0)), Right(1)) == RopeState({(0, 0), (1, 1)}, (2, 1), (1, 1))
  {
  }
}
