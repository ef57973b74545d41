/** Day 22: the board the monkeys' path is walked on.  The board is cut into
    rectangular parts; each position is a pair of `u32` ordinates, and every
    `u32` operation that would overflow or underflow is a panic, written
    here as `None`. */
module Day22Board {
  import opened Common

  const U32_LIMIT: nat := 0x1_0000_0000

  type U32 = n: int | 0 <= n < 0x1_0000_0000

  /** `u32` addition, panicking on overflow. */
  function Add(a: U32, b: U32): (r: Option<U32>)
    ensures r.Some? <==> a + b < U32_LIMIT
    ensures r.Some? ==> r.value == a + b
  {
    if a + b < U32_LIMIT then Some(a + b) else None
  }

  /** `u32` subtraction, panicking on underflow. */
  function Sub(a: U32, b: U32): (r: Option<U32>)
    ensures r.Some? <==> b <= a
    ensures r.Some? ==> r.value == a - b
  {
    if b <= a then Some(a - b) else None
  }

  /** `u32` multiplication, panicking on overflow. */
  function Mul(a: U32, b: U32): (r: Option<U32>)
    ensures r.Some? <==> a * b < U32_LIMIT
    ensures r.Some? ==> r.value == a * b
  {
    if a * b < U32_LIMIT then Some(a * b) else None
  }

  /** `as i32` on a `u32`: the bits read as two's complement. */
  function AsI32(a: U32): int {
    if a < 0x8000_0000 then a else a - U32_LIMIT
  }

  predicate InI32(v: int) {
    -0x8000_0000 <= v < 0x8000_0000
  }

  datatype Coordinate = Coordinate(x: U32, y: U32)

  datatype Rotation = Rotate90 | Rotate180 | Rotate270 | NoRotation

  datatype Facing = Right | Down | Left | Up

  datatype Turn = AntiClockwise | Clockwise

  datatype Edge = Top | RightEdge | Bottom | LeftEdge

  datatype Token = Blank | OpenTile | SolidWall

  /** Where a walker is, where it looks and on which part it stands. */
  datatype State = State(position: Coordinate, facing: Facing, part: nat)

  /** A part of the board: its top left position on the whole board and
      its tiles, row by row.  `width` is the matrix's column count. */
  datatype MapPart = MapPart(start: Coordinate, width: nat, tiles: seq<seq<Token>>)

  /** Leaving part `part` looking `facing` enters part `connection.part`
      over its edge `connection.edge`. */
  datatype Connection = Connection(part: nat, edge: Edge)

  datatype Map = Map(parts: seq<MapPart>, connections: seq<map<Facing, Connection>>)

  /** `get_width` and `get_height`: the matrix sizes cast `as u32`. */
  function Width(p: MapPart): U32 {
    p.width % U32_LIMIT
  }

  function Height(p: MapPart): U32 {
    |p.tiles| % U32_LIMIT
  }

  /** `Facing as u32`: the order of declaration. */
  function FacingValue(f: Facing): (v: nat)
    ensures v < 4
  {
    match f
    case Right => 0
    case Down => 1
    case Left => 2
    case Up => 3
  }

  lemma FacingValueInjective(f: Facing, g: Facing)
    requires FacingValue(f) == FacingValue(g)
    ensures f == g
  {
  }

  // ---------------------------------------------------------------------
  // Turning

  /** `turn_clockwise`: the next facing in declaration order. */
  function TurnClockwise(f: Facing): (g: Facing)
    ensures FacingValue(g) == (FacingValue(f) + 1) % 4
  {
    match f
    case Up => Right
    case Right => Down
    case Down => Left
    case Left => Up
  }

  /** `turn_anticlockwise`: the previous facing in declaration order. */
  function TurnAnticlockwise(f: Facing): (g: Facing)
    ensures FacingValue(g) == (FacingValue(f) + 3) % 4
  {
    match f
    case Up => Left
    case Right => Up
    case Down => Right
    case Left => Down
  }

  /** The two turns undo each other. */
  lemma TurnsInverse(f: Facing)
    ensures TurnAnticlockwise(TurnClockwise(f)) == f
    ensures TurnClockwise(TurnAnticlockwise(f)) == f
  {
    FacingValueInjective(TurnAnticlockwise(TurnClockwise(f)), f);
    FacingValueInjective(TurnClockwise(TurnAnticlockwise(f)), f);
  }

  /** Four clockwise turns, or four anticlockwise ones, come back to the
      start. */
  lemma FourTurns(f: Facing)
    ensures TurnClockwise(TurnClockwise(TurnClockwise(TurnClockwise(f)))) == f
    ensures TurnAnticlockwise(TurnAnticlockwise(TurnAnticlockwise(TurnAnticlockwise(f)))) == f
  {
    FacingValueInjective(TurnClockwise(TurnClockwise(TurnClockwise(TurnClockwise(f)))), f);
    FacingValueInjective(TurnAnticlockwise(TurnAnticlockwise(TurnAnticlockwise(TurnAnticlockwise(f)))), f);
  }

  // ---------------------------------------------------------------------
  // Rotating within a square

  /** `single_90_clockwise_rotation`: turn a position a quarter clockwise
      inside the square of side `length` whose top left is `start`. */
  function SingleRotation(c: Coordinate, length: U32, start: Coordinate): (r: Option<Coordinate>)
    ensures c.x < start.x || c.y < start.y || c.y >= start.y + length ==> r.None?
    ensures r.Some? ==> r.value.x - start.x == length - 1 - (c.y - start.y) && r.value.y - start.y == c.x - start.x
  {
    var rx :- Sub(c.x, start.x);
    var ry :- Sub(c.y, start.y);
    var y :- Add(rx, start.y);
    var last :- Sub(length, 1);
    var back :- Sub(last, ry);
    var x :- Add(back, start.x);
    Some(Coordinate(x, y))
  }

  /** The position lies in the square. */
  predicate InSquare(c: Coordinate, length: nat, start: Coordinate) {
    start.x <= c.x < start.x + length && start.y <= c.y < start.y + length
  }

  /** The square lies within the `u32` range. */
  predicate SquareFits(length: nat, start: Coordinate) {
    start.x + length <= U32_LIMIT && start.y + length <= U32_LIMIT
  }

  /** Inside a square that fits, a quarter turn never panics and takes the
      relative position (rx, ry) to (length - 1 - ry, rx): it stays in the
      square. */
  lemma SingleRotationMeaning(c: Coordinate, length: U32, start: Coordinate)
    requires InSquare(c, length, start) && SquareFits(length, start)
    ensures SingleRotation(c, length, start).Some?
    ensures var d := SingleRotation(c, length, start).value;
      && d.x - start.x == length - 1 - (c.y - start.y)
      && d.y - start.y == c.x - start.x
      && InSquare(d, length, start)
  {
  }

  /** Left of or above the square, or below it, the subtraction
      underflows. */
  lemma SingleRotationOutside(c: Coordinate, length: U32, start: Coordinate)
    requires c.x < start.x || c.y < start.y || c.y >= start.y + length
    ensures SingleRotation(c, length, start).None?
  {
  }

  /** `n` quarter turns, one after the other. */
  function Rotations(c: Coordinate, length: U32, start: Coordinate, n: nat): Option<Coordinate> {
    if n == 0 then Some(c)
    else
      var d :- Rotations(c, length, start, n - 1);
      SingleRotation(d, length, start)
  }

  /** How many quarter turns a `Rotation` stands for. */
  function Quarters(turns: Rotation): (n: nat)
    ensures n < 4
  {
    match turns
    case NoRotation => 0
    case Rotate90 => 1
    case Rotate180 => 2
    case Rotate270 => 3
  }

  /** `rotate`: the single rotation, or a fold of two or three of them. */
  function Rotate(c: Coordinate, start: Coordinate, width: U32, turns: Rotation): (r: Option<Coordinate>)
    ensures InSquare(c, width, start) && SquareFits(width, start) ==> r.Some? && InSquare(r.value, width, start)
  {
    match turns
    case Rotate90 => SingleRotation(c, width, start)
    case Rotate180 =>
      var c1 :- SingleRotation(c, width, start);
      TurnStays(c, c1, width, start);
      SingleRotation(c1, width, start)
    case Rotate270 =>
      var c1 :- SingleRotation(c, width, start);
      TurnStays(c, c1, width, start);
      var c2 :- SingleRotation(c1, width, start);
      TurnStays(c1, c2, width, start);
      SingleRotation(c2, width, start)
    case NoRotation => Some(c)
  }

  /** A quarter turn of a position in a square that fits stays in it. */
  lemma TurnStays(c: Coordinate, d: Coordinate, length: U32, start: Coordinate)
    requires SingleRotation(c, length, start) == Some(d)
    ensures InSquare(c, length, start) && SquareFits(length, start) ==> InSquare(d, length, start)
  {
    if InSquare(c, length, start) && SquareFits(length, start) {
      SingleRotationMeaning(c, length, start);
    }
  }

  /** `rotate` applies as many quarter turns as its variant says. */
  lemma RotateIsQuarters(c: Coordinate, start: Coordinate, width: U32, turns: Rotation)
    ensures Rotate(c, start, width, turns) == Rotations(c, width, start, Quarters(turns))
  {
    assert Rotations(c, width, start, 1) == SingleRotation(c, width, start);
  }

  /** What `n` quarter turns do to a relative position in the square:
      nothing, then (l - ry, rx), (l - rx, l - ry) and (ry, l - rx) with
      l = length - 1, staying in the square. */
  lemma {:induction false} RotationsRelative(c: Coordinate, length: U32, start: Coordinate, n: nat)
    requires InSquare(c, length, start) && SquareFits(length, start)
    requires n < 4
    ensures Rotations(c, length, start, n).Some?
    ensures var d := Rotations(c, length, start, n).value;
      var l := length - 1;
      var rx := c.x - start.x;
      var ry := c.y - start.y;
      && InSquare(d, length, start)
      && (n == 0 ==> d == c)
      && (n == 1 ==> d.x - start.x == l - ry && d.y - start.y == rx)
      && (n == 2 ==> d.x - start.x == l - rx && d.y - start.y == l - ry)
      && (n == 3 ==> d.x - start.x == ry && d.y - start.y == l - rx)
  {
    if n > 0 {
      RotationsRelative(c, length, start, n - 1);
      SingleRotationMeaning(Rotations(c, length, start, n - 1).value, length, start);
    }
  }

  /** Four quarter turns bring every position of the square back. */
  lemma FourRotations(c: Coordinate, length: U32, start: Coordinate)
    requires InSquare(c, length, start) && SquareFits(length, start)
    ensures Rotations(c, length, start, 4) == Some(c)
  {
    RotationsRelative(c, length, start, 3);
    SingleRotationMeaning(Rotations(c, length, start, 3).value, length, start);
  }

  /** The worked rotation of the 4-square at (9, 5): (12, 6), (11, 8),
      (9, 7), (10, 5). */
  lemma RotationExample()
    ensures SingleRotation(Coordinate(12, 6), 4, Coordinate(9, 5)) == Some(Coordinate(11, 8))
    ensures SingleRotation(Coordinate(11, 8), 4, Coordinate(9, 5)) == Some(Coordinate(9, 7))
    ensures SingleRotation(Coordinate(9, 7), 4, Coordinate(9, 5)) == Some(Coordinate(10, 5))
  {
  }

  // ---------------------------------------------------------------------
  // Passing from one part to another

  /** The rotation `move_part` applies for the facing it leaves with and
      the edge it enters by. */
  function EntryRotation(f: Facing, e: Edge): Rotation {
    match (f, e)
    case (Right, Top) => Rotate270
    case (Right, RightEdge) => Rotate180
    case (Right, Bottom) => Rotate90
    case (Right, LeftEdge) => NoRotation
    case (Down, Top) => NoRotation
    case (Down, RightEdge) => Rotate270
    case (Down, Bottom) => Rotate180
    case (Down, LeftEdge) => Rotate90
    case (Left, Top) => Rotate90
    case (Left, RightEdge) => NoRotation
    case (Left, Bottom) => Rotate270
    case (Left, LeftEdge) => Rotate180
    case (Up, Top) => Rotate180
    case (Up, RightEdge) => Rotate90
    case (Up, Bottom) => NoRotation
    case (Up, LeftEdge) => Rotate270
  }

  /** The facing after entering by an edge: away from it. */
  function EntryFacing(e: Edge): Facing {
    match e
    case Top => Down
    case RightEdge => Left
    case Bottom => Up
    case LeftEdge => Right
  }

  /** The flip after the rotation: across the vertical middle line when
      leaving sideways, across the horizontal one when leaving up or down. */
  function Flipped(c: Coordinate, part: MapPart, f: Facing): (r: Option<Coordinate>)
    ensures r.Some? && (f == Right || f == Left) ==>
      r.value.y == c.y && r.value.x - part.start.x == Width(part) - 1 - (c.x - part.start.x)
    ensures r.Some? && (f == Up || f == Down) ==>
      r.value.x == c.x && r.value.y - part.start.y == Height(part) - 1 - (c.y - part.start.y)
  {
    if f == Right || f == Left then
      var distance :- Sub(Width(part), 1);
      var far :- Add(part.start.x, distance);
      var rx :- Sub(c.x, part.start.x);
      var x :- Sub(far, rx);
      Some(Coordinate(x, c.y))
    else
      var distance :- Sub(Height(part), 1);
      var far :- Add(part.start.y, distance);
      var ry :- Sub(c.y, part.start.y);
      var y :- Sub(far, ry);
      Some(Coordinate(c.x, y))
  }

  /** Shift an ordinate by the difference of two starts in `i32`
      arithmetic, then convert back to `u32` with `try_into().unwrap()`. */
  function Translate(v: U32, from: U32, to: U32): (r: Option<U32>)
    ensures r.Some? ==> r.value - AsI32(to) == AsI32(v) - AsI32(from)
    ensures from <= v < 0x8000_0000 && to + (v - from) < 0x8000_0000 ==> r == Some(to + (v - from))
  {
    var d := AsI32(to) - AsI32(from);
    if !InI32(d) then None
    else
      var w := AsI32(v) + d;
      if !InI32(w) || w < 0 then None else Some(w)
  }

  /** `Map::move_part`: look up the connection for the current part and
      facing, rotate and flip the position in the current part, and move it
      by the difference of the two parts' starts.  A missing connection or
      part is a panic. */
  function MovePart(m: Map, s: State): (r: Option<State>)
    ensures s.part >= |m.connections| || s.facing !in m.connections[s.part] ==> r.None?
    ensures r.Some? ==>
      var connection := m.connections[s.part][s.facing];
      && r.value.part == connection.part < |m.parts|
      && r.value.facing == EntryFacing(connection.edge)
  {
    if s.part >= |m.connections| || s.facing !in m.connections[s.part] then None
    else
      var connection := m.connections[s.part][s.facing];
      if connection.part >= |m.parts| || s.part >= |m.parts| then None
      else
        var turns := EntryRotation(s.facing, connection.edge);
        var position :- Crossed(m.parts[s.part], m.parts[connection.part], s.position, s.facing, turns);
        Some(State(position, EntryFacing(connection.edge), connection.part))
  }

  /** The position on the next part: rotated and flipped in the current
      part, then moved by the difference of the two parts' starts. */
  function Crossed(current: MapPart, next: MapPart, c: Coordinate, f: Facing, turns: Rotation): Option<Coordinate> {
    var rotated :- Rotate(c, current.start, Width(current), turns);
    var flipped :- Flipped(rotated, current, f);
    var x :- Translate(flipped.x, current.start.x, next.start.x);
    var y :- Translate(flipped.y, current.start.y, next.start.y);
    Some(Coordinate(x, y))
  }

  /** A crossing keeps the rotated and flipped position's offset from the
      current part's start as the offset from the next part's start. */
  lemma CrossedKeepsOffset(current: MapPart, next: MapPart, c: Coordinate, f: Facing, turns: Rotation)
    requires Crossed(current, next, c, f, turns).Some?
    ensures Rotate(c, current.start, Width(current), turns).Some?
    ensures Flipped(Rotate(c, current.start, Width(current), turns).value, current, f).Some?
    ensures var flipped := Flipped(Rotate(c, current.start, Width(current), turns).value, current, f).value;
      var r := Crossed(current, next, c, f, turns).value;
      && r.x - AsI32(next.start.x) == AsI32(flipped.x) - AsI32(current.start.x)
      && r.y - AsI32(next.start.y) == AsI32(flipped.y) - AsI32(current.start.y)
  {
  }

  /** `move_part` once the connection is found and the crossing
      succeeds. */
  lemma MovePartVia(m: Map, s: State, c: Coordinate)
    requires s.part < |m.connections| && s.facing in m.connections[s.part]
    requires s.part < |m.parts| && m.connections[s.part][s.facing].part < |m.parts|
    requires var connection := m.connections[s.part][s.facing];
      Crossed(m.parts[s.part], m.parts[connection.part], s.position, s.facing, EntryRotation(s.facing, connection.edge)) == Some(c)
    ensures var connection := m.connections[s.part][s.facing];
      MovePart(m, s) == Some(State(c, EntryFacing(connection.edge), connection.part))
  {
  }

  /** The part is a square of side `length` whose tiles fit the `i32`
      range, as the cube's faces are. */
  predicate SquareFace(p: MapPart, length: nat) {
    && p.width == length && |p.tiles| == length
    && p.start.x + length <= 0x8000_0000 && p.start.y + length <= 0x8000_0000
  }

  /** A square face's sizes survive the cast to `u32`. */
  lemma SquareFaceSize(p: MapPart, length: nat)
    requires SquareFace(p, length)
    ensures Width(p) == length && Height(p) == length
  {
    DivModUnique(p.width, U32_LIMIT, 0, p.width);
    DivModUnique(|p.tiles|, U32_LIMIT, 0, |p.tiles|);
  }

  /** The edge a facing walks out of. */
  function ExitEdge(f: Facing): Edge {
    match f
    case Right => RightEdge
    case Down => Bottom
    case Left => LeftEdge
    case Up => Top
  }

  /** The position lies on the given edge of the square part. */
  predicate OnEdge(c: Coordinate, p: MapPart, length: nat, e: Edge) {
    match e
    case Top => c.y == p.start.y
    case RightEdge => c.x == p.start.x + length - 1
    case Bottom => c.y == p.start.y + length - 1
    case LeftEdge => c.x == p.start.x
  }

  /** Flipping a position of a square part keeps it in the square and
      mirrors its column (leaving sideways) or its row (leaving up or
      down). */
  lemma FlippedInSquare(c: Coordinate, p: MapPart, length: nat, f: Facing, relative: (int, int))
    requires length > 0 && SquareFace(p, length) && InSquare(c, length, p.start)
    requires relative == (c.x - p.start.x, c.y - p.start.y)
    ensures var r := Mirrored(f, relative, length - 1);
      && 0 <= r.0 < length && 0 <= r.1 < length
      && Flipped(c, p, f) == Some(Coordinate(p.start.x + r.0, p.start.y + r.1))
  {
    SquareFaceSize(p, length);
  }

  /** Moving between parts that lie within the `i32` range shifts by the
      difference of their starts, without a panic. */
  lemma TranslateShifts(v: U32, from: U32, to: U32)
    requires from <= v < 0x8000_0000 && to + (v - from) < 0x8000_0000
    ensures Translate(v, from, to) == Some(to + (v - from))
  {
  }

  /** The relative position after rotating a position on the exit edge as
      `move_part` does, and then flipping it. */
  function Entered(f: Facing, e: Edge, rx: int, ry: int, l: int): (int, int) {
    Mirrored(f, Turned(Quarters(EntryRotation(f, e)), rx, ry, l), l)
  }

  /** A relative position (rx, ry) in a square whose last offset is `l`,
      after `q` quarter turns clockwise. */
  function Turned(q: nat, rx: int, ry: int, l: int): (int, int) {
    if q == 0 then (rx, ry)
    else if q == 1 then (l - ry, rx)
    else if q == 2 then (l - rx, l - ry)
    else (ry, l - rx)
  }

  /** A relative position mirrored as the flip does for the facing. */
  function Mirrored(f: Facing, r: (int, int), l: int): (int, int) {
    if f == Right || f == Left then (l - r.0, r.1) else (r.0, l - r.1)
  }

  /** `rotate` inside a square that fits turns the relative position. */
  lemma RotateRelative(c: Coordinate, start: Coordinate, length: U32, turns: Rotation)
    requires InSquare(c, length, start) && SquareFits(length, start)
    ensures var r := Turned(Quarters(turns), c.x - start.x, c.y - start.y, length - 1);
      && InSquare(Coordinate(start.x + r.0, start.y + r.1), length, start)
      && Rotate(c, start, length, turns) == Some(Coordinate(start.x + r.0, start.y + r.1))
  {
    RotateIsQuarters(c, start, length, turns);
    RotationsRelative(c, length, start, Quarters(turns));
  }

  /** The rotation table and the flip bring the exit edge of the facing onto
      the entry edge, for each of the sixteen pairs. */
  lemma EnteredOnEdge(f: Facing, e: Edge, rx: int, ry: int, l: int)
    requires 0 <= rx <= l && 0 <= ry <= l
    requires match ExitEdge(f)
      case Top => ry == 0
      case RightEdge => rx == l
      case Bottom => ry == l
      case LeftEdge => rx == 0
    ensures var (x, y) := Entered(f, e, rx, ry, l);
      && 0 <= x <= l && 0 <= y <= l
      && match e
        case Top => y == 0
        case RightEdge => x == l
        case Bottom => y == l
        case LeftEdge => x == 0
  {
  }

  /** Rotating and then flipping a position of a square face turns and
      mirrors its relative position. */
  lemma RotateThenFlip(c: Coordinate, p: MapPart, length: nat, f: Facing, turns: Rotation)
    requires length > 0 && SquareFace(p, length) && InSquare(c, length, p.start)
    ensures Rotate(c, p.start, length, turns).Some?
    ensures var r := Mirrored(f, Turned(Quarters(turns), c.x - p.start.x, c.y - p.start.y, length - 1), length - 1);
      && 0 <= r.0 < length && 0 <= r.1 < length
      && Flipped(Rotate(c, p.start, length, turns).value, p, f) == Some(Coordinate(p.start.x + r.0, p.start.y + r.1))
  {
    RotateRelative(c, p.start, length, turns);
    var turned := Turned(Quarters(turns), c.x - p.start.x, c.y - p.start.y, length - 1);
    var rotated := Coordinate(p.start.x + turned.0, p.start.y + turned.1);
    assert Rotate(c, p.start, length, turns).value == rotated;
    FlippedInSquare(rotated, p, length, f, turned);
  }

  /** Between square faces of one size that lie in the `i32` range, the
      crossing keeps the turned and mirrored relative position, now
      relative to the next face. */
  lemma CrossedShift(current: MapPart, next: MapPart, c: Coordinate, f: Facing, turns: Rotation, length: nat)
    requires length > 0 && SquareFace(current, length) && SquareFace(next, length)
    requires InSquare(c, length, current.start)
    ensures var r := Mirrored(f, Turned(Quarters(turns), c.x - current.start.x, c.y - current.start.y, length - 1), length - 1);
      && 0 <= r.0 < length && 0 <= r.1 < length
      && Crossed(current, next, c, f, turns) == Some(Coordinate(next.start.x + r.0, next.start.y + r.1))
  {
    var r := Mirrored(f, Turned(Quarters(turns), c.x - current.start.x, c.y - current.start.y, length - 1), length - 1);
    RotateThenFlip(c, current, length, f, turns);
    SquareFaceSize(current, length);
    var rotated := Rotate(c, current.start, length, turns).value;
    var flipped := Coordinate(current.start.x + r.0, current.start.y + r.1);
    TranslateShifts(flipped.x, current.start.x, next.start.x);
    TranslateShifts(flipped.y, current.start.y, next.start.y);
    CrossedSteps(current, next, c, f, turns, rotated, flipped, next.start.x + r.0, next.start.y + r.1);
  }

  /** The crossing once every step is known to succeed. */
  lemma CrossedSteps(current: MapPart, next: MapPart, c: Coordinate, f: Facing, turns: Rotation, rotated: Coordinate, flipped: Coordinate, x: U32, y: U32)
    requires Rotate(c, current.start, Width(current), turns) == Some(rotated)
    requires Flipped(rotated, current, f) == Some(flipped)
    requires Translate(flipped.x, current.start.x, next.start.x) == Some(x)
    requires Translate(flipped.y, current.start.y, next.start.y) == Some(y)
    ensures Crossed(current, next, c, f, turns) == Some(Coordinate(x, y))
  {
  }

  /** Between square faces of one size, leaving a face over the edge one
      looks at never panics, lands inside the connected face on the edge
      the connection names, and looks away from that edge. */
  lemma MovePartEnters(m: Map, s: State, length: nat)
    requires length > 0
    requires s.part < |m.connections| && s.facing in m.connections[s.part]
    requires s.part < |m.parts| && m.connections[s.part][s.facing].part < |m.parts|
    requires SquareFace(m.parts[s.part], length) && SquareFace(m.parts[m.connections[s.part][s.facing].part], length)
    requires InSquare(s.position, length, m.parts[s.part].start)
    requires OnEdge(s.position, m.parts[s.part], length, ExitEdge(s.facing))
    ensures MovePart(m, s).Some?
    ensures var t := MovePart(m, s).value;
      var connection := m.connections[s.part][s.facing];
      && t.part == connection.part
      && InSquare(t.position, length, m.parts[connection.part].start)
      && OnEdge(t.position, m.parts[connection.part], length, connection.edge)
      && t.facing == EntryFacing(connection.edge)
  {
    var connection := m.connections[s.part][s.facing];
    CrossedEnters(m.parts[s.part], m.parts[connection.part], s.position, s.facing, connection.edge, length);
    var c := Crossed(m.parts[s.part], m.parts[connection.part], s.position, s.facing, EntryRotation(s.facing, connection.edge)).value;
    MovePartVia(m, s, c);
  }

  /** Between square faces of one size, a position on the edge the facing
      walks out of crosses onto the entry edge of the next face. */
  lemma CrossedEnters(current: MapPart, next: MapPart, c: Coordinate, f: Facing, e: Edge, length: nat)
    requires length > 0 && SquareFace(current, length) && SquareFace(next, length)
    requires InSquare(c, length, current.start) && OnEdge(c, current, length, ExitEdge(f))
    ensures Crossed(current, next, c, f, EntryRotation(f, e)).Some?
    ensures InSquare(Crossed(current, next, c, f, EntryRotation(f, e)).value, length, next.start)
    ensures OnEdge(Crossed(current, next, c, f, EntryRotation(f, e)).value, next, length, e)
  {
    var rx, ry := c.x - current.start.x, c.y - current.start.y;
    CrossedShift(current, next, c, f, EntryRotation(f, e), length);
    EnteredOnEdge(f, e, rx, ry, length - 1);
  }

  // ---------------------------------------------------------------------
  // Walls and the password

  /** `has_wall_at_point`: the tile under a board position, relative to the
      part's start; a position left of or above the part, or outside its
      matrix, is a panic. */
  function HasWall(p: MapPart, c: Coordinate): (r: Option<bool>)
    ensures r.Some? <==> p.start.x <= c.x && p.start.y <= c.y && c.y - p.start.y < |p.tiles| && c.x - p.start.x < |p.tiles[c.y - p.start.y]|
    ensures r.Some? ==> (r.value <==> p.tiles[c.y - p.start.y][c.x - p.start.x] == SolidWall)
  {
    var x :- Sub(c.x, p.start.x);
    var y :- Sub(c.y, p.start.y);
    if y < |p.tiles| && x < |p.tiles[y]| then Some(p.tiles[y][x] == SolidWall) else None
  }

  /** `determine_password`: 1000 times the row plus 4 times the column plus
      the facing, in `u32` arithmetic. */
  function Password(s: State): (r: Option<U32>)
    ensures r.Some? <==> 1000 * s.position.y + 4 * s.position.x + FacingValue(s.facing) < U32_LIMIT
    ensures r.Some? ==> r.value == 1000 * s.position.y + 4 * s.position.x + FacingValue(s.facing)
  {
    var rows :- Mul(1000, s.position.y);
    var columns :- Mul(4, s.position.x);
    var sum :- Add(rows, columns);
    Add(sum, FacingValue(s.facing))
  }

  /** On a board narrower than 250 columns the password gives the row, the
      column and the facing back. */
  lemma PasswordReadsBack(s: State)
    requires s.position.x < 250 && Password(s).Some?
    ensures Password(s).value / 1000 == s.position.y
    ensures Password(s).value % 1000 / 4 == s.position.x
    ensures Password(s).value % 4 == FacingValue(s.facing)
  {
    var p := Password(s).value;
    var low := 4 * s.position.x + FacingValue(s.facing);
    assert p == 1000 * s.position.y + low && low < 1000;
    DivModUnique(p, 1000, s.position.y, low);
    DivModUnique(low, 4, s.position.x, FacingValue(s.facing));
    DivModUnique(p, 4, 250 * s.position.y + s.position.x, FacingValue(s.facing));
  }

  /** Row 6, column 8, facing right: the password is 6032. */
  lemma PasswordExample()
    ensures Password(State(Coordinate(8, 6), Right, 0)) == Some(6032)
  {
  }
}
