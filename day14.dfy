/** Day 14: sand poured into a cave of rock paths, one grain at a time,
    until a grain falls past the rock. */
module Day14 {
  import opened Common

  /** Coordinates are u32. */
  const CoordinateBound: nat := 0x1_0000_0000
  type Coordinate = x: nat | x < CoordinateBound

  datatype Point = Point(x: Coordinate, y: Coordinate)

  datatype Tile = Sand | Rock

  /** The cave: the tile at every occupied point. */
  type Tiles = map<Point, Tile>

  /** Every tile of `cave` is rock. */
  predicate AllRock(cave: Tiles) {
    forall p :: p in cave ==> cave[p] == Rock
  }

  // ---------------------------------------------------------------------
  // Rock walls and paths
  // ---------------------------------------------------------------------

  /** `p` lies in the rectangle with corners `a` and `b`, edges included. */
  predicate InRectangle(p: Point, a: Point, b: Point) {
    Min(a.x, b.x) <= p.x <= Max(a.x, b.x) && Min(a.y, b.y) <= p.y <= Max(a.y, b.y)
  }

  /** Rock on every point of the rectangle spanned by `a` and `b`. */
  function RockWall(a: Point, b: Point): (wall: Tiles)
    ensures forall p :: p in wall <==> InRectangle(p, a, b)
    ensures AllRock(wall)
  {
    var points := set x: Coordinate, y: Coordinate | Min(a.x, b.x) <= x <= Max(a.x, b.x) && Min(a.y, b.y) <= y <= Max(a.y, b.y) :: Point(x, y);
    map p | p in points :: Rock
  }

  /** The loops of `create_rock_wall` run up to one past the larger
      coordinate, and that sum overflows u32 at the largest coordinate. */
  predicate WallFits(a: Point, b: Point) {
    Max(a.x, b.x) + 1 < CoordinateBound && Max(a.y, b.y) + 1 < CoordinateBound
  }

  /** The wall from `a` to `b`, or None where `create_rock_wall` panics. */
  function WallBetween(a: Point, b: Point): Option<Tiles> {
    if WallFits(a, b) then Some(RockWall(a, b)) else None
  }

  /** `create_rock_wall`: rock on every point of the inclusive rectangle
      between the two corners, filled column by column. */
  method CreateRockWall(a: Point, b: Point) returns (r: Option<Tiles>)
    ensures r == WallBetween(a, b)
    ensures r.Some? ==> forall p :: p in r.value <==> InRectangle(p, a, b)
  {
    var xLo, xHi := Min(a.x, b.x), Max(a.x, b.x);
    var yLo, yHi := Min(a.y, b.y), Max(a.y, b.y);
    if xHi + 1 >= CoordinateBound || yHi + 1 >= CoordinateBound {
      return None;
    }
    var wall: Tiles := map[];
    for x := xLo to xHi + 1
      invariant forall p :: p in wall <==> xLo <= p.x < x && yLo <= p.y <= yHi
      invariant AllRock(wall)
    {
      for y := yLo to yHi + 1
        invariant forall p :: p in wall <==> (xLo <= p.x < x && yLo <= p.y <= yHi) || (p.x == x && yLo <= p.y < y)
        invariant AllRock(wall)
      {
        wall := wall[Point(x, y) := Rock];
      }
    }
    assert wall.Keys == RockWall(a, b).Keys;
    assert wall == RockWall(a, b);
    return Some(wall);
  }

  /** Both corners are part of their wall, whichever comes first. */
  lemma WallEnds(a: Point, b: Point)
    ensures a in RockWall(a, b) && b in RockWall(a, b)
    ensures RockWall(a, b) == RockWall(b, a)
  {
    assert RockWall(a, b).Keys == RockWall(b, a).Keys;
  }

  /** The union of the parts, in order, or None as soon as one part is
      None (an `insert` or `extend` of each part, where each part comes
      from a call that may panic). */
  function UnionAll(parts: seq<Option<Tiles>>): (r: Option<Tiles>)
    ensures r.Some? <==> forall i :: 0 <= i < |parts| ==> parts[i].Some?
  {
    if parts == [] then Some(map[])
    else
      var n := |parts| - 1;
      var front := UnionAll(parts[..n]);
      assert forall i :: 0 <= i < n ==> parts[..n][i] == parts[i];
      if front.Some? && parts[n].Some? then Some(front.value + parts[n].value)
      else None
  }

  /** One more part merged into the union of the ones before it. */
  lemma UnionAllStep(parts: seq<Option<Tiles>>, i: nat, merged: Tiles)
    requires i < |parts| && UnionAll(parts[..i]) == Some(merged) && parts[i].Some?
    ensures UnionAll(parts[..i + 1]) == Some(merged + parts[i].value)
  {
    assert parts[..i + 1][..i] == parts[..i];
  }

  /** A part that is None makes the whole union None. */
  lemma UnionAllFails(parts: seq<Option<Tiles>>, i: nat)
    requires i < |parts| && parts[i].None?
    ensures UnionAll(parts).None?
  {
  }

  /** A point is in the union iff it is in one of the parts, and a union of
      rock is rock. */
  lemma {:induction false} UnionAllHas(parts: seq<Option<Tiles>>, p: Point)
    requires UnionAll(parts).Some?
    ensures p in UnionAll(parts).value <==> exists i :: 0 <= i < |parts| && parts[i].Some? && p in parts[i].value
    ensures (forall i :: 0 <= i < |parts| ==> parts[i].Some? && AllRock(parts[i].value)) && p in UnionAll(parts).value ==>
      UnionAll(parts).value[p] == Rock
  {
    if parts != [] {
      var n := |parts| - 1;
      assert forall i :: 0 <= i < n ==> parts[..n][i] == parts[i];
      UnionAllHas(parts[..n], p);
    }
  }

  /** The wall between point `i` of a path and the next one. */
  function Segment(points: seq<Point>, i: int): Option<Tiles>
    requires 0 <= i < |points| - 1
  {
    WallBetween(points[i], points[i + 1])
  }

  /** The wall between point `i` of a path and the next fits u32. */
  predicate SegmentFits(points: seq<Point>, i: int)
    requires 0 <= i < |points| - 1
  {
    WallFits(points[i], points[i + 1])
  }

  /** `p` lies on the wall between point `i` of a path and the next. */
  predicate OnSegment(p: Point, points: seq<Point>, i: int)
    requires 0 <= i < |points| - 1
  {
    InRectangle(p, points[i], points[i + 1])
  }

  /** The walls between consecutive points of a path. */
  function Walls(points: seq<Point>): (walls: seq<Option<Tiles>>)
    ensures |walls| == if |points| == 0 then 0 else |points| - 1
    ensures forall i :: 0 <= i < |walls| ==> walls[i] == Segment(points, i)
  {
    seq(if |points| == 0 then 0 else |points| - 1, i requires 0 <= i < |points| - 1 => Segment(points, i))
  }

  /** The rock of a path: the union of the walls between its consecutive
      points, or None if one of them overflows. */
  function RockPath(points: seq<Point>): (r: Option<Tiles>)
    ensures r.Some? <==> forall i :: 0 <= i < |points| - 1 ==> SegmentFits(points, i)
  {
    var walls := Walls(points);
    forall i | 0 <= i < |walls| ensures walls[i].Some? <==> SegmentFits(points, i) {
      assert walls[i] == Segment(points, i);
    }
    UnionAll(walls)
  }

  /** The rock of a path is every point of the rectangles between its
      consecutive points, and nothing else. */
  lemma RockPathHas(points: seq<Point>, p: Point)
    requires RockPath(points).Some?
    ensures p in RockPath(points).value <==> exists i :: 0 <= i < |points| - 1 && OnSegment(p, points, i)
    ensures p in RockPath(points).value ==> RockPath(points).value[p] == Rock
  {
    var walls := Walls(points);
    forall i | 0 <= i < |walls|
      ensures walls[i].Some? && AllRock(walls[i].value)
      ensures p in walls[i].value <==> OnSegment(p, points, i)
    {
      assert walls[i] == Segment(points, i);
      assert SegmentFits(points, i);
    }
    UnionAllHas(walls, p);
  }

  // ---------------------------------------------------------------------
  // Parsing
  // ---------------------------------------------------------------------

  /** `parse_point`: the u32 before the first comma and the one after it,
      whatever follows a second comma. None where the source panics: no
      comma, or a piece that is no u32. */
  function ParsePoint(s: string): (r: Option<Point>)
    ensures r.Some? <==> && |Split(s, ',')| >= 2
                         && ParseUnsigned(Split(s, ',')[0], CoordinateBound).Some?
                         && ParseUnsigned(Split(s, ',')[1], CoordinateBound).Some?
    ensures r.Some? ==> && ParseUnsigned(Split(s, ',')[0], CoordinateBound) == Some(r.value.x as nat)
                        && ParseUnsigned(Split(s, ',')[1], CoordinateBound) == Some(r.value.y as nat)
  {
    var pieces := Split(s, ',');
    if |pieces| < 2 then None
    else
      match (ParseUnsigned(pieces[0], CoordinateBound), ParseUnsigned(pieces[1], CoordinateBound))
      case (Some(x), Some(y)) => Some(Point(x, y))
      case _ => None
  }

  /** The points of a path written "x,y -> x,y -> ...". */
  function ParsePath(s: string): (r: Option<seq<Point>>)
    ensures r.Some? ==> |r.value| == |SplitOn(s, " -> ")| > 0
    ensures r.Some? ==> forall i :: 0 <= i < |r.value| ==> Some(r.value[i]) == ParsePoint(SplitOn(s, " -> ")[i])
  {
    MapAll(ParsePoint, SplitOn(s, " -> "))
  }

  /** The rock of one line of the input, as `parse_rock_path` builds it. */
  function PathTiles(line: string): Option<Tiles> {
    match ParsePath(line)
    case None => None
    case Some(points) => RockPath(points)
  }

  /** `parse_rock_path`: the walls between consecutive points, merged one
      after the other. */
  method ParseRockPath(input: string) returns (r: Option<Tiles>)
    ensures r == PathTiles(input)
  {
    var parsed := ParsePath(input);
    if parsed.None? {
      return None;
    }
    r := MergeWalls(parsed.value);
  }

  /** The loop of `parse_rock_path`: the wall between each point and the
      next, inserted in order. */
  method MergeWalls(points: seq<Point>) returns (r: Option<Tiles>)
    requires |points| > 0
    ensures r == RockPath(points)
  {
    ghost var walls := Walls(points);
    var rockPath: Tiles := map[];
    for i := 0 to |points| - 1
      invariant UnionAll(walls[..i]) == Some(rockPath)
    {
      var wall := CreateRockWall(points[i], points[i + 1]);
      if wall.None? {
        UnionAllFails(walls, i);
        return None;
      }
      UnionAllStep(walls, i, rockPath);
      rockPath := rockPath + wall.value;
    }
    assert walls[..|points| - 1] == walls;
    return Some(rockPath);
  }

  /** The rock of each line. */
  function LineRocks(lines: seq<string>): (parts: seq<Option<Tiles>>)
    ensures |parts| == |lines| && forall i :: 0 <= i < |lines| ==> parts[i] == PathTiles(lines[i])
  {
    seq(|lines|, i requires 0 <= i < |lines| => PathTiles(lines[i]))
  }

  /** The cave of a whole input: the rock of every line, one after the
      other. */
  function CaveTiles(lines: seq<string>): Option<Tiles> {
    UnionAll(LineRocks(lines))
  }

  /** `parse_cave`: every line a rock path, all merged into one cave. An
      empty line, including the one after a trailing newline, has no
      comma, so the source panics on it and the model gives None. */
  method ParseCave(input: string) returns (r: Option<Tiles>)
    ensures r == CaveTiles(Split(input, '\n'))
  {
    var lines := Split(input, '\n');
    ghost var parts := LineRocks(lines);
    var cave: Tiles := map[];
    for i := 0 to |lines|
      invariant UnionAll(parts[..i]) == Some(cave)
    {
      var path := ParseRockPath(lines[i]);
      if path.None? {
        UnionAllFails(parts, i);
        return None;
      }
      UnionAllStep(parts, i, cave);
      cave := cave + path.value;
    }
    assert parts[..|lines|] == parts;
    return Some(cave);
  }

  /** An empty line is no rock path. */
  lemma EmptyLinePanics()
    ensures PathTiles("") == None
  {
    assert SplitOn("", " -> ") == [""];
    assert Split("", ',') == [""];
  }

  /** A point as the input writes it. */
  function PointText(p: Point): string {
    NatToString(p.x) + "," + NatToString(p.y)
  }

  /** A path as the input writes it. */
  function PathText(points: seq<Point>): string
    requires |points| > 0
  {
    JoinOn(seq(|points|, i requires 0 <= i < |points| => PointText(points[i])), " -> ")
  }

  /** The lines of the input holding the given paths. */
  function PathTexts(paths: seq<seq<Point>>): (lines: seq<string>)
    requires forall i :: 0 <= i < |paths| ==> |paths[i]| > 0
    ensures |lines| == |paths| && forall i :: 0 <= i < |paths| ==> lines[i] == PathText(paths[i])
  {
    seq(|paths|, i requires 0 <= i < |paths| => PathText(paths[i]))
  }

  /** The input holding the given paths, one per line. */
  function CaveText(paths: seq<seq<Point>>): string
    requires |paths| > 0 && forall i :: 0 <= i < |paths| ==> |paths[i]| > 0
  {
    Join(PathTexts(paths), '\n')
  }

  /** A numeral holds no separator of the input, and reads back as its
      value. */
  lemma NumeralPlain(n: nat)
    ensures forall j :: 0 <= j < |NatToString(n)| ==> NatToString(n)[j] != ',' && NatToString(n)[j] != ' ' && NatToString(n)[j] != '\n'
  {
    assert forall j :: 0 <= j < |NatToString(n)| ==> IsDigit(NatToString(n)[j]);
  }

  /** A printed point splits on its comma into its two numerals. */
  lemma PointSplits(p: Point, rest: string)
    ensures Split(PointText(p), ',') == [NatToString(p.x), NatToString(p.y)]
    ensures Split(PointText(p) + "," + rest, ',') == [NatToString(p.x), NatToString(p.y)] + Split(rest, ',')
  {
    var x, y := NatToString(p.x), NatToString(p.y);
    NumeralPlain(p.x);
    NumeralPlain(p.y);
    assert PointText(p) == x + [','] + y;
    SplitFirstPiece(x, ',', y);
    SplitNoSeparator(y, ',');
    assert PointText(p) + "," + rest == x + [','] + (y + [','] + rest);
    SplitFirstPiece(x, ',', y + [','] + rest);
    SplitFirstPiece(y, ',', rest);
  }

  /** A printed point reads back as itself, also when more text follows
      after another comma. */
  lemma PointTextReadsBack(p: Point, rest: string)
    ensures ParsePoint(PointText(p)) == Some(p)
    ensures ParsePoint(PointText(p) + "," + rest) == Some(p)
  {
    PointSplits(p, rest);
    assert ParseUnsigned(NatToString(p.x), CoordinateBound) == Some(p.x);
    assert ParseUnsigned(NatToString(p.y), CoordinateBound) == Some(p.y);
  }

  /** A printed point holds no space and no newline. */
  lemma PointTextPlain(p: Point)
    ensures forall j :: 0 <= j < |PointText(p)| ==> PointText(p)[j] != ' ' && PointText(p)[j] != '\n'
  {
    var x, y := NatToString(p.x), NatToString(p.y);
    NumeralPlain(p.x);
    NumeralPlain(p.y);
    forall j | 0 <= j < |PointText(p)| ensures PointText(p)[j] != ' ' && PointText(p)[j] != '\n' {
      if j > |x| {
        assert PointText(p)[j] == y[j - |x| - 1];
      }
    }
  }

  /** No " -> " starts inside a piece without spaces. */
  lemma NoArrowInside(piece: string)
    requires forall j :: 0 <= j < |piece| ==> piece[j] != ' '
    ensures NoMatchBefore(piece + " -> ", " -> ", |piece|)
    ensures NoMatchBefore(piece, " -> ", |piece|)
  {
    forall p | 0 <= p < |piece| ensures !MatchAt(piece + " -> ", " -> ", p) && !MatchAt(piece, " -> ", p) {
      assert " -> "[0] == ' ';
      assert (piece + " -> ")[p + 0] == piece[p];
    }
  }

  /** A printed path reads back as its points. */
  lemma PathTextReadsBack(points: seq<Point>)
    requires |points| > 0
    ensures ParsePath(PathText(points)) == Some(points)
    ensures PathTiles(PathText(points)) == RockPath(points)
    ensures forall j :: 0 <= j < |PathText(points)| ==> PathText(points)[j] != '\n'
  {
    var pieces := seq(|points|, i requires 0 <= i < |points| => PointText(points[i]));
    forall i | 0 <= i < |points|
      ensures ParsePoint(pieces[i]) == Some(points[i])
      ensures NoMatchBefore(pieces[i] + " -> ", " -> ", |pieces[i]|)
      ensures NoMatchBefore(pieces[i], " -> ", |pieces[i]|)
      ensures forall j :: 0 <= j < |pieces[i]| ==> pieces[i][j] != '\n'
    {
      PointTextReadsBack(points[i], "");
      PointTextPlain(points[i]);
      NoArrowInside(pieces[i]);
    }
    SplitOnJoin(pieces, " -> ");
    var parsed := ParsePath(PathText(points));
    assert parsed.value == points;
    JoinOnPlain(pieces, " -> ");
  }

  /** Joining pieces without newlines on " -> " gives no newline. */
  lemma {:induction false} JoinOnPlain(pieces: seq<string>, sep: string)
    requires |pieces| > 0 && sep == " -> "
    requires forall i, j :: 0 <= i < |pieces| && 0 <= j < |pieces[i]| ==> pieces[i][j] != '\n'
    ensures forall j :: 0 <= j < |JoinOn(pieces, sep)| ==> JoinOn(pieces, sep)[j] != '\n'
    decreases |pieces|
  {
    if |pieces| > 1 {
      JoinOnPlain(pieces[1..], sep);
      var rest := JoinOn(pieces[1..], sep);
      assert JoinOn(pieces, sep) == pieces[0] + sep + rest;
      forall j | 0 <= j < |JoinOn(pieces, sep)| ensures JoinOn(pieces, sep)[j] != '\n' {
        if j < |pieces[0]| {
        } else if j < |pieces[0]| + |sep| {
        } else {
          assert JoinOn(pieces, sep)[j] == rest[j - |pieces[0]| - |sep|];
        }
      }
    }
  }

  /** The rock of each path. */
  function PathRocks(paths: seq<seq<Point>>): (parts: seq<Option<Tiles>>)
    ensures |parts| == |paths| && forall i :: 0 <= i < |paths| ==> parts[i] == RockPath(paths[i])
  {
    seq(|paths|, i requires 0 <= i < |paths| => RockPath(paths[i]))
  }

  /** The rock of all the given paths together. */
  function CaveOf(paths: seq<seq<Point>>): Option<Tiles> {
    UnionAll(PathRocks(paths))
  }

  /** A printed cave splits into its printed paths. */
  lemma CaveTextLines(paths: seq<seq<Point>>)
    requires |paths| > 0 && forall i :: 0 <= i < |paths| ==> |paths[i]| > 0
    ensures Split(CaveText(paths), '\n') == PathTexts(paths)
  {
    var texts := PathTexts(paths);
    forall i | 0 <= i < |paths| ensures forall j :: 0 <= j < |texts[i]| ==> texts[i][j] != '\n' {
      PathTextReadsBack(paths[i]);
    }
    SplitJoin(texts, '\n');
  }

  /** `parse_cave` reads a printed cave as the rock of its paths. */
  lemma ParseCaveText(paths: seq<seq<Point>>)
    requires |paths| > 0 && forall i :: 0 <= i < |paths| ==> |paths[i]| > 0
    ensures CaveTiles(Split(CaveText(paths), '\n')) == CaveOf(paths)
  {
    CaveTextLines(paths);
    var lines := PathTexts(paths);
    forall i | 0 <= i < |paths| ensures PathTiles(lines[i]) == RockPath(paths[i]) {
      PathTextReadsBack(paths[i]);
    }
    assert LineRocks(lines) == PathRocks(paths);
  }

  /** The cave of the given paths is the union of all the segments of all
      of them, and all of it is rock. */
  lemma CaveOfHas(paths: seq<seq<Point>>, p: Point)
    requires CaveOf(paths).Some?
    ensures p in CaveOf(paths).value <==>
      exists i, j :: 0 <= i < |paths| && 0 <= j < |paths[i]| - 1 && OnSegment(p, paths[i], j)
    ensures p in CaveOf(paths).value ==> CaveOf(paths).value[p] == Rock
  {
    var rocks := PathRocks(paths);
    UnionAllHas(rocks, p);
    forall i | 0 <= i < |paths|
      ensures AllRock(rocks[i].value)
      ensures p in rocks[i].value <==> exists j :: 0 <= j < |paths[i]| - 1 && OnSegment(p, paths[i], j)
    {
      RockPathHas(paths[i], p);
      forall q | q in rocks[i].value ensures rocks[i].value[q] == Rock {
        RockPathHas(paths[i], q);
      }
    }
  }

  // ---------------------------------------------------------------------
  // The sand fall
  // ---------------------------------------------------------------------

  /** The extent of the cave when the pour begins: the least and greatest
      x and the greatest y of any occupied point. */
  datatype Bounds = Bounds(xMin: Coordinate, xMax: Coordinate, yMax: Coordinate)

  ghost predicate IsBounds(points: set<Point>, b: Bounds) {
    (exists p :: p in points && p.x == b.xMin) &&
    (exists p :: p in points && p.x == b.xMax) &&
    (exists p :: p in points && p.y == b.yMax) &&
    forall p :: p in points ==> b.xMin <= p.x <= b.xMax && p.y <= b.yMax
  }

  /** Every non-empty set of points has its extent. */
  lemma {:induction false} BoundsExist(points: set<Point>)
    requires points != {}
    ensures exists b :: IsBounds(points, b)
    decreases |points|
  {
    var q :| q in points;
    if points == {q} {
      assert IsBounds(points, Bounds(q.x, q.x, q.y));
    } else {
      var rest := points - {q};
      BoundsExist(rest);
      var b :| IsBounds(rest, b);
      var b' := Bounds(if q.x < b.xMin then q.x else b.xMin, if q.x > b.xMax then q.x else b.xMax, if q.y > b.yMax then q.y else b.yMax);
      assert IsBounds(points, b');
    }
  }

  /** The extent of a set of points is unique. */
  lemma BoundsUnique(points: set<Point>, b: Bounds, c: Bounds)
    requires IsBounds(points, b) && IsBounds(points, c)
    ensures b == c
  {
  }

  ghost function CaveBounds(cave: Tiles): (b: Bounds)
    requires |cave| > 0
    ensures IsBounds(cave.Keys, b)
  {
    assert cave.Keys != {} by {
      var p :| p in cave;
    }
    BoundsExist(cave.Keys);
    var b :| IsBounds(cave.Keys, b);
    b
  }

  /** The three `iter().map(..).min()/max()` passes, as one pass. */
  method GetBounds(cave: Tiles) returns (b: Bounds)
    requires |cave| > 0
    ensures b == CaveBounds(cave)
  {
    var rest := cave.Keys;
    var q :| q in rest;
    var xMin, xMax, yMax := q.x, q.x, q.y;
    rest := rest - {q};
    while rest != {}
      invariant rest <= cave.Keys
      invariant IsBounds(cave.Keys - rest, Bounds(xMin, xMax, yMax))
      decreases |rest|
    {
      var p :| p in rest;
      ghost var before := cave.Keys - rest;
      if p.x < xMin { xMin := p.x; }
      if p.x > xMax { xMax := p.x; }
      if p.y > yMax { yMax := p.y; }
      rest := rest - {p};
      assert cave.Keys - rest == before + {p};
    }
    b := Bounds(xMin, xMax, yMax);
    assert cave.Keys - rest == cave.Keys;
    BoundsUnique(cave.Keys, b, CaveBounds(cave));
  }

  /** The three points below `p`, straight down, down-left and
      down-right, are all occupied, and none of them is off the edge of
      u32. */
  predicate Supported(cave: Tiles, p: Point) {
    0 < p.x < CoordinateBound - 1 && p.y + 1 < CoordinateBound &&
    Point(p.x, p.y + 1) in cave && Point(p.x - 1, p.y + 1) in cave && Point(p.x + 1, p.y + 1) in cave
  }

  /** What happens to one grain. */
  datatype Drop = Escaped | Rests(at: Point) | Panics

  /** One grain falling from `grain`: straight down, else down-left, else
      down-right, each only onto a free point, until it rests or the point
      below it leaves the extent. The extent is looked at for the point
      straight below only, so a diagonal step may leave the x range and
      the next step then ends the pour. None of the u32 arithmetic may
      overflow: y + 1, x - 1 and x + 1 panic at the edges of u32. */
  function DropFrom(cave: Tiles, grain: Point, b: Bounds): (r: Drop)
    ensures r.Rests? ==> b.xMin <= r.at.x <= b.xMax && r.at.y < b.yMax
    ensures r.Rests? ==> Supported(cave, r.at)
    ensures r.Rests? ==> r.at == grain || (r.at !in cave && r.at.y > grain.y)
    decreases b.yMax - grain.y
  {
    if grain.y + 1 >= CoordinateBound then Panics
    else
      var below := Point(grain.x, grain.y + 1);
      if below.x < b.xMin || below.x > b.xMax || below.y > b.yMax then Escaped
      else if below !in cave then DropFrom(cave, below, b)
      else if grain.x == 0 then Panics
      else
        var left := Point(grain.x - 1, grain.y + 1);
        if left !in cave then DropFrom(cave, left, b)
        else if grain.x + 1 >= CoordinateBound then Panics
        else
          var right := Point(grain.x + 1, grain.y + 1);
          if right !in cave then DropFrom(cave, right, b)
          else Rests(grain)
  }

  /** The points where a grain can come to rest: inside the x range and
      above the lowest rock. */
  ghost function Box(b: Bounds): (box: set<Point>)
    ensures forall p :: p in box <==> b.xMin <= p.x <= b.xMax && p.y < b.yMax
  {
    set x: Coordinate, y: Coordinate | b.xMin <= x <= b.xMax && y < b.yMax :: Point(x, y)
  }

  /** The points where a grain can still come to rest. */
  ghost function Free(cave: Tiles, b: Bounds): set<Point> {
    Box(b) - cave.Keys
  }

  /** A grain resting on a free point shrinks the room left. */
  lemma FreeShrinks(cave: Tiles, b: Bounds, p: Point, t: Tile)
    requires p !in cave && b.xMin <= p.x <= b.xMax && p.y < b.yMax
    ensures |Free(cave[p := t], b)| < |Free(cave, b)|
  {
    var before, after := Free(cave, b), Free(cave[p := t], b);
    assert (cave[p := t]).Keys == cave.Keys + {p};
    assert p in before && p !in after;
    assert before == after + {p};
  }

  /** What the whole pour gives. */
  datatype Fall =
    | Settled(cave: Tiles)  // `start_sand_fall` returned this cave
    | Panicked              // it panicked
    | Stuck                 // it never returns

  /** Grains from `start`, one after the other, with the extent fixed at
      `b`. A grain that comes to rest on an occupied point can only be one
      that never moved from `start`: the source stores it there and drops
      the next grain, which rests there too, for ever. */
  function Pour(cave: Tiles, start: Point, b: Bounds): Fall
    decreases |Free(cave, b)|
  {
    match DropFrom(cave, start, b)
    case Escaped => Settled(cave)
    case Panics => Panicked
    case Rests(p) =>
      if p in cave then Stuck
      else
        FreeShrinks(cave, b, p, Sand);
        Pour(cave[p := Sand], start, b)
  }

  /** `start_sand_fall`: the pour with the extent of the cave it starts
      from. An empty cave has no extent and the source panics. */
  ghost function SandFall(cave: Tiles, start: Point): Fall {
    if |cave| == 0 then Panicked else Pour(cave, start, CaveBounds(cave))
  }

  /** The inner loop of `start_sand_fall`: one grain. */
  method DropGrain(cave: Tiles, start: Point, b: Bounds) returns (d: Drop)
    ensures d == DropFrom(cave, start, b)
  {
    var grain := start;
    while true
      invariant DropFrom(cave, grain, b) == DropFrom(cave, start, b)
      decreases b.yMax - grain.y
    {
      if grain.y + 1 >= CoordinateBound {
        return Panics;
      }
      var potential := Point(grain.x, grain.y + 1);
      if potential.x < b.xMin || potential.x > b.xMax || potential.y > b.yMax {
        return Escaped;
      }
      if potential !in cave {
        grain := potential;
        continue;
      }
      if grain.x == 0 {
        return Panics;
      }
      potential := Point(grain.x - 1, grain.y + 1);
      if potential !in cave {
        grain := potential;
        continue;
      }
      if grain.x + 1 >= CoordinateBound {
        return Panics;
      }
      potential := Point(grain.x + 1, grain.y + 1);
      if potential !in cave {
        grain := potential;
        continue;
      }
      return Rests(grain);
    }
  }

  /** `start_sand_fall`: the extent is computed once, then grains are
      dropped from `start` and stored as sand where they rest, until one
      falls out of the extent. */
  method StartSandFall(initial: Tiles, start: Point) returns (outcome: Fall)
    ensures outcome == SandFall(initial, start)
  {
    if |initial| == 0 {
      return Panicked;
    }
    var b := GetBounds(initial);
    var cave := initial;
    while true
      invariant Pour(cave, start, b) == SandFall(initial, start)
      decreases |Free(cave, b)|
    {
      var d := DropGrain(cave, start, b);
      match d {
        case Escaped =>
          return Settled(cave);
        case Panics =>
          return Panicked;
        case Rests(p) =>
          if p in cave {
            return Stuck;
          }
          FreeShrinks(cave, b, p, Sand);
          cave := cave[p := Sand];
      }
    }
  }

  // ---------------------------------------------------------------------
  // Counting
  // ---------------------------------------------------------------------

  /** The points holding sand. */
  function SandTiles(cave: Tiles): set<Point> {
    set p | p in cave && cave[p] == Sand
  }

  /** `count_sand`: the number of tiles that are sand. */
  function CountSand(cave: Tiles): (n: nat)
    ensures n <= |cave|
    ensures n == |SandTiles(cave)|
    ensures AllRock(cave) ==> n == 0
  {
    assert SandTiles(cave) + (cave.Keys - SandTiles(cave)) == cave.Keys;
    assert AllRock(cave) ==> SandTiles(cave) == {};
    |SandTiles(cave)|
  }

  /** A grain stored on a free point is one more sand tile. */
  lemma CountSandInsert(cave: Tiles, p: Point)
    requires p !in cave
    ensures CountSand(cave[p := Sand]) == CountSand(cave) + 1
  {
    var before, after := SandTiles(cave), SandTiles(cave[p := Sand]);
    forall q ensures q in after <==> q in before || q == p {
      if q != p {
        assert q in cave[p := Sand] <==> q in cave;
      }
    }
    assert after == before + {p};
    assert p !in before;
  }

  /** A pour that returns never removes or changes a tile. */
  lemma {:induction false} PourKeeps(cave: Tiles, start: Point, b: Bounds)
    requires Pour(cave, start, b).Settled?
    ensures forall p :: p in cave ==> p in Pour(cave, start, b).cave && Pour(cave, start, b).cave[p] == cave[p]
    decreases |Free(cave, b)|
  {
    match DropFrom(cave, start, b)
    case Escaped =>
    case Rests(q) =>
      FreeShrinks(cave, b, q, Sand);
      PourKeeps(cave[q := Sand], start, b);
  }

  /** Every tile a pour that returns adds is sand, inside the extent, and
      rests on three occupied points. */
  lemma {:induction false} PourAdds(cave: Tiles, start: Point, b: Bounds)
    requires Pour(cave, start, b).Settled?
    ensures forall p :: p in Pour(cave, start, b).cave && p !in cave ==>
      Pour(cave, start, b).cave[p] == Sand && p in Box(b) && Supported(Pour(cave, start, b).cave, p)
    decreases |Free(cave, b)|
  {
    match DropFrom(cave, start, b)
    case Escaped =>
    case Rests(q) =>
      var next := cave[q := Sand];
      FreeShrinks(cave, b, q, Sand);
      PourAdds(next, start, b);
      PourKeeps(next, start, b);
      assert q in Box(b);
  }

  /** A pour that returns adds one sand tile per tile it adds. */
  lemma {:induction false} PourCounts(cave: Tiles, start: Point, b: Bounds)
    requires Pour(cave, start, b).Settled?
    ensures CountSand(Pour(cave, start, b).cave) == CountSand(cave) + |Pour(cave, start, b).cave| - |cave|
    decreases |Free(cave, b)|
  {
    match DropFrom(cave, start, b)
    case Escaped =>
    case Rests(q) =>
      FreeShrinks(cave, b, q, Sand);
      PourCounts(cave[q := Sand], start, b);
      CountSandInsert(cave, q);
  }

  /** The answer: the pour over a cave of rock only, sand counted when it
      returns, is the number of grains that came to rest. */
  lemma SandCountIsGrains(cave: Tiles, start: Point)
    requires AllRock(cave) && SandFall(cave, start).Settled?
    ensures cave.Keys <= SandFall(cave, start).cave.Keys
    ensures CountSand(SandFall(cave, start).cave) == |SandFall(cave, start).cave| - |cave|
    ensures SandTiles(SandFall(cave, start).cave) == SandFall(cave, start).cave.Keys - cave.Keys
  {
    var b := CaveBounds(cave);
    PourKeeps(cave, start, b);
    PourAdds(cave, start, b);
    PourCounts(cave, start, b);
    var after := SandFall(cave, start).cave;
    assert SandTiles(after) == after.Keys - cave.Keys;
  }

  // ---------------------------------------------------------------------
  // The example
  // ---------------------------------------------------------------------

  /** The two paths whose rock the parser test lists. */
  function ExamplePaths(): seq<seq<Point>> {
    [[Point(498, 4), Point(498, 6), Point(496, 6)],
     [Point(503, 4), Point(502, 4), Point(502, 9), Point(494, 9)]]
  }

  /** The rock of the first path, wall by wall. */
  function ExampleFirstRock(): set<Point> {
    {Point(498, 4), Point(498, 5), Point(498, 6)} + {Point(497, 6), Point(496, 6)}
  }

  /** The rock of the second path, wall by wall. */
  function ExampleSecondRock(): set<Point> {
    {Point(503, 4), Point(502, 4)} +
    {Point(502, 5), Point(502, 6), Point(502, 7), Point(502, 8), Point(502, 9)} +
    {Point(501, 9), Point(500, 9), Point(499, 9), Point(498, 9), Point(497, 9), Point(496, 9), Point(495, 9), Point(494, 9)}
  }

  /** The rock of a path of three walls is the three walls. */
  lemma ThreeWalls(path: seq<Point>)
    requires |path| == 4 && RockPath(path).Some?
    ensures RockPath(path).value.Keys == RockWall(path[0], path[1]).Keys + RockWall(path[1], path[2]).Keys + RockWall(path[2], path[3]).Keys
  {
    forall p ensures p in RockPath(path).value <==> p in RockWall(path[0], path[1]) || p in RockWall(path[1], path[2]) || p in RockWall(path[2], path[3]) {
      RockPathHas(path, p);
      assert OnSegment(p, path, 0) <==> p in RockWall(path[0], path[1]);
      assert OnSegment(p, path, 1) <==> p in RockWall(path[1], path[2]);
      assert OnSegment(p, path, 2) <==> p in RockWall(path[2], path[3]);
      if p in RockPath(path).value {
        var i :| 0 <= i < 3 && OnSegment(p, path, i);
        assert i == 0 || i == 1 || i == 2;
      }
    }
  }

  /** The rock of a path of two walls is the two walls. */
  lemma TwoWalls(path: seq<Point>)
    requires |path| == 3 && RockPath(path).Some?
    ensures RockPath(path).value.Keys == RockWall(path[0], path[1]).Keys + RockWall(path[1], path[2]).Keys
  {
    forall p ensures p in RockPath(path).value <==> p in RockWall(path[0], path[1]) || p in RockWall(path[1], path[2]) {
      RockPathHas(path, p);
      assert OnSegment(p, path, 0) <==> p in RockWall(path[0], path[1]);
      assert OnSegment(p, path, 1) <==> p in RockWall(path[1], path[2]);
      if p in RockPath(path).value {
        var i :| 0 <= i < 2 && OnSegment(p, path, i);
        assert i == 0 || i == 1;
      }
    }
  }

  lemma ExampleFirstPath()
    ensures RockPath(ExamplePaths()[0]).Some?
    ensures RockPath(ExamplePaths()[0]).value.Keys == ExampleFirstRock()
  {
    var path := ExamplePaths()[0];
    TwoWalls(path);
    ExampleFirstColumn();
    ExampleFirstFloor();
  }

  lemma ExampleFirstColumn()
    ensures RockWall(Point(498, 4), Point(498, 6)).Keys == {Point(498, 4), Point(498, 5), Point(498, 6)}
  {
  }

  lemma ExampleFirstFloor()
    ensures RockWall(Point(498, 6), Point(496, 6)).Keys == {Point(498, 6), Point(497, 6), Point(496, 6)}
  {
  }

  lemma ExampleSecondPath()
    ensures RockPath(ExamplePaths()[1]).Some?
    ensures RockPath(ExamplePaths()[1]).value.Keys == ExampleSecondRock()
  {
    var path := ExamplePaths()[1];
    ThreeWalls(path);
    ExampleSecondLedge();
    ExampleSecondColumn();
    ExampleSecondFloor();
  }

  lemma ExampleSecondLedge()
    ensures RockWall(Point(503, 4), Point(502, 4)).Keys == {Point(503, 4), Point(502, 4)}
  {
  }

  lemma ExampleSecondColumn()
    ensures RockWall(Point(502, 4), Point(502, 9)).Keys ==
      {Point(502, 4), Point(502, 5), Point(502, 6), Point(502, 7), Point(502, 8), Point(502, 9)}
  {
  }

  lemma ExampleSecondFloor()
    ensures RockWall(Point(502, 9), Point(494, 9)).Keys ==
      {Point(502, 9), Point(501, 9), Point(500, 9), Point(499, 9), Point(498, 9), Point(497, 9), Point(496, 9), Point(495, 9), Point(494, 9)}
  {
  }

  /** The cave of two paths is the rock of both, and all of it is rock. */
  lemma TwoPaths(paths: seq<seq<Point>>)
    requires |paths| == 2 && RockPath(paths[0]).Some? && RockPath(paths[1]).Some?
    ensures CaveOf(paths).Some?
    ensures CaveOf(paths).value.Keys == RockPath(paths[0]).value.Keys + RockPath(paths[1]).value.Keys
    ensures AllRock(CaveOf(paths).value)
  {
    var rocks := PathRocks(paths);
    var first, second := rocks[0].value, rocks[1].value;
    assert rocks[..1][..0] == [];
    assert UnionAll(rocks[..1]) == Some(map[] + first);
    assert map[] + first == first;
    assert CaveOf(paths) == Some(first + second);
    forall q | q in first ensures first[q] == Rock {
      RockPathHas(paths[0], q);
    }
    forall q | q in second ensures second[q] == Rock {
      RockPathHas(paths[1], q);
    }
  }

  /** The example cave is rock on exactly the points the parser test
      expects. */
  lemma ExampleCave()
    ensures CaveOf(ExamplePaths()).Some?
    ensures CaveOf(ExamplePaths()).value == map p | p in ExampleFirstRock() + ExampleSecondRock() :: Rock
  {
    ExampleFirstPath();
    ExampleSecondPath();
    TwoPaths(ExamplePaths());
  }

  /** A ledge of three rocks. */
  function LedgeCave(): Tiles {
    map[Point(499, 2) := Rock, Point(500, 2) := Rock, Point(501, 2) := Rock]
  }

  /** Sand poured onto the ledge: the first grain rests on its middle; the
      second rolls off to the left, past the x range fixed before the pour,
      and ends it. */
  lemma LedgePour()
    ensures SandFall(LedgeCave(), Point(500, 0)) == Settled(LedgeCave()[Point(500, 1) := Sand])
  {
    var cave := LedgeCave();
    var b := Bounds(499, 501, 2);
    assert Point(499, 2) in cave && Point(501, 2) in cave;
    assert IsBounds(cave.Keys, b);
    BoundsUnique(cave.Keys, b, CaveBounds(cave));
    assert DropFrom(cave, Point(500, 1), b) == Rests(Point(500, 1));
    assert DropFrom(cave, Point(500, 0), b) == Rests(Point(500, 1));
    var next := cave[Point(500, 1) := Sand];
    assert DropFrom(next, Point(498, 2), b) == Escaped;
    assert DropFrom(next, Point(499, 1), b) == Escaped;
    assert DropFrom(next, Point(500, 0), b) == Escaped;
  }

  /** A ledge right under the start. */
  function LowLedgeCave(): Tiles {
    map[Point(499, 1) := Rock, Point(500, 1) := Rock, Point(501, 1) := Rock]
  }

  /** Once a grain rests on the start itself, every later grain rests
      there too and `start_sand_fall` never returns. */
  lemma LowLedgeNeverEnds()
    ensures SandFall(LowLedgeCave(), Point(500, 0)) == Stuck
  {
    var cave := LowLedgeCave();
    var b := Bounds(499, 501, 1);
    assert Point(499, 1) in cave && Point(501, 1) in cave;
    assert IsBounds(cave.Keys, b);
    BoundsUnique(cave.Keys, b, CaveBounds(cave));
    assert DropFrom(cave, Point(500, 0), b) == Rests(Point(500, 0));
    var next := cave[Point(500, 0) := Sand];
    assert DropFrom(next, Point(500, 0), b) == Rests(Point(500, 0));
  }
}
