/** Day 18: a lava droplet made of unit cubes.  `Point` is a cube's position
    with `u8` coordinates, ordered lexicographically and read from "x,y,z". */
module Day18Point {
  import opened Common

  /** `Ordinate`, a Rust `u8`. */
  type Ordinate = v: int | 0 <= v < 0x100

  datatype Point = Point(x: Ordinate, y: Ordinate, z: Ordinate)

  /** `Ord::cmp`: by x, then y, then z. */
  function Cmp(a: Point, b: Point): (o: Ordering)
    ensures o == Equal <==> a == b
    ensures o == Less <==>
      a.x < b.x || (a.x == b.x && a.y < b.y) || (a.x == b.x && a.y == b.y && a.z < b.z)
  {
    CompareInt(a.x, b.x).Then(CompareInt(a.y, b.y)).Then(CompareInt(a.z, b.z))
  }

  /** `PartialOrd::partial_cmp`, always defined. */
  function PartialCmp(a: Point, b: Point): (r: Option<Ordering>)
    ensures r == Some(Cmp(a, b))
  {
    Some(Cmp(a, b))
  }

  /** `a < b` under that order. */
  predicate Below(a: Point, b: Point) {
    Cmp(a, b) == Less
  }

  /** The order is lexicographic, and `Equal` exactly on equal points. */
  lemma CmpMeaning(a: Point, b: Point)
    ensures Cmp(a, b) == Equal <==> a == b
    ensures Below(a, b) <==>
      a.x < b.x || (a.x == b.x && a.y < b.y) || (a.x == b.x && a.y == b.y && a.z < b.z)
    ensures Cmp(b, a) == Cmp(a, b).Reverse()
  {
  }

  /** The order is transitive, so it is a total order on points. */
  lemma BelowTransitive(a: Point, b: Point, c: Point)
    requires Below(a, b) && Below(b, c)
    ensures Below(a, c)
  {
  }

  /** `ParseIntError` (its kind is not modelled). */
  datatype ParseIntError = ParseIntError

  /** One coordinate: `parse::<u8>()`. */
  function ParseOrdinate(s: string): (r: Result<Ordinate, ParseIntError>)
    ensures r.Ok? <==> ParseUnsigned(s, 0x100).Some?
    ensures r.Ok? ==> r.value == ParseUnsigned(s, 0x100).value
  {
    match ParseUnsigned(s, 0x100)
    case Some(v) => Ok(v)
    case None => Err(ParseIntError)
  }

  /** `from_str`: the first three comma-separated pieces as `u8`s, in order;
      the first that does not parse is the error.  `None` is the panic of
      `split.next().unwrap()` when a piece is missing; pieces after the
      third are ignored. */
  function FromStr(s: string): (r: Option<Result<Point, ParseIntError>>)
    ensures r.None? ==> |Split(s, ',')| < 3
    ensures r.Some? && r.value.Ok? ==>
      && |Split(s, ',')| >= 3
      && ParseOrdinate(Split(s, ',')[0]) == Ok(r.value.value.x)
      && ParseOrdinate(Split(s, ',')[1]) == Ok(r.value.value.y)
      && ParseOrdinate(Split(s, ',')[2]) == Ok(r.value.value.z)
    ensures r.Some? && r.value.Ok? <==>
      |Split(s, ',')| >= 3 && ParseOrdinate(Split(s, ',')[0]).Ok? &&
      ParseOrdinate(Split(s, ',')[1]).Ok? && ParseOrdinate(Split(s, ',')[2]).Ok?
  {
    var pieces := Split(s, ',');
    match ParseOrdinate(pieces[0])
    case Err(e) => Some(Err(e))
    case Ok(x) =>
      if |pieces| < 2 then None
      else
        match ParseOrdinate(pieces[1])
        case Err(e) => Some(Err(e))
        case Ok(y) =>
          if |pieces| < 3 then None
          else
            match ParseOrdinate(pieces[2])
            case Err(e) => Some(Err(e))
            case Ok(z) => Some(Ok(Point(x, y, z)))
  }

  /** The text of a point, as the puzzle input writes it. */
  function ToStr(p: Point): string {
    Join([NatToString(p.x), NatToString(p.y), NatToString(p.z)], ',')
  }

  /** Reading a written point gives it back. */
  lemma FromStrToStr(p: Point)
    ensures FromStr(ToStr(p)) == Some(Ok(p))
  {
    var pieces := [NatToString(p.x), NatToString(p.y), NatToString(p.z)];
    forall i, j | 0 <= i < |pieces| && 0 <= j < |pieces[i]| ensures pieces[i][j] != ',' {
      assert IsDigit(pieces[i][j]);
    }
    SplitJoin(pieces, ',');
    assert NatToString(p.x)[0] != '+' && NatToString(p.y)[0] != '+' && NatToString(p.z)[0] != '+' by {
      assert IsDigit(NatToString(p.x)[0]) && IsDigit(NatToString(p.y)[0]) && IsDigit(NatToString(p.z)[0]);
    }
  }

  /** A piece that is not a number is an error, whichever it is. */
  lemma NonNumericIsError(a: string, b: string, c: string)
    requires forall j :: 0 <= j < |a| ==> a[j] != ','
    requires forall j :: 0 <= j < |b| ==> b[j] != ','
    requires forall j :: 0 <= j < |c| ==> c[j] != ','
    requires ParseUnsigned(a, 0x100).None? || ParseUnsigned(b, 0x100).None? || ParseUnsigned(c, 0x100).None?
    ensures FromStr(Join([a, b, c], ',')) == Some(Err(ParseIntError))
  {
    SplitJoin([a, b, c], ',');
  }

  /** Fewer than three pieces, all numbers, is the panic. */
  lemma MissingPieceIsPanic(a: string, b: string)
    requires forall j :: 0 <= j < |a| ==> a[j] != ','
    requires forall j :: 0 <= j < |b| ==> b[j] != ','
    requires ParseUnsigned(a, 0x100).Some? && ParseUnsigned(b, 0x100).Some?
    ensures FromStr(a).None? && FromStr(Join([a, b], ',')).None?
  {
    SplitNoSeparator(a, ',');
    SplitJoin([a, b], ',');
  }
}
