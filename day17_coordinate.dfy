/** Cells of the day 17 chamber and their ordering: row (`y`) first, then
    column (`x`). The source's `Ordinate` is `u16`; here ordinates are `nat`. */
module Day17Coordinate {
  import opened Common

  datatype Coordinate = Coordinate(x: nat, y: nat)

  /** `PartialOrd::partial_cmp`: compare `y`, and only on a tie compare `x`. */
  function PartialCmp(a: Coordinate, b: Coordinate): (o: Option<Ordering>)
    ensures o.Some?
    ensures o.value == Less <==> a.y < b.y || (a.y == b.y && a.x < b.x)
    ensures o.value == Greater <==> a.y > b.y || (a.y == b.y && a.x > b.x)
  {
    var ordering := CompareInt(a.y, b.y);
    Some(if ordering == Equal then CompareInt(a.x, b.x) else ordering)
  }

  /** `Ord::cmp` unwraps `partial_cmp`. */
  function Cmp(a: Coordinate, b: Coordinate): (o: Ordering)
    ensures o == Equal <==> a == b
    ensures Some(o) == PartialCmp(a, b)
  {
    PartialCmp(a, b).value
  }

  /** Swapping the operands reverses the outcome (antisymmetry). */
  lemma CmpAntisymmetric(a: Coordinate, b: Coordinate)
    ensures Cmp(b, a) == Cmp(a, b).Reverse()
  {
  }

  /** `Less` is transitive, so `cmp` is a strict total order. */
  lemma CmpTransitive(a: Coordinate, b: Coordinate, c: Coordinate)
    requires Cmp(a, b) == Less && Cmp(b, c) == Less
    ensures Cmp(a, c) == Less
  {
  }
}
