/** Day 24: a valley of walls, open ground and blizzards, stored row by row
    in one vector.  A cell holds one blizzard, or an `Overlap` of up to
    four. */
module Day24Valley {
  import opened Common

  /** A Rust `u16`: blizzard ids. */
  type U16 = v: int | 0 <= v < 0x10000

  datatype Direction = Up | Down | Left | Right

  /** The `(u16, Direction)` of one blizzard in an overlap. */
  datatype Slot = Slot(id: U16, dir: Direction)

  datatype Part =
    | Wall
    | ClearGround
    | Blizzard(id: U16, dir: Direction)
    | Overlap(a: Option<Slot>, b: Option<Slot>, c: Option<Slot>, d: Option<Slot>)

  datatype Coordinate = Coordinate(x: nat, y: nat)

  /** Where a cell lives in the vector: `y * width + x`. */
  function IndexOf(c: Coordinate, width: nat): nat {
    c.y * width + c.x
  }

  /** `get_coordinate`: the cell of an index. */
  function GetCoordinate(i: nat, width: nat): (c: Coordinate)
    requires width > 0
    ensures c.x < width
  {
    Coordinate(i % width, i / width)
  }

  /** `get_coordinate` inverts the index, and the index inverts it on cells
      inside a row. */
  lemma CoordinateIndex(i: nat, c: Coordinate, width: nat)
    requires width > 0
    ensures IndexOf(GetCoordinate(i, width), width) == i && GetCoordinate(i, width).x < width
    ensures c.x < width ==> GetCoordinate(IndexOf(c, width), width) == c
  {
    if c.x < width {
      DivModUnique(IndexOf(c, width), width, c.y, c.x);
    }
  }

  /** A cell of the grid has its index inside a vector of `width * height`
      cells. */
  lemma IndexInGrid(c: Coordinate, width: nat, height: nat)
    requires c.x < width && c.y < height
    ensures IndexOf(c, width) < width * height
  {
    MulDistributes(c.y, 1, width);
    MulDistributes(c.y + 1, height - c.y - 1, width);
    assert (height - c.y - 1) * width >= 0;
  }

  // ---------------------------------------------------------------------
  // `remove_part`

  /** The blizzards of an overlap, in slot order. */
  function Slots(p: Part): seq<Slot> {
    if p.Overlap? then Present(p.a) + (Present(p.b) + (Present(p.c) + Present(p.d))) else []
  }

  function Present(s: Option<Slot>): seq<Slot> {
    if s.Some? then [s.value] else []
  }

  /** The list without the first occurrence of `x`. */
  function RemoveFirst(s: seq<Slot>, x: Slot): (r: seq<Slot>)
    ensures x in s ==> |r| == |s| - 1
    ensures x !in s ==> r == s
  {
    if s == [] then [] else if s[0] == x then s[1..] else [s[0]] + RemoveFirst(s[1..], x)
  }

  /** The first slot holding `x` emptied. */
  function Cleared(p: Part, x: Slot): Part
    requires p.Overlap?
  {
    var s := Some(x);
    if s == p.a then p.(a := None)
    else if s == p.b then p.(b := None)
    else if s == p.c then p.(c := None)
    else if s == p.d then p.(d := None)
    else p
  }

  /** An overlap with no blizzards left is open ground. */
  function Emptied(p: Part): Part {
    if p.Overlap? && p.a.None? && p.b.None? && p.c.None? && p.d.None? then ClearGround else p
  }

  /** What `remove_part` leaves in a cell holding `p0`. */
  function Removed(p0: Part, part: Part): Part {
    if p0.Overlap? && part.Blizzard? then Emptied(Cleared(p0, Slot(part.id, part.dir)))
    else if p0 == part then ClearGround
    else p0
  }

  /** A cell holding exactly the part is cleared; an overlap loses the first
      slot holding the blizzard, and becomes open ground once no slot is
      left; any other cell is untouched. */
  lemma RemovedMeaning(p0: Part, part: Part)
    ensures p0 == part ==> Removed(p0, part) == ClearGround
    ensures p0 != part && !(p0.Overlap? && part.Blizzard?) ==> Removed(p0, part) == p0
    ensures p0.Overlap? && part.Blizzard? ==>
      var r := Removed(p0, part);
      && (r.Overlap? || r == ClearGround)
      && Slots(r) == RemoveFirst(Slots(p0), Slot(part.id, part.dir))
      && (r == ClearGround <==> Slots(r) == [])
  {
    if p0.Overlap? && part.Blizzard? {
      var x := Slot(part.id, part.dir);
      ClearedSlots(p0, x);
      EmptiedSlots(Cleared(p0, x));
    }
  }

  /** Emptying the first slot holding `x` removes the first `x` of the slots. */
  lemma ClearedSlots(p: Part, x: Slot)
    requires p.Overlap?
    ensures Cleared(p, x).Overlap? && Slots(Cleared(p, x)) == RemoveFirst(Slots(p), x)
  {
    var a, b, c, d := Present(p.a), Present(p.b), Present(p.c), Present(p.d);
    PresentFirst(p.a, b + (c + d), x);
    if p.a != Some(x) {
      PresentFirst(p.b, c + d, x);
      if p.b != Some(x) {
        PresentFirst(p.c, d, x);
        if p.c != Some(x) {
          PresentFirst(p.d, [], x);
          assert d + [] == d;
        }
      }
    }
  }

  /** An overlap becomes open ground exactly when no slot is left. */
  lemma EmptiedSlots(p: Part)
    requires p.Overlap?
    ensures Slots(Emptied(p)) == Slots(p)
    ensures Emptied(p).Overlap? || Emptied(p) == ClearGround
    ensures Emptied(p) == ClearGround <==> Slots(p) == []
  {
    if p.a.Some? {
      assert Slots(p)[0] == p.a.value;
    } else if p.b.Some? {
      assert Slots(p)[0] == p.b.value;
    } else if p.c.Some? {
      assert Slots(p)[0] == p.c.value;
    } else if p.d.Some? {
      assert Slots(p)[0] == p.d.value;
    }
  }

  /** Removing from a list that starts with at most one slot. */
  lemma PresentFirst(o: Option<Slot>, t: seq<Slot>, x: Slot)
    ensures RemoveFirst(Present(o) + t, x) == if o == Some(x) then t else Present(o) + RemoveFirst(t, x)
  {
    if o.Some? {
      assert (Present(o) + t)[0] == o.value && (Present(o) + t)[1..] == t;
    } else {
      assert Present(o) + t == t;
    }
  }

  // ---------------------------------------------------------------------
  // The cells, as values

  /** `set_part` on the vector. */
  function SetAt(data: seq<Part>, width: nat, c: Coordinate, p: Part): (r: seq<Part>)
    requires IndexOf(c, width) < |data|
    ensures |r| == |data|
  {
    data[IndexOf(c, width) := p]
  }

  /** `remove_part` on the vector. */
  function RemoveAt(data: seq<Part>, width: nat, c: Coordinate, part: Part): (r: seq<Part>)
    requires IndexOf(c, width) < |data|
    ensures |r| == |data|
  {
    data[IndexOf(c, width) := Removed(data[IndexOf(c, width)], part)]
  }

  // ---------------------------------------------------------------------
  // `get_blizzards`

  /** The single blizzards of the first `n` cells, in order, with their cells. */
  function Singles(data: seq<Part>, width: nat, n: nat): seq<(Part, Coordinate)>
    requires width > 0 && n <= |data|
  {
    if n == 0 then []
    else Singles(data, width, n - 1) + (if data[n - 1].Blizzard? then [(data[n - 1], GetCoordinate(n - 1, width))] else [])
  }

  /** The blizzards of one overlap, as single blizzards at its cell. */
  function SlotsAt(s: seq<Slot>, c: Coordinate): (r: seq<(Part, Coordinate)>)
    ensures |r| == |s|
  {
    if s == [] then [] else [(Blizzard(s[0].id, s[0].dir), c)] + SlotsAt(s[1..], c)
  }

  /** The entries of one overlap are exactly its slots, at its cell. */
  lemma {:induction false} SlotsAtMeaning(s: seq<Slot>, c: Coordinate, b: Part, c': Coordinate)
    ensures (b, c') in SlotsAt(s, c) <==> c' == c && b.Blizzard? && Slot(b.id, b.dir) in s
  {
    if s != [] {
      SlotsAtMeaning(s[1..], c, b, c');
      assert s == [s[0]] + s[1..];
    }
  }

  /** The blizzards of the overlaps among the first `n` cells, in order. */
  function Overlapping(data: seq<Part>, width: nat, n: nat): seq<(Part, Coordinate)>
    requires width > 0 && n <= |data|
  {
    if n == 0 then [] else Overlapping(data, width, n - 1) + SlotsAt(Slots(data[n - 1]), GetCoordinate(n - 1, width))
  }

  /** `get_blizzards`: the single blizzards, then those of the overlaps. */
  function Blizzards(data: seq<Part>, width: nat): seq<(Part, Coordinate)>
    requires width > 0
  {
    Singles(data, width, |data|) + Overlapping(data, width, |data|)
  }

  /** A blizzard held at cell `i`, alone or in an overlap. */
  predicate HeldAt(data: seq<Part>, i: nat, b: Part)
    requires i < |data|
  {
    b.Blizzard? && (data[i] == b || Slot(b.id, b.dir) in Slots(data[i]))
  }

  /** Everything `get_blizzards` lists is a blizzard held at its cell, and
      every held blizzard is listed. */
  lemma BlizzardsMeaning(data: seq<Part>, width: nat, b: Part, c: Coordinate)
    requires width > 0
    ensures (b, c) in Blizzards(data, width) <==>
      c.x < width && IndexOf(c, width) < |data| && HeldAt(data, IndexOf(c, width), b)
  {
    SinglesMeaning(data, width, |data|, b, c);
    OverlappingMeaning(data, width, |data|, b, c);
  }

  lemma {:induction false} SinglesMeaning(data: seq<Part>, width: nat, n: nat, b: Part, c: Coordinate)
    requires width > 0 && n <= |data|
    ensures (b, c) in Singles(data, width, n) <==>
      c.x < width && IndexOf(c, width) < n && b.Blizzard? && data[IndexOf(c, width)] == b
  {
    if n > 0 {
      SinglesMeaning(data, width, n - 1, b, c);
      CoordinateIndex(n - 1, c, width);
    }
  }

  lemma OverlappingMeaning(data: seq<Part>, width: nat, n: nat, b: Part, c: Coordinate)
    requires width > 0 && n <= |data|
    ensures (b, c) in Overlapping(data, width, n) <==>
      c.x < width && IndexOf(c, width) < n && b.Blizzard? && Slot(b.id, b.dir) in Slots(data[IndexOf(c, width)])
  {
    if (b, c) in Overlapping(data, width, n) {
      var i := ListedOverlap(data, width, n, b, c);
      AtIndex(i, c, width);
    }
    if c.x < width && IndexOf(c, width) < n && b.Blizzard? && Slot(b.id, b.dir) in Slots(data[IndexOf(c, width)]) {
      var i := IndexOf(c, width);
      AtIndex(i, c, width);
      OverlapListed(data, width, n, i, b);
    }
  }

  /** Entry `i` of the vector is an overlap holding the slot of `b`. */
  predicate OverlapHolds(data: seq<Part>, i: nat, b: Part)
    requires i < |data|
  {
    b.Blizzard? && Slot(b.id, b.dir) in Slots(data[i])
  }

  /** Every overlap slot before `n` is listed at its index's cell. */
  lemma {:induction false} OverlapListed(data: seq<Part>, width: nat, n: nat, i: nat, b: Part)
    requires width > 0 && i < n <= |data| && OverlapHolds(data, i, b)
    ensures (b, GetCoordinate(i, width)) in Overlapping(data, width, n)
    decreases n
  {
    var c0 := GetCoordinate(n - 1, width);
    assert Overlapping(data, width, n) == Overlapping(data, width, n - 1) + SlotsAt(Slots(data[n - 1]), c0);
    if i == n - 1 {
      SlotsAtMeaning(Slots(data[n - 1]), c0, b, c0);
    } else {
      OverlapListed(data, width, n - 1, i, b);
    }
  }

  /** Every listed overlap entry comes from an overlap slot at its index's
      cell. */
  lemma {:induction false} ListedOverlap(data: seq<Part>, width: nat, n: nat, b: Part, c: Coordinate) returns (i: nat)
    requires width > 0 && n <= |data| && (b, c) in Overlapping(data, width, n)
    ensures i < n && c == GetCoordinate(i, width) && OverlapHolds(data, i, b)
    decreases n
  {
    var c0 := GetCoordinate(n - 1, width);
    var before, at := Overlapping(data, width, n - 1), SlotsAt(Slots(data[n - 1]), c0);
    assert Overlapping(data, width, n) == before + at;
    if (b, c) in before {
      i := ListedOverlap(data, width, n - 1, b, c);
    } else {
      SlotsAtMeaning(Slots(data[n - 1]), c0, b, c);
      i := n - 1;
    }
  }

  /** A cell inside a row has index `i` exactly when it is the cell of `i`. */
  lemma AtIndex(i: nat, c: Coordinate, width: nat)
    requires width > 0
    ensures (c.x < width && IndexOf(c, width) == i) <==> c == GetCoordinate(i, width)
  {
    CoordinateIndex(i, c, width);
  }

  /** Every listed entry is a blizzard at a cell of the vector. */
  lemma BlizzardsInside(data: seq<Part>, width: nat, k: nat)
    requires width > 0 && k < |Blizzards(data, width)|
    ensures var (b, c) := Blizzards(data, width)[k];
      b.Blizzard? && IndexOf(c, width) < |data| && c.x < width
  {
    var (b, c) := Blizzards(data, width)[k];
    BlizzardsMeaning(data, width, b, c);
  }

  // ---------------------------------------------------------------------
  // `set_blizzards`

  /** A blizzard, where it was and where it goes. */
  datatype Move = Move(part: Part, from: Coordinate, to: Coordinate)

  /** One blizzard arriving at a cell, and the cell it left. */
  datatype Arrival = Arrival(part: Part, from: Coordinate)

  /** The `HashMap` the first loop builds: for every destination, the
      blizzards that arrive there, in the order of the list. */
  function Grouped(moves: seq<Move>): map<Coordinate, seq<Arrival>> {
    if moves == [] then map[]
    else
      var g := Grouped(moves[..|moves| - 1]);
      var m := moves[|moves| - 1];
      g[m.to := (if m.to in g then g[m.to] else []) + [Arrival(m.part, m.from)]]
  }

  /** The blizzards arriving at `k`, in the order of the list. */
  function ArrivalsAt(moves: seq<Move>, k: Coordinate): seq<Arrival> {
    if moves == [] then []
    else
      var m := moves[|moves| - 1];
      ArrivalsAt(moves[..|moves| - 1], k) + (if m.to == k then [Arrival(m.part, m.from)] else [])
  }

  /** The destinations, in the order they first appear; this is the order in
      which the model visits the map. */
  function Keys(moves: seq<Move>): seq<Coordinate> {
    if moves == [] then []
    else
      var ks := Keys(moves[..|moves| - 1]);
      var k := moves[|moves| - 1].to;
      if k in ks then ks else ks + [k]
  }

  /** The map holds one entry per destination, listing exactly the
      blizzards that arrive there, in order; the keys are those
      destinations, each once. */
  lemma {:induction false} GroupedMeaning(moves: seq<Move>)
    ensures forall k :: k in Grouped(moves) <==> k in Keys(moves)
    ensures forall k :: k in Keys(moves) <==> exists i :: 0 <= i < |moves| && moves[i].to == k
    ensures forall k :: k in Grouped(moves) ==> Grouped(moves)[k] == ArrivalsAt(moves, k) && Grouped(moves)[k] != []
    ensures forall i, j :: 0 <= i < j < |Keys(moves)| ==> Keys(moves)[i] != Keys(moves)[j]
  {
    if moves != [] {
      var init := moves[..|moves| - 1];
      GroupedMeaning(init);
      forall k ensures k in Keys(moves) <==> exists i :: 0 <= i < |moves| && moves[i].to == k {
        if k in Keys(init) {
          var i :| 0 <= i < |init| && init[i].to == k;
          assert moves[i] == init[i];
        }
        if k !in Keys(init) && k != moves[|moves| - 1].to {
          forall i | 0 <= i < |moves| ensures moves[i].to != k {
            if i < |init| {
              assert moves[i] == init[i];
            }
          }
        }
      }
      forall k | k in Grouped(moves) ensures Grouped(moves)[k] == ArrivalsAt(moves, k) {
        if k !in Grouped(init) {
          ArrivalsAbsent(init, k);
        }
      }
    }
  }

  /** No move to `k`, no arrivals at `k`. */
  lemma {:induction false} ArrivalsAbsent(moves: seq<Move>, k: Coordinate)
    requires k !in Grouped(moves)
    ensures ArrivalsAt(moves, k) == []
  {
    if moves != [] {
      ArrivalsAbsent(moves[..|moves| - 1], k);
    }
  }

  /** Every cell named by a move lies in the vector. */
  predicate MovesInside(moves: seq<Move>, width: nat, size: nat) {
    forall i :: 0 <= i < |moves| ==> IndexOf(moves[i].from, width) < size && IndexOf(moves[i].to, width) < size
  }

  /** Every arrival's cell of origin lies in the vector. */
  predicate ArrivalsInside(arrivals: seq<Arrival>, width: nat, size: nat) {
    forall i :: 0 <= i < |arrivals| ==> IndexOf(arrivals[i].from, width) < size
  }

  /** Every arriving part is a blizzard. */
  predicate AllBlizzards(arrivals: seq<Arrival>) {
    forall i :: 0 <= i < |arrivals| ==> arrivals[i].part.Blizzard?
  }

  /** The slot of the `i`-th arrival, if there is one (`parts.get(i)`). */
  function SlotOf(arrivals: seq<Arrival>, i: nat): (r: Option<Slot>)
    requires AllBlizzards(arrivals)
    ensures r.Some? <==> i < |arrivals|
  {
    if i < |arrivals| then Some(Slot(arrivals[i].part.id, arrivals[i].part.dir)) else None
  }

  /** The overlap of several arrivals: the first four, in order. */
  function OverlapOf(arrivals: seq<Arrival>): Part
    requires AllBlizzards(arrivals)
  {
    Overlap(SlotOf(arrivals, 0), SlotOf(arrivals, 1), SlotOf(arrivals, 2), SlotOf(arrivals, 3))
  }

  /** `remove_part` at every arrival's cell of origin, in order. */
  function RemoveEach(data: seq<Part>, width: nat, arrivals: seq<Arrival>): (r: seq<Part>)
    requires ArrivalsInside(arrivals, width, |data|)
    ensures |r| == |data|
  {
    if arrivals == [] then data
    else
      var a := arrivals[|arrivals| - 1];
      RemoveAt(RemoveEach(data, width, arrivals[..|arrivals| - 1]), width, a.from, a.part)
  }

  /** One entry of the map: a single arrival is moved across, several make
      an overlap; then each leaves its old cell. */
  function ApplyGroup(data: seq<Part>, width: nat, k: Coordinate, arrivals: seq<Arrival>): (r: seq<Part>)
    requires IndexOf(k, width) < |data| && ArrivalsInside(arrivals, width, |data|) && AllBlizzards(arrivals)
    ensures |r| == |data|
  {
    if |arrivals| == 1 then
      RemoveAt(SetAt(data, width, k, arrivals[0].part), width, arrivals[0].from, arrivals[0].part)
    else
      RemoveEach(SetAt(data, width, k, OverlapOf(arrivals)), width, arrivals)
  }

  /** Every entry whose key is listed, in that order. */
  function ApplyGroups(data: seq<Part>, width: nat, g: map<Coordinate, seq<Arrival>>, keys: seq<Coordinate>): (r: seq<Part>)
    requires GroupsInside(g, keys, width, |data|)
    ensures |r| == |data|
  {
    if keys == [] then data
    else
      var k := keys[|keys| - 1];
      ApplyGroup(ApplyGroups(data, width, g, keys[..|keys| - 1]), width, k, g[k])
  }

  /** Every listed key is in the map, and every cell it names is in the
      vector. */
  predicate GroupsInside(g: map<Coordinate, seq<Arrival>>, keys: seq<Coordinate>, width: nat, size: nat) {
    forall i :: 0 <= i < |keys| ==>
      keys[i] in g && IndexOf(keys[i], width) < size && ArrivalsInside(g[keys[i]], width, size) && AllBlizzards(g[keys[i]])
  }

  /** The map of a list of blizzard moves inside the vector meets that. */
  lemma GroupsOfMoves(moves: seq<Move>, width: nat, size: nat)
    requires MovesInside(moves, width, size)
    requires forall i :: 0 <= i < |moves| ==> moves[i].part.Blizzard?
    ensures GroupsInside(Grouped(moves), Keys(moves), width, size)
  {
    GroupedMeaning(moves);
    var keys := Keys(moves);
    forall i | 0 <= i < |keys|
      ensures keys[i] in Grouped(moves) && IndexOf(keys[i], width) < size
      ensures ArrivalsInside(Grouped(moves)[keys[i]], width, size) && AllBlizzards(Grouped(moves)[keys[i]])
    {
      var k := keys[i];
      assert k in keys;
      var arrivals := Grouped(moves)[k];
      ArrivalsFrom(moves, k);
      forall j | 0 <= j < |arrivals|
        ensures IndexOf(arrivals[j].from, width) < size && arrivals[j].part.Blizzard?
      {
        assert arrivals[j] in ArrivalsAt(moves, k);
      }
    }
  }

  lemma {:induction false} ArrivalsFrom(moves: seq<Move>, k: Coordinate)
    ensures forall a :: a in ArrivalsAt(moves, k) ==> exists i :: 0 <= i < |moves| && moves[i] == Move(a.part, a.from, k)
  {
    if moves != [] {
      var init := moves[..|moves| - 1];
      ArrivalsFrom(init, k);
      forall a | a in ArrivalsAt(moves, k) ensures exists i :: 0 <= i < |moves| && moves[i] == Move(a.part, a.from, k) {
        if a in ArrivalsAt(init, k) {
          var i :| 0 <= i < |init| && init[i] == Move(a.part, a.from, k);
          assert moves[i] == init[i];
        } else {
          assert moves[|moves| - 1] == Move(a.part, a.from, k);
        }
      }
    }
  }

  // ---------------------------------------------------------------------
  // The valley

  /** The first loop of `set_blizzards`: the moves grouped by destination,
      and the destinations in the order they first appear. */
  method GroupMoves(moves: seq<Move>) returns (g: map<Coordinate, seq<Arrival>>, keys: seq<Coordinate>)
    ensures g == Grouped(moves) && keys == Keys(moves)
  {
    g := map[];
    keys := [];
    var i := 0;
    while i < |moves|
      invariant 0 <= i <= |moves|
      invariant g == Grouped(moves[..i]) && keys == Keys(moves[..i])
    {
      var m := moves[i];
      assert moves[..i + 1][..i] == moves[..i] && moves[..i + 1][i] == m;
      if m.to in g {
        g := g[m.to := g[m.to] + [Arrival(m.part, m.from)]];
      } else {
        assert [] + [Arrival(m.part, m.from)] == [Arrival(m.part, m.from)];
        g := g[m.to := [Arrival(m.part, m.from)]];
      }
      if m.to !in keys {
        keys := keys + [m.to];
      }
      i := i + 1;
    }
    assert moves[..i] == moves;
  }

  /** `Valley`: the cells row by row, and the grid's size. */
  class Valley {
    var data: seq<Part>
    var width: nat
    var height: nat

    constructor(data: seq<Part>, width: nat, height: nat)
      requires width > 0
      ensures this.data == data && this.width == width && this.height == height
      ensures Valid()
    {
      this.data := data;
      this.width := width;
      this.height := height;
    }

    /** Rows are never empty: `from_str` drops empty lines, so the first
        row, whose length is the width, has a cell. */
    predicate Valid()
      reads this
    {
      width > 0
    }

    /** `get_part`. */
    function GetPart(c: Coordinate): (r: Part)
      reads this
      requires IndexOf(c, width) < |data|
    {
      data[IndexOf(c, width)]
    }

    /** `set_part`: the one cell now holds `part`. */
    method SetPart(c: Coordinate, part: Part)
      modifies this
      requires IndexOf(c, width) < |data|
      ensures data == SetAt(old(data), old(width), c, part)
      ensures width == old(width) && height == old(height)
      ensures GetPart(c) == part
    {
      data := data[IndexOf(c, width) := part];
    }

    /** `remove_part`. */
    method RemovePart(position: Coordinate, part: Part)
      modifies this
      requires IndexOf(position, width) < |data|
      ensures data == RemoveAt(old(data), old(width), position, part)
      ensures width == old(width) && height == old(height)
    {
      var partAtPosition := GetPart(position);
      if partAtPosition == part {
        SetPart(position, ClearGround);
      }
      if partAtPosition.Overlap? && part.Blizzard? {
        var x := Some(Slot(part.id, part.dir));
        var a, b, c, d := partAtPosition.a, partAtPosition.b, partAtPosition.c, partAtPosition.d;
        var newPart :=
          if x == a then Overlap(None, b, c, d)
          else if x == b then Overlap(a, None, c, d)
          else if x == c then Overlap(a, b, None, d)
          else if x == d then Overlap(a, b, c, None)
          else Overlap(a, b, c, d);
        if newPart.a.None? && newPart.b.None? && newPart.c.None? && newPart.d.None? {
          newPart := ClearGround;
        }
        SetPart(position, newPart);
      }
    }

    /** `set_blizzards`: group the moves by destination, then apply each
        group, destinations in the order they first appear. */
    method SetBlizzards(moves: seq<Move>)
      modifies this
      requires MovesInside(moves, width, |data|)
      requires forall i :: 0 <= i < |moves| ==> moves[i].part.Blizzard?
      ensures GroupsInside(Grouped(moves), Keys(moves), old(width), |old(data)|)
      ensures data == ApplyGroups(old(data), old(width), Grouped(moves), Keys(moves))
      ensures width == old(width) && height == old(height)
    {
      var map_, keys := GroupMoves(moves);
      GroupsOfMoves(moves, width, |data|);
      ghost var start := data;
      var j := 0;
      while j < |keys|
        invariant 0 <= j <= |keys| && |data| == |start|
        invariant width == old(width) && height == old(height)
        invariant data == ApplyGroups(start, width, map_, keys[..j])
      {
        assert keys[..j + 1][..j] == keys[..j];
        ApplyOne(keys[j], map_[keys[j]]);
        j := j + 1;
      }
      assert keys[..j] == keys;
    }

    /** One entry of the map. */
    method ApplyOne(newPosition: Coordinate, parts: seq<Arrival>)
      modifies this
      requires IndexOf(newPosition, width) < |data| && ArrivalsInside(parts, width, |data|) && AllBlizzards(parts)
      ensures data == ApplyGroup(old(data), old(width), newPosition, parts)
      ensures width == old(width) && height == old(height)
    {
      if |parts| == 1 {
        var (part, oldPosition) := (parts[0].part, parts[0].from);
        SetPart(newPosition, part);
        RemovePart(oldPosition, part);
      } else {
        var part := Overlap(SlotOf(parts, 0), SlotOf(parts, 1), SlotOf(parts, 2), SlotOf(parts, 3));
        SetPart(newPosition, part);
        ghost var set_ := data;
        var k := 0;
        while k < |parts|
          invariant 0 <= k <= |parts| && |data| == |set_|
          invariant width == old(width) && height == old(height)
          invariant data == RemoveEach(set_, width, parts[..k])
        {
          assert parts[..k + 1][..k] == parts[..k];
          RemovePart(parts[k].from, parts[k].part);
          k := k + 1;
        }
        assert parts[..k] == parts;
      }
    }
  }
}
