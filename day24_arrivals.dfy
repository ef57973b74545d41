/** Day 24: what `set_blizzards` leaves at the cells the blizzards move to. */
module Day24Arrivals {
  import opened Common
  import opened Day24Valley

  /** What a cell holds once the arrivals are set there: the blizzard, or
      an overlap of them. */
  function GroupValue(arrivals: seq<Arrival>): Part
    requires AllBlizzards(arrivals)
  {
    if |arrivals| == 1 then arrivals[0].part else OverlapOf(arrivals)
  }

  /** Two cells inside a row have the same index only if they are the same. */
  lemma IndexInjective(c1: Coordinate, c2: Coordinate, width: nat)
    requires width > 0 && c1.x < width && c2.x < width && IndexOf(c1, width) == IndexOf(c2, width)
    ensures c1 == c2
  {
    CoordinateIndex(IndexOf(c1, width), c1, width);
    CoordinateIndex(IndexOf(c2, width), c2, width);
  }

  /** The blizzards of a list, moved by different moves, are different; none
      stays where it is; and the cells are inside a row. */
  predicate Separate(moves: seq<Move>, width: nat) {
    && (forall i, j :: 0 <= i < j < |moves| ==> moves[i].part != moves[j].part)
    && (forall i :: 0 <= i < |moves| ==> moves[i].from != moves[i].to)
    && (forall i :: 0 <= i < |moves| ==> moves[i].from.x < width && moves[i].to.x < width)
  }

  /** The same, stated of the map: no arrival comes from its own key, and
      no blizzard arriving at one key arrives at another. */
  predicate SeparateGroups(g: map<Coordinate, seq<Arrival>>, keys: seq<Coordinate>, width: nat) {
    && (forall i :: 0 <= i < |keys| ==> keys[i].x < width && keys[i] in g && g[keys[i]] != [])
    && (forall i, j :: 0 <= i < j < |keys| ==> keys[i] != keys[j])
    && (forall i, a :: 0 <= i < |keys| && keys[i] in g && 0 <= a < |g[keys[i]]| ==>
          g[keys[i]][a].from != keys[i] && g[keys[i]][a].from.x < width)
    && (forall i, j, a, b ::
          (0 <= i < |keys| && 0 <= j < |keys| && i != j && keys[i] in g && keys[j] in g &&
           0 <= a < |g[keys[i]]| && 0 <= b < |g[keys[j]]|) ==> g[keys[i]][a].part != g[keys[j]][b].part)
  }

  lemma GroupsSeparate(moves: seq<Move>, width: nat)
    requires Separate(moves, width)
    ensures SeparateGroups(Grouped(moves), Keys(moves), width)
  {
    GroupedMeaning(moves);
    var g: map<Coordinate, seq<Arrival>> := Grouped(moves);
    var keys: seq<Coordinate> := Keys(moves);
    forall i | 0 <= i < |keys| ensures keys[i].x < width && keys[i] in g && g[keys[i]] != [] {
      assert keys[i] in keys;
    }
    forall i: int, a: int | 0 <= i < |keys| && keys[i] in g && 0 <= a < |g[keys[i]]|
      ensures g[keys[i]][a].from != keys[i] && g[keys[i]][a].from.x < width
    {
      ArrivalsFrom(moves, keys[i]);
      assert g[keys[i]][a] in ArrivalsAt(moves, keys[i]);
    }
    forall i: int, j: int, a: int, b: int | 0 <= i < |keys| && 0 <= j < |keys| && i != j && keys[i] in g && keys[j] in g &&
        0 <= a < |g[keys[i]]| && 0 <= b < |g[keys[j]]|
      ensures g[keys[i]][a].part != g[keys[j]][b].part
    {
      ArrivalsFrom(moves, keys[i]);
      ArrivalsFrom(moves, keys[j]);
      assert g[keys[i]][a] in ArrivalsAt(moves, keys[i]);
      assert g[keys[j]][b] in ArrivalsAt(moves, keys[j]);
    }
  }

  /** When every blizzard moved is a different one and none stays in
      place, every cell the moves reach holds, afterwards, exactly what
      arrives there: the one blizzard, or an overlap of the first four, in
      the order of the list. */
  lemma ArrivalsLand(data: seq<Part>, width: nat, moves: seq<Move>, k: Coordinate)
    requires width > 0 && MovesInside(moves, width, |data|)
    requires forall i :: 0 <= i < |moves| ==> moves[i].part.Blizzard?
    requires Separate(moves, width)
    requires k in Keys(moves)
    ensures GroupsInside(Grouped(moves), Keys(moves), width, |data|)
    ensures AllBlizzards(ArrivalsAt(moves, k)) && ArrivalsAt(moves, k) != []
    ensures ApplyGroups(data, width, Grouped(moves), Keys(moves))[IndexOf(k, width)] == GroupValue(ArrivalsAt(moves, k))
  {
    GroupsOfMoves(moves, width, |data|);
    GroupedMeaning(moves);
    GroupsSeparate(moves, width);
    var keys := Keys(moves);
    var t :| 0 <= t < |keys| && keys[t] == k;
    GroupsLand(data, width, Grouped(moves), keys, t);
  }

  lemma {:induction false} GroupsLand(data: seq<Part>, width: nat, g: map<Coordinate, seq<Arrival>>, keys: seq<Coordinate>, t: nat)
    requires width > 0 && GroupsInside(g, keys, width, |data|) && SeparateGroups(g, keys, width)
    requires t < |keys|
    ensures ApplyGroups(data, width, g, keys)[IndexOf(keys[t], width)] == GroupValue(g[keys[t]])
  {
    var n := |keys| - 1;
    var init := keys[..n];
    assert GroupsInside(g, init, width, |data|) && SeparateGroups(g, init, width) by {
      forall i | 0 <= i < n ensures init[i] == keys[i] { }
    }
    var s := ApplyGroups(data, width, g, init);
    var k, arrivals := keys[n], g[keys[n]];
    if t == n {
      GroupAtKey(s, width, k, arrivals);
    } else {
      assert init[t] == keys[t];
      GroupsLand(data, width, g, init, t);
      LaterGroupKeeps(s, width, g, keys, t);
    }
  }

  /** The last group applied leaves an earlier key's cell alone: none of
      its blizzards is there. */
  lemma LaterGroupKeeps(s: seq<Part>, width: nat, g: map<Coordinate, seq<Arrival>>, keys: seq<Coordinate>, t: nat)
    requires width > 0 && GroupsInside(g, keys, width, |s|) && SeparateGroups(g, keys, width)
    requires t < |keys| - 1 && s[IndexOf(keys[t], width)] == GroupValue(g[keys[t]])
    ensures var n := |keys| - 1;
      ApplyGroup(s, width, keys[n], g[keys[n]])[IndexOf(keys[t], width)] == GroupValue(g[keys[t]])
  {
    var n := |keys| - 1;
    var k, arrivals, c := keys[n], g[keys[n]], keys[t];
    forall a | 0 <= a < |arrivals|
      ensures IndexOf(arrivals[a].from, width) != IndexOf(c, width) || Removed(s[IndexOf(c, width)], arrivals[a].part) == s[IndexOf(c, width)]
    {
      NotInGroup(g[c], arrivals[a].part);
    }
    if IndexOf(c, width) == IndexOf(k, width) {
      IndexInjective(c, k, width);
    }
    GroupElsewhere(s, width, k, arrivals, c);
  }

  /** The key's own cell holds the group once it is applied, since no
      arrival leaves it. */
  lemma GroupAtKey(data: seq<Part>, width: nat, k: Coordinate, arrivals: seq<Arrival>)
    requires width > 0 && IndexOf(k, width) < |data| && ArrivalsInside(arrivals, width, |data|) && AllBlizzards(arrivals)
    requires arrivals != [] && k.x < width
    requires forall a :: 0 <= a < |arrivals| ==> arrivals[a].from != k && arrivals[a].from.x < width
    ensures ApplyGroup(data, width, k, arrivals)[IndexOf(k, width)] == GroupValue(arrivals)
  {
    forall a | 0 <= a < |arrivals| ensures IndexOf(arrivals[a].from, width) != IndexOf(k, width) {
      if IndexOf(arrivals[a].from, width) == IndexOf(k, width) {
        IndexInjective(arrivals[a].from, k, width);
      }
    }
    if |arrivals| != 1 {
      RemoveEachElsewhere(SetAt(data, width, k, OverlapOf(arrivals)), width, arrivals, IndexOf(k, width));
    }
  }

  /** Another cell keeps its part when no removal there changes it. */
  lemma GroupElsewhere(data: seq<Part>, width: nat, k: Coordinate, arrivals: seq<Arrival>, c: Coordinate)
    requires width > 0 && IndexOf(k, width) < |data| && ArrivalsInside(arrivals, width, |data|) && AllBlizzards(arrivals)
    requires IndexOf(c, width) < |data| && IndexOf(c, width) != IndexOf(k, width)
    requires forall a :: 0 <= a < |arrivals| ==>
      IndexOf(arrivals[a].from, width) != IndexOf(c, width) || Removed(data[IndexOf(c, width)], arrivals[a].part) == data[IndexOf(c, width)]
    ensures ApplyGroup(data, width, k, arrivals)[IndexOf(c, width)] == data[IndexOf(c, width)]
  {
    if |arrivals| != 1 {
      RemoveEachKeeps(SetAt(data, width, k, OverlapOf(arrivals)), width, arrivals, IndexOf(c, width));
    }
  }

  /** Removals all at other cells leave cell `i` alone. */
  lemma {:induction false} RemoveEachElsewhere(data: seq<Part>, width: nat, arrivals: seq<Arrival>, i: nat)
    requires ArrivalsInside(arrivals, width, |data|) && i < |data|
    requires forall a :: 0 <= a < |arrivals| ==> IndexOf(arrivals[a].from, width) != i
    ensures RemoveEach(data, width, arrivals)[i] == data[i]
  {
    if arrivals != [] {
      var n := |arrivals| - 1;
      assert ArrivalsInside(arrivals[..n], width, |data|) by {
        forall a | 0 <= a < n ensures arrivals[..n][a] == arrivals[a] { }
      }
      RemoveEachElsewhere(data, width, arrivals[..n], i);
    }
  }

  /** Removals that are at other cells, or change nothing there, leave
      cell `i` alone. */
  lemma {:induction false} RemoveEachKeeps(data: seq<Part>, width: nat, arrivals: seq<Arrival>, i: nat)
    requires ArrivalsInside(arrivals, width, |data|) && i < |data|
    requires forall a :: 0 <= a < |arrivals| ==>
      IndexOf(arrivals[a].from, width) != i || Removed(data[i], arrivals[a].part) == data[i]
    ensures RemoveEach(data, width, arrivals)[i] == data[i]
  {
    if arrivals != [] {
      var n := |arrivals| - 1;
      assert ArrivalsInside(arrivals[..n], width, |data|) by {
        forall a | 0 <= a < n ensures arrivals[..n][a] == arrivals[a] { }
      }
      RemoveEachKeeps(data, width, arrivals[..n], i);
    }
  }

  /** Removing a blizzard that is not among the arrivals leaves their cell
      as it is. */
  lemma NotInGroup(arrivals: seq<Arrival>, part: Part)
    requires AllBlizzards(arrivals) && arrivals != [] && part.Blizzard?
    requires forall a :: 0 <= a < |arrivals| ==> arrivals[a].part != part
    ensures Removed(GroupValue(arrivals), part) == GroupValue(arrivals)
  {
    if |arrivals| != 1 {
      var x := Slot(part.id, part.dir);
      var o := OverlapOf(arrivals);
      forall a | 0 <= a < 4 ensures SlotOf(arrivals, a) != Some(x) {
        if a < |arrivals| {
          assert arrivals[a].part == Blizzard(arrivals[a].part.id, arrivals[a].part.dir);
        }
      }
      assert Cleared(o, x) == o && o.a.Some?;
    }
  }

  /** The code as written: a blizzard that arrives alone at the cell it
      left is removed again, and the cell is left open.  This happens in a
      valley with a single open row or column, where a blizzard moving
      across it wraps round to where it was. */
  lemma StayingBlizzardVanishes(data: seq<Part>, width: nat, k: Coordinate, b: Part)
    requires width > 0 && IndexOf(k, width) < |data| && b.Blizzard?
    ensures ApplyGroup(data, width, k, [Arrival(b, k)])[IndexOf(k, width)] == ClearGround
  {
  }

  // ---------------------------------------------------------------------
  // The cells the blizzards leave

  /** Every arrival that leaves `c` is the blizzard `b`. */
  predicate OnlyLeaves(g: map<Coordinate, seq<Arrival>>, keys: seq<Coordinate>, c: Coordinate, b: Part) {
    forall t, a :: 0 <= t < |keys| && keys[t] in g && 0 <= a < |g[keys[t]]| && g[keys[t]][a].from == c ==>
      g[keys[t]][a].part == b
  }

  /** Some arrival leaves `c`. */
  predicate SomeLeaves(g: map<Coordinate, seq<Arrival>>, keys: seq<Coordinate>, c: Coordinate) {
    exists t, a :: 0 <= t < |keys| && keys[t] in g && 0 <= a < |g[keys[t]]| && g[keys[t]][a].from == c
  }

  /** Removals from cell `c` of the blizzard it holds leave it holding that
      blizzard or open ground, and open ground once one of them is there. */
  lemma {:induction false} RemoveEachVacates(data: seq<Part>, width: nat, arrivals: seq<Arrival>, c: Coordinate, b: Part)
    requires width > 0 && ArrivalsInside(arrivals, width, |data|) && IndexOf(c, width) < |data| && c.x < width
    requires b.Blizzard? && data[IndexOf(c, width)] in {b, ClearGround}
    requires forall a :: 0 <= a < |arrivals| ==> arrivals[a].from.x < width && (arrivals[a].from == c ==> arrivals[a].part == b)
    ensures RemoveEach(data, width, arrivals)[IndexOf(c, width)] in {b, ClearGround}
    ensures ((exists a :: 0 <= a < |arrivals| && arrivals[a].from == c) || data[IndexOf(c, width)] == ClearGround) ==>
      RemoveEach(data, width, arrivals)[IndexOf(c, width)] == ClearGround
  {
    if arrivals != [] {
      var n := |arrivals| - 1;
      var init := arrivals[..n];
      assert forall a :: 0 <= a < n ==> init[a] == arrivals[a];
      RemoveEachVacates(data, width, init, c, b);
      var last := arrivals[n];
      if IndexOf(last.from, width) == IndexOf(c, width) {
        IndexInjective(last.from, c, width);
      } else if exists a :: 0 <= a < |arrivals| && arrivals[a].from == c {
        var a :| 0 <= a < |arrivals| && arrivals[a].from == c;
        assert a < n && init[a].from == c;
      }
    }
  }

  /** One group, whose key is another cell, does the same to `c`. */
  lemma GroupVacates(data: seq<Part>, width: nat, k: Coordinate, arrivals: seq<Arrival>, c: Coordinate, b: Part)
    requires width > 0 && IndexOf(k, width) < |data| && ArrivalsInside(arrivals, width, |data|) && AllBlizzards(arrivals)
    requires IndexOf(c, width) < |data| && c.x < width && k.x < width && k != c
    requires b.Blizzard? && data[IndexOf(c, width)] in {b, ClearGround}
    requires forall a :: 0 <= a < |arrivals| ==> arrivals[a].from.x < width && (arrivals[a].from == c ==> arrivals[a].part == b)
    ensures ApplyGroup(data, width, k, arrivals)[IndexOf(c, width)] in {b, ClearGround}
    ensures ((exists a :: 0 <= a < |arrivals| && arrivals[a].from == c) || data[IndexOf(c, width)] == ClearGround) ==>
      ApplyGroup(data, width, k, arrivals)[IndexOf(c, width)] == ClearGround
  {
    if IndexOf(k, width) == IndexOf(c, width) {
      IndexInjective(k, c, width);
    }
    if |arrivals| == 1 {
      if IndexOf(arrivals[0].from, width) == IndexOf(c, width) {
        IndexInjective(arrivals[0].from, c, width);
      }
    } else {
      RemoveEachVacates(SetAt(data, width, k, OverlapOf(arrivals)), width, arrivals, c, b);
    }
  }

  /** Every key, and every cell an arrival leaves, is inside a row. */
  predicate InRows(g: map<Coordinate, seq<Arrival>>, keys: seq<Coordinate>, width: nat) {
    && (forall t :: 0 <= t < |keys| ==> keys[t].x < width)
    && (forall t, a :: 0 <= t < |keys| && keys[t] in g && 0 <= a < |g[keys[t]]| ==> g[keys[t]][a].from.x < width)
  }

  /** All groups, none of whose keys is `c`, do the same to `c`. */
  lemma {:induction false} GroupsVacate(data: seq<Part>, width: nat, g: map<Coordinate, seq<Arrival>>, keys: seq<Coordinate>, c: Coordinate, b: Part)
    requires width > 0 && GroupsInside(g, keys, width, |data|) && InRows(g, keys, width)
    requires IndexOf(c, width) < |data| && c.x < width && c !in keys
    requires b.Blizzard? && data[IndexOf(c, width)] in {b, ClearGround} && OnlyLeaves(g, keys, c, b)
    ensures ApplyGroups(data, width, g, keys)[IndexOf(c, width)] in {b, ClearGround}
    ensures SomeLeaves(g, keys, c) ==> ApplyGroups(data, width, g, keys)[IndexOf(c, width)] == ClearGround
  {
    if keys != [] {
      var n := |keys| - 1;
      var init := keys[..n];
      assert GroupsInside(g, init, width, |data|) && InRows(g, init, width) && OnlyLeaves(g, init, c, b) && c !in init by {
        assert forall i :: 0 <= i < n ==> init[i] == keys[i];
      }
      GroupsVacate(data, width, g, init, c, b);
      var k := keys[n];
      var arrivals := g[k];
      assert k.x < width && k != c && IndexOf(k, width) < |data| by {
        assert k in keys;
      }
      assert ArrivalsInside(arrivals, width, |data|) && AllBlizzards(arrivals);
      assert forall a :: 0 <= a < |arrivals| ==> arrivals[a].from.x < width && (arrivals[a].from == c ==> arrivals[a].part == b);
      GroupVacates(ApplyGroups(data, width, g, init), width, k, arrivals, c, b);
      if SomeLeaves(g, keys, c) {
        var t, a :| 0 <= t < |keys| && keys[t] in g && 0 <= a < |g[keys[t]]| && g[keys[t]][a].from == c;
        if t < n {
          assert init[t] == keys[t];
          assert SomeLeaves(g, init, c);
          assert ApplyGroups(data, width, g, init)[IndexOf(c, width)] == ClearGround;
        } else {
          assert arrivals[a].from == c;
        }
      }
    }
  }

  /** Every move is listed among the arrivals at its destination. */
  lemma {:induction false} MoveArrives(moves: seq<Move>, i: nat)
    requires i < |moves|
    ensures Arrival(moves[i].part, moves[i].from) in ArrivalsAt(moves, moves[i].to)
  {
    var n := |moves| - 1;
    if i < n {
      assert moves[..n][i] == moves[i];
      MoveArrives(moves[..n], i);
    }
  }

  /** The groups of the moves: only `b` leaves `c`, it does leave, and no
      blizzard arrives there. */
  lemma GroupsLeaving(moves: seq<Move>, width: nat, c: Coordinate, b: Part)
    requires Separate(moves, width)
    requires forall i :: 0 <= i < |moves| ==> moves[i].to != c
    requires forall i :: 0 <= i < |moves| && moves[i].from == c ==> moves[i].part == b
    requires exists i :: 0 <= i < |moves| && moves[i].from == c
    ensures InRows(Grouped(moves), Keys(moves), width) && c !in Keys(moves)
    ensures OnlyLeaves(Grouped(moves), Keys(moves), c, b) && SomeLeaves(Grouped(moves), Keys(moves), c)
  {
    var g: map<Coordinate, seq<Arrival>>, keys: seq<Coordinate> := Grouped(moves), Keys(moves);
    assert InRows(g, keys, width) by {
      GroupsSeparate(moves, width);
    }
    GroupedMeaning(moves);
    forall t: int, a: int | 0 <= t < |keys| && keys[t] in g && 0 <= a < |g[keys[t]]| && g[keys[t]][a].from == c
      ensures g[keys[t]][a].part == b
    {
      ArrivalsFrom(moves, keys[t]);
      assert g[keys[t]][a] in ArrivalsAt(moves, keys[t]);
    }
    var i :| 0 <= i < |moves| && moves[i].from == c;
    var k := moves[i].to;
    MoveArrives(moves, i);
    assert k in keys;
    var t :| 0 <= t < |keys| && keys[t] == k;
    var a :| 0 <= a < |g[k]| && g[k][a] == Arrival(moves[i].part, c);
    assert SomeLeaves(g, keys, c);
  }

  /** A cell holding a single blizzard, which moves away while no blizzard
      moves in, ends as open ground once every group is applied. */
  lemma VacatedCellClears(data: seq<Part>, width: nat, moves: seq<Move>, c: Coordinate, b: Part)
    requires width > 0 && MovesInside(moves, width, |data|)
    requires forall i :: 0 <= i < |moves| ==> moves[i].part.Blizzard?
    requires Separate(moves, width)
    requires IndexOf(c, width) < |data| && c.x < width && b.Blizzard? && data[IndexOf(c, width)] == b
    requires forall i :: 0 <= i < |moves| ==> moves[i].to != c
    requires forall i :: 0 <= i < |moves| && moves[i].from == c ==> moves[i].part == b
    requires exists i :: 0 <= i < |moves| && moves[i].from == c
    ensures GroupsInside(Grouped(moves), Keys(moves), width, |data|)
    ensures ApplyGroups(data, width, Grouped(moves), Keys(moves))[IndexOf(c, width)] == ClearGround
  {
    GroupsOfMoves(moves, width, |data|);
    GroupsLeaving(moves, width, c, b);
    GroupsVacate(data, width, Grouped(moves), Keys(moves), c, b);
  }
}
