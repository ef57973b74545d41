// Day 23: elves spreading out.  Each round every elf with a neighbour
// proposes a step in the first direction of the current order whose three
// cells on that side are free; proposals made by more than one elf are
// dropped, the rest are taken, and the order of directions rotates.
module Day23 {
  import opened Common

  /** An `i8` ordinate. */
  type Ordinate = v: int | -128 <= v < 128

  datatype Position = Position(x: Ordinate, y: Ordinate)

  datatype Direction = North | South | West | East

  /** The `+ 1` and `- 1` around an elf fit in an `i8`. */
  predicate Interior(p: Position) {
    -128 < p.x < 127 && -128 < p.y < 127
  }

  predicate Distinct(s: seq<Position>) {
    forall i, j :: 0 <= i < j < |s| ==> s[i] != s[j]
  }

  // ---------------------------------------------------------------------
  // Proposals

  /** The eight cells around `pos`, in the order `iproduct!` yields them. */
  function Neighbours(pos: Position): seq<Position>
    requires Interior(pos)
  {
    [ Position(pos.x - 1, pos.y - 1), Position(pos.x - 1, pos.y), Position(pos.x - 1, pos.y + 1),
      Position(pos.x, pos.y - 1), Position(pos.x, pos.y + 1),
      Position(pos.x + 1, pos.y - 1), Position(pos.x + 1, pos.y), Position(pos.x + 1, pos.y + 1) ]
  }

  /** `has_any_elf_around`: some elf stands in one of the eight cells around. */
  predicate HasAnyElfAround(pos: Position, elves: seq<Position>)
    requires Interior(pos)
  {
    exists q :: q in Neighbours(pos) && q in elves
  }

  /** The eight neighbours are exactly the other cells within one step in
    * both ordinates. */
  lemma HasAnyElfAroundMeaning(pos: Position, elves: seq<Position>)
    requires Interior(pos)
    ensures HasAnyElfAround(pos, elves) <==>
      exists e :: e in elves && e != pos && Abs(e.x - pos.x) <= 1 && Abs(e.y - pos.y) <= 1
  {
    var r := HasAnyElfAround(pos, elves);
    assert r ==> exists e :: e in elves && e != pos && Abs(e.x - pos.x) <= 1 && Abs(e.y - pos.y) <= 1 by {
      if r {
        var q :| q in Neighbours(pos) && q in elves;
        assert q != pos && Abs(q.x - pos.x) <= 1 && Abs(q.y - pos.y) <= 1;
      }
    }
    assert (exists e :: e in elves && e != pos && Abs(e.x - pos.x) <= 1 && Abs(e.y - pos.y) <= 1) ==> r by {
      if e :| e in elves && e != pos && Abs(e.x - pos.x) <= 1 && Abs(e.y - pos.y) <= 1 {
        assert e in Neighbours(pos);
      }
    }
  }

  /** `(is_vertical, displacement)` for each direction; y grows southwards. */
  function IsVertical(d: Direction): bool {
    d == North || d == South
  }

  function Displacement(d: Direction): int {
    if d == North || d == West then -1 else 1
  }

  /** `*pos + create_position(disp, displacement)`: a cell on the `d` side. */
  function Cell(pos: Position, d: Direction, disp: int): Position
    requires Interior(pos) && -1 <= disp <= 1
  {
    if IsVertical(d) then Position(pos.x + disp, pos.y + Displacement(d))
    else Position(pos.x + Displacement(d), pos.y + disp)
  }

  /** The three cells on the `d` side of `pos` hold no elf. */
  predicate Free(pos: Position, elves: seq<Position>, d: Direction)
    requires Interior(pos)
  {
    forall disp :: disp in [0, 1, -1] ==> Cell(pos, d, disp) !in elves
  }

  /** The cell one step towards `d`. */
  function Step(pos: Position, d: Direction): (q: Position)
    requires Interior(pos)
    ensures Abs(q.x - pos.x) + Abs(q.y - pos.y) == 1
  {
    Cell(pos, d, 0)
  }

  /** `order[k]` is the first direction whose side is free. */
  predicate FirstFreeAt(pos: Position, elves: seq<Position>, order: seq<Direction>, k: nat)
    requires Interior(pos) && k < |order|
  {
    Free(pos, elves, order[k]) && forall j :: 0 <= j < k ==> !Free(pos, elves, order[j])
  }

  /** The loop over `order` in `get_proposal`, from the `i`-th direction. */
  function FirstFree(pos: Position, elves: seq<Position>, order: seq<Direction>, i: nat): (r: Option<nat>)
    requires Interior(pos) && i <= |order|
    ensures r.Some? ==> i <= r.value < |order| && Free(pos, elves, order[r.value])
    ensures r.Some? ==> forall j :: i <= j < r.value ==> !Free(pos, elves, order[j])
    ensures r.None? ==> forall j :: i <= j < |order| ==> !Free(pos, elves, order[j])
    decreases |order| - i
  {
    if i == |order| then None
    else if Free(pos, elves, order[i]) then Some(i)
    else FirstFree(pos, elves, order, i + 1)
  }

  /** `get_proposal`: nothing for an elf with no neighbour; otherwise a step
    * in the first direction of `order` whose side is free, if any. */
  function GetProposal(pos: Position, elves: seq<Position>, order: seq<Direction>): (r: Option<Position>)
    requires Interior(pos)
    ensures !HasAnyElfAround(pos, elves) ==> r.None?
    ensures r.Some? ==> r.value !in elves && Abs(r.value.x - pos.x) + Abs(r.value.y - pos.y) == 1
  {
    assert 0 in [0, 1, -1];
    if !HasAnyElfAround(pos, elves) then None
    else
      match FirstFree(pos, elves, order, 0)
      case None => None
      case Some(k) => Some(Step(pos, order[k]))
  }

  /** A lonely elf proposes nothing; otherwise the proposal is a step
    * towards the first free side, onto a cell no elf holds, and there is
    * no proposal only when no side is free. */
  lemma GetProposalMeaning(pos: Position, elves: seq<Position>, order: seq<Direction>)
    requires Interior(pos)
    ensures var r := GetProposal(pos, elves, order);
      && (!HasAnyElfAround(pos, elves) ==> r.None?)
      && (r.Some? ==> exists k :: 0 <= k < |order| && FirstFreeAt(pos, elves, order, k) && r.value == Step(pos, order[k]))
      && (HasAnyElfAround(pos, elves) && r.None? ==> forall k :: 0 <= k < |order| ==> !Free(pos, elves, order[k]))
      && (r.Some? ==> r.value !in elves)
  {
    if HasAnyElfAround(pos, elves) {
      var f := FirstFree(pos, elves, order, 0);
      if f.Some? {
        assert 0 in [0, 1, -1];
        assert FirstFreeAt(pos, elves, order, f.value);
      }
    }
  }

  /** How many proposals are `v`. */
  function Occurrences(proposals: seq<Option<Position>>, v: Option<Position>): nat {
    if proposals == [] then 0
    else Occurrences(proposals[..|proposals| - 1], v) + (if proposals[|proposals| - 1] == v then 1 else 0)
  }

  lemma {:induction false} OccurrencesPositive(proposals: seq<Option<Position>>, k: nat)
    requires k < |proposals|
    ensures Occurrences(proposals, proposals[k]) >= 1
    decreases |proposals|
  {
    if k < |proposals| - 1 {
      OccurrencesPositive(proposals[..|proposals| - 1], k);
    }
  }

  /** Two equal proposals count at least twice. */
  lemma {:induction false} OccurrencesShared(proposals: seq<Option<Position>>, i: nat, j: nat)
    requires i < j < |proposals| && proposals[i] == proposals[j]
    ensures Occurrences(proposals, proposals[i]) >= 2
    decreases |proposals|
  {
    var init := proposals[..|proposals| - 1];
    if j < |proposals| - 1 {
      OccurrencesShared(init, i, j);
    } else {
      OccurrencesPositive(init, i);
    }
  }

  lemma {:induction false} OccurrencesZero(proposals: seq<Option<Position>>, v: Option<Position>)
    requires v !in proposals
    ensures Occurrences(proposals, v) == 0
    decreases |proposals|
  {
    if proposals != [] {
      OccurrencesZero(proposals[..|proposals| - 1], v);
    }
  }

  /** `get_proposal_counts`: how often each proposal that is not `None`
    * occurs. */
  method GetProposalCounts(proposals: seq<Option<Position>>) returns (counts: map<Option<Position>, nat>)
    ensures forall v :: v in counts <==> v.Some? && v in proposals
    ensures forall v :: v in counts ==> counts[v] == Occurrences(proposals, v)
  {
    counts := map[];
    for k := 0 to |proposals|
      invariant forall v :: v in counts <==> v.Some? && v in proposals[..k]
      invariant forall v :: v in counts ==> counts[v] == Occurrences(proposals[..k], v)
    {
      var proposal := proposals[k];
      assert proposals[..k + 1][..k] == proposals[..k];
      assert proposals[..k + 1] == proposals[..k] + [proposal];
      if proposal.Some? {
        if proposal in counts {
          counts := counts[proposal := counts[proposal] + 1];
        } else {
          OccurrencesZero(proposals[..k], proposal);
          counts := counts[proposal := 1];
        }
      }
    }
    assert proposals[..|proposals|] == proposals;
  }

  // ---------------------------------------------------------------------
  // One round

  /** No elf is on the edge of the ordinate range. */
  predicate AllInterior(elves: seq<Position>) {
    forall k :: 0 <= k < |elves| ==> Interior(elves[k])
  }

  /** The proposals of all elves, elf by elf. */
  function Proposals(elves: seq<Position>, order: seq<Direction>): (ps: seq<Option<Position>>)
    requires AllInterior(elves)
    ensures |ps| == |elves|
  {
    ProposalsUpTo(elves, order, |elves|)
  }

  function ProposalsUpTo(elves: seq<Position>, order: seq<Direction>, n: nat): (ps: seq<Option<Position>>)
    requires AllInterior(elves) && n <= |elves|
    ensures |ps| == n
  {
    if n == 0 then [] else ProposalsUpTo(elves, order, n - 1) + [GetProposal(elves[n - 1], elves, order)]
  }

  lemma {:induction false} ProposalsUpToAt(elves: seq<Position>, order: seq<Direction>, n: nat, k: nat)
    requires AllInterior(elves) && k < n <= |elves|
    ensures ProposalsUpTo(elves, order, n)[k] == GetProposal(elves[k], elves, order)
  {
    if k < n - 1 {
      ProposalsUpToAt(elves, order, n - 1, k);
    }
  }

  /** Elf `k` makes its own proposal. */
  lemma ProposalAt(elves: seq<Position>, order: seq<Direction>, k: nat)
    requires AllInterior(elves) && k < |elves|
    ensures Proposals(elves, order)[k] == GetProposal(elves[k], elves, order)
  {
    ProposalsUpToAt(elves, order, |elves|, k);
  }

  /** Where elf `k` ends the round: its proposal if nobody else made it,
    * otherwise where it stood. */
  function Settle(elves: seq<Position>, ps: seq<Option<Position>>, k: nat): Position
    requires |ps| == |elves| && k < |elves|
  {
    match ps[k]
    case None => elves[k]
    case Some(p) => if Occurrences(ps, ps[k]) > 1 then elves[k] else p
  }

  /** `ElvesIterator::next` on the positions: `None` is a panic. Every elf's
    * `has_any_elf_around` computes `x - 1`, `x + 1`, `y - 1` and `y + 1` as
    * `i8` before any lookup, so the round panics exactly when some elf is
    * on the edge of the ordinate range. */
  function Round(elves: seq<Position>, order: seq<Direction>): (r: Option<seq<Position>>)
    ensures r.Some? <==> AllInterior(elves)
    ensures r.Some? ==> |r.value| == |elves|
  {
    if !AllInterior(elves) then None
    else Some(Settled(elves, Proposals(elves, order), |elves|))
  }

  /** Every elf settled, elf by elf. */
  function Settled(elves: seq<Position>, ps: seq<Option<Position>>, n: nat): (r: seq<Position>)
    requires |ps| == |elves| && n <= |elves|
    ensures |r| == n
  {
    if n == 0 then [] else Settled(elves, ps, n - 1) + [Settle(elves, ps, n - 1)]
  }

  lemma {:induction false} SettledAt(elves: seq<Position>, ps: seq<Option<Position>>, n: nat, k: nat)
    requires |ps| == |elves| && k < n <= |elves|
    ensures Settled(elves, ps, n)[k] == Settle(elves, ps, k)
  {
    if k < n - 1 {
      SettledAt(elves, ps, n - 1, k);
    }
  }

  /** Elf `k` ends the round where `Settle` puts it. */
  lemma RoundAt(elves: seq<Position>, order: seq<Direction>, k: nat)
    requires Round(elves, order).Some? && k < |elves|
    ensures Round(elves, order).value[k] == Settle(elves, Proposals(elves, order), k)
  {
    SettledAt(elves, Proposals(elves, order), |elves|, k);
  }

  /** An elf with no neighbour stays put. */
  lemma LonelyElfStays(elves: seq<Position>, order: seq<Direction>, k: nat)
    requires Round(elves, order).Some? && k < |elves|
    requires !HasAnyElfAround(elves[k], elves)
    ensures Round(elves, order).value[k] == elves[k]
  {
    RoundAt(elves, order, k);
    ProposalAt(elves, order, k);
    GetProposalMeaning(elves[k], elves, order);
  }

  /** A proposal two elves share is taken by neither. */
  lemma SharedProposalCancelled(elves: seq<Position>, order: seq<Direction>, i: nat, j: nat)
    requires Round(elves, order).Some? && i < j < |elves|
    requires Proposals(elves, order)[i] == Proposals(elves, order)[j]
    ensures Round(elves, order).value[i] == elves[i] && Round(elves, order).value[j] == elves[j]
  {
    var ps := Proposals(elves, order);
    RoundAt(elves, order, i);
    RoundAt(elves, order, j);
    if ps[i].Some? {
      OccurrencesShared(ps, i, j);
    }
  }

  /** An elf that moves takes one step onto its own proposal, made by no
    * other elf, onto a cell no elf held. */
  lemma MovesAreSteps(elves: seq<Position>, order: seq<Direction>, k: nat)
    requires Round(elves, order).Some? && k < |elves|
    requires Round(elves, order).value[k] != elves[k]
    ensures var ps := Proposals(elves, order);
      && ps[k] == Some(Round(elves, order).value[k])
      && (forall j :: 0 <= j < |elves| && j != k ==> ps[j] != ps[k])
      && Abs(ps[k].value.x - elves[k].x) + Abs(ps[k].value.y - elves[k].y) == 1
      && Round(elves, order).value[k] !in elves
  {
    var ps := Proposals(elves, order);
    RoundAt(elves, order, k);
    ProposalAt(elves, order, k);
    GetProposalMeaning(elves[k], elves, order);
    forall j | 0 <= j < |elves| && j != k ensures ps[j] != ps[k] {
      if ps[j] == ps[k] {
        if j < k {
          OccurrencesShared(ps, j, k);
        } else {
          OccurrencesShared(ps, k, j);
        }
      }
    }
  }

  /** A round keeps the number of elves and keeps them on distinct cells. */
  lemma RoundKeepsDistinct(elves: seq<Position>, order: seq<Direction>)
    requires Round(elves, order).Some? && Distinct(elves)
    ensures |Round(elves, order).value| == |elves| && Distinct(Round(elves, order).value)
  {
    var r := Round(elves, order).value;
    var ps := Proposals(elves, order);
    forall i, j | 0 <= i < j < |r| ensures r[i] != r[j] {
      if r[i] != elves[i] {
        MovesAreSteps(elves, order, i);
      }
      if r[j] != elves[j] {
        MovesAreSteps(elves, order, j);
      }
    }
  }

  /** `self.order.rotate_left(1)` */
  function RotateLeft(order: seq<Direction>): (r: seq<Direction>)
    ensures |r| == |order|
    ensures |order| > 0 ==> r[|r| - 1] == order[0] && forall i :: 0 <= i < |order| - 1 ==> r[i] == order[i + 1]
  {
    if order == [] then [] else order[1..] + [order[0]]
  }

  /** The order at the start of the `n`-th round (counting from 0). */
  function OrderAt(n: nat): (order: seq<Direction>)
    ensures |order| == 4
  {
    var start := [North, South, West, East];
    seq(4, i requires 0 <= i < 4 => start[(i + n) % 4])
  }

  /** Each round rotates the order by one, so it repeats every four rounds. */
  lemma OrderRotates(n: nat)
    ensures RotateLeft(OrderAt(n)) == OrderAt(n + 1)
    ensures OrderAt(n + 4) == OrderAt(n)
  {
    var a, b := RotateLeft(OrderAt(n)), OrderAt(n + 1);
    forall i | 0 <= i < 4 ensures a[i] == b[i] {
      if i < 3 {
        assert a[i] == OrderAt(n)[i + 1];
      } else {
        assert a[i] == OrderAt(n)[0];
        assert (3 + (n + 1)) % 4 == n % 4 by {
          DivModUnique(3 + n + 1, 4, (n + 4) / 4, n % 4);
        }
      }
    }
    forall i | 0 <= i < 4 ensures OrderAt(n + 4)[i] == OrderAt(n)[i] {
      assert (i + n + 4) % 4 == (i + n) % 4 by {
        DivModUnique(i + n + 4, 4, (i + n) / 4 + 1, (i + n) % 4);
      }
    }
  }

  /** The positions after `n` rounds; `None` once a round has panicked. */
  function After(elves: seq<Position>, n: nat): (r: Option<seq<Position>>)
    ensures r.Some? ==> |r.value| == |elves|
  {
    if n == 0 then Some(elves)
    else
      match After(elves, n - 1)
      case None => None
      case Some(e) => Round(e, OrderAt(n - 1))
  }

  /** Round `n + 1` starts from the elves after `n` rounds. */
  lemma AfterStep(elves: seq<Position>, n: nat, e: seq<Position>)
    requires After(elves, n) == Some(e)
    ensures After(elves, n + 1) == Round(e, OrderAt(n))
  {
  }

  /** Distinct elves stay distinct and keep their number, round after round. */
  lemma {:induction false} AfterKeepsDistinct(elves: seq<Position>, n: nat)
    requires Distinct(elves) && After(elves, n).Some?
    ensures Distinct(After(elves, n).value)
  {
    if n > 0 {
      var e := After(elves, n - 1).value;
      AfterStep(elves, n - 1, e);
      AfterKeepsDistinct(elves, n - 1);
      RoundKeepsDistinct(e, OrderAt(n - 1));
    }
  }

  // ---------------------------------------------------------------------
  // `ElvesIterator`

  class ElvesIterator {
    var order: seq<Direction>
    var elves: seq<Position>

    /** `ElvesIterator::new`: the order starts North, South, West, East. */
    constructor(elves: seq<Position>)
      ensures this.order == OrderAt(0) && this.elves == elves
    {
      order := [North, South, West, East];
      this.elves := elves;
      new;
      assert order == OrderAt(0);
    }

    /** `next`: one round; the order rotates left by one.  `None` is a
      * panic, which leaves the state as it was. */
    method Next() returns (r: Option<seq<Position>>)
      modifies this
      ensures r == Round(old(elves), old(order))
      ensures r.Some? ==> elves == r.value && order == RotateLeft(old(order))
      ensures r.None? ==> elves == old(elves) && order == old(order)
    {
      var current, directions := elves, order;
      if !AllInterior(current) {
        return None;
      }
      var proposals := seq(|current|, k requires 0 <= k < |current| => GetProposal(current[k], current, directions));
      var counts := GetProposalCounts(proposals);
      var kept := seq(|proposals|, k requires 0 <= k < |proposals| =>
        match proposals[k]
        case None => None
        case Some(_) => if counts[proposals[k]] > 1 then None else proposals[k]);
      var positions := seq(|current|, k requires 0 <= k < |current| =>
        match kept[k]
        case None => current[k]
        case Some(p) => p);
      assert proposals == Proposals(current, directions) by {
        forall k | 0 <= k < |current| ensures proposals[k] == Proposals(current, directions)[k] {
          ProposalAt(current, directions, k);
        }
      }
      assert positions == Round(current, directions).value by {
        forall k | 0 <= k < |current| ensures positions[k] == Settle(current, proposals, k) {
        }
        forall k | 0 <= k < |current| ensures positions[k] == Round(current, directions).value[k] {
          RoundAt(current, directions, k);
        }
      }
      elves := positions;
      order := RotateLeft(order);
      r := Some(elves);
    }
  }

  /** `run_process`: `num_rounds` rounds (an `i8`, so none when negative). */
  method RunProcess(elves: seq<Position>, numRounds: int) returns (r: Option<seq<Position>>)
    requires -128 <= numRounds < 128
    ensures r == After(elves, if numRounds < 0 then 0 else numRounds)
  {
    var iter := new ElvesIterator(elves);
    var current := elves;
    var n := if numRounds < 0 then 0 else numRounds;
    for i := 0 to n
      invariant After(elves, i) == Some(current)
      invariant iter.elves == current && iter.order == OrderAt(i)
    {
      var next := iter.Next();
      if next.None? {
        AfterStaysPanicked(elves, i + 1, n);
        return None;
      }
      OrderRotates(i);
      current := next.value;
    }
    r := Some(current);
  }

  /** After a panic there is nothing more. */
  lemma {:induction false} AfterStaysPanicked(elves: seq<Position>, n: nat, m: nat)
    requires n <= m && After(elves, n).None?
    ensures After(elves, m).None?
    decreases m - n
  {
    if n < m {
      AfterStaysPanicked(elves, n + 1, m);
    }
  }

  /** Round `n` (from 1) changes nothing. */
  ghost predicate Settles(elves: seq<Position>, n: nat) {
    n >= 1 && After(elves, n).Some? && After(elves, n) == After(elves, n - 1)
  }


  /** None of the first `k` rounds settles. */
  ghost predicate NoneSettle(elves: seq<Position>, k: nat) {
    forall n :: 1 <= n <= k ==> !Settles(elves, n)
  }

  lemma NoneSettleStep(elves: seq<Position>, k: nat)
    requires NoneSettle(elves, k) && !Settles(elves, k + 1)
    ensures NoneSettle(elves, k + 1)
  {
  }

  /** A round that moves some elf does not settle. */
  lemma MovedRoundUnsettled(elves: seq<Position>, n: nat, before: seq<Position>, after: seq<Position>)
    requires After(elves, n) == Some(before) && After(elves, n + 1) == Some(after) && before != after
    ensures !Settles(elves, n + 1)
  {
  }

  /** Once the rounds have panicked, no later round settles. */
  lemma PanickedNeverSettles(elves: seq<Position>, n: nat, fuel: nat)
    requires After(elves, n).None?
    ensures forall m :: n <= m <= fuel ==> !Settles(elves, m)
  {
    forall m | n <= m <= fuel ensures After(elves, m).None? {
      AfterStaysPanicked(elves, n, m);
    }
  }

  /** `first_round_no_elves_move`, looking at no more than `fuel` rounds: the
    * first round that changes nothing.  `None` is a panic or no such round
    * within `fuel`; the `u32` round counter cannot overflow below that. */
  method FirstRoundNoElvesMove(elves: seq<Position>, fuel: nat) returns (r: Option<nat>)
    requires fuel < 0x1_0000_0000
    ensures r.Some? ==> 1 <= r.value <= fuel && Settles(elves, r.value)
    ensures r.Some? ==> forall n :: 1 <= n < r.value ==> !Settles(elves, n)
    ensures r.None? ==> forall n :: 1 <= n <= fuel ==> !Settles(elves, n)
  {
    var iter := new ElvesIterator(elves);
    var previous := elves;
    var round := 1;
    ghost var done: nat := 0;
    while round <= fuel
      invariant round == done + 1 <= fuel + 1
      invariant After(elves, done) == Some(previous)
      invariant iter.elves == previous && iter.order == OrderAt(done)
      invariant NoneSettle(elves, done)
      decreases fuel - done
    {
      var next := iter.Next();
      AfterStep(elves, done, previous);
      if next.None? {
        PanickedNeverSettles(elves, round, fuel);
        return None;
      }
      var newElves := next.value;
      if previous == newElves {
        return Some(round);
      }
      MovedRoundUnsettled(elves, done, previous, newElves);
      NoneSettleStep(elves, done);
      OrderRotates(done);
      previous := newElves;
      round := round + 1;
      done := done + 1;
    }
    return None;
  }

}
