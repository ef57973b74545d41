/** Day 19: robot factories.  Each minute a factory either waits or builds
    one robot it can afford from a blueprint; every robot collects one unit of
    its kind per minute.  A depth-first search with an optimistic bound finds
    the most geodes a blueprint can open in the given minutes. */
module Day19 {
  import opened Common

  /** A Rust `u8`: minutes and blueprint ids. */
  type U8 = x: int | 0 <= x < 0x100

  /** Quality sums are `u16`s. */
  const COUNT_LIMIT := 0x1_0000

  datatype OreType = Ore | Clay | Obsidian | Geode

  /** An `EnumMap<OreType, Count>`. */
  datatype Counts = Counts(ore: nat, clay: nat, obsidian: nat, geode: nat) {
    function Get(t: OreType): nat {
      match t
      case Ore => ore
      case Clay => clay
      case Obsidian => obsidian
      case Geode => geode
    }

    function Set(t: OreType, v: nat): (c: Counts)
      ensures c.Get(t) == v && forall u :: u != t ==> c.Get(u) == Get(u)
    {
      match t
      case Ore => this.(ore := v)
      case Clay => this.(clay := v)
      case Obsidian => this.(obsidian := v)
      case Geode => this.(geode := v)
    }
  }

  datatype ObsidianRobotCost = ObsidianRobotCost(ore: nat, clay: nat)

  datatype GeodeRobotCost = GeodeRobotCost(ore: nat, obsidian: nat)

  datatype Blueprint = Blueprint(
    id: U8,
    oreRobotCost: nat,
    clayRobotCost: nat,
    obsidianRobotCost: ObsidianRobotCost,
    geodeRobotCost: GeodeRobotCost)

  datatype State = State(minute: nat, robots: Counts, ores: Counts)

  // ---------------------------------------------------------------------
  // One minute

  /** `build_robots`: every robot collects one unit of its kind. */
  function Collect(s: State): (n: State)
    ensures n.minute == s.minute && n.robots == s.robots
    ensures forall t :: n.ores.Get(t) == s.ores.Get(t) + s.robots.Get(t)
  {
    s.(ores := Counts(s.ores.ore + s.robots.ore, s.ores.clay + s.robots.clay,
                      s.ores.obsidian + s.robots.obsidian, s.ores.geode + s.robots.geode))
  }

  /** The cost list handed to `a` for the `i`-th option, 1 to 4. */
  function Requirements(bp: Blueprint, i: nat): seq<(OreType, nat)>
    requires 1 <= i <= 4
  {
    match i
    case 1 => [(Ore, bp.oreRobotCost)]
    case 2 => [(Ore, bp.clayRobotCost)]
    case 3 => [(Clay, bp.obsidianRobotCost.clay), (Ore, bp.obsidianRobotCost.ore)]
    case 4 => [(Ore, bp.geodeRobotCost.ore), (Obsidian, bp.geodeRobotCost.obsidian)]
  }

  /** The robot the `i`-th option builds. */
  function RobotOf(i: nat): OreType
    requires 1 <= i <= 4
  {
    match i
    case 1 => Ore
    case 2 => Clay
    case 3 => Obsidian
    case 4 => Geode
  }

  predicate DistinctTypes(b: seq<(OreType, nat)>) {
    forall j, k :: 0 <= j < k < |b| ==> b[j].0 != b[k].0
  }

  /** `is_affordable`: there is enough of every kind the list names. */
  predicate Affordable(b: seq<(OreType, nat)>, ores: Counts) {
    forall k :: 0 <= k < |b| ==> ores.Get(b[k].0) >= b[k].1
  }

  /** What the list charges of one kind. */
  function CostOf(b: seq<(OreType, nat)>, t: OreType): nat {
    if b == [] then 0 else (if b[0].0 == t then b[0].1 else 0) + CostOf(b[1..], t)
  }

  /** The deduction loop `next.ores[typ] -= cost`.  On an affordable list of
      distinct kinds no subtraction goes below zero. */
  function Pay(ores: Counts, b: seq<(OreType, nat)>): (r: Counts)
    requires Affordable(b, ores) && DistinctTypes(b)
    ensures forall t :: r.Get(t) + CostOf(b, t) == ores.Get(t)
    decreases |b|
  {
    if b == [] then ores
    else
      var paid := ores.Set(b[0].0, ores.Get(b[0].0) - b[0].1);
      assert Affordable(b[1..], paid) by {
        forall k | 0 <= k < |b[1..]| ensures paid.Get(b[1..][k].0) >= b[1..][k].1 {
          assert b[1..][k] == b[k + 1];
        }
      }
      assert DistinctTypes(b[1..]) by {
        forall j, k | 0 <= j < k < |b[1..]| ensures b[1..][j].0 != b[1..][k].0 {
          assert b[1..][j] == b[j + 1] && b[1..][k] == b[k + 1];
        }
      }
      CostOfAbsent(b[1..], b[0].0);
      Pay(paid, b[1..])
  }

  lemma {:induction false} CostOfAbsent(b: seq<(OreType, nat)>, t: OreType)
    requires forall k :: 0 <= k < |b| ==> b[k].0 != t
    ensures CostOf(b, t) == 0
  {
    if b != [] {
      assert forall k :: 0 <= k < |b[1..]| ==> b[1..][k] == b[k + 1];
      CostOfAbsent(b[1..], t);
    }
  }

  /** `a`: if the list is affordable, pay it, let the robots collect, then
      add the new robot; otherwise nothing. */
  function Build(b: seq<(OreType, nat)>, robot: OreType, s: State): Option<State>
    requires DistinctTypes(b)
  {
    if !Affordable(b, s.ores) then None
    else
      var collected := Collect(s.(ores := Pay(s.ores, b)));
      Some(collected.(robots := collected.robots.Set(robot, collected.robots.Get(robot) + 1)))
  }

  /** The `match self.i` arm: waiting, or building the robot of option `i`;
      `None` past option 4. */
  function Candidate(bp: Blueprint, s: State, i: nat): (r: Option<State>)
    ensures r.Some? ==> r.value.minute == s.minute
    ensures i == 0 ==> r == Some(Collect(s))
    ensures i > 4 ==> r.None?
  {
    if i == 0 then Some(Collect(s))
    else if i <= 4 then Build(Requirements(bp, i), RobotOf(i), s)
    else None
  }

  /** Building the robot of option `i` is possible exactly when its list is
      affordable; it pays the list, lets the robots that were there collect,
      and then adds the one robot. */
  lemma BuildMeaning(bp: Blueprint, s: State, i: nat)
    requires 1 <= i <= 4
    ensures Candidate(bp, s, i).Some? <==> Affordable(Requirements(bp, i), s.ores)
    ensures Candidate(bp, s, i).Some? ==>
      var n := Candidate(bp, s, i).value;
      && (forall t :: n.ores.Get(t) == s.ores.Get(t) - CostOf(Requirements(bp, i), t) + s.robots.Get(t))
      && n.robots.Get(RobotOf(i)) == s.robots.Get(RobotOf(i)) + 1
      && (forall t :: t != RobotOf(i) ==> n.robots.Get(t) == s.robots.Get(t))
  {
  }

  /** No option charges geodes. */
  lemma NoGeodeCost(bp: Blueprint, i: nat)
    requires 1 <= i <= 4
    ensures CostOf(Requirements(bp, i), Geode) == 0
  {
    var b := Requirements(bp, i);
    var rest := b[1..];
    assert CostOf(b, Geode) == CostOf(rest, Geode);
    if |b| == 1 {
      assert rest == [];
    } else {
      assert rest[1..] == [];
      assert CostOf(rest, Geode) == CostOf(rest[1..], Geode);
    }
  }

  /** One minute on: the geodes grow at most by the geode robots, and there is
      at most one geode robot more. */
  predicate Follows(s: State, n: State) {
    && n.minute == s.minute + 1
    && n.ores.geode <= s.ores.geode + s.robots.geode
    && n.robots.geode <= s.robots.geode + 1
  }

  lemma CandidateFollows(bp: Blueprint, s: State, i: nat)
    requires Candidate(bp, s, i).Some?
    ensures Follows(s, Tick(Candidate(bp, s, i).value))
  {
    if 1 <= i <= 4 {
      BuildMeaning(bp, s, i);
      NoGeodeCost(bp, i);
      assert Candidate(bp, s, i).value.ores.Get(Geode) == s.ores.Get(Geode) + s.robots.Get(Geode);
    }
  }

  /** `a.minute += 1`. */
  function Tick(s: State): State {
    s.(minute := s.minute + 1)
  }

  // ---------------------------------------------------------------------
  // `StateIter`

  /** Where the `while maybe_next_val.is_none()` loop stops, starting at
      `i`: the first candidate present, with its index, or `None` and the
      index the loop gave up at. */
  datatype Scanned = Scanned(found: Option<State>, at: nat)

  function Scan(bp: Blueprint, s: State, i: nat): (r: Scanned)
    ensures r.at >= i
    ensures r.found.Some? ==> r.at <= 4 && r.found == Candidate(bp, s, r.at)
    ensures r.found.None? ==> r.at == Max(i, 5)
    ensures forall j :: i <= j < r.at ==> Candidate(bp, s, j).None?
    decreases 5 - Min(i, 5)
  {
    if i > 4 then Scanned(None, i)
    else
      match Candidate(bp, s, i)
      case Some(n) => Scanned(Some(n), i)
      case None => Scan(bp, s, i + 1)
  }

  /** The candidates from the `i`-th on, one per option. */
  function CandidatesFrom(bp: Blueprint, s: State, i: nat): seq<Option<State>>
    decreases 5 - Min(i, 5)
  {
    if i > 4 then [] else [Candidate(bp, s, i)] + CandidatesFrom(bp, s, i + 1)
  }

  /** The states present in a list of candidates, a minute later. */
  function TickedSomes(cs: seq<Option<State>>): seq<State> {
    if cs == [] then []
    else (if cs[0].Some? then [Tick(cs[0].value)] else []) + TickedSomes(cs[1..])
  }

  lemma TickedSomesCons(c: Option<State>, rest: seq<Option<State>>)
    ensures TickedSomes([c] + rest) == (if c.Some? then [Tick(c.value)] else []) + TickedSomes(rest)
  {
    assert ([c] + rest)[1..] == rest;
  }

  /** Everything a fresh iterator yields from index `i` on: the candidates
      present, in option order, a minute later. */
  function YieldsFrom(bp: Blueprint, s: State, i: nat): seq<State> {
    TickedSomes(CandidatesFrom(bp, s, i))
  }

  /** The states `state.iter(blueprint)` yields, in order. */
  function Successors(bp: Blueprint, s: State): seq<State> {
    YieldsFrom(bp, s, 0)
  }

  /** What one call of `next` takes off the front of what is left to yield. */
  lemma {:induction false} ScanYields(bp: Blueprint, s: State, i: nat)
    ensures var sc := Scan(bp, s, i);
      YieldsFrom(bp, s, i) == if sc.found.Some? then [Tick(sc.found.value)] + YieldsFrom(bp, s, sc.at + 1) else []
    decreases 5 - Min(i, 5)
  {
    if i <= 4 {
      TickedSomesCons(Candidate(bp, s, i), CandidatesFrom(bp, s, i + 1));
      if Candidate(bp, s, i).None? {
        ScanYields(bp, s, i + 1);
      }
    }
  }

  /** The iterator yields waiting first, then the ore, clay, obsidian and
      geode robots in that order, each only when it is affordable. */
  lemma SuccessorsInOrder(bp: Blueprint, s: State)
    ensures Successors(bp, s) == TickedSomes([Candidate(bp, s, 0), Candidate(bp, s, 1),
      Candidate(bp, s, 2), Candidate(bp, s, 3), Candidate(bp, s, 4)])
  {
    assert CandidatesFrom(bp, s, 5) == [];
    assert CandidatesFrom(bp, s, 4) == [Candidate(bp, s, 4)];
    assert CandidatesFrom(bp, s, 3) == [Candidate(bp, s, 3)] + CandidatesFrom(bp, s, 4);
    assert CandidatesFrom(bp, s, 2) == [Candidate(bp, s, 2)] + CandidatesFrom(bp, s, 3);
    assert CandidatesFrom(bp, s, 1) == [Candidate(bp, s, 1)] + CandidatesFrom(bp, s, 2);
    assert CandidatesFrom(bp, s, 0) == [Candidate(bp, s, 0)] + CandidatesFrom(bp, s, 1);
    FiveListed(Candidate(bp, s, 0), Candidate(bp, s, 1), Candidate(bp, s, 2), Candidate(bp, s, 3),
      Candidate(bp, s, 4), CandidatesFrom(bp, s, 0));
  }

  lemma FiveListed<T>(a: T, b: T, c: T, d: T, e: T, x: seq<T>)
    requires x == [a] + ([b] + ([c] + ([d] + [e])))
    ensures x == [a, b, c, d, e]
  {
  }

  /** Waiting is always possible and always yielded first. */
  lemma WaitFirst(bp: Blueprint, s: State)
    ensures |Successors(bp, s)| >= 1 && Successors(bp, s)[0] == Tick(Collect(s))
  {
    TickedSomesCons(Candidate(bp, s, 0), CandidatesFrom(bp, s, 1));
  }

  /** Every yielded state is one minute later. */
  lemma {:induction false} SuccessorsLater(bp: Blueprint, s: State, i: nat)
    ensures forall n :: n in YieldsFrom(bp, s, i) ==> Follows(s, n)
    decreases 5 - Min(i, 5)
  {
    if i <= 4 {
      TickedSomesCons(Candidate(bp, s, i), CandidatesFrom(bp, s, i + 1));
      if Candidate(bp, s, i).Some? {
        CandidateFollows(bp, s, i);
      }
      SuccessorsLater(bp, s, i + 1);
    }
  }

  /** `StateIter`: the options for one state, tried in turn. */
  class StateIter {
    const state: State
    const blueprint: Blueprint
    var i: nat

    constructor(state: State, blueprint: Blueprint)
      ensures this.state == state && this.blueprint == blueprint && i == 0
    {
      this.state := state;
      this.blueprint := blueprint;
      i := 0;
    }

    /** `next`: the first option from `i` on that is present, a minute
        later, with `i` moved past it. */
    method Next() returns (r: Option<State>)
      modifies this
      ensures var sc := Scan(blueprint, state, old(i));
        && (if sc.found.Some? then r == Some(Tick(sc.found.value)) else r.None?)
        && i == sc.at + 1
      ensures YieldsFrom(blueprint, state, old(i)) ==
        if r.Some? then [r.value] + YieldsFrom(blueprint, state, i) else []
    {
      var found: Option<State> := None;
      while found.None?
        invariant old(i) <= i
        invariant Scan(blueprint, state, i) == Scan(blueprint, state, old(i))
        invariant found.Some? ==> Scan(blueprint, state, i) == Scanned(found, i)
        decreases 6 - Min(i, 6), if found.None? then 1 else 0
      {
        if i > 4 {
          break;
        }
        found := Candidate(blueprint, state, i);
        if found.None? {
          i := i + 1;
        }
      }
      i := i + 1;
      r := if found.Some? then Some(Tick(found.value)) else None;
      ScanYields(blueprint, state, old(i));
    }
  }

  // ---------------------------------------------------------------------
  // The search

  /** The most geodes open at `maxTime`, over every sequence of options:
      the reference the search is measured against. */
  function Best(bp: Blueprint, s: State, maxTime: nat): nat
    requires s.minute <= maxTime
    decreases maxTime - s.minute, 1
  {
    if s.minute == maxTime then s.ores.geode
    else
      SuccessorsLater(bp, s, 0);
      BestOf(bp, s, maxTime, Successors(bp, s))
  }

  function BestOf(bp: Blueprint, parent: State, maxTime: nat, succs: seq<State>): nat
    requires parent.minute < maxTime
    requires forall n :: n in succs ==> n.minute == parent.minute + 1
    decreases maxTime - parent.minute, 0, |succs|
  {
    if succs == [] then 0
    else Max(Best(bp, succs[0], maxTime), BestOf(bp, parent, maxTime, succs[1..]))
  }

  /** `overestimate_maximum`: the geodes held, those the geode robots will
      still collect, and one more robot built every remaining minute.  The
      source subtracts one from the remaining time, so it is only ever
      asked before the last minute. */
  function OverestimateMaximum(s: State, maxTime: nat): (e: nat)
    requires s.minute < maxTime
    ensures e >= s.ores.geode + s.robots.geode * (maxTime - s.minute)
  {
    var r := maxTime - s.minute;
    assert r * (r - 1) >= 0 by {
      MulAtLeastZero(r, r - 1);
    }
    s.ores.geode + s.robots.geode * r + (r * (r - 1)) / 2
  }

  /** `dfs` as a function of its arguments: at the last minute the geodes
      held; otherwise the running maximum over the yielded states, skipping
      each search while this state's estimate is below it. */
  function DfsValue(bp: Blueprint, s: State, maxTime: nat, currentMax: nat): nat
    requires s.minute <= maxTime
    decreases maxTime - s.minute, 1
  {
    if s.minute == maxTime then s.ores.geode
    else
      SuccessorsLater(bp, s, 0);
      DfsOver(bp, s, maxTime, Successors(bp, s), currentMax)
  }

  function DfsOver(bp: Blueprint, parent: State, maxTime: nat, succs: seq<State>, max: nat): nat
    requires parent.minute < maxTime
    requires forall n :: n in succs ==> n.minute == parent.minute + 1
    decreases maxTime - parent.minute, 0, |succs|
  {
    if succs == [] then max
    else
      var next :=
        if OverestimateMaximum(parent, maxTime) < max then max
        else Max(max, DfsValue(bp, succs[0], maxTime, max));
      DfsOver(bp, parent, maxTime, succs[1..], next)
  }

  /** The last term of the estimate, one minute earlier: `r(r-1)/2` grows by
      `r - 1` from `(r-1)(r-2)/2`. */
  lemma PairsStep(r: int)
    ensures (r * (r - 1)) / 2 == ((r - 1) * (r - 2)) / 2 + (r - 1)
  {
    var a := r - 1;
    var x := a * (a - 1);
    MulDistributes(a - 1, 2, a);
    assert r * (r - 1) == x + 2 * a;
    DivModUnique(x + 2 * a, 2, x / 2 + a, x % 2);
  }

  /** The estimate of a successor is within the estimate of its parent. */
  lemma EstimateStep(g: nat, gr: nat, ng: nat, ngr: nat, r: int)
    requires r >= 2 && ng <= g + gr && ngr <= gr + 1
    ensures ng + ngr * (r - 1) + ((r - 1) * (r - 2)) / 2 <= g + gr * r + (r * (r - 1)) / 2
  {
    var a := r - 1;
    var inner, outer := ((r - 1) * (r - 2)) / 2, (r * (r - 1)) / 2;
    assert outer == inner + a by { PairsStep(r); }
    var grown, parent := ngr * a, gr * r;
    assert grown <= gr * a + a by { ScaleStep(ngr, gr, a); }
    assert parent == gr * a + gr by { MulDistributes(a, 1, gr); }
  }

  /** At most one more robot gives at most `a` more over `a` minutes. */
  lemma ScaleStep(n: nat, m: nat, a: nat)
    requires n <= m + 1
    ensures n * a <= m * a + a
  {
    MulDistributes(m, 1, a);
  }

  /** The estimate is never below what the remaining minutes can give, so
      pruning on it never loses the best answer. */
  lemma {:induction false} BestWithinEstimate(bp: Blueprint, s: State, maxTime: nat)
    requires s.minute < maxTime
    ensures Best(bp, s, maxTime) <= OverestimateMaximum(s, maxTime)
    decreases maxTime - s.minute, 1
  {
    var bound := OverestimateMaximum(s, maxTime);
    SuccessorsLater(bp, s, 0);
    var succs := Successors(bp, s);
    forall n | n in succs ensures Best(bp, n, maxTime) <= bound {
      ChildWithinEstimate(bp, s, n, maxTime);
    }
    BestOfBound(bp, s, maxTime, succs, bound);
  }

  lemma {:induction false} ChildWithinEstimate(bp: Blueprint, s: State, n: State, maxTime: nat)
    requires s.minute < maxTime && Follows(s, n)
    ensures Best(bp, n, maxTime) <= OverestimateMaximum(s, maxTime)
    decreases maxTime - s.minute, 0
  {
    if maxTime - s.minute == 1 {
      assert Best(bp, n, maxTime) == n.ores.geode;
      EstimateAtLast(s, maxTime);
    } else {
      BestWithinEstimate(bp, n, maxTime);
      EstimateOfFollower(s, n, maxTime);
    }
  }

  /** One minute before the end the estimate is the geodes held and those
      the robots collect. */
  lemma EstimateAtLast(s: State, maxTime: nat)
    requires s.minute + 1 == maxTime
    ensures OverestimateMaximum(s, maxTime) == s.ores.geode + s.robots.geode
  {
  }

  /** A successor's estimate is within its parent's. */
  lemma EstimateOfFollower(s: State, n: State, maxTime: nat)
    requires s.minute + 2 <= maxTime && Follows(s, n)
    ensures OverestimateMaximum(n, maxTime) <= OverestimateMaximum(s, maxTime)
  {
    var r := maxTime - s.minute;
    assert OverestimateMaximum(n, maxTime) == n.ores.geode + n.robots.geode * (r - 1) + ((r - 1) * (r - 2)) / 2;
    assert OverestimateMaximum(s, maxTime) == s.ores.geode + s.robots.geode * r + (r * (r - 1)) / 2;
    EstimateStep(s.ores.geode, s.robots.geode, n.ores.geode, n.robots.geode, r);
  }

  lemma {:induction false} BestOfBound(bp: Blueprint, parent: State, maxTime: nat, succs: seq<State>, bound: nat)
    requires parent.minute < maxTime
    requires forall n :: n in succs ==> n.minute == parent.minute + 1
    requires forall n :: n in succs ==> Best(bp, n, maxTime) <= bound
    ensures BestOf(bp, parent, maxTime, succs) <= bound
    decreases |succs|
  {
    if succs != [] {
      assert succs[0] in succs;
      BestOfBound(bp, parent, maxTime, succs[1..], bound);
    }
  }

  /** Every successor's best is within its parent's best. */
  lemma {:induction false} BestOfAtLeast(bp: Blueprint, parent: State, maxTime: nat, succs: seq<State>, n: State)
    requires parent.minute < maxTime
    requires forall n :: n in succs ==> n.minute == parent.minute + 1
    requires n in succs
    ensures Best(bp, n, maxTime) <= BestOf(bp, parent, maxTime, succs)
    decreases |succs|
  {
    if n != succs[0] {
      BestOfAtLeast(bp, parent, maxTime, succs[1..], n);
    }
  }

  /** The search finds the best: `dfs` returns the running maximum raised to
      the most geodes reachable, and exactly the geodes held when called at
      the last minute. */
  lemma {:induction false} DfsFindsBest(bp: Blueprint, s: State, maxTime: nat, currentMax: nat)
    requires s.minute <= maxTime
    ensures DfsValue(bp, s, maxTime, currentMax) ==
      if s.minute == maxTime then s.ores.geode else Max(currentMax, Best(bp, s, maxTime))
    decreases maxTime - s.minute, 1
  {
    if s.minute < maxTime {
      SuccessorsLater(bp, s, 0);
      var succs := Successors(bp, s);
      BestWithinEstimate(bp, s, maxTime);
      forall n | n in succs ensures Best(bp, n, maxTime) <= OverestimateMaximum(s, maxTime) {
        BestOfAtLeast(bp, s, maxTime, succs, n);
      }
      DfsOverFindsBest(bp, s, maxTime, succs, currentMax);
    }
  }

  lemma {:induction false} DfsOverFindsBest(bp: Blueprint, parent: State, maxTime: nat, succs: seq<State>, max: nat)
    requires parent.minute < maxTime
    requires forall n :: n in succs ==> n.minute == parent.minute + 1
    requires forall n :: n in succs ==> Best(bp, n, maxTime) <= OverestimateMaximum(parent, maxTime)
    ensures DfsOver(bp, parent, maxTime, succs, max) == Max(max, BestOf(bp, parent, maxTime, succs))
    decreases maxTime - parent.minute, 0, |succs|
  {
    if succs != [] {
      var n := succs[0];
      assert n in succs;
      DfsFindsBest(bp, n, maxTime, max);
      var next :=
        if OverestimateMaximum(parent, maxTime) < max then max
        else Max(max, DfsValue(bp, n, maxTime, max));
      assert next == Max(max, Best(bp, n, maxTime));
      DfsOverFindsBest(bp, parent, maxTime, succs[1..], next);
    }
  }

  /** `dfs`, driving a `StateIter` over the options of `state`. */
  method Dfs(bp: Blueprint, state: State, maxTime: U8, currentMax: nat) returns (r: nat)
    requires state.minute <= maxTime
    ensures r == DfsValue(bp, state, maxTime, currentMax)
    decreases maxTime - state.minute
  {
    if state.minute == maxTime {
      return state.ores.geode;
    }
    var max := currentMax;
    SuccessorsLater(bp, state, 0);
    var iter := new StateIter(state, bp);
    while true
      invariant iter.state == state && iter.blueprint == bp && iter.i <= 5
      invariant forall n :: n in YieldsFrom(bp, state, iter.i) ==> n.minute == state.minute + 1
      invariant DfsOver(bp, state, maxTime, YieldsFrom(bp, state, iter.i), max) == DfsValue(bp, state, maxTime, currentMax)
      decreases 5 - iter.i
    {
      ghost var before := iter.i;
      var next := iter.Next();
      if next.None? {
        break;
      }
      var newState := next.value;
      SuccessorsLater(bp, state, iter.i);
      assert newState in YieldsFrom(bp, state, before);
      if OverestimateMaximum(state, maxTime) < max {
        continue;
      }
      var maybeNewMax := Dfs(bp, newState, maxTime, max);
      if maybeNewMax > max {
        max := maybeNewMax;
      }
    }
    r := max;
  }

  // ---------------------------------------------------------------------
  // Blueprints

  /** One ore robot and nothing else, at minute 0. */
  function InitialState(): State {
    State(0, Counts(1, 0, 0, 0), Counts(0, 0, 0, 0))
  }

  /** `maximise_geodes`: the most geodes the blueprint opens in `minutes`. */
  method MaximiseGeodes(bp: Blueprint, minutes: U8) returns (r: nat)
    ensures r == Best(bp, InitialState(), minutes)
  {
    r := Dfs(bp, InitialState(), minutes, 0);
    DfsFindsBest(bp, InitialState(), minutes, 0);
  }

  /** Quality levels, `id · geodes`, of a list of blueprints. */
  function Qualities(bps: seq<Blueprint>, minutes: U8): (q: seq<nat>)
    ensures |q| == |bps|
    ensures forall k :: 0 <= k < |bps| ==> q[k] == bps[k].id * Best(bps[k], InitialState(), minutes)
  {
    seq(|bps|, k requires 0 <= k < |bps| => Quality(bps[k], minutes))
  }

  function Quality(bp: Blueprint, minutes: U8): nat {
    var geodes := Best(bp, InitialState(), minutes);
    assert bp.id * geodes >= 0 by {
      MulAtLeastZero(bp.id, geodes);
    }
    bp.id * geodes
  }

  lemma MulAtLeastZero(a: nat, b: nat)
    ensures a * b >= 0
  {
  }

  /** The `u16` sum of the quality levels, left to right; `None` when a
      product or a partial sum overflows. */
  function QualitySum(qs: seq<nat>): (r: Option<nat>)
    ensures r.Some? ==> r.value < COUNT_LIMIT
    ensures qs == [] ==> r == Some(0)
    ensures r.Some? ==> r.value == Sum(qs)
  {
    if qs == [] then Some(0)
    else
      match QualitySum(qs[..|qs| - 1])
      case None => None
      case Some(acc) => AddQuality(acc, qs[|qs| - 1])
  }

  /** One more term of the sum; `None` on overflow. */
  function AddQuality(acc: nat, q: nat): Option<nat> {
    if q >= COUNT_LIMIT || acc + q >= COUNT_LIMIT then None else Some(acc + q)
  }

  /** The `u16` sum succeeds exactly when the true sum fits, and is then that
      sum. */
  lemma {:induction false} QualitySumMeaning(qs: seq<nat>)
    ensures QualitySum(qs).Some? <==> Sum(qs) < COUNT_LIMIT
    ensures QualitySum(qs).Some? ==> QualitySum(qs).value == Sum(qs)
  {
    if qs != [] {
      var init := qs[..|qs| - 1];
      QualitySumMeaning(init);
      SumNonNegative(init);
    }
  }

  lemma QualitySumStep(qs: seq<nat>, k: nat)
    requires k < |qs|
    ensures QualitySum(qs[..k + 1]) ==
      match QualitySum(qs[..k]) case None => None case Some(acc) => AddQuality(acc, qs[k])
  {
    assert qs[..k + 1][..k] == qs[..k];
  }

  /** `get_quality_level_sum`. */
  method GetQualityLevelSum(bps: seq<Blueprint>, minutes: U8) returns (r: Option<nat>)
    ensures r == QualitySum(Qualities(bps, minutes))
  {
    ghost var qs := Qualities(bps, minutes);
    var sum := 0;
    for k := 0 to |bps|
      invariant QualitySum(qs[..k]) == Some(sum)
    {
      var geodes := MaximiseGeodes(bps[k], minutes);
      var q := bps[k].id * geodes;
      QualitySumStep(qs, k);
      if q >= COUNT_LIMIT || sum + q >= COUNT_LIMIT {
        NoneStaysNone(qs, k + 1);
        return None;
      }
      sum := sum + q;
    }
    assert qs[..|bps|] == qs;
    r := Some(sum);
  }

  /** Once a partial sum overflows, every longer one does. */
  lemma {:induction false} NoneStaysNone(qs: seq<nat>, k: nat)
    requires k <= |qs| && QualitySum(qs[..k]).None?
    ensures QualitySum(qs).None?
    decreases |qs| - k
  {
    if k < |qs| {
      QualitySumStep(qs, k);
      NoneStaysNone(qs, k + 1);
    } else {
      assert qs[..k] == qs;
    }
  }
}
