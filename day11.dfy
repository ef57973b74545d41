/** Day 11: monkeys passing items around by worry level. Each monkey holds
    a queue of worry levels, applies its operation to each in turn, and
    throws the item to one of two monkeys by a divisibility test. */
module Day11 {
  import opened Common

  /** Worry levels, test values and inspection counts are u64. */
  const U64Bound: nat := 0x1_0000_0000_0000_0000

  /** The divisor of part 1's relief step. */
  const Relief: nat := 3

  /** `A`: an operand of the operation, a constant or the old worry level. */
  datatype Operand = Value(value: nat) | X

  datatype Operation = Add(lhs: Operand, rhs: Operand) | Mul(lhs: Operand, rhs: Operand)

  /** A monkey; its id is its index in the troop. */
  datatype Monkey = Monkey(
    items: seq<nat>,
    operation: Operation,
    testValue: nat,
    trueTarget: nat,
    falseTarget: nat,
    inspections: nat)

  /** An item on its way: the monkey it goes to and its new worry level. */
  datatype Throw = Throw(target: nat, worry: nat)

  // ---------------------------------------------------------------------
  // One inspection
  // ---------------------------------------------------------------------

  /** `calculation`: an operand with X standing for the old worry level. */
  function Resolve(a: Operand, level: nat): nat {
    match a
    case X => level
    case Value(v) => v
  }

  /** The operation over unbounded numbers. */
  function Apply(op: Operation, level: nat): nat {
    match op
    case Add(a, b) => Resolve(a, level) + Resolve(b, level)
    case Mul(a, b) => Resolve(a, level) * Resolve(b, level)
  }

  /** `run_operation` on u64: the new worry level, or None where the
      checked arithmetic panics on overflow. */
  function RunOperation(op: Operation, level: nat): (r: Option<nat>)
    ensures r.Some? <==> Apply(op, level) < U64Bound
    ensures r.Some? ==> r.value == Apply(op, level)
  {
    var result := Apply(op, level);
    if result < U64Bound then Some(result) else None
  }

  /** One item's inspection in `take_turn`: the operation, then relief
      (part 1 divides by 3, part 2 takes the remainder by `modValue`), then
      the throw to the true target exactly when the test value divides the
      new level. A zero divisor panics, here None. */
  function Inspect(m: Monkey, item: nat, isPart1: bool, modValue: nat): (r: Option<Throw>)
    ensures r.Some? <==> RunOperation(m.operation, item).Some? && (isPart1 || modValue > 0) && m.testValue > 0
    ensures r.Some? && isPart1 ==> r.value.worry == Apply(m.operation, item) / Relief
    ensures r.Some? && !isPart1 ==> r.value.worry == Apply(m.operation, item) % modValue
    ensures r.Some? ==> (r.value.target == m.trueTarget <== r.value.worry % m.testValue == 0)
    ensures r.Some? ==> (r.value.target == m.falseTarget <== r.value.worry % m.testValue != 0)
  {
    match RunOperation(m.operation, item)
    case None => None
    case Some(level) =>
      if !isPart1 && modValue == 0 then None
      else
        var worry := if isPart1 then level / Relief else level % modValue;
        if m.testValue == 0 then None
        else if worry % m.testValue == 0 then Some(Throw(m.trueTarget, worry))
        else Some(Throw(m.falseTarget, worry))
  }

  /** The throws of a monkey's items, in queue order. */
  function Throws(m: Monkey, items: seq<nat>, isPart1: bool, modValue: nat): (r: Option<seq<Throw>>)
    ensures r.Some? <==> forall i :: 0 <= i < |items| ==> Inspect(m, items[i], isPart1, modValue).Some?
    ensures r.Some? ==> |r.value| == |items|
    ensures r.Some? ==> forall i :: 0 <= i < |items| ==> r.value[i] == Inspect(m, items[i], isPart1, modValue).value
  {
    if items == [] then Some([])
    else
      var before := Throws(m, items[..|items| - 1], isPart1, modValue);
      var last := Inspect(m, items[|items| - 1], isPart1, modValue);
      if before.Some? && last.Some? then Some(before.value + [last.value]) else None
  }

  // ---------------------------------------------------------------------
  // Turns and rounds as functions of the troop
  // ---------------------------------------------------------------------

  /** The throws delivered in order, each appended to its target's queue;
      a target that is no monkey panics, here None. */
  function Deliver(monkeys: seq<Monkey>, throws: seq<Throw>): (r: Option<seq<Monkey>>)
    ensures r.Some? ==> |r.value| == |monkeys|
  {
    if throws == [] then Some(monkeys)
    else
      match Deliver(monkeys, throws[..|throws| - 1])
      case None => None
      case Some(delivered) =>
        var t := throws[|throws| - 1];
        if t.target < |delivered| then
          Some(delivered[t.target := delivered[t.target].(items := delivered[t.target].items + [t.worry])])
        else None
  }

  /** The active monkey once its queue is drained: no items, and one more
      inspection per item it held. */
  function Drained(m: Monkey): Monkey {
    m.(items := [], inspections := m.inspections + |m.items|)
  }

  /** `take_turn`: monkey `id` inspects its whole queue, then the throws are
      delivered in the order the items were inspected. A missing monkey
      panics, here None. */
  function TurnSpec(monkeys: seq<Monkey>, id: nat, isPart1: bool, modValue: nat): (r: Option<seq<Monkey>>)
    ensures r.Some? ==> |r.value| == |monkeys|
  {
    if id >= |monkeys| then None
    else
      match Throws(monkeys[id], monkeys[id].items, isPart1, modValue)
      case None => None
      case Some(throws) => Deliver(monkeys[id := Drained(monkeys[id])], throws)
  }

  /** The turns of monkeys 0 to k - 1, in id order. */
  function TurnsSpec(monkeys: seq<Monkey>, k: nat, isPart1: bool, modValue: nat): (r: Option<seq<Monkey>>)
    ensures r.Some? ==> |r.value| == |monkeys|
  {
    if k == 0 then Some(monkeys)
    else
      match TurnsSpec(monkeys, k - 1, isPart1, modValue)
      case None => None
      case Some(turned) => TurnSpec(turned, k - 1, isPart1, modValue)
  }

  /** `run_round`: every monkey takes a turn, in id order. */
  function RoundSpec(monkeys: seq<Monkey>, isPart1: bool, modValue: nat): (r: Option<seq<Monkey>>)
    ensures r.Some? ==> |r.value| == |monkeys|
  {
    TurnsSpec(monkeys, |monkeys|, isPart1, modValue)
  }

  /** The given number of rounds. */
  function RoundsSpec(monkeys: seq<Monkey>, rounds: nat, isPart1: bool, modValue: nat): (r: Option<seq<Monkey>>)
    ensures r.Some? ==> |r.value| == |monkeys|
  {
    if rounds == 0 then Some(monkeys)
    else
      match RoundsSpec(monkeys, rounds - 1, isPart1, modValue)
      case None => None
      case Some(played) => RoundSpec(played, isPart1, modValue)
  }

  /** The product of all test values, unbounded. */
  function TestProduct(monkeys: seq<Monkey>): nat {
    if monkeys == [] then 1 else TestProduct(monkeys[..|monkeys| - 1]) * monkeys[|monkeys| - 1].testValue
  }

  /** The divisor of part 2 that `run_rounds` computes (it calls it `lcm`,
      but it is the product of the test values); on u64 the product
      panics when it reaches 2^64, here None. */
  function ModValue(monkeys: seq<Monkey>): (r: Option<nat>)
    ensures r.Some? ==> r.value == TestProduct(monkeys) && r.value < U64Bound
    ensures r.None? ==> TestProduct(monkeys) >= U64Bound
  {
    var product := TestProduct(monkeys);
    if product < U64Bound then Some(product) else None
  }

  /** `run_rounds`: the rounds with the test-value product as divisor. */
  function RunRoundsSpec(monkeys: seq<Monkey>, rounds: nat, isPart1: bool): Option<seq<Monkey>> {
    match ModValue(monkeys)
    case None => None
    case Some(modValue) => RoundsSpec(monkeys, rounds, isPart1, modValue)
  }

  /** `get_inspections`: the inspection counts in id order. */
  function Inspections(monkeys: seq<Monkey>): (r: seq<nat>)
    ensures |r| == |monkeys| && forall i :: 0 <= i < |monkeys| ==> r[i] == monkeys[i].inspections
  {
    seq(|monkeys|, i requires 0 <= i < |monkeys| => monkeys[i].inspections)
  }

  // ---------------------------------------------------------------------
  // Monkey business
  // ---------------------------------------------------------------------

  /** The indices of a largest and a second largest count. */
  function TopTwo(xs: seq<nat>): (r: (nat, nat))
    requires |xs| >= 2
    ensures r.0 < |xs| && r.1 < |xs| && r.0 != r.1
    ensures xs[r.0] >= xs[r.1]
    ensures forall k :: 0 <= k < |xs| && k != r.0 && k != r.1 ==> xs[k] <= xs[r.1]
  {
    if |xs| == 2 then (if xs[0] >= xs[1] then (0, 1) else (1, 0))
    else
      var n := |xs| - 1;
      var top := TopTwo(xs[..n]);
      if xs[n] > xs[top.0] then (n, top.0)
      else if xs[n] > xs[top.1] then (top.0, n)
      else top
  }

  /** Positions i and j hold two counts that no other count exceeds. */
  predicate IsTopTwo(xs: seq<nat>, i: int, j: int) {
    0 <= i < |xs| && 0 <= j < |xs| && i != j &&
    forall k :: 0 <= k < |xs| && k != i && k != j ==> xs[k] <= xs[i] && xs[k] <= xs[j]
  }

  /** The product of the (at most) two largest counts, as the source
      takes it from the sorted counts: 1 for none, the count itself for
      one monkey. */
  function MonkeyBusiness(xs: seq<nat>): (r: nat)
    ensures |xs| == 0 ==> r == 1
    ensures |xs| == 1 ==> r == xs[0]
    ensures |xs| >= 2 ==> exists i, j :: IsTopTwo(xs, i, j) && r == xs[i] * xs[j]
  {
    if |xs| == 0 then 1
    else if |xs| == 1 then xs[0]
    else
      var top := TopTwo(xs);
      var product := xs[top.0] * xs[top.1];
      assert IsTopTwo(xs, top.0, top.1) && product == xs[top.0] * xs[top.1];
      product
  }

  // ---------------------------------------------------------------------
  // The troop, updated in place
  // ---------------------------------------------------------------------

  /** The monkeys of `parse_monkeys`, the id of each being its index. */
  class Troop {
    var monkeys: seq<Monkey>

    constructor(initial: seq<Monkey>)
      ensures monkeys == initial
    {
      monkeys := initial;
    }

    /** The second loop of `take_turn`: pushes each throw onto its
        target's queue, in order. False where the source panics. */
    method PushThrows(deq: seq<Throw>) returns (ok: bool)
      modifies this
      ensures ok <==> Deliver(old(monkeys), deq).Some?
      ensures ok ==> monkeys == Deliver(old(monkeys), deq).value
    {
      ghost var start := monkeys;
      var i := 0;
      while i < |deq|
        invariant i <= |deq|
        invariant Deliver(start, deq[..i]) == Some(monkeys)
      {
        var t := deq[i];
        assert deq[..i + 1][..i] == deq[..i];
        if t.target >= |monkeys| {
          DeliverStopsAtPanic(start, deq, i + 1);
          return false;
        }
        monkeys := monkeys[t.target := monkeys[t.target].(items := monkeys[t.target].items + [t.worry])];
        i := i + 1;
      }
      assert deq[..|deq|] == deq;
      return true;
    }

    /** `take_turn`: drains the active monkey's queue into a list of
        throws, counting one inspection per item, then pushes each throw
        onto its target's queue. False where the source panics. */
    method TakeTurn(id: nat, isPart1: bool, modValue: nat) returns (ok: bool)
      modifies this
      ensures ok <==> TurnSpec(old(monkeys), id, isPart1, modValue).Some?
      ensures ok ==> monkeys == TurnSpec(old(monkeys), id, isPart1, modValue).value
    {
      if id >= |monkeys| {
        return false;
      }
      var drained, deq;
      ok, drained, deq := DrainQueue(monkeys[id], isPart1, modValue);
      if !ok {
        return false;
      }
      monkeys := monkeys[id := drained];
      ok := PushThrows(deq);
    }

    /** `run_round`: monkeys 0 to len - 1 take their turns in order. */
    method RunRound(isPart1: bool, modValue: nat) returns (ok: bool)
      modifies this
      ensures ok <==> RoundSpec(old(monkeys), isPart1, modValue).Some?
      ensures ok ==> monkeys == RoundSpec(old(monkeys), isPart1, modValue).value
    {
      ghost var start := monkeys;
      var n := |monkeys|;
      for i := 0 to n
        invariant TurnsSpec(start, i, isPart1, modValue) == Some(monkeys)
      {
        ok := TakeTurn(i, isPart1, modValue);
        if !ok {
          TurnsStopAtPanic(start, i + 1, n, isPart1, modValue);
          return false;
        }
      }
      return true;
    }

    /** `run_rounds`: the given number of rounds, part 2 reducing by the
        product of the test values. */
    method RunRounds(rounds: nat, isPart1: bool) returns (ok: bool)
      modifies this
      ensures ok <==> RunRoundsSpec(old(monkeys), rounds, isPart1).Some?
      ensures ok ==> monkeys == RunRoundsSpec(old(monkeys), rounds, isPart1).value
    {
      ghost var start := monkeys;
      var product := ModValue(monkeys);
      if product.None? {
        return false;
      }
      var modValue := product.value;
      for i := 1 to rounds + 1
        invariant RoundsSpec(start, i - 1, isPart1, modValue) == Some(monkeys)
      {
        ok := RunRound(isPart1, modValue);
        if !ok {
          RoundsStopAtPanic(start, i, rounds, isPart1, modValue);
          return false;
        }
      }
      return true;
    }

    /** `get_inspections`. */
    function GetInspections(): (r: seq<nat>)
      reads this
      ensures r == Inspections(monkeys)
    {
      seq(|monkeys|, i requires 0 <= i < |monkeys| reads this => monkeys[i].inspections)
    }
  }

  /** The first loop of `take_turn`: pops each item of the monkey's queue,
      inspects it (Inspect) and records where it goes, counting one
      inspection per item. False where the source panics. */
  method DrainQueue(m: Monkey, isPart1: bool, modValue: nat) returns (ok: bool, drained: Monkey, deq: seq<Throw>)
    ensures ok <==> Throws(m, m.items, isPart1, modValue).Some?
    ensures ok ==> drained == Drained(m) && deq == Throws(m, m.items, isPart1, modValue).value
  {
    var monkey := m;
    deq := [];
    while monkey.items != []
      invariant |deq| <= |m.items|
      invariant monkey == m.(items := m.items[|deq|..], inspections := m.inspections + |deq|)
      invariant Throws(m, m.items[..|deq|], isPart1, modValue).Some?
      invariant Throws(m, m.items[..|deq|], isPart1, modValue).value == deq
      decreases |monkey.items|
    {
      var item := monkey.items[0];
      assert item == m.items[|deq|];
      monkey := monkey.(items := monkey.items[1..]);
      var thrown := Inspect(monkey, item, isPart1, modValue);
      assert thrown == Inspect(m, item, isPart1, modValue);
      if thrown.None? {
        NoThrowsPastPanic(m, m.items, |deq|, isPart1, modValue);
        return false, m, [];
      }
      ThrowsStep(m, m.items, |deq|, isPart1, modValue);
      monkey := monkey.(inspections := monkey.inspections + 1);
      deq := deq + [thrown.value];
    }
    assert m.items[..|deq|] == m.items;
    return true, monkey, deq;
  }

  /** One more inspected item adds its throw to the list. */
  lemma ThrowsStep(m: Monkey, items: seq<nat>, k: nat, isPart1: bool, modValue: nat)
    requires k < |items| && Throws(m, items[..k], isPart1, modValue).Some?
    requires Inspect(m, items[k], isPart1, modValue).Some?
    ensures Throws(m, items[..k + 1], isPart1, modValue).Some?
    ensures Throws(m, items[..k + 1], isPart1, modValue).value ==
      Throws(m, items[..k], isPart1, modValue).value + [Inspect(m, items[k], isPart1, modValue).value]
  {
    assert items[..k + 1][..k] == items[..k];
  }

  /** `get_monkey_business` from parsed monkeys: the rounds, then the
      product of the two largest inspection counts. None where the source
      panics. */
  method GetMonkeyBusiness(initial: seq<Monkey>, rounds: nat, isPart1: bool) returns (r: Option<nat>)
    ensures RunRoundsSpec(initial, rounds, isPart1).None? ==> r.None?
    ensures RunRoundsSpec(initial, rounds, isPart1).Some? ==>
      r == Some(MonkeyBusiness(Inspections(RunRoundsSpec(initial, rounds, isPart1).value)))
  {
    var troop := new Troop(initial);
    var ok := troop.RunRounds(rounds, isPart1);
    if !ok {
      return None;
    }
    var inspections := troop.GetInspections();
    return Some(MonkeyBusiness(inspections));
  }

  // ---------------------------------------------------------------------
  // Panics end the run
  // ---------------------------------------------------------------------

  /** An item whose inspection panics leaves the whole queue without
      throws. */
  lemma NoThrowsPastPanic(m: Monkey, items: seq<nat>, k: nat, isPart1: bool, modValue: nat)
    requires k < |items| && Inspect(m, items[k], isPart1, modValue).None?
    ensures Throws(m, items, isPart1, modValue).None?
  {
  }

  lemma {:induction false} DeliverStopsAtPanic(monkeys: seq<Monkey>, throws: seq<Throw>, k: nat)
    requires k <= |throws| && Deliver(monkeys, throws[..k]).None?
    ensures Deliver(monkeys, throws).None?
  {
    if k < |throws| {
      assert throws[..|throws| - 1][..k] == throws[..k];
      DeliverStopsAtPanic(monkeys, throws[..|throws| - 1], k);
    } else {
      assert throws[..k] == throws;
    }
  }

  lemma {:induction false} TurnsStopAtPanic(monkeys: seq<Monkey>, k: nat, n: nat, isPart1: bool, modValue: nat)
    requires k <= n && TurnsSpec(monkeys, k, isPart1, modValue).None?
    ensures TurnsSpec(monkeys, n, isPart1, modValue).None?
    decreases n - k
  {
    if k < n {
      AfterPanicTurn(monkeys, k + 1, isPart1, modValue);
      TurnsStopAtPanic(monkeys, k + 1, n, isPart1, modValue);
    }
  }

  /** A turn after a panic panics too. */
  lemma AfterPanicTurn(monkeys: seq<Monkey>, n: nat, isPart1: bool, modValue: nat)
    requires n > 0 && TurnsSpec(monkeys, n - 1, isPart1, modValue).None?
    ensures TurnsSpec(monkeys, n, isPart1, modValue).None?
  {
  }

  lemma {:induction false} RoundsStopAtPanic(monkeys: seq<Monkey>, k: nat, n: nat, isPart1: bool, modValue: nat)
    requires k <= n && RoundsSpec(monkeys, k, isPart1, modValue).None?
    ensures RoundsSpec(monkeys, n, isPart1, modValue).None?
    decreases n - k
  {
    if k < n {
      AfterPanicRound(monkeys, k + 1, isPart1, modValue);
      RoundsStopAtPanic(monkeys, k + 1, n, isPart1, modValue);
    }
  }

  /** A round after a panic panics too. */
  lemma AfterPanicRound(monkeys: seq<Monkey>, n: nat, isPart1: bool, modValue: nat)
    requires n > 0 && RoundsSpec(monkeys, n - 1, isPart1, modValue).None?
    ensures RoundsSpec(monkeys, n, isPart1, modValue).None?
  {
  }

  // ---------------------------------------------------------------------
  // Where the items go
  // ---------------------------------------------------------------------

  /** The worry levels among the throws that go to monkey t, in order. */
  function ThrownTo(throws: seq<Throw>, t: nat): seq<nat> {
    if throws == [] then []
    else
      var last := throws[|throws| - 1];
      ThrownTo(throws[..|throws| - 1], t) + (if last.target == t then [last.worry] else [])
  }

  /** Delivery appends each monkey's throws to the end of its queue in the
      order they were thrown, and changes nothing else. */
  lemma {:induction false} DeliverAppends(monkeys: seq<Monkey>, throws: seq<Throw>)
    requires Deliver(monkeys, throws).Some?
    ensures forall t :: 0 <= t < |monkeys| ==>
      Deliver(monkeys, throws).value[t] == monkeys[t].(items := monkeys[t].items + ThrownTo(throws, t))
  {
    if throws != [] {
      var before := throws[..|throws| - 1];
      DeliverAppends(monkeys, before);
    }
  }

  /** Every throw of a delivery that succeeds goes to a monkey. */
  lemma {:induction false} DeliveredTargets(monkeys: seq<Monkey>, throws: seq<Throw>)
    requires Deliver(monkeys, throws).Some?
    ensures forall i :: 0 <= i < |throws| ==> throws[i].target < |monkeys|
  {
    if throws != [] {
      var before := throws[..|throws| - 1];
      DeliveredTargets(monkeys, before);
      assert forall i :: 0 <= i < |before| ==> before[i] == throws[i];
    }
  }

  /** The queue lengths of all monkeys together. */
  function TotalItems(monkeys: seq<Monkey>): nat {
    if monkeys == [] then 0 else TotalItems(monkeys[..|monkeys| - 1]) + |monkeys[|monkeys| - 1].items|
  }

  /** Replacing one monkey changes the total by the difference of the two
      queue lengths. */
  lemma {:induction false} TotalItemsUpdate(monkeys: seq<Monkey>, j: nat, m: Monkey)
    requires j < |monkeys|
    ensures TotalItems(monkeys[j := m]) + |monkeys[j].items| == TotalItems(monkeys) + |m.items|
  {
    var n := |monkeys| - 1;
    var updated := monkeys[j := m];
    if j < n {
      assert updated[..n] == monkeys[..n][j := m];
      TotalItemsUpdate(monkeys[..n], j, m);
    } else {
      assert updated[..n] == monkeys[..n];
    }
  }

  /** Each delivered throw adds one item to the troop. */
  lemma {:induction false} DeliverCounts(monkeys: seq<Monkey>, throws: seq<Throw>)
    requires Deliver(monkeys, throws).Some?
    ensures TotalItems(Deliver(monkeys, throws).value) == TotalItems(monkeys) + |throws|
  {
    if throws != [] {
      var before := throws[..|throws| - 1];
      DeliverCounts(monkeys, before);
      var delivered := Deliver(monkeys, before).value;
      var t := throws[|throws| - 1];
      TotalItemsUpdate(delivered, t.target, delivered[t.target].(items := delivered[t.target].items + [t.worry]));
    }
  }

  /** A turn keeps the number of items in the troop. */
  lemma TurnConserves(monkeys: seq<Monkey>, id: nat, isPart1: bool, modValue: nat)
    requires TurnSpec(monkeys, id, isPart1, modValue).Some?
    ensures TotalItems(TurnSpec(monkeys, id, isPart1, modValue).value) == TotalItems(monkeys)
  {
    var throws := Throws(monkeys[id], monkeys[id].items, isPart1, modValue).value;
    var drained := monkeys[id := Drained(monkeys[id])];
    TotalItemsUpdate(monkeys, id, Drained(monkeys[id]));
    DeliverCounts(drained, throws);
  }

  /** So does every sequence of turns, */
  lemma {:induction false} TurnsConserve(monkeys: seq<Monkey>, k: nat, isPart1: bool, modValue: nat)
    requires TurnsSpec(monkeys, k, isPart1, modValue).Some?
    ensures TotalItems(TurnsSpec(monkeys, k, isPart1, modValue).value) == TotalItems(monkeys)
  {
    if k > 0 {
      var j := k - 1;
      TurnsUnfold(monkeys, j + 1, isPart1, modValue);
      var earlier := TurnsSpec(monkeys, j, isPart1, modValue).value;
      TurnsConserve(monkeys, j, isPart1, modValue);
      TurnConserves(earlier, j, isPart1, modValue);
      assert TotalItems(TurnsSpec(monkeys, k, isPart1, modValue).value) == TotalItems(earlier);
    }
  }

  /** The first k turns are the first k - 1 and then turn k - 1. */
  lemma TurnsUnfold(monkeys: seq<Monkey>, k: nat, isPart1: bool, modValue: nat)
    requires k > 0 && TurnsSpec(monkeys, k, isPart1, modValue).Some?
    ensures TurnsSpec(monkeys, k - 1, isPart1, modValue).Some?
    ensures TurnsSpec(monkeys, k, isPart1, modValue) ==
      TurnSpec(TurnsSpec(monkeys, k - 1, isPart1, modValue).value, k - 1, isPart1, modValue)
  {
  }

  /** and every number of rounds. */
  lemma {:induction false} RoundsConserve(monkeys: seq<Monkey>, rounds: nat, isPart1: bool, modValue: nat)
    requires RoundsSpec(monkeys, rounds, isPart1, modValue).Some?
    ensures TotalItems(RoundsSpec(monkeys, rounds, isPart1, modValue).value) == TotalItems(monkeys)
  {
    if rounds > 0 {
      var played := RoundsSpec(monkeys, rounds - 1, isPart1, modValue).value;
      RoundsConserve(monkeys, rounds - 1, isPart1, modValue);
      TurnsConserve(played, |played|, isPart1, modValue);
    }
  }

  /** In its turn the active monkey inspects every item it held, once
      each: its count grows by its queue length, its queue keeps only what
      it throws to itself, every other monkey's queue gains exactly the
      items thrown to it, in order, and no other count changes. */
  lemma TurnEmptiesQueue(monkeys: seq<Monkey>, id: nat, isPart1: bool, modValue: nat)
    requires TurnSpec(monkeys, id, isPart1, modValue).Some?
    ensures id < |monkeys|
    ensures TurnSpec(monkeys, id, isPart1, modValue).value[id].inspections == monkeys[id].inspections + |monkeys[id].items|
    ensures TurnSpec(monkeys, id, isPart1, modValue).value[id].items ==
      ThrownTo(Throws(monkeys[id], monkeys[id].items, isPart1, modValue).value, id)
    ensures forall t :: 0 <= t < |monkeys| && t != id ==>
      TurnSpec(monkeys, id, isPart1, modValue).value[t] ==
      monkeys[t].(items := monkeys[t].items + ThrownTo(Throws(monkeys[id], monkeys[id].items, isPart1, modValue).value, t))
  {
    var throws := Throws(monkeys[id], monkeys[id].items, isPart1, modValue).value;
    DeliverAppends(monkeys[id := Drained(monkeys[id])], throws);
  }

  // ---------------------------------------------------------------------
  // Why part 2's reduction is sound
  // ---------------------------------------------------------------------

  lemma ModAddMultiple(a: int, k: int, m: int)
    requires m > 0
    ensures (a + k * m) % m == a % m
  {
    var q := a / m;
    var r := a % m;
    assert a == q * m + r;
    MulDistributes(q, k, m);
    DivModUnique(a + k * m, m, q + k, r);
  }

  /** A remainder by a multiple M of t has the same remainder by t: the
      test of a monkey whose test value divides M is unaffected. */
  lemma ReduceKeepsTest(w: nat, t: nat, c: nat)
    requires t > 0 && c > 0
    ensures (w % (t * c)) % t == w % t
  {
    var m := t * c;
    var q := w / m;
    assert w == q * m + w % m;
    assert q * m == (q * c) * t;
    ModAddMultiple(w % m, q * c, t);
  }

  /** Every test value divides the product of all of them. */
  lemma {:induction false} TestValueDividesProduct(monkeys: seq<Monkey>, i: nat)
    requires i < |monkeys|
    ensures exists c: nat :: TestProduct(monkeys) == monkeys[i].testValue * c
  {
    var n := |monkeys| - 1;
    var before := TestProduct(monkeys[..n]);
    if i < n {
      TestValueDividesProduct(monkeys[..n], i);
      var c: nat :| before == monkeys[..n][i].testValue * c;
      assert TestProduct(monkeys) == monkeys[i].testValue * (c * monkeys[n].testValue);
    } else {
      assert TestProduct(monkeys) == monkeys[i].testValue * before;
    }
  }

  /** The operation's result modulo M depends only on the old level modulo M,
      so reducing the level between inspections keeps every later remainder. */
  lemma OperationModulo(op: Operation, w: nat, m: nat)
    requires m > 0
    ensures Apply(op, w % m) % m == Apply(op, w) % m
  {
    match op
    case Add(a, b) => SumModulo(a, b, w, m);
    case Mul(a, b) => ProductModulo(a, b, w, m);
  }

  lemma SumModulo(a: Operand, b: Operand, w: nat, m: nat)
    requires m > 0
    ensures (Resolve(a, w % m) + Resolve(b, w % m)) % m == (Resolve(a, w) + Resolve(b, w)) % m
  {
    var x: int, y: int := Resolve(a, w % m), Resolve(b, w % m);
    var kx := ResolveModulo(a, w, m);
    var ky := ResolveModulo(b, w, m);
    assert Resolve(a, w) + Resolve(b, w) == (x + y) + (kx + ky) * m;
    ModAddMultiple(x + y, kx + ky, m);
  }

  lemma ProductModulo(a: Operand, b: Operand, w: nat, m: nat)
    requires m > 0
    ensures (Resolve(a, w % m) * Resolve(b, w % m)) % m == (Resolve(a, w) * Resolve(b, w)) % m
  {
    var x: int, y: int := Resolve(a, w % m), Resolve(b, w % m);
    var kx := ResolveModulo(a, w, m);
    var ky := ResolveModulo(b, w, m);
    MulExpand(x, kx, y, ky, m);
    ModAddMultiple(x * y, x * ky + kx * y + kx * ky * m, m);
  }

  /** An operand read from a level differs from the operand read from the
      level modulo `m` by a multiple of `m`. */
  lemma ResolveModulo(a: Operand, w: nat, m: nat) returns (k: int)
    requires m > 0
    ensures Resolve(a, w) == Resolve(a, w % m) + k * m
  {
    k := if a.X? then w / m else 0;
  }

  lemma MulExpand(x: int, kx: int, y: int, ky: int, m: int)
    ensures (x + kx * m) * (y + ky * m) == x * y + (x * ky + kx * y + kx * ky * m) * m
  {
  }

  // ---------------------------------------------------------------------
  // Examples
  // ---------------------------------------------------------------------

  /** The second and third monkeys of the source's parse example. */
  function ExampleMonkeyOne(): Monkey {
    Monkey([54, 65, 75, 74], Add(X, Value(6)), 19, 2, 0, 0)
  }

  function ExampleMonkeyTwo(): Monkey {
    Monkey([79, 60, 97], Mul(X, X), 13, 1, 3, 0)
  }

  /** Part 1: 54 + 6 = 60, relieved to 20, which 19 does not divide. */
  lemma ExampleInspectAdd()
    ensures Inspect(ExampleMonkeyOne(), 54, true, 1) == Some(Throw(0, 20))
  {
  }

  /** Part 1: 79 * 79 = 6241, relieved to 2080, which 13 divides. */
  lemma ExampleInspectSquare()
    ensures Inspect(ExampleMonkeyTwo(), 79, true, 1) == Some(Throw(1, 2080))
  {
  }

  /** Part 2 with divisor 96577 (23 * 19 * 13 * 17): 6241 stays 6241. */
  lemma ExampleInspectReduced()
    ensures Inspect(ExampleMonkeyTwo(), 79, false, 96577) == Some(Throw(3, 6241))
  {
  }

  /** A monkey's counts 101, 95, 7 and 105 give 105 * 101. */
  lemma ExampleMonkeyBusiness()
    ensures MonkeyBusiness([101, 95, 7, 105]) == 10605
  {
    assert TopTwo([101, 95, 7, 105]) == (3, 0);
  }
}
