// Day 20: mixing an encrypted file.  `positions[k]` is the slot of the k-th
// number in the circular list; each number in turn moves by its value, and
// the numbers it jumps over close up behind it.  The grove coordinates are
// the numbers 1000, 2000 and 3000 slots after the zero.
module Day20 {
  import opened Common

  /** A Rust `i16`. */
  type I16 = x: int | -0x8000 <= x < 0x8000

  predicate IsI16(x: int) {
    -0x8000 <= x < 0x8000
  }

  // ---------------------------------------------------------------------
  // Slots

  /** `positions` gives every number its own slot in `0..len`. */
  predicate IsPermutation(p: seq<int>) {
    && (forall k :: 0 <= k < |p| ==> 0 <= p[k] < |p|)
    && (forall j, k :: 0 <= j < k < |p| ==> p[j] != p[k])
    && (forall s :: 0 <= s < |p| ==> Held(p, s))
  }

  /** Some number is in slot `s`. */
  predicate Held(p: seq<int>, s: int) {
    exists k :: 0 <= k < |p| && p[k] == s
  }

  /** `(0..len).collect()` */
  function Identity(n: nat): (p: seq<int>)
    ensures |p| == n && IsPermutation(p)
  {
    var p := seq(n, k => k);
    assert forall s :: 0 <= s < n ==> p[s] == s && Held(p, s);
    p
  }

  /** `iter().position(|a| *a == x)`: the first index holding `x`. */
  function IndexOf(p: seq<int>, x: int): (r: Option<nat>)
    ensures r.Some? ==> r.value < |p| && p[r.value] == x && forall k :: 0 <= k < r.value ==> p[k] != x
    ensures r.None? ==> forall k :: 0 <= k < |p| ==> p[k] != x
  {
    IndexFrom(p, x, 0)
  }

  function IndexFrom(p: seq<int>, x: int, i: nat): (r: Option<nat>)
    requires i <= |p| && forall k :: 0 <= k < i ==> p[k] != x
    ensures r.Some? ==> r.value < |p| && p[r.value] == x && forall k :: 0 <= k < r.value ==> p[k] != x
    ensures r.None? ==> forall k :: 0 <= k < |p| ==> p[k] != x
    decreases |p| - i
  {
    if i == |p| then None
    else if p[i] == x then Some(i)
    else IndexFrom(p, x, i + 1)
  }

  /** The numbers in slot order: which number sits in each slot. */
  function Arrangement(p: seq<int>): (a: seq<nat>)
    requires IsPermutation(p)
    ensures |a| == |p| && forall s :: 0 <= s < |p| ==> a[s] < |p| && p[a[s]] == s
  {
    seq(|p|, s requires 0 <= s < |p| => Owner(p, s))
  }

  function Owner(p: seq<int>, s: int): (k: nat)
    requires IsPermutation(p) && 0 <= s < |p|
    ensures k < |p| && p[k] == s
  {
    assert Held(p, s);
    IndexOf(p, s).value
  }

  /** In a permutation, the slot of a number names that number. */
  lemma OwnerUnique(p: seq<int>, k: nat)
    requires IsPermutation(p) && k < |p|
    ensures Owner(p, p[k]) == k
  {
  }

  // ---------------------------------------------------------------------
  // One move

  /** The slot a number moves to: `old_position + value`, brought into the
    * list by `rem_euclid(len - 1)` when it reaches 0 or `len`.  `None` is a
    * panic: the `i16` addition overflowing, or a remainder by zero when the
    * list has one number. */
  function NewPosition(src: int, value: int, len: int): (r: Option<int>)
    requires 0 <= src < len
    ensures r.Some? ==> 0 <= r.value < len
    ensures r.None? <==> !IsI16(src + value) || (len == 1 && IsI16(src + value))
  {
    var n := src + value;
    if !IsI16(n) then None
    else if n <= 0 then
      if len - 1 == 0 then None else Some(n % (len - 1))
    else if n >= len then
      if len - 1 == 0 then None else Some(n % (len - 1))
    else Some(n)
  }

  /** The inner loop and the assignment after it: number `i` goes to slot
    * `dst`; every other number in the slots it passes moves one slot back
    * towards where `i` was. */
  function Shifted(p: seq<int>, i: nat, dst: int): (q: seq<int>)
    requires i < |p|
    ensures |q| == |p|
  {
    var src := p[i];
    seq(|p|, j requires 0 <= j < |p| =>
      if j == i then dst
      else if dst > src then
        (if src <= p[j] <= dst then p[j] - 1 else p[j])
      else
        (if dst <= p[j] <= src then p[j] + 1 else p[j]))
  }

  /** A move keeps every number in its own slot. */
  lemma ShiftedPermutation(p: seq<int>, i: nat, dst: int)
    requires IsPermutation(p) && i < |p| && 0 <= dst < |p|
    ensures IsPermutation(Shifted(p, i, dst))
  {
    var q := Shifted(p, i, dst);
    var src := p[i];
    forall s | 0 <= s < |q| ensures Held(q, s) {
      if s == dst {
        assert q[i] == s;
      } else {
        var t := if dst > src && src <= s < dst then s + 1
                 else if dst <= src && dst < s <= src then s - 1
                 else s;
        assert Held(p, t);
        var k :| 0 <= k < |p| && p[k] == t;
        assert q[k] == s;
      }
    }
  }

  /** The list after a move: number `i` taken out of its slot and put back in
    * at slot `dst`, everything else in the same order. */
  lemma {:induction false} MoveMeaning(p: seq<int>, i: nat, dst: int)
    requires IsPermutation(p) && i < |p| && 0 <= dst < |p|
    ensures IsPermutation(Shifted(p, i, dst))
    ensures var a := Arrangement(p);
      var removed := a[..p[i]] + a[p[i] + 1..];
      Arrangement(Shifted(p, i, dst)) == removed[..dst] + [i] + removed[dst..]
  {
    ShiftedPermutation(p, i, dst);
    var q := Shifted(p, i, dst);
    var a := Arrangement(p);
    var src := p[i];
    var removed := a[..src] + a[src + 1..];
    var c := removed[..dst] + [i] + removed[dst..];
    assert |c| == |q|;
    forall s | 0 <= s < |q| ensures Arrangement(q)[s] == c[s] {
      MovedSlot(p, i, dst, s);
    }
  }

  /** Slot `s` after a move. */
  lemma MovedSlot(p: seq<int>, i: nat, dst: int, s: nat)
    requires IsPermutation(p) && i < |p| && 0 <= dst < |p| && s < |p|
    requires IsPermutation(Shifted(p, i, dst))
    ensures var a := Arrangement(p);
      var removed := a[..p[i]] + a[p[i] + 1..];
      Arrangement(Shifted(p, i, dst))[s] == (removed[..dst] + [i] + removed[dst..])[s]
  {
    var q := Shifted(p, i, dst);
    var a := Arrangement(p);
    var src := p[i];
    var removed := a[..src] + a[src + 1..];
    var c := removed[..dst] + [i] + removed[dst..];
    var k: nat := c[s];
    if s == dst {
      assert k == i;
    } else if s < dst {
      assert k == removed[s];
      if s < src {
        assert k == a[s];
      } else {
        assert k == a[s + 1];
      }
    } else {
      assert k == removed[s - 1];
      if s - 1 < src {
        assert k == a[s - 1];
      } else {
        assert k == a[s];
      }
    }
    assert q[k] == s;
    OwnerUnique(q, k);
  }

  // ---------------------------------------------------------------------
  // The whole mix

  /** The outer loop from the `i`-th number on; `None` is a panic. */
  function MixFrom(values: seq<I16>, i: nat, p: seq<int>): (r: Option<seq<int>>)
    requires i <= |values| == |p| && IsPermutation(p)
    ensures r.Some? ==> |r.value| == |values| && IsPermutation(r.value)
    decreases |values| - i
  {
    if i == |values| then Some(p)
    else
      match NewPosition(p[i], values[i], |values|)
      case None => None
      case Some(dst) =>
        ShiftedPermutation(p, i, dst);
        MixFrom(values, i + 1, Shifted(p, i, dst))
  }

  /** The slots after every number has moved once. */
  function Mixed(values: seq<I16>): (r: Option<seq<int>>)
    ensures r.Some? ==> |r.value| == |values| && IsPermutation(r.value)
  {
    MixFrom(values, 0, Identity(|values|))
  }

  /** The value at `offset` slots after the zero, as the source reaches it:
    * `(positions[zero] + offset) % len` (an `i16` that must not overflow),
    * then the number in that slot. */
  function ValueAfterZero(values: seq<I16>, p: seq<int>, zero: nat, offset: int): (r: Option<int>)
    requires |p| == |values| && IsPermutation(p) && zero < |p|
    ensures r.Some? <==> IsI16(p[zero] + offset)
    ensures r.Some? ==> r.value == values[Arrangement(p)[(p[zero] + offset) % |p|]]
  {
    var slot := p[zero] + offset;
    if !IsI16(slot) then None
    else
      assert Held(p, slot % |p|);
      var owner := IndexOf(p, slot % |p|);
      OwnerUnique(p, owner.value);
      Some(values[owner.value])
  }

  /** The grove coordinates: the three values summed left to right in `i16`;
    * `None` when there is no zero or an addition overflows. */
  function GroveSum(values: seq<I16>, p: seq<int>): (r: Option<int>)
    requires |p| == |values| && IsPermutation(p)
    ensures r.Some? ==> 0 in values && IsI16(r.value)
  {
    match IndexOf(values, 0)
    case None => None
    case Some(zero) =>
      match (ValueAfterZero(values, p, zero, 1000), ValueAfterZero(values, p, zero, 2000), ValueAfterZero(values, p, zero, 3000))
      case (Some(a), Some(b), Some(c)) =>
        if IsI16(a + b) && IsI16(a + b + c) then Some(a + b + c) else None
      case _ => None
  }

  /** `mix(coordinates)` as a function of the input. */
  function MixResult(values: seq<I16>): (r: Option<int>)
    ensures r.Some? ==> 0 in values && Mixed(values).Some? && IsI16(r.value)
  {
    match Mixed(values)
    case None => None
    case Some(p) => GroveSum(values, p)
  }

  /** Without a 0 in the input there is no answer: the source's `unwrap`. */
  lemma NeedsZero(values: seq<I16>)
    requires 0 !in values
    ensures MixResult(values).None?
  {
  }

  // ---------------------------------------------------------------------
  // The method, updating `positions` in place

  /** `mix(coordinates)`.  The length is taken as an `i16`, so fewer than
    * 32768 numbers are handled. */
  method Mix(values: seq<I16>) returns (r: Option<int>)
    requires |values| < 0x8000
    ensures r == MixResult(values)
  {
    var len := |values|;
    var positions := new int[len];
    for k := 0 to len
      invariant forall m :: 0 <= m < k ==> positions[m] == m
    {
      positions[k] := k;
    }
    assert positions[..] == Identity(len);
    for i := 0 to len
      invariant IsPermutation(positions[..])
      invariant MixFrom(values, i, positions[..]) == Mixed(values)
    {
      var src := positions[i];
      var next := NewPosition(src, values[i], len);
      if next.None? {
        return None;
      }
      var dst := next.value;
      ghost var before := positions[..];
      MoveOne(positions, i, dst);
      ShiftedPermutation(before, i, dst);
    }
    r := GroveSum(values, positions[..]);
  }

  /** The inner loop over `j` and the assignment `positions[i] = new_position`. */
  method MoveOne(positions: array<int>, i: nat, dst: int)
    requires i < positions.Length
    modifies positions
    ensures positions[..] == Shifted(old(positions[..]), i, dst)
  {
    var src := positions[i];
    var forward := dst > src;
    ghost var before := positions[..];
    for j := 0 to positions.Length
      invariant positions[i] == src
      invariant forall m :: j <= m < positions.Length ==> positions[m] == before[m]
      invariant forall m :: 0 <= m < j && m != i ==> positions[m] == Shifted(before, i, dst)[m]
    {
      if j == i {
        continue;
      }
      if forward {
        if positions[j] >= src && positions[j] <= dst {
          positions[j] := positions[j] - 1;
        }
      } else {
        if positions[j] >= dst && positions[j] <= src {
          positions[j] := positions[j] + 1;
        }
      }
    }
    positions[i] := dst;
    assert positions[..] == Shifted(before, i, dst);
  }
}
