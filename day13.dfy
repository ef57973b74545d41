/** Day 13: distress-signal packets (nested lists of integers), their
    ordering, their parser and the sum of the indices of ordered pairs. */
module Day13 {
  import opened Common

  /** `Packet`; the integers are `u16`. */
  datatype Packet = List(items: seq<Packet>) | Integer(n: nat)

  /** Number of constructors in a packet, the measure of the recursion. */
  function Size(p: Packet): (s: nat)
    ensures s >= 1
    decreases p
  {
    match p
    case Integer(_) => 1
    case List(xs) => 1 + SizeList(xs)
  }

  function SizeList(xs: seq<Packet>): (s: nat)
    ensures xs != [] ==> s >= Size(xs[0]) + SizeList(xs[1..])
    decreases xs
  {
    if xs == [] then 0 else Size(xs[0]) + SizeList(xs[1..])
  }

  // ---------------------------------------------------------------------
  // Ordering
  // ---------------------------------------------------------------------

  /** `partial_cmp` (which always answers), as a function: integers compare
      by value, lists lexicographically, and an integer against a list is
      compared as the one-element list holding it. */
  function Compare(a: Packet, b: Packet): (o: Ordering)
    ensures a.Integer? && b.Integer? ==> (o == Equal <==> a.n == b.n)
    ensures o == Equal && a.List? && b.List? ==> |a.items| == |b.items|
    ensures o == Equal && a.Integer? && b.List? ==> |b.items| == 1
    ensures o == Equal && a.List? && b.Integer? ==> |a.items| == 1
    decreases Size(a) + Size(b), 0
  {
    match (a, b)
    case (Integer(x), Integer(y)) => CompareInt(x, y)
    case (List(xs), List(ys)) => CompareList(xs, ys)
    case (List(xs), Integer(y)) => CompareList(xs, [Integer(y)])
    case (Integer(x), List(ys)) => CompareList([Integer(x)], ys)
  }

  /** `partial_cmp_list`: the first pair of elements that is not `Equal`
      decides; when one list runs out first, the shorter is `Less`. Only
      lists of the same length are `Equal`. */
  function CompareList(xs: seq<Packet>, ys: seq<Packet>): (o: Ordering)
    ensures o == Equal ==> |xs| == |ys|
    ensures xs != [] && ys == [] ==> o == Greater
    ensures xs == [] && ys != [] ==> o == Less
    decreases SizeList(xs) + SizeList(ys), 1
  {
    if xs == [] || ys == [] then CompareInt(|xs|, |ys|)
    else
      var o := Compare(xs[0], ys[0]);
      if o != Equal then o else CompareList(xs[1..], ys[1..])
  }

  /** Every packet is `Equal` to itself. */
  lemma {:induction false} CompareReflexive(a: Packet)
    ensures Compare(a, a) == Equal
    decreases Size(a), 0
  {
    match a
    case Integer(_) =>
    case List(xs) => CompareListReflexive(xs);
  }

  lemma {:induction false} CompareListReflexive(xs: seq<Packet>)
    ensures CompareList(xs, xs) == Equal
    decreases SizeList(xs), 1
  {
    if xs != [] {
      CompareReflexive(xs[0]);
      CompareListReflexive(xs[1..]);
    }
  }

  /** Swapping the operands reverses the ordering. */
  lemma {:induction false} CompareAntisymmetric(a: Packet, b: Packet)
    ensures Compare(b, a) == Compare(a, b).Reverse()
    decreases Size(a) + Size(b), 0
  {
    match (a, b)
    case (Integer(x), Integer(y)) =>
    case (List(xs), List(ys)) => CompareListAntisymmetric(xs, ys);
    case (List(xs), Integer(y)) => CompareListAntisymmetric(xs, [Integer(y)]);
    case (Integer(x), List(ys)) => CompareListAntisymmetric([Integer(x)], ys);
  }

  lemma {:induction false} CompareListAntisymmetric(xs: seq<Packet>, ys: seq<Packet>)
    ensures CompareList(ys, xs) == CompareList(xs, ys).Reverse()
    decreases SizeList(xs) + SizeList(ys), 1
  {
    if xs != [] && ys != [] {
      CompareAntisymmetric(xs[0], ys[0]);
      CompareListAntisymmetric(xs[1..], ys[1..]);
    }
  }

  /** An integer on either side is compared exactly as the one-element list
      holding it. */
  lemma IntegerAsSingleton(x: nat, b: Packet)
    ensures Compare(Integer(x), b) == Compare(List([Integer(x)]), b)
    ensures Compare(b, Integer(x)) == Compare(b, List([Integer(x)]))
  {
    if b.Integer? {
      assert [Integer(x)][1..] == [] && [b][1..] == [];
      assert CompareList([Integer(x)], [b]) == Compare(Integer(x), b);
      assert CompareList([b], [Integer(x)]) == Compare(b, Integer(x));
    }
  }

  /** Two lists sharing a prefix compare as what follows it. */
  lemma {:induction false} CompareListCommonPrefix(p: seq<Packet>, xs: seq<Packet>, ys: seq<Packet>)
    ensures CompareList(p + xs, p + ys) == CompareList(xs, ys)
    decreases |p|
  {
    if p != [] {
      CompareReflexive(p[0]);
      assert (p + xs)[0] == p[0] && (p + ys)[0] == p[0];
      assert (p + xs)[1..] == p[1..] + xs && (p + ys)[1..] == p[1..] + ys;
      CompareListCommonPrefix(p[1..], xs, ys);
    } else {
      assert p + xs == xs && p + ys == ys;
    }
  }

  /** A proper prefix of a list is `Less` than the list. */
  lemma PrefixIsLess(xs: seq<Packet>, ys: seq<Packet>)
    requires ys != []
    ensures CompareList(xs, xs + ys) == Less
  {
    CompareListCommonPrefix(xs, [], ys);
    assert xs + [] == xs;
  }

  /** `partial_cmp` with its `while let` loop over both lists. */
  method PartialCmp(a: Packet, b: Packet) returns (o: Option<Ordering>)
    ensures o == Some(Compare(a, b))
    decreases Size(a) + Size(b), 0
  {
    match (a, b)
    case (Integer(x), Integer(y)) => o := Some(CompareInt(x, y));
    case (List(xs), List(ys)) => o := PartialCmpList(xs, ys);
    case (List(xs), Integer(y)) => o := PartialCmpList(xs, [Integer(y)]);
    case (Integer(x), List(ys)) => o := PartialCmpList([Integer(x)], ys);
  }

  /** `partial_cmp_list`: step through both lists together and return the
      first ordering that is not `Equal`; otherwise compare the lengths. */
  method PartialCmpList(xs: seq<Packet>, ys: seq<Packet>) returns (o: Option<Ordering>)
    ensures o == Some(CompareList(xs, ys))
    decreases SizeList(xs) + SizeList(ys), 1
  {
    var i := 0;
    while i < |xs| && i < |ys|
      invariant i <= |xs| && i <= |ys|
      invariant CompareList(xs[i..], ys[i..]) == CompareList(xs, ys)
      invariant SizeList(xs[i..]) <= SizeList(xs) && SizeList(ys[i..]) <= SizeList(ys)
    {
      assert xs[i..][1..] == xs[i + 1..] && ys[i..][1..] == ys[i + 1..];
      var ordering := PartialCmp(xs[i], ys[i]);
      if ordering.value != Equal {
        return ordering;
      }
      i := i + 1;
    }
    o := Some(CompareInt(|xs|, |ys|));
    assert CompareList(xs[i..], ys[i..]) == CompareInt(|xs| - i, |ys| - i);
  }

  // ---------------------------------------------------------------------
  // Counting ordered pairs
  // ---------------------------------------------------------------------

  /** The sum of the 1-based indices of the pairs whose left packet is
      `Less` than the right one. */
  function CorrectPairsSum(pairs: seq<(Packet, Packet)>): nat {
    if pairs == [] then 0
    else
      var last := pairs[|pairs| - 1];
      CorrectPairsSum(pairs[..|pairs| - 1]) + (if Compare(last.0, last.1) == Less then |pairs| else 0)
  }

  /** The sum is at most 1 + 2 + ... + n, and reaches it exactly when every
      pair is in order. */
  lemma {:induction false} CorrectPairsSumBound(pairs: seq<(Packet, Packet)>)
    ensures 2 * CorrectPairsSum(pairs) <= |pairs| * (|pairs| + 1)
    ensures (forall i :: 0 <= i < |pairs| ==> Compare(pairs[i].0, pairs[i].1) == Less) ==>
      2 * CorrectPairsSum(pairs) == |pairs| * (|pairs| + 1)
  {
    if pairs != [] {
      var n := |pairs|;
      var front := pairs[..n - 1];
      CorrectPairsSumBound(front);
      var last := pairs[n - 1];
      assert CorrectPairsSum(pairs) == CorrectPairsSum(front) + (if Compare(last.0, last.1) == Less then n else 0);
      TriangleStep(n);
      if forall i :: 0 <= i < n ==> Compare(pairs[i].0, pairs[i].1) == Less {
        assert forall i :: 0 <= i < |front| ==> front[i] == pairs[i];
      }
    }
  }

  /** The step from 1 + ... + (n - 1) to 1 + ... + n, doubled. */
  lemma TriangleStep(n: nat)
    requires n > 0
    ensures (n - 1) * n + 2 * n == n * (n + 1)
    ensures (n - 1) * n <= n * (n + 1)
  {
  }

  /** A pair in order adds exactly its index; any other adds nothing. */
  lemma CorrectPairsSumAppend(pairs: seq<(Packet, Packet)>, pair: (Packet, Packet))
    ensures CorrectPairsSum(pairs + [pair]) ==
      CorrectPairsSum(pairs) + (if Compare(pair.0, pair.1) == Less then |pairs| + 1 else 0)
  {
    assert (pairs + [pair])[..|pairs|] == pairs;
  }

  /** `get_number_of_correct_pairs`. The `u16` total is not bounded
      here. */
  method GetNumberOfCorrectPairs(pairs: seq<(Packet, Packet)>) returns (total: nat)
    ensures total == CorrectPairsSum(pairs)
  {
    total := 0;
    for i := 0 to |pairs|
      invariant total == CorrectPairsSum(pairs[..i])
    {
      var (left, right) := pairs[i];
      CorrectPairsSumAppend(pairs[..i], pairs[i]);
      assert pairs[..i + 1] == pairs[..i] + [pairs[i]];
      var ordering := PartialCmp(left, right);
      if ordering == Some(Less) {
        total := total + i + 1;
      }
    }
    assert pairs[..|pairs|] == pairs;
  }

  /** The eight pairs of the puzzle's example. */
  function ExamplePairs(): seq<(Packet, Packet)> {
    var I := n => Integer(n);
    [ (List([I(1), I(1), I(3), I(1), I(1)]), List([I(1), I(1), I(5), I(1), I(1)])),
      (List([List([I(1)]), List([I(2), I(3), I(4)])]), List([List([I(1)]), I(4)])),
      (List([I(9)]), List([List([I(8), I(7), I(6)])])),
      (List([List([I(4), I(4)]), I(4), I(4)]), List([List([I(4), I(4)]), I(4), I(4), I(4)])),
      (List([I(7), I(7), I(7), I(7)]), List([I(7), I(7), I(7)])),
      (List([]), List([I(3)])),
      (List([List([List([])])]), List([List([])])),
      (List([I(1), List([I(2), List([I(3), List([I(4), List([I(5), I(6), I(7)])])])]), I(8), I(9)]),
       List([I(1), List([I(2), List([I(3), List([I(4), List([I(5), I(6), I(0)])])])]), I(8), I(9)]))
    ]
  }

  /** After a common prefix, the first pair of elements that differs
      decides. */
  lemma FirstDiffers(p: seq<Packet>, x: Packet, y: Packet, xs: seq<Packet>, ys: seq<Packet>)
    requires Compare(x, y) != Equal
    ensures CompareList(p + [x] + xs, p + [y] + ys) == Compare(x, y)
  {
    CompareListCommonPrefix(p, [x] + xs, [y] + ys);
    assert p + [x] + xs == p + ([x] + xs) && p + [y] + ys == p + ([y] + ys);
  }

  /** The orderings of the example's first four pairs. */
  lemma ExampleOrderingsFirst()
    ensures Compare(ExamplePairs()[0].0, ExamplePairs()[0].1) == Less
    ensures Compare(ExamplePairs()[1].0, ExamplePairs()[1].1) == Less
    ensures Compare(ExamplePairs()[2].0, ExamplePairs()[2].1) == Greater
    ensures Compare(ExamplePairs()[3].0, ExamplePairs()[3].1) == Less
  {
    var pairs := ExamplePairs();
    var one, four := Integer(1), Integer(4);
    FirstDiffers([one, one], Integer(3), Integer(5), [one, one], [one, one]);
    assert [one, one] + [Integer(3)] + [one, one] == pairs[0].0.items;
    assert [one, one] + [Integer(5)] + [one, one] == pairs[0].1.items;
    assert Compare(pairs[0].0, pairs[0].1) == Less;
    FirstDiffers([], Integer(2), four, [Integer(3), four], []);
    assert [] + [Integer(2)] + [Integer(3), four] == [Integer(2), Integer(3), four];
    assert [] + [four] + [] == [four];
    FirstDiffers([List([one])], List([Integer(2), Integer(3), four]), four, [], []);
    assert [List([one])] + [List([Integer(2), Integer(3), four])] + [] == pairs[1].0.items;
    assert [List([one])] + [four] + [] == pairs[1].1.items;
    assert Compare(pairs[1].0, pairs[1].1) == Less;
    FirstDiffers([], Integer(9), Integer(8), [], [Integer(7), Integer(6)]);
    FirstDiffers([], Integer(9), List([Integer(8), Integer(7), Integer(6)]), [], []);
    assert Compare(pairs[2].0, pairs[2].1) == Greater;
    PrefixIsLess([List([four, four]), four, four], [four]);
    assert [List([four, four]), four, four] + [four] == pairs[3].1.items;
    assert Compare(pairs[3].0, pairs[3].1) == Less;
  }

  /** The orderings of the example's last four pairs. */
  lemma ExampleOrderingsLast()
    ensures Compare(ExamplePairs()[4].0, ExamplePairs()[4].1) == Greater
    ensures Compare(ExamplePairs()[5].0, ExamplePairs()[5].1) == Less
    ensures Compare(ExamplePairs()[6].0, ExamplePairs()[6].1) == Greater
    ensures Compare(ExamplePairs()[7].0, ExamplePairs()[7].1) == Greater
  {
    ExampleOrderingFifth();
    ExampleOrderingsSixthSeventh();
    ExampleOrderingEighth();
  }

  /** [7,7,7,7] against [7,7,7]: the right list runs out first. */
  lemma ExampleOrderingFifth()
    ensures Compare(ExamplePairs()[4].0, ExamplePairs()[4].1) == Greater
  {
    var pairs := ExamplePairs();
    var seven := Integer(7);
    PrefixIsLess([seven, seven, seven], [seven]);
    assert [seven, seven, seven] + [seven] == pairs[4].0.items;
    CompareListAntisymmetric([seven, seven, seven], [seven, seven, seven, seven]);
  }

  /** [] against [3], and [[[]]] against [[]]. */
  lemma ExampleOrderingsSixthSeventh()
    ensures Compare(ExamplePairs()[5].0, ExamplePairs()[5].1) == Less
    ensures Compare(ExamplePairs()[6].0, ExamplePairs()[6].1) == Greater
  {
    var pairs := ExamplePairs();
    assert Compare(pairs[5].0, pairs[5].1) == Less;
    FirstDiffers([], List([List([])]), List([]), [], []);
  }

  /** The deeply nested pair: 7 against 0 at the bottom. */
  lemma ExampleOrderingEighth()
    ensures Compare(ExamplePairs()[7].0, ExamplePairs()[7].1) == Greater
  {
    var pairs := ExamplePairs();
    var one, four, seven := Integer(1), Integer(4), Integer(7);
    var five, six := Integer(5), Integer(6);
    FirstDiffers([five, six], seven, Integer(0), [], []);
    assert [five, six] + [seven] + [] == [five, six, seven];
    assert [five, six] + [Integer(0)] + [] == [five, six, Integer(0)];
    var a4, b4 := List([five, six, seven]), List([five, six, Integer(0)]);
    FirstDiffers([four], a4, b4, [], []);
    assert [four] + [a4] + [] == [four, a4] && [four] + [b4] + [] == [four, b4];
    var a3, b3 := List([four, a4]), List([four, b4]);
    FirstDiffers([Integer(3)], a3, b3, [], []);
    assert [Integer(3)] + [a3] + [] == [Integer(3), a3] && [Integer(3)] + [b3] + [] == [Integer(3), b3];
    var a2, b2 := List([Integer(3), a3]), List([Integer(3), b3]);
    FirstDiffers([Integer(2)], a2, b2, [], []);
    assert [Integer(2)] + [a2] + [] == [Integer(2), a2] && [Integer(2)] + [b2] + [] == [Integer(2), b2];
    var a1, b1 := List([Integer(2), a2]), List([Integer(2), b2]);
    FirstDiffers([one], a1, b1, [Integer(8), Integer(9)], [Integer(8), Integer(9)]);
    assert [one] + [a1] + [Integer(8), Integer(9)] == pairs[7].0.items;
    assert [one] + [b1] + [Integer(8), Integer(9)] == pairs[7].1.items;
  }

  /** Pairs 1, 2, 4 and 6 of the example are in order, so the sum is 13. */
  lemma ExampleCorrectPairs()
    ensures CorrectPairsSum(ExamplePairs()) == 13
  {
    var pairs := ExamplePairs();
    ExampleOrderingsFirst();
    ExampleOrderingsLast();
    assert CorrectPairsSum(pairs[..0]) == 0;
    assert pairs[..1][..0] == pairs[..0];
    assert CorrectPairsSum(pairs[..1]) == 1;
    assert pairs[..2][..1] == pairs[..1];
    assert CorrectPairsSum(pairs[..2]) == 3;
    assert pairs[..3][..2] == pairs[..2];
    assert CorrectPairsSum(pairs[..3]) == 3;
    assert pairs[..4][..3] == pairs[..3];
    assert CorrectPairsSum(pairs[..4]) == 7;
    assert pairs[..5][..4] == pairs[..4];
    assert CorrectPairsSum(pairs[..5]) == 7;
    assert pairs[..6][..5] == pairs[..5];
    assert CorrectPairsSum(pairs[..6]) == 13;
    assert pairs[..7][..6] == pairs[..6];
    assert CorrectPairsSum(pairs[..7]) == 13;
    assert pairs[..8][..7] == pairs[..7];
    assert CorrectPairsSum(pairs[..8]) == 13;
    assert pairs[..8] == pairs;
  }

  // ---------------------------------------------------------------------
  // Text form
  // ---------------------------------------------------------------------

  /** A packet the parser can read back: every integer fits in `u16` and
      the nesting fits the parser's `u8` bracket level. */
  ghost predicate WellFormed(p: Packet) {
    IntegersFit(p) && Nesting(p) <= 255
  }

  predicate IntegersFit(p: Packet)
    decreases p
  {
    match p
    case Integer(n) => n < 0x1_0000
    case List(xs) => forall i :: 0 <= i < |xs| ==> IntegersFit(xs[i])
  }

  /** Depth of bracket nesting. */
  function Nesting(p: Packet): nat
    decreases p
  {
    match p
    case Integer(_) => 0
    case List(xs) => 1 + NestingList(xs)
  }

  function NestingList(xs: seq<Packet>): (m: nat)
    ensures forall i :: 0 <= i < |xs| ==> Nesting(xs[i]) <= m
    decreases xs
  {
    if xs == [] then 0 else Max(Nesting(xs[0]), NestingList(xs[1..]))
  }

  /** The packet as the puzzle writes it: integers in decimal, lists in
      brackets with commas between the items. */
  function Render(p: Packet): (s: string)
    ensures |s| > 0
    decreases p
  {
    match p
    case Integer(n) => NatToString(n)
    case List(xs) => "[" + RenderItems(xs) + "]"
  }

  function RenderItems(xs: seq<Packet>): string
    decreases xs
  {
    if xs == [] then ""
    else if |xs| == 1 then Render(xs[0])
    else Render(xs[0]) + "," + RenderItems(xs[1..])
  }

  /** The offsets in `s` shifted by `o`. */
  function Shift(s: seq<nat>, o: nat): (r: seq<nat>)
    ensures |r| == |s|
    ensures forall i :: 0 <= i < |s| ==> r[i] == s[i] + o
  {
    seq(|s|, i requires 0 <= i < |s| => s[i] + o)
  }

  /** The offsets, inside `RenderItems(xs)`, of the commas that separate
      the items. */
  function Separators(xs: seq<Packet>): (r: seq<nat>)
    ensures |xs| > 0 ==> |r| == |xs| - 1
    decreases xs
  {
    if |xs| <= 1 then []
    else
      var n := |Render(xs[0])|;
      [n] + Shift(Separators(xs[1..]), n + 1)
  }

  // ---------------------------------------------------------------------
  // Parser
  // ---------------------------------------------------------------------

  /** One step of the `u8` bracket level: `[` raises it and `]` lowers it;
      either panics (`None`) when the level would leave `0..255`. */
  function StepLevel(level: nat, c: char): (r: Option<nat>)
    ensures c != '[' && c != ']' ==> r == Some(level)
    ensures c == '[' ==> (r.Some? <==> level < 255) && (r.Some? ==> r.value == level + 1)
    ensures c == ']' ==> (r.Some? <==> level > 0) && (r.Some? ==> r.value + 1 == level)
  {
    if c == '[' then (if level < 255 then Some(level + 1) else None)
    else if c == ']' then (if level > 0 then Some(level - 1) else None)
    else Some(level)
  }

  /** The bracket level after reading `s` from level `d`, or `None` once a
      step has panicked. */
  function LevelFrom(d: nat, s: string): Option<nat>
    decreases |s|
  {
    if s == [] then Some(d)
    else
      match LevelFrom(d, s[..|s| - 1])
      case None => None
      case Some(l) => StepLevel(l, s[|s| - 1])
  }

  /** The indices of the commas of `s` read at level 1, starting from
      level `d`. */
  function CommasFrom(d: nat, s: string): (r: seq<nat>)
    ensures forall i :: 0 <= i < |r| ==> r[i] < |s| && s[r[i]] == ','
    ensures forall i, j :: 0 <= i < j < |r| ==> r[i] < r[j]
    decreases |s|
  {
    if s == [] then []
    else
      var pre := CommasFrom(d, s[..|s| - 1]);
      if s[|s| - 1] == ',' && LevelFrom(d, s[..|s| - 1]) == Some(1) then pre + [|s| - 1] else pre
  }

  /** The split indices of `parse_packet`: 0, the commas at level 1 and
      the last index; `None` when the level loop panics or the input is
      empty (`input.len() - 1` underflows). */
  function Splits(input: string): (r: Option<seq<nat>>)
    ensures r.Some? ==> |r.value| >= 2 && forall k :: 0 <= k < |r.value| ==> r.value[k] < |input|
  {
    if |input| == 0 || LevelFrom(0, input).None? then None
    else Some([0] + CommasFrom(0, input) + [|input| - 1])
  }

  /** Consecutive split indices may be sliced between: the slice
      `input[a + 1..b]` panics when `a + 1 > b`. */
  predicate Sliceable(splits: seq<nat>) {
    forall k :: 0 <= k < |splits| - 1 ==> splits[k] + 1 <= splits[k + 1]
  }

  /** The item strings between consecutive split indices. */
  function Items(input: string, splits: seq<nat>): (r: Option<seq<string>>)
    requires |splits| >= 1 && forall k :: 0 <= k < |splits| ==> splits[k] < |input|
    ensures r.Some? <==> Sliceable(splits)
    ensures r.Some? ==> |r.value| == |splits| - 1
    ensures r.Some? ==> forall k :: 0 <= k < |r.value| ==>
      r.value[k] == input[splits[k] + 1..splits[k + 1]] && |r.value[k]| + 2 <= |input|
  {
    if Sliceable(splits) then
      Some(seq(|splits| - 1, k requires 0 <= k < |splits| - 1 => input[splits[k] + 1..splits[k + 1]]))
    else None
  }

  /** `parse_packet` as a function; `None` wherever the source panics. */
  function Parse(input: string): (r: Option<Packet>)
    ensures ParseUnsigned(input, 0x1_0000).Some? ==> r == Some(Integer(ParseUnsigned(input, 0x1_0000).value))
    ensures input == "[]" ==> r == Some(List([]))
    ensures |input| == 0 ==> r.None?
    decreases |input|
  {
    var number := ParseUnsigned(input, 0x1_0000);
    if number.Some? then Some(Integer(number.value))
    else if input == "[]" then Some(List([]))
    else
      var splits := Splits(input);
      if splits.None? then None
      else
        var items := Items(input, splits.value);
        if items.None? then None
        else
          var parsed := seq(|items.value|, k requires 0 <= k < |items.value| => Parse(items.value[k]));
          if forall k :: 0 <= k < |parsed| ==> parsed[k].Some? then
            Some(List(seq(|parsed|, k requires 0 <= k < |parsed| => parsed[k].value)))
          else None
  }

  /** A list whose `k`-th item does not parse does not parse. */
  lemma ParseItemFails(input: string, k: nat)
    requires ParseUnsigned(input, 0x1_0000).None? && input != "[]" && Splits(input).Some?
    requires Items(input, Splits(input).value).Some?
    requires k < |Items(input, Splits(input).value).value|
    requires Parse(Items(input, Splits(input).value).value[k]).None?
    ensures Parse(input).None?
  {
    var items := Items(input, Splits(input).value).value;
    var parsed := seq(|items|, j requires 0 <= j < |items| => Parse(items[j]));
    assert parsed[k].None?;
  }

  /** A list whose items all parse is the list of their packets. */
  lemma ParseItemsSucceed(input: string, packets: seq<Packet>)
    requires ParseUnsigned(input, 0x1_0000).None? && input != "[]" && Splits(input).Some?
    requires Items(input, Splits(input).value).Some?
    requires |packets| == |Items(input, Splits(input).value).value|
    requires forall j :: 0 <= j < |packets| ==> Parse(Items(input, Splits(input).value).value[j]) == Some(packets[j])
    ensures Parse(input) == Some(List(packets))
  {
    var items := Items(input, Splits(input).value).value;
    var parsed := seq(|items|, j requires 0 <= j < |items| => Parse(items[j]));
    assert forall k :: 0 <= k < |parsed| ==> parsed[k] == Some(packets[k]);
    assert seq(|parsed|, k requires 0 <= k < |parsed| => parsed[k].value) == packets;
  }

  /** The level loop of `parse_packet`, collecting the split indices. */
  method SplitIndices(input: string) returns (r: Option<seq<nat>>)
    ensures r == Splits(input)
  {
    var splitIndices := [0];
    var level: nat := 0;
    for i := 0 to |input|
      invariant LevelFrom(0, input[..i]) == Some(level) && level <= 255
      invariant splitIndices == [0] + CommasFrom(0, input[..i])
    {
      var c := input[i];
      assert input[..i + 1][..i] == input[..i];
      assert LevelFrom(0, input[..i + 1]) == StepLevel(level, c);
      if c == '[' {
        if level == 255 {
          LevelStaysNone(input[..i + 1], input[i + 1..]);
          assert input[..i + 1] + input[i + 1..] == input;
          return None;
        }
        level := level + 1;
      }
      if c == ']' {
        if level == 0 {
          LevelStaysNone(input[..i + 1], input[i + 1..]);
          assert input[..i + 1] + input[i + 1..] == input;
          return None;
        }
        level := level - 1;
      }
      if c == ',' && level == 1 {
        splitIndices := splitIndices + [i];
      }
    }
    assert input[..|input|] == input;
    if |input| == 0 {
      return None;
    }
    r := Some(splitIndices + [|input| - 1]);
  }

  /** Once the level loop has panicked, reading more does not help. */
  lemma {:induction false} LevelStaysNone(s: string, t: string)
    requires LevelFrom(0, s).None?
    ensures LevelFrom(0, s + t).None?
    decreases |t|
  {
    if t == [] {
      assert s + t == s;
    } else {
      var t' := t[..|t| - 1];
      assert (s + t)[..|s + t| - 1] == s + t';
      LevelStaysNone(s, t');
    }
  }

  /** The item loop of `parse_packet`, slicing between split indices. */
  method ItemStrings(input: string, splits: seq<nat>) returns (r: Option<seq<string>>)
    requires |splits| >= 1 && forall k :: 0 <= k < |splits| ==> splits[k] < |input|
    ensures r == Items(input, splits)
  {
    var items: seq<string> := [];
    for i := 0 to |splits| - 1
      invariant |items| == i
      invariant forall k :: 0 <= k < i ==> splits[k] + 1 <= splits[k + 1] && items[k] == input[splits[k] + 1..splits[k + 1]]
    {
      var start := splits[i] + 1;
      var end := splits[i + 1];
      if start > end {
        return None;
      }
      items := items + [input[start..end]];
    }
    assert Sliceable(splits);
    assert forall k :: 0 <= k < |items| ==> items[k] == Items(input, splits).value[k];
    assert items == Items(input, splits).value;
    r := Some(items);
  }

  /** `parse_packet`: a `u16` numeral, `[]`, or a list split at the commas
      read at bracket level 1, each item parsed recursively. */
  method ParsePacket(input: string) returns (r: Option<Packet>)
    ensures r == Parse(input)
    decreases |input|
  {
    var number := ParseUnsigned(input, 0x1_0000);
    if number.Some? {
      return Some(Integer(number.value));
    }
    if input == "[]" {
      return Some(List([]));
    }
    var splits := SplitIndices(input);
    if splits.None? {
      return None;
    }
    var items := ItemStrings(input, splits.value);
    if items.None? {
      return None;
    }
    var inner: seq<Packet> := [];
    for k := 0 to |items.value|
      invariant |inner| == k
      invariant forall j :: 0 <= j < k ==> Parse(items.value[j]) == Some(inner[j])
    {
      var packet := ParsePacket(items.value[k]);
      if packet.None? {
        ParseItemFails(input, k);
        return None;
      }
      inner := inner + [packet.value];
    }
    ParseItemsSucceed(input, inner);
    r := Some(List(inner));
  }

  // ---------------------------------------------------------------------
  // Parsing what is rendered
  // ---------------------------------------------------------------------

  /** The level after `s + t` is the level after `t` read from the level
      after `s`. */
  lemma {:induction false} LevelConcat(d: nat, s: string, t: string)
    requires LevelFrom(d, s).Some?
    ensures LevelFrom(d, s + t) == LevelFrom(LevelFrom(d, s).value, t)
    decreases |t|
  {
    if t == [] {
      assert s + t == s;
    } else {
      var t' := t[..|t| - 1];
      assert (s + t)[..|s + t| - 1] == s + t';
      LevelConcat(d, s, t');
    }
  }

  /** The level-1 commas of `s + t` are those of `s` followed by those of
      `t`, read from the level after `s` and offset by `|s|`. */
  lemma {:induction false} CommasConcat(d: nat, s: string, t: string)
    requires LevelFrom(d, s).Some?
    ensures CommasFrom(d, s + t) == CommasFrom(d, s) + Shift(CommasFrom(LevelFrom(d, s).value, t), |s|)
    decreases |t|
  {
    if t == [] {
      assert s + t == s;
    } else {
      var t' := t[..|t| - 1];
      assert (s + t)[..|s + t| - 1] == s + t';
      CommasConcat(d, s, t');
      LevelConcat(d, s, t');
    }
  }

  /** A numeral holds no brackets or commas. */
  lemma {:induction false} NumeralLevels(d: nat, s: string)
    requires IsNumeral(s)
    ensures LevelFrom(d, s) == Some(d) && CommasFrom(d, s) == []
    decreases |s|
  {
    if |s| > 1 {
      NumeralLevels(d, s[..|s| - 1]);
    }
  }

  /** Read from any level `d >= 1`, a rendered packet returns to `d` and
      holds no comma at level 1. */
  lemma {:induction false} RenderLevels(p: Packet, d: nat)
    requires 1 <= d && d + Nesting(p) <= 255
    ensures LevelFrom(d, Render(p)) == Some(d)
    ensures CommasFrom(d, Render(p)) == []
    decreases p
  {
    match p
    case Integer(n) => NumeralLevels(d, NatToString(n));
    case List(xs) =>
      RenderItemsLevels(xs, d + 1);
      Bracketed(d, RenderItems(xs));
  }

  /** Brackets around text that returns to the level inside them return to
      the level outside, below which no comma is at level 1. */
  lemma Bracketed(d: nat, inside: string)
    requires 1 <= d < 255
    requires LevelFrom(d + 1, inside) == Some(d + 1) && CommasFrom(d + 1, inside) == []
    ensures LevelFrom(d, "[" + inside + "]") == Some(d) && CommasFrom(d, "[" + inside + "]") == []
  {
    var front := "[" + inside;
    OneCharacter(d, '[');
    OneCharacter(d + 1, ']');
    LevelConcat(d, "[", inside);
    CommasConcat(d, "[", inside);
    assert LevelFrom(d, front) == Some(d + 1);
    assert CommasFrom(d, front) == [] + Shift([], 1);
    LevelConcat(d, front, "]");
    CommasConcat(d, front, "]");
    assert CommasFrom(d, front + "]") == [] + Shift([], |front|);
  }

  /** Two texts that each return to level `d`, joined by a comma: the comma
      counts when `d` is 1. */
  lemma CommaJoined(d: nat, first: string, rest: string)
    requires 1 <= d
    requires LevelFrom(d, first) == Some(d) && CommasFrom(d, first) == []
    requires LevelFrom(d, rest) == Some(d)
    ensures LevelFrom(d, first + "," + rest) == Some(d)
    ensures CommasFrom(d, first + "," + rest) == (if d == 1 then [|first|] else []) + Shift(CommasFrom(d, rest), |first| + 1)
  {
    var comma := first + ",";
    OneCharacter(d, ',');
    LevelConcat(d, first, ",");
    CommasConcat(d, first, ",");
    assert LevelFrom(d, comma) == Some(d);
    assert CommasFrom(d, comma) == [] + Shift(if d == 1 then [0] else [], |first|);
    assert CommasFrom(d, comma) == if d == 1 then [|first|] else [];
    LevelConcat(d, comma, rest);
    CommasConcat(d, comma, rest);
  }

  /** Reading one character. */
  lemma OneCharacter(d: nat, c: char)
    ensures LevelFrom(d, [c]) == StepLevel(d, c)
    ensures CommasFrom(d, [c]) == if c == ',' && d == 1 then [0] else []
  {
    assert [c][..0] == [];
  }

  /** Read from level `d >= 1`, rendered items return to `d`; at level 1
      their level-1 commas are exactly the separators. */
  lemma {:induction false} RenderItemsLevels(xs: seq<Packet>, d: nat)
    requires 1 <= d && d + NestingList(xs) <= 255
    ensures LevelFrom(d, RenderItems(xs)) == Some(d)
    ensures CommasFrom(d, RenderItems(xs)) == if d == 1 then Separators(xs) else []
    decreases xs
  {
    if |xs| == 1 {
      RenderLevels(xs[0], d);
    } else if |xs| >= 2 {
      var first := Render(xs[0]);
      var rest := RenderItems(xs[1..]);
      assert first + "," + rest == RenderItems(xs);
      RenderLevels(xs[0], d);
      RenderItemsLevels(xs[1..], d);
      CommaJoined(d, first, rest);
      if d == 1 {
        assert Separators(xs) == [|first|] + Shift(Separators(xs[1..]), |first| + 1);
      } else {
        assert CommasFrom(d, rest) == [];
        assert Shift(CommasFrom(d, rest), |first| + 1) == [];
      }
    } else {
      assert RenderItems(xs) == "";
    }
  }

  /** The split indices, at offset `o`, of the items `xs` rendered after
      `o` characters. */
  function Cuts(xs: seq<Packet>, o: nat): seq<nat>
    requires o >= 1
  {
    [o - 1] + Shift(Separators(xs), o) + [o + |RenderItems(xs)|]
  }

  /** The cuts of several items: the one before the first item, then
      the cuts of the rest. */
  lemma CutsStep(xs: seq<Packet>, o: nat)
    requires |xs| >= 2 && o >= 1
    ensures Cuts(xs, o) == [o - 1] + Cuts(xs[1..], o + |Render(xs[0])| + 1)
  {
    var n := |Render(xs[0])|;
    assert Shift(Separators(xs), o) == [o + n] + Shift(Separators(xs[1..]), o + n + 1);
  }

  /** The slice of `s` between cuts `k` and `k + 1` is valid and is
      `item`. */
  predicate SlicesTo(s: string, cuts: seq<nat>, k: nat, item: string)
    requires k + 1 < |cuts|
  {
    cuts[k] + 1 <= cuts[k + 1] <= |s| && s[cuts[k] + 1..cuts[k + 1]] == item
  }

  /** Slicing between consecutive cuts yields each item's text, wherever
      the items are rendered inside `s`. */
  lemma {:induction false} ItemSlices(xs: seq<Packet>, s: string, o: nat)
    requires |xs| > 0 && o >= 1 && o + |RenderItems(xs)| <= |s|
    requires s[o..o + |RenderItems(xs)|] == RenderItems(xs)
    ensures |Cuts(xs, o)| == |xs| + 1
    ensures forall k :: 0 <= k < |xs| ==> SlicesTo(s, Cuts(xs, o), k, Render(xs[k]))
    decreases xs
  {
    var first := Render(xs[0]);
    var cuts := Cuts(xs, o);
    if |xs| == 1 {
      assert cuts == [o - 1, o + |first|];
      assert s[o..o + |first|] == first;
    } else {
      var rest := RenderItems(xs[1..]);
      var o' := o + |first| + 1;
      var cuts' := Cuts(xs[1..], o');
      CutsStep(xs, o);
      assert cuts[1..] == cuts';
      RenderItemsCons(xs);
      CommaPieces(s, o, first, rest);
      ItemSlices(xs[1..], s, o');
      assert SlicesTo(s, cuts, 0, first) by {
        assert cuts[0] == o - 1 && cuts[1] == o + |first|;
      }
      SlicesAfterFirst(s, xs, cuts, cuts');
    }
  }

  /** The slices after the first cut are those of the remaining items. */
  lemma SlicesAfterFirst(s: string, xs: seq<Packet>, cuts: seq<nat>, cuts': seq<nat>)
    requires |xs| >= 2 && |cuts'| == |xs| && |cuts| == |xs| + 1 && cuts[1..] == cuts'
    requires SlicesTo(s, cuts, 0, Render(xs[0]))
    requires forall k :: 0 <= k < |xs| - 1 ==> SlicesTo(s, cuts', k, Render(xs[1..][k]))
    ensures forall k :: 0 <= k < |xs| ==> SlicesTo(s, cuts, k, Render(xs[k]))
  {
    forall k | 0 < k < |xs|
      ensures SlicesTo(s, cuts, k, Render(xs[k]))
    {
      assert cuts[k] == cuts'[k - 1] && cuts[k + 1] == cuts'[k];
      assert xs[k] == xs[1..][k - 1];
      assert SlicesTo(s, cuts', k - 1, Render(xs[1..][k - 1]));
    }
  }

  /** Several items render as the first, a comma and the rest. */
  lemma RenderItemsCons(xs: seq<Packet>)
    requires |xs| >= 2
    ensures RenderItems(xs) == Render(xs[0]) + "," + RenderItems(xs[1..])
  {
  }

  /** Where `a + "," + b` sits in `s` at `o`, `a` sits at `o` and `b` just
      after the comma. */
  lemma CommaPieces(s: string, o: nat, a: string, b: string)
    requires o + |a| + 1 + |b| <= |s| && s[o..o + |a| + 1 + |b|] == a + "," + b
    ensures s[o..o + |a|] == a
    ensures s[o + |a| + 1..o + |a| + 1 + |b|] == b
  {
    var r := a + "," + b;
    assert s[o..o + |a|] == r[..|a|];
    assert r[..|a|] == a;
    assert s[o + |a| + 1..o + |r|] == r[|a| + 1..];
    assert r[|a| + 1..] == b;
  }

  /** The split indices of a rendered non-empty list are its cuts. */
  lemma SplitsOfRendered(xs: seq<Packet>)
    requires xs != [] && 1 + NestingList(xs) <= 255
    ensures Splits(Render(List(xs))) == Some(Cuts(xs, 1))
  {
    var inside := RenderItems(xs);
    var input := Render(List(xs));
    RenderItemsLevels(xs, 1);
    assert LevelFrom(0, "[") == Some(1);
    LevelConcat(0, "[", inside);
    CommasConcat(0, "[", inside);
    LevelConcat(0, "[" + inside, "]");
    CommasConcat(0, "[" + inside, "]");
    assert CommasFrom(0, "[") == [] && CommasFrom(1, "]") == [];
    assert CommasFrom(0, input) == Shift(Separators(xs), 1);
  }

  /** The items of a rendered non-empty list are its items' texts. */
  lemma ItemsOfRendered(xs: seq<Packet>)
    requires xs != [] && 1 + NestingList(xs) <= 255
    ensures Splits(Render(List(xs))).Some?
    ensures Items(Render(List(xs)), Splits(Render(List(xs))).value).Some?
    ensures |Items(Render(List(xs)), Splits(Render(List(xs))).value).value| == |xs|
    ensures forall k :: 0 <= k < |xs| ==>
      Items(Render(List(xs)), Splits(Render(List(xs))).value).value[k] == Render(xs[k])
  {
    var input := Render(List(xs));
    SplitsOfRendered(xs);
    assert input[1..1 + |RenderItems(xs)|] == RenderItems(xs);
    ItemSlices(xs, input, 1);
  }

  /** Round trip: a well-formed packet parses back from its text. */
  lemma {:induction false} ParseRender(p: Packet)
    requires WellFormed(p)
    ensures Parse(Render(p)) == Some(p)
    decreases p
  {
    match p
    case Integer(n) =>
    case List(xs) =>
      var input := Render(p);
      if xs != [] {
        assert |RenderItems(xs)| > 0;
        assert input != "[]";
        ItemsOfRendered(xs);
        var items := Items(input, Splits(input).value);
        forall k | 0 <= k < |xs|
          ensures Parse(items.value[k]) == Some(xs[k])
        {
          ParseRender(xs[k]);
        }
        ParseItemsSucceed(input, xs);
      }
  }
}
