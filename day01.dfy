/** Day 1: the calories carried by each elf, read from blank-line separated
    blocks of numbers. */
module Day01 {
  import opened Common

  /** `Calorie` is `u32`. */
  const CalorieBound: nat := 0x1_0000_0000

  datatype Elf = Elf(inventory: seq<nat>)

  /** `parse_elf`: the non-empty lines of a block, each parsed as a `u32`;
      None where the source's `unwrap` panics. */
  function ParseElf(block: string): (r: Option<Elf>)
    ensures r.Some? <==> forall i :: 0 <= i < |NonEmpty(Split(block, '\n'))| ==>
      ParseUnsigned(NonEmpty(Split(block, '\n'))[i], CalorieBound).Some?
    ensures r.Some? ==> |r.value.inventory| == |NonEmpty(Split(block, '\n'))|
    ensures r.Some? ==> forall i :: 0 <= i < |r.value.inventory| ==>
      Some(r.value.inventory[i]) == ParseUnsigned(NonEmpty(Split(block, '\n'))[i], CalorieBound)
    ensures r.Some? ==> forall i :: 0 <= i < |r.value.inventory| ==> r.value.inventory[i] < CalorieBound
  {
    var lines := NonEmpty(Split(block, '\n'));
    var parsed := MapAll(ParseCalorie, lines);
    assert forall i :: 0 <= i < |lines| ==> ParseCalorie(lines[i]) == ParseUnsigned(lines[i], CalorieBound);
    if parsed.Some? then Some(Elf(parsed.value)) else None
  }

  /** One line of a block, a `u32` number of calories. */
  function ParseCalorie(line: string): Option<nat> {
    ParseUnsigned(line, CalorieBound)
  }

  /** `parse_puzzle`: one elf per block between occurrences of "\n\n". */
  function ParsePuzzle(puzzle: string): (r: Option<seq<Elf>>)
    ensures r.Some? <==> forall i :: 0 <= i < |SplitOn(puzzle, "\n\n")| ==> ParseElf(SplitOn(puzzle, "\n\n")[i]).Some?
    ensures r.Some? ==> |r.value| == |SplitOn(puzzle, "\n\n")|
    ensures r.Some? ==> forall i :: 0 <= i < |r.value| ==> Some(r.value[i]) == ParseElf(SplitOn(puzzle, "\n\n")[i])
  {
    var blocks := SplitOn(puzzle, "\n\n");
    var r := MapAll(ParseElf, blocks);
    assert r.Some? ==> forall i :: 0 <= i < |blocks| ==> r.value[i] == ParseElf(blocks[i]).value;
    r
  }

  /** `get_total_calories`: each elf's inventory summed, elf by elf. The
      sums are unbounded here. */
  function TotalCalories(elves: seq<Elf>): (totals: seq<int>)
    ensures |totals| == |elves|
    ensures forall i :: 0 <= i < |elves| ==> totals[i] == Sum(elves[i].inventory)
  {
    seq(|elves|, i requires 0 <= i < |elves| => Sum(elves[i].inventory))
  }

  /** `get_most_calories`: the largest total; None for an empty list, where
      the source's `unwrap` panics. */
  function MostCalories(calories: seq<int>): (r: Option<int>)
    ensures r.None? <==> calories == []
    ensures r.Some? ==> r.value in calories && forall i :: 0 <= i < |calories| ==> calories[i] <= r.value
  {
    if calories == [] then None
    else
      var rest := MostCalories(calories[1..]);
      if rest.None? || rest.value < calories[0] then Some(calories[0]) else rest
  }

  // ---------------------------------------------------------------------
  // The three largest totals: `sort`, then `rev().take(3).sum()`
  // ---------------------------------------------------------------------

  predicate Ascending(s: seq<int>) {
    forall i, j :: 0 <= i < j < |s| ==> s[i] <= s[j]
  }

  /** `x` put into its place in an ascending sequence. */
  function Insert(x: int, s: seq<int>): (r: seq<int>)
    requires Ascending(s)
    ensures Ascending(r)
    ensures multiset(r) == multiset(s) + multiset{x}
  {
    if s == [] || x <= s[0] then [x] + s
    else
      var tail := Insert(x, s[1..]);
      assert s == [s[0]] + s[1..];
      HeadBelow(x, s, tail);
      [s[0]] + tail
  }

  /** The head of an ascending sequence is below everything inserted after it. */
  lemma HeadBelow(x: int, s: seq<int>, tail: seq<int>)
    requires Ascending(s) && s != [] && s[0] < x
    requires multiset(tail) == multiset(s[1..]) + multiset{x}
    ensures forall k :: 0 <= k < |tail| ==> s[0] <= tail[k]
  {
    forall k | 0 <= k < |tail|
      ensures s[0] <= tail[k]
    {
      assert tail[k] in multiset(tail);
      if tail[k] != x {
        assert tail[k] in s[1..];
        var j :| 0 <= j < |s| - 1 && s[1..][j] == tail[k];
        assert s[j + 1] == tail[k];
      }
    }
  }

  /** The totals in ascending order, as Rust's `sort`. */
  function SortAscending(s: seq<int>): (r: seq<int>)
    ensures Ascending(r)
    ensures multiset(r) == multiset(s)
  {
    if s == [] then []
    else
      assert s == [s[0]] + s[1..];
      Insert(s[0], SortAscending(s[1..]))
  }

  /** The last (at most) three of the sorted totals: min(3, n) of the
      totals. */
  function TopThree(calories: seq<int>): (top: seq<int>)
    ensures |top| == Min(3, |calories|)
    ensures forall i :: 0 <= i < |top| ==> top[i] in calories
  {
    var sorted := SortAscending(calories);
    assert |sorted| == |multiset(sorted)| == |calories|;
    var top := sorted[|sorted| - Min(3, |sorted|)..];
    assert forall i :: 0 <= i < |top| ==> top[i] in multiset(sorted);
    top
  }

  /** The figure for the second half of the puzzle; with no negative
      totals it is at least the figure for the first half. */
  function TopThreeSum(calories: seq<int>): (total: int)
    ensures calories != [] && (forall i :: 0 <= i < |calories| ==> calories[i] >= 0) ==>
      MostCalories(calories).value <= total
  {
    var top := TopThree(calories);
    if calories != [] && (forall i :: 0 <= i < |calories| ==> calories[i] >= 0) then
      MostIsInTopThree(calories);
      SumAtLeastItem(top, MostCalories(calories).value);
      Sum(top)
    else
      Sum(top)
  }

  /** A sum of non-negative numbers is at least each of them. */
  lemma {:induction false} SumAtLeastItem(s: seq<int>, x: int)
    requires forall i :: 0 <= i < |s| ==> s[i] >= 0
    requires x in s
    ensures x <= Sum(s)
  {
    var n := |s| - 1;
    if s[n] == x {
      SumNonNegative(s[..n]);
    } else {
      assert x in s[..n];
      SumAtLeastItem(s[..n], x);
    }
  }

  /** The summed totals are three of the totals (all of them when there are
      fewer), and no total left out is larger than one taken. */
  lemma TopThreeAreLargest(calories: seq<int>)
    ensures |TopThree(calories)| == Min(3, |calories|)
    ensures multiset(TopThree(calories)) <= multiset(calories)
    ensures forall y, z :: y in multiset(calories) - multiset(TopThree(calories)) && z in TopThree(calories) ==> y <= z
  {
    var sorted := SortAscending(calories);
    assert |sorted| == |multiset(sorted)| == |calories|;
    var cut := |sorted| - Min(3, |sorted|);
    assert TopThree(calories) == sorted[cut..];
    CutMultiset(sorted, cut);
    CutOrdered(sorted, cut);
  }

  /** Cutting a list in two splits its multiset. */
  lemma CutMultiset(s: seq<int>, cut: nat)
    requires cut <= |s|
    ensures multiset(s[cut..]) <= multiset(s)
    ensures multiset(s) - multiset(s[cut..]) == multiset(s[..cut])
  {
    assert s == s[..cut] + s[cut..];
  }

  /** In an ascending list nothing before a cut exceeds anything after it. */
  lemma CutOrdered(s: seq<int>, cut: nat)
    requires Ascending(s) && cut <= |s|
    ensures forall y, z :: y in multiset(s[..cut]) && z in s[cut..] ==> y <= z
  {
    forall y, z | y in multiset(s[..cut]) && z in s[cut..] ensures y <= z {
      var a :| 0 <= a < cut && s[a] == y;
      var b :| cut <= b < |s| && s[b] == z;
    }
  }

  /** The largest total is the last of the three taken. */
  lemma MostIsInTopThree(calories: seq<int>)
    requires calories != []
    ensures MostCalories(calories).value in TopThree(calories)
  {
    var m := MostCalories(calories).value;
    var sorted := SortAscending(calories);
    assert |sorted| == |multiset(sorted)| == |calories|;
    var n := |sorted|;
    var z := sorted[n - 1];
    SameItems(sorted, calories, z);
    SameItems(calories, sorted, m);
    var j :| 0 <= j < n && sorted[j] == m;
    assert m <= z;
    assert TopThree(calories)[|TopThree(calories)| - 1] == z;
  }

  /** Two lists with the same multiset hold the same items. */
  lemma SameItems(s: seq<int>, t: seq<int>, x: int)
    requires multiset(s) == multiset(t) && x in s
    ensures x in t
  {
    assert x in multiset(s);
  }

  // ---------------------------------------------------------------------
  // Rendering, and the round trip
  // ---------------------------------------------------------------------

  /** The lines that list an inventory. */
  function InventoryLines(e: Elf): (lines: seq<string>)
    ensures |lines| == |e.inventory|
    ensures forall i :: 0 <= i < |lines| ==> lines[i] == NatToString(e.inventory[i])
  {
    seq(|e.inventory|, i requires 0 <= i < |e.inventory| => NatToString(e.inventory[i]))
  }

  /** An elf's block: its calories, one per line. */
  function RenderElf(e: Elf): string {
    if e.inventory == [] then "" else Join(InventoryLines(e), '\n')
  }

  /** The pieces the puzzle text splits into: the elves' blocks, with a
      newline after the last. */
  function PuzzleBlocks(elves: seq<Elf>): (blocks: seq<string>)
    requires |elves| > 0
    ensures |blocks| == |elves|
  {
    var n := |elves|;
    seq(n, i requires 0 <= i < n => RenderElf(elves[i]) + (if i == n - 1 then "\n" else ""))
  }

  /** The puzzle text: the blocks separated by blank lines. */
  function RenderPuzzle(elves: seq<Elf>): string
    requires |elves| > 0
  {
    JoinOn(PuzzleBlocks(elves), "\n\n")
  }

  /** Every elf carries something, and every item fits in a `u32`. */
  predicate WellFormed(elves: seq<Elf>) {
    forall i :: 0 <= i < |elves| ==>
      elves[i].inventory != [] && forall j :: 0 <= j < |elves[i].inventory| ==> elves[i].inventory[j] < CalorieBound
  }

  /** Numerals joined by newlines begin and end with a digit and never hold
      two newlines in a row. */
  lemma {:induction false} JoinedNumerals(lines: seq<string>)
    requires |lines| > 0 && forall i :: 0 <= i < |lines| ==> IsNumeral(lines[i])
    ensures var b := Join(lines, '\n');
      |b| > 0 && IsDigit(b[0]) && IsDigit(b[|b| - 1]) &&
      forall p :: 0 <= p < |b| - 1 ==> b[p] != '\n' || b[p + 1] != '\n'
    decreases |lines|
  {
    if |lines| > 1 {
      JoinedNumerals(lines[1..]);
      var a := lines[0];
      var t := Join(lines[1..], '\n');
      var b := Join(lines, '\n');
      assert b == a + "\n" + t;
      forall p | 0 <= p < |b| - 1 ensures b[p] != '\n' || b[p + 1] != '\n' {
        if p < |a| {
          assert b[p] == a[p];
        } else if p == |a| {
          assert b[p + 1] == t[0];
        } else {
          assert b[p] == t[p - |a| - 1] && b[p + 1] == t[p - |a|];
        }
      }
    }
  }

  /** A block of numerals holds no blank line, so splitting the puzzle on
      "\n\n" finds it whole. */
  lemma BlockHasNoBlankLine(e: Elf)
    requires e.inventory != []
    ensures NoMatchBefore(RenderElf(e) + "\n\n", "\n\n", |RenderElf(e)|)
    ensures NoMatchBefore(RenderElf(e) + "\n", "\n\n", |RenderElf(e)| + 1)
  {
    var lines := InventoryLines(e);
    JoinedNumerals(lines);
    var b := RenderElf(e);
    assert b == Join(lines, '\n');
    var sep := "\n\n";
    forall p | 0 <= p < |b| ensures !MatchAt(b + sep, sep, p) && !MatchAt(b + "\n", sep, p) {
      var c := if p < |b| - 1 then b[p + 1] else '\n';
      assert b[p] != '\n' || c != '\n';
      assert (b + sep)[p] == b[p] && (b + "\n")[p] == b[p];
      assert (b + sep)[p + 1] == c && (b + "\n")[p + 1] == c;
      assert sep[0] == '\n' && sep[1] == '\n';
    }
    assert !MatchAt(b + "\n", sep, |b|);
  }

  /** An elf's block, with or without a trailing newline, parses back. */
  lemma ParseRenderElf(e: Elf, tail: string)
    requires e.inventory != [] && forall j :: 0 <= j < |e.inventory| ==> e.inventory[j] < CalorieBound
    requires tail == "" || tail == "\n"
    ensures ParseElf(RenderElf(e) + tail) == Some(e)
  {
    var lines := InventoryLines(e);
    assert forall i, j :: 0 <= i < |lines| && 0 <= j < |lines[i]| ==> lines[i][j] != '\n' by {
      forall i, j | 0 <= i < |lines| && 0 <= j < |lines[i]| ensures lines[i][j] != '\n' {
        assert IsDigit(lines[i][j]);
      }
    }
    assert forall i :: 0 <= i < |lines| ==> lines[i] != "";
    if tail == "" {
      assert RenderElf(e) + tail == Join(lines, '\n');
      SplitJoin(lines, '\n');
      NonEmptyKeepsAll(lines);
    } else {
      JoinSnoc(lines, '\n', "");
      assert RenderElf(e) + tail == Join(lines + [""], '\n');
      SplitJoin(lines + [""], '\n');
      NonEmptyDropsLast(lines);
    }
    LinesParse(e);
  }

  /** The calorie lines of an elf read back as its inventory. */
  lemma LinesParse(e: Elf)
    requires forall j :: 0 <= j < |e.inventory| ==> e.inventory[j] < CalorieBound
    ensures MapAll(ParseCalorie, InventoryLines(e)) == Some(e.inventory)
  {
    var lines := InventoryLines(e);
    var parsed := MapAll(ParseCalorie, lines);
    assert forall i :: 0 <= i < |lines| ==> ParseCalorie(lines[i]) == Some(e.inventory[i]);
    assert parsed.value == e.inventory;
  }

  /** The puzzle text splits on blank lines into the elves' blocks. */
  lemma SplitRenderPuzzle(elves: seq<Elf>)
    requires |elves| > 0 && WellFormed(elves)
    ensures SplitOn(RenderPuzzle(elves), "\n\n") == PuzzleBlocks(elves)
  {
    var n := |elves|;
    var pieces := PuzzleBlocks(elves);
    forall i | 0 <= i < n - 1 ensures NoMatchBefore(pieces[i] + "\n\n", "\n\n", |pieces[i]|) {
      assert pieces[i] == RenderElf(elves[i]) + "" == RenderElf(elves[i]);
      BlockHasNoBlankLine(elves[i]);
    }
    BlockHasNoBlankLine(elves[n - 1]);
    SplitOnJoin(pieces, "\n\n");
  }

  /** Parsing undoes rendering: one elf per block, each with its
      inventory in order. */
  lemma ParseRenderPuzzle(elves: seq<Elf>)
    requires |elves| > 0 && WellFormed(elves)
    ensures ParsePuzzle(RenderPuzzle(elves)) == Some(elves)
  {
    SplitRenderPuzzle(elves);
    var pieces := PuzzleBlocks(elves);
    forall i | 0 <= i < |elves| ensures ParseElf(pieces[i]) == Some(elves[i]) {
      ParseRenderElf(elves[i], if i == |elves| - 1 then "\n" else "");
    }
    var r := ParsePuzzle(RenderPuzzle(elves));
    assert r.value == elves;
  }

  // ---------------------------------------------------------------------
  // The example
  // ---------------------------------------------------------------------

  function ExampleElves(): seq<Elf> {
    [Elf([1000, 2000, 3000]), Elf([4000]), Elf([5000, 6000]), Elf([7000, 8000, 9000]), Elf([10000])]
  }

  /** Ten times a positive number is written with one more zero. */
  lemma AppendZero(n: nat)
    requires n >= 1
    ensures NatToString(n * 10) == NatToString(n) + "0"
  {
    DivModUnique(n * 10, 10, n, 0);
  }

  /** A whole number of thousands below ten thousand. */
  lemma Thousands(d: nat)
    requires 1 <= d <= 9
    ensures NatToString(d * 1000) == [DigitChar(d)] + "000"
  {
    AppendZero(d);
    AppendZero(d * 10);
    AppendZero(d * 100);
    assert d * 100 * 10 == d * 1000 && d * 10 * 10 == d * 100;
  }

  lemma ThousandText(d: nat, t: string)
    requires 1 <= d <= 9 && t == [DigitChar(d)] + "000"
    ensures NatToString(d * 1000) == t
  {
    Thousands(d);
  }

  /** How blocks of one, two and three items are written. */
  lemma RenderOneItem(a: nat)
    ensures RenderElf(Elf([a])) == NatToString(a)
  {
    assert InventoryLines(Elf([a])) == [NatToString(a)];
  }

  lemma RenderTwoItems(a: nat, b: nat)
    ensures RenderElf(Elf([a, b])) == NatToString(a) + "\n" + NatToString(b)
  {
    var x, y := NatToString(a), NatToString(b);
    assert InventoryLines(Elf([a, b])) == [x, y];
    assert [x, y][1..] == [y];
    assert Join([y], '\n') == y;
    assert Join([x, y], '\n') == x + "\n" + y;
    assert RenderElf(Elf([a, b])) == Join([x, y], '\n');
  }

  lemma RenderThreeItems(a: nat, b: nat, c: nat)
    ensures RenderElf(Elf([a, b, c])) == NatToString(a) + "\n" + NatToString(b) + "\n" + NatToString(c)
  {
    var x, y, z := NatToString(a), NatToString(b), NatToString(c);
    assert InventoryLines(Elf([a, b, c])) == [x, y, z];
    JoinThree(x, y, z);
  }

  /** Three lines joined by newlines. */
  lemma JoinThree(x: string, y: string, z: string)
    ensures Join([x, y, z], '\n') == x + "\n" + y + "\n" + z
  {
    assert [x, y, z][1..] == [y, z] && [y, z][1..] == [z];
    assert Join([z], '\n') == z;
    assert Join([y, z], '\n') == y + "\n" + z;
    assert Join([x, y, z], '\n') == x + "\n" + (y + "\n" + z);
  }

  lemma ExampleFirstElf()
    ensures RenderElf(Elf([1000, 2000, 3000])) == "1000\n2000\n3000"
  {
    ThousandText(1, "1000");
    ThousandText(2, "2000");
    ThousandText(3, "3000");
    RenderThreeItems(1000, 2000, 3000);
    FirstElfText();
  }

  lemma FirstElfText()
    ensures "1000" + "\n" + "2000" + "\n" + "3000" == "1000\n2000\n3000"
  {
  }

  lemma ExampleSecondElf()
    ensures RenderElf(Elf([4000])) == "4000"
  {
    Thousands(4);
    RenderOneItem(4000);
  }

  lemma ExampleThirdElf()
    ensures RenderElf(Elf([5000, 6000])) == "5000\n6000"
  {
    Thousands(5); Thousands(6);
    RenderTwoItems(5000, 6000);
  }

  lemma ExampleFourthElf()
    ensures RenderElf(Elf([7000, 8000, 9000])) == "7000\n8000\n9000"
  {
    ThousandText(7, "7000");
    ThousandText(8, "8000");
    ThousandText(9, "9000");
    RenderThreeItems(7000, 8000, 9000);
    FourthElfText();
  }

  lemma FourthElfText()
    ensures "7000" + "\n" + "8000" + "\n" + "9000" == "7000\n8000\n9000"
  {
  }

  lemma ExampleFifthElf()
    ensures RenderElf(Elf([10000])) == "10000"
  {
    Thousands(1);
    assert NatToString(10000) == "10000";
    RenderOneItem(10000);
  }

  /** The pieces of a five-elf puzzle. */
  lemma FiveBlocks(e0: Elf, e1: Elf, e2: Elf, e3: Elf, e4: Elf)
    ensures PuzzleBlocks([e0, e1, e2, e3, e4]) ==
      [RenderElf(e0), RenderElf(e1), RenderElf(e2), RenderElf(e3), RenderElf(e4) + "\n"]
  {
    var e := [e0, e1, e2, e3, e4];
    var b := PuzzleBlocks(e);
    assert e[0] == e0 && e[1] == e1 && e[2] == e2 && e[3] == e3 && e[4] == e4;
    InnerBlock(e, 0); InnerBlock(e, 1); InnerBlock(e, 2); InnerBlock(e, 3);
    LastBlock(e);
    assert b == [b[0], b[1], b[2], b[3], b[4]];
  }

  /** A block before the last is the elf's text. */
  lemma InnerBlock(elves: seq<Elf>, i: nat)
    requires i < |elves| - 1
    ensures PuzzleBlocks(elves)[i] == RenderElf(elves[i])
  {
    assert RenderElf(elves[i]) + "" == RenderElf(elves[i]);
  }

  /** The last block ends with the final newline. */
  lemma LastBlock(elves: seq<Elf>)
    requires |elves| > 0
    ensures PuzzleBlocks(elves)[|elves| - 1] == RenderElf(elves[|elves| - 1]) + "\n"
  {
  }

  lemma ExampleBlocks()
    ensures PuzzleBlocks(ExampleElves()) == ["1000\n2000\n3000", "4000", "5000\n6000", "7000\n8000\n9000", "10000\n"]
  {
    ExampleFirstElf();
    ExampleSecondElf();
    ExampleThirdElf();
    ExampleFourthElf();
    ExampleFifthElf();
    assert "10000" + "\n" == "10000\n";
    FiveBlocks(Elf([1000, 2000, 3000]), Elf([4000]), Elf([5000, 6000]), Elf([7000, 8000, 9000]), Elf([10000]));
  }

  /** The example puzzle "1000\n2000\n3000\n\n4000\n\n5000\n6000\n\n7000\n8000\n9000\n\n10000\n",
      as its blocks, the last with the final newline. */
  function ExampleBlockTexts(): seq<string> {
    ["1000\n2000\n3000", "4000", "5000\n6000", "7000\n8000\n9000", "10000\n"]
  }

  lemma ExamplePuzzle()
    ensures ParsePuzzle(JoinOn(ExampleBlockTexts(), "\n\n")) == Some(ExampleElves())
  {
    ExampleBlocks();
    ParseRenderPuzzle(ExampleElves());
  }

  /** Sums of short sequences. */
  lemma SumSmall(a: int, b: int, c: int)
    ensures Sum([a]) == a && Sum([a, b]) == a + b && Sum([a, b, c]) == a + b + c
  {
    assert [a, b, c][..2] == [a, b] && [a, b][..1] == [a] && [a][..0] == [];
  }

  lemma ExampleTotals()
    ensures TotalCalories(ExampleElves()) == [6000, 4000, 11000, 24000, 10000]
  {
    SumSmall(1000, 2000, 3000);
    SumSmall(4000, 0, 0);
    SumSmall(5000, 6000, 0);
    SumSmall(7000, 8000, 9000);
    SumSmall(10000, 0, 0);
  }

  /** The top three of totals with a known ascending order. */
  lemma TopThreeOfSorted(totals: seq<int>, sorted: seq<int>)
    requires Ascending(sorted) && multiset(totals) == multiset(sorted) && |sorted| >= 3
    ensures TopThree(totals) == sorted[|sorted| - 3..]
  {
    SortedIsUnique(SortAscending(totals), sorted);
  }

  lemma ExampleMost()
    ensures MostCalories([6000, 4000, 11000, 24000, 10000]) == Some(24000)
  {
  }

  /** The example totals in ascending order. */
  lemma ExampleSorted()
    ensures Ascending([4000, 6000, 10000, 11000, 24000])
    ensures multiset([6000, 4000, 11000, 24000, 10000]) == multiset([4000, 6000, 10000, 11000, 24000])
  {
    ExampleAscending();
    FiveItems(6000, 4000, 11000, 24000, 10000);
    FiveItems(4000, 6000, 10000, 11000, 24000);
  }

  lemma ExampleAscending()
    ensures Ascending([4000, 6000, 10000, 11000, 24000])
  {
    var s := [4000, 6000, 10000, 11000, 24000];
    assert forall i :: 0 <= i < 4 ==> s[i] < s[i + 1];
  }

  /** The multiset of five items. */
  lemma FiveItems(a: int, b: int, c: int, d: int, e: int)
    ensures multiset([a, b, c, d, e]) == multiset{a} + multiset{b} + multiset{c} + multiset{d} + multiset{e}
  {
    assert [a, b, c, d, e] == [a, b, c, d] + [e];
    assert [a, b, c, d] == [a, b, c] + [d];
    assert [a, b, c] == [a, b] + [c];
    assert [a, b] == [a] + [b];
  }

  lemma ExampleTopThree()
    ensures TopThreeSum([6000, 4000, 11000, 24000, 10000]) == 45000
  {
    var sorted := [4000, 6000, 10000, 11000, 24000];
    assert sorted[2..] == [10000, 11000, 24000];
    ExampleSorted();
    TopThreeOfSorted([6000, 4000, 11000, 24000, 10000], sorted);
    SumSmall(10000, 11000, 24000);
  }

  /** The first element of an ascending sequence is its least. */
  lemma FirstIsLeast(a: seq<int>, x: int)
    requires Ascending(a) && x in multiset(a)
    ensures a[0] <= x
  {
    var i :| 0 <= i < |a| && a[i] == x;
  }

  /** Two ascending sequences with the same elements are equal. */
  lemma {:induction false} SortedIsUnique(a: seq<int>, b: seq<int>)
    requires Ascending(a) && Ascending(b) && multiset(a) == multiset(b)
    ensures a == b
    decreases |a|
  {
    assert |a| == |multiset(a)| == |b|;
    if a != [] {
      FirstIsLeast(a, b[0]);
      FirstIsLeast(b, a[0]);
      assert a[0] == b[0];
      assert a == [a[0]] + a[1..] && b == [b[0]] + b[1..];
      assert multiset(a) == multiset{a[0]} + multiset(a[1..]);
      assert multiset(b) == multiset{a[0]} + multiset(b[1..]);
      forall y ensures multiset(a[1..])[y] == multiset(b[1..])[y] {
        assert multiset(a)[y] == multiset{a[0]}[y] + multiset(a[1..])[y];
        assert multiset(b)[y] == multiset{a[0]}[y] + multiset(b[1..])[y];
      }
      assert multiset(a[1..]) == multiset(b[1..]);
      SortedIsUnique(a[1..], b[1..]);
    }
  }
}
