/** Day 4: pairs of section ranges, and the pairs in which one range
    contains the other. */
module Day04 {
  import opened Common

  /** Section IDs are `u32`. */
  const SectionBound: nat := 0x1_0000_0000

  /** An inclusive range of section IDs. */
  datatype Range = Range(start: nat, end: nat)

  datatype RangePair = RangePair(first: Range, second: Range)

  /** Section `x` lies in the range. */
  predicate Covers(r: Range, x: int) {
    r.start <= x <= r.end
  }

  /** `parse_range`: "a-b" gives the range from a to b. Every piece between
      dashes must be a `u32` (`unwrap`) and there must be at least two
      pieces (the indexing); pieces after the second are parsed but
      ignored. None stands for the panic. */
  function ParseRange(input: string): (r: Option<Range>)
    ensures r.Some? ==> r.value.start < SectionBound && r.value.end < SectionBound
  {
    var pieces := Split(input, '-');
    var ids := MapAll((piece: string) => ParseUnsigned(piece, SectionBound), pieces);
    if ids.Some? && |ids.value| >= 2 then Some(Range(ids.value[0], ids.value[1])) else None
  }

  /** "a-b" with two numerals below the bound parses to the range from a
      to b. */
  lemma ParseRangeOfNumerals(a: string, b: string)
    requires IsNumeral(a) && IsNumeral(b)
    requires ParseNat(a) < SectionBound && ParseNat(b) < SectionBound
    ensures ParseRange(a + "-" + b) == Some(Range(ParseNat(a), ParseNat(b)))
  {
    assert forall j :: 0 <= j < |a| ==> a[j] != '-' by {
      forall j | 0 <= j < |a| ensures a[j] != '-' {
        assert IsDigit(a[j]);
      }
    }
    assert forall j :: 0 <= j < |b| ==> b[j] != '-' by {
      forall j | 0 <= j < |b| ensures b[j] != '-' {
        assert IsDigit(b[j]);
      }
    }
    SplitFirstPiece(a, '-', b);
    SplitNoSeparator(b, '-');
    assert Split(a + "-" + b, '-') == [a, b];
  }

  /** The text of a range, as it appears in the puzzle input. */
  function RenderRange(r: Range): string {
    NatToString(r.start) + "-" + NatToString(r.end)
  }

  /** Parsing undoes rendering for every range of `u32` IDs. */
  lemma ParseRenderRange(r: Range)
    requires r.start < SectionBound && r.end < SectionBound
    ensures ParseRange(RenderRange(r)) == Some(r)
  {
    ParseRangeOfNumerals(NatToString(r.start), NatToString(r.end));
  }

  /** `parse_pair`: "r,s" gives the pair of ranges r and s. Every piece
      between commas must parse and there must be two of them. */
  function ParsePair(input: string): (r: Option<RangePair>)
    ensures |Split(input, ',')| < 2 ==> r.None?
    ensures r.Some? ==> && ParseRange(Split(input, ',')[0]) == Some(r.value.first)
                        && ParseRange(Split(input, ',')[1]) == Some(r.value.second)
  {
    var ranges := MapAll(ParseRange, Split(input, ','));
    if ranges.Some? && |ranges.value| >= 2 then Some(RangePair(ranges.value[0], ranges.value[1])) else None
  }

  /** The text of a pair. */
  function RenderPair(p: RangePair): string {
    RenderRange(p.first) + "," + RenderRange(p.second)
  }

  /** A rendered range holds digits and one dash, so no comma. */
  lemma RenderRangeHasNoComma(r: Range)
    ensures forall j :: 0 <= j < |RenderRange(r)| ==> RenderRange(r)[j] != ','
  {
    var a := NatToString(r.start);
    var b := NatToString(r.end);
    forall j | 0 <= j < |RenderRange(r)| ensures RenderRange(r)[j] != ',' {
      if j < |a| {
        assert IsDigit(a[j]);
      } else if j > |a| {
        assert RenderRange(r)[j] == b[j - |a| - 1];
        assert IsDigit(b[j - |a| - 1]);
      }
    }
  }

  /** Parsing undoes rendering for every pair of `u32` ranges. */
  lemma ParseRenderPair(p: RangePair)
    requires p.first.start < SectionBound && p.first.end < SectionBound
    requires p.second.start < SectionBound && p.second.end < SectionBound
    ensures ParsePair(RenderPair(p)) == Some(p)
  {
    var a := RenderRange(p.first);
    var b := RenderRange(p.second);
    RenderRangeHasNoComma(p.first);
    RenderRangeHasNoComma(p.second);
    SplitFirstPiece(a, ',', b);
    SplitNoSeparator(b, ',');
    assert Split(a + "," + b, ',') == [a, b];
    ParseRenderRange(p.first);
    ParseRenderRange(p.second);
  }

  /** `parse_input`: one pair per non-empty line. */
  function ParseInput(input: string): (r: Option<seq<RangePair>>)
    ensures r.Some? ==> |r.value| == |NonEmpty(Split(input, '\n'))|
  {
    MapAll(ParsePair, NonEmpty(Split(input, '\n')))
  }

  /** The lines of a puzzle input listing these pairs. */
  function PairLines(pairs: seq<RangePair>): (lines: seq<string>)
    ensures |lines| == |pairs|
    ensures forall i :: 0 <= i < |pairs| ==> lines[i] == RenderPair(pairs[i])
  {
    if pairs == [] then [] else [RenderPair(pairs[0])] + PairLines(pairs[1..])
  }

  /** A puzzle input listing the pairs, each line ended by a newline. */
  function RenderInput(pairs: seq<RangePair>): string {
    Join(PairLines(pairs) + [""], '\n')
  }

  /** Every pair in the puzzle's range of IDs. */
  predicate AllBounded(pairs: seq<RangePair>) {
    forall i :: 0 <= i < |pairs| ==>
      pairs[i].first.start < SectionBound && pairs[i].first.end < SectionBound &&
      pairs[i].second.start < SectionBound && pairs[i].second.end < SectionBound
  }

  /** A rendered pair is a non-empty line. */
  lemma RenderPairIsLine(p: RangePair)
    ensures |RenderPair(p)| > 0
    ensures forall j :: 0 <= j < |RenderPair(p)| ==> RenderPair(p)[j] != '\n'
  {
    var a := NatToString(p.first.start);
    var line := RenderPair(p);
    forall j | 0 <= j < |line| ensures line[j] != '\n' {
      var b := NatToString(p.first.end);
      var c := NatToString(p.second.start);
      var d := NatToString(p.second.end);
      assert line == a + "-" + b + "," + (c + "-" + d);
      if j < |a| {
        assert IsDigit(a[j]);
      } else if |a| < j < |a| + 1 + |b| {
        assert line[j] == b[j - |a| - 1] && IsDigit(b[j - |a| - 1]);
      } else if |a| + |b| + 2 <= j < |a| + |b| + 2 + |c| {
        assert line[j] == c[j - |a| - |b| - 2] && IsDigit(c[j - |a| - |b| - 2]);
      } else if |a| + |b| + |c| + 2 < j {
        assert line[j] == d[j - |a| - |b| - |c| - 3] && IsDigit(d[j - |a| - |b| - |c| - 3]);
      }
    }
  }

  /** Parsing undoes rendering for every list of `u32` pairs: the input is
      read back line by line, and the empty line after the last newline
      is skipped. */
  lemma ParseRenderInput(pairs: seq<RangePair>)
    requires AllBounded(pairs)
    ensures ParseInput(RenderInput(pairs)) == Some(pairs)
  {
    var lines := PairLines(pairs);
    forall i | 0 <= i < |pairs|
      ensures |lines[i]| > 0 && forall j :: 0 <= j < |lines[i]| ==> lines[i][j] != '\n'
    {
      RenderPairIsLine(pairs[i]);
    }
    var pieces := lines + [""];
    assert forall i :: 0 <= i < |lines| ==> pieces[i] == lines[i];
    SplitJoin(pieces, '\n');
    assert forall i :: 0 <= i < |lines| ==> lines[i] != "";
    NonEmptyDropsLast(lines);
    forall i | 0 <= i < |pairs| ensures ParsePair(lines[i]) == Some(pairs[i]) {
      ParseRenderPair(pairs[i]);
    }
    var r := ParseInput(RenderInput(pairs));
    assert r.value == pairs;
  }

  /** `has_fully_contained_pair`: one range lies within the other. */
  predicate HasFullyContainedPair(p: RangePair) {
    (p.first.start >= p.second.start && p.first.end <= p.second.end) ||
    (p.second.start >= p.first.start && p.second.end <= p.first.end)
  }

  /** Containment does not depend on the order of the pair. */
  lemma ContainmentIsSymmetric(p: RangePair)
    ensures HasFullyContainedPair(p) <==> HasFullyContainedPair(RangePair(p.second, p.first))
  {
  }

  /** For a non-empty range, the bounds test is containment of the sets of
      sections. */
  lemma BoundsAreContainment(a: Range, b: Range)
    requires a.start <= a.end
    ensures (a.start >= b.start && a.end <= b.end) <==> forall x :: Covers(a, x) ==> Covers(b, x)
  {
    if forall x :: Covers(a, x) ==> Covers(b, x) {
      assert Covers(a, a.start) && Covers(a, a.end);
    }
  }

  /** `get_fully_contained_pairs`: the pairs with one range inside the
      other, in their original order. */
  function FullyContainedPairs(pairs: seq<RangePair>): (r: seq<RangePair>)
    ensures |r| <= |pairs|
    ensures forall i :: 0 <= i < |r| ==> HasFullyContainedPair(r[i]) && r[i] in pairs
    ensures forall p :: p in pairs && HasFullyContainedPair(p) ==> p in r
  {
    if pairs == [] then []
    else
      var rest := FullyContainedPairs(pairs[1..]);
      if HasFullyContainedPair(pairs[0]) then [pairs[0]] + rest else rest
  }

  /** The filter distributes over concatenation, so it keeps the order of
      the pairs it retains. */
  lemma {:induction false} FullyContainedPairsAppend(a: seq<RangePair>, b: seq<RangePair>)
    ensures FullyContainedPairs(a + b) == FullyContainedPairs(a) + FullyContainedPairs(b)
  {
    if a == [] {
      assert a + b == b;
    } else {
      assert (a + b)[1..] == a[1..] + b;
      FullyContainedPairsAppend(a[1..], b);
    }
  }

  // ---------------------------------------------------------------------
  // The example
  // ---------------------------------------------------------------------

  function ExamplePairs(): seq<RangePair> {
    [RangePair(Range(2, 4), Range(6, 8)), RangePair(Range(2, 3), Range(4, 5)),
     RangePair(Range(5, 7), Range(7, 9)), RangePair(Range(2, 8), Range(3, 7)),
     RangePair(Range(6, 6), Range(4, 6)), RangePair(Range(2, 6), Range(4, 8))]
  }

  /** Two of the example pairs are fully contained, in this order. */
  lemma ExampleContainedPairs()
    ensures FullyContainedPairs(ExamplePairs()) == [RangePair(Range(2, 8), Range(3, 7)), RangePair(Range(6, 6), Range(4, 6))]
  {
  }

  /** The lines of the example input. */
  lemma ExampleLines()
    ensures PairLines(ExamplePairs()) == ["2-4,6-8", "2-3,4-5", "5-7,7-9", "2-8,3-7", "6-6,4-6", "2-6,4-8"]
  {
    var texts := ["2-4,6-8", "2-3,4-5", "5-7,7-9", "2-8,3-7", "6-6,4-6", "2-6,4-8"];
    DigitPair(2, 4, 6, 8);
    DigitPair(2, 3, 4, 5);
    DigitPair(5, 7, 7, 9);
    DigitPair(2, 8, 3, 7);
    DigitPair(6, 6, 4, 6);
    DigitPair(2, 6, 4, 8);
    assert forall i :: 0 <= i < 6 ==> RenderPair(ExamplePairs()[i]) == texts[i];
    LinesAre(ExamplePairs(), texts);
  }

  /** PairLines is the rendering of each pair in turn. */
  lemma LinesAre(pairs: seq<RangePair>, texts: seq<string>)
    requires |pairs| == |texts|
    requires forall i :: 0 <= i < |pairs| ==> RenderPair(pairs[i]) == texts[i]
    ensures PairLines(pairs) == texts
  {
  }

  /** A pair of single-digit ranges renders as seven characters. */
  lemma DigitPair(a: nat, b: nat, c: nat, d: nat)
    requires a < 10 && b < 10 && c < 10 && d < 10
    ensures RenderPair(RangePair(Range(a, b), Range(c, d))) ==
      [DigitChar(a), '-', DigitChar(b), ',', DigitChar(c), '-', DigitChar(d)]
  {
  }

  /** The lines of the example input: six pairs, and the empty piece
      after the final newline. */
  function ExampleInputLines(): seq<string> {
    ["2-4,6-8", "2-3,4-5", "5-7,7-9", "2-8,3-7", "6-6,4-6", "2-6,4-8", ""]
  }

  /** The example input, its six lines each ended by a newline, parses to
      the example pairs. */
  lemma ExampleInput()
    ensures ParseInput(Join(ExampleInputLines(), '\n')) == Some(ExamplePairs())
  {
    ExampleInputPieces();
    ExampleBounded();
    ParseRenderInput(ExamplePairs());
  }

  /** The example pairs' lines with the empty piece after the final newline. */
  lemma ExampleInputPieces()
    ensures PairLines(ExamplePairs()) + [""] == ExampleInputLines()
  {
    ExampleLines();
  }

  /** The example's section IDs are all `u32`. */
  lemma ExampleBounded()
    ensures AllBounded(ExamplePairs())
  {
    var pairs := ExamplePairs();
    forall i | 0 <= i < |pairs|
      ensures pairs[i].first.start < SectionBound && pairs[i].first.end < SectionBound &&
              pairs[i].second.start < SectionBound && pairs[i].second.end < SectionBound
    {
    }
  }
}
