/** Day 3: rucksacks of items, the item both compartments share, the
    priority of an item, and the badge a group of three elves shares. */
module Day03 {
  import opened Common

  datatype Item = Item(c: char)

  /** The two compartments, in the order the items were listed. */
  datatype Rucksack = Rucksack(first: seq<Item>, second: seq<Item>)

  /** `parse_compartment`: one item per character. */
  function ParseCompartment(s: string): (items: seq<Item>)
    ensures |items| == |s|
    ensures forall i :: 0 <= i < |s| ==> items[i] == Item(s[i])
  {
    if s == [] then [] else [Item(s[0])] + ParseCompartment(s[1..])
  }

  /** `Rucksack::from_str`: the first half of the line is the first
      compartment and the second half the second. A line of odd length
      fails the `assert_eq!`, here None. */
  function ParseRucksack(s: string): (r: Option<Rucksack>)
    ensures r.Some? <==> |s| % 2 == 0
    ensures r.Some? ==> |r.value.first| == |r.value.second| == |s| / 2
    ensures r.Some? ==> ItemsOf(r.value) == ParseCompartment(s)
  {
    if |s| % 2 != 0 then None
    else
      var mid := |s| / 2;
      assert s[..mid] + s[mid..] == s;
      CompartmentAppend(s[..mid], s[mid..]);
      Some(Rucksack(ParseCompartment(s[..mid]), ParseCompartment(s[mid..])))
  }

  /** Parsing a compartment character by character distributes over
      concatenation. */
  lemma CompartmentAppend(a: string, b: string)
    ensures ParseCompartment(a + b) == ParseCompartment(a) + ParseCompartment(b)
  {
  }

  /** Every item the rucksack holds, first compartment first. */
  function ItemsOf(r: Rucksack): seq<Item> {
    r.first + r.second
  }

  /** Every line has an even length, as splitting it in halves needs. */
  predicate EvenLines(lines: seq<string>) {
    forall i :: 0 <= i < |lines| ==> |lines[i]| % 2 == 0
  }

  /** `parse_rucksacks`: one rucksack per non-empty line; a line of odd
      length is fatal. */
  function ParseRucksacks(s: string): (r: Option<seq<Rucksack>>)
    ensures r.Some? <==> EvenLines(NonEmpty(Split(s, '\n')))
    ensures var lines := NonEmpty(Split(s, '\n'));
      r.Some? ==> |r.value| == |lines| && forall i :: 0 <= i < |lines| ==> Some(r.value[i]) == ParseRucksack(lines[i])
  {
    var lines := NonEmpty(Split(s, '\n'));
    assert forall i :: 0 <= i < |lines| ==> (ParseRucksack(lines[i]).Some? <==> |lines[i]| % 2 == 0);
    MapAll(ParseRucksack, lines)
  }

  /** The set of items of a sequence. */
  function ItemSet(items: seq<Item>): (r: set<Item>)
    ensures forall x :: x in r <==> x in items
  {
    set x | x in items
  }

  /** `get_duplicate_items`: the items found in both compartments. */
  function DuplicateItems(r: Rucksack): (d: set<Item>)
    ensures forall x :: x in d <==> x in r.first && x in r.second
  {
    ItemSet(r.first) * ItemSet(r.second)
  }

  /** The letters the priority map covers. */
  predicate IsLetter(c: char) {
    ('a' <= c <= 'z') || ('A' <= c <= 'Z')
  }

  /** The priority of a letter: a..z are 1..26 and A..Z are 27..52. */
  function Priority(c: char): (p: nat)
    requires IsLetter(c)
    ensures 'a' <= c <= 'z' ==> 1 <= p <= 26
    ensures 'A' <= c <= 'Z' ==> 27 <= p <= 52
  {
    if 'a' <= c <= 'z' then c as int - 'a' as int + 1 else c as int - 'A' as int + 27
  }

  /** Different letters have different priorities. */
  lemma PriorityInjective(c: char, d: char)
    requires IsLetter(c) && IsLetter(d) && c != d
    ensures Priority(c) != Priority(d)
  {
  }

  /** The `i`-th character of the chain `'a'..='z'` then `'A'..='Z'`. */
  function LetterAt(i: nat): (c: char)
    requires i < 52
    ensures IsLetter(c) && Priority(c) == i + 1
  {
    if i < 26 then ('a' as int + i) as char else ('A' as int + i - 26) as char
  }

  /** Every letter appears in the chain, at the position before its
      priority. */
  lemma LetterAtPriority(c: char)
    requires IsLetter(c)
    ensures LetterAt(Priority(c) - 1) == c
  {
  }

  /** `get_priority_map`: walk the letters a..z then A..Z together with
      the priorities 1..52 and insert each pair. */
  method GetPriorityMap() returns (m: map<Item, nat>)
    ensures forall x :: x in m <==> IsLetter(x.c)
    ensures forall x :: x in m ==> m[x] == Priority(x.c)
  {
    m := map[];
    for i := 0 to 52
      invariant forall x :: x in m <==> IsLetter(x.c) && Priority(x.c) <= i
      invariant forall x :: x in m ==> m[x] == Priority(x.c)
    {
      var c := LetterAt(i);
      m := m[Item(c) := i + 1];
      forall x: Item | IsLetter(x.c) && Priority(x.c) <= i + 1 ensures x in m {
        LetterAtPriority(x.c);
      }
    }
  }

  /** `get_common_items`: the items common to the first three sets; fewer
      than three sets is fatal (`unwrap`), here None. */
  method GetCommonItems(itemSets: seq<set<Item>>) returns (r: Option<set<Item>>)
    ensures r.Some? <==> |itemSets| >= 3
    ensures r.Some? ==> forall x :: x in r.value <==> x in itemSets[0] && x in itemSets[1] && x in itemSets[2]
  {
    if |itemSets| < 1 {
      return None;
    }
    var common := itemSets[0];
    for k := 0 to 2
      invariant k < |itemSets|
      invariant forall x :: x in common <==> forall j :: 0 <= j <= k ==> x in itemSets[j]
    {
      if k + 1 >= |itemSets| {
        return None;
      }
      common := common * itemSets[k + 1];
    }
    return Some(common);
  }

  /** The item is in each of the first three rucksacks. */
  predicate InAllThree(group: seq<Rucksack>, x: Item) {
    |group| >= 3 && x in ItemsOf(group[0]) && x in ItemsOf(group[1]) && x in ItemsOf(group[2])
  }

  /** `get_badge`: an item common to the three rucksacks of the group. The
      one reported when several are common depends on hash-set order, so
      any of them may come back. Fewer than three rucksacks, or none in
      common, is fatal, here None. */
  method GetBadge(group: seq<Rucksack>) returns (r: Option<Item>)
    ensures r.None? <==> |group| < 3 || forall x :: !InAllThree(group, x)
    ensures r.Some? ==> InAllThree(group, r.value)
  {
    var elvesItems := seq(|group|, i requires 0 <= i < |group| => ItemSet(ItemsOf(group[i])));
    var common := GetCommonItems(elvesItems);
    if common.None? {
      return None;
    }
    assert forall i :: 0 <= i < 3 ==> elvesItems[i] == ItemSet(ItemsOf(group[i]));
    if common.value == {} {
      return None;
    }
    var badge :| badge in common.value;
    assert InAllThree(group, badge);
    return Some(badge);
  }

  /** The rucksacks of chunk `k` of `chunks(3)`: three of them except
      possibly in the last chunk. */
  function Chunk(rucksacks: seq<Rucksack>, k: nat): (g: seq<Rucksack>)
    requires 3 * k < |rucksacks|
    ensures 1 <= |g| <= 3
    ensures |g| == 3 <==> 3 * k + 3 <= |rucksacks|
  {
    rucksacks[3 * k..Min(3 * k + 3, |rucksacks|)]
  }

  /** Number of chunks of three, the last one possibly shorter. */
  function ChunkCount(n: nat): nat {
    (n + 2) / 3
  }

  /** `get_badges`: the badge of every chunk of three rucksacks, in
      order. A short last chunk, or a group with nothing in common, is
      fatal. */
  method GetBadges(rucksacks: seq<Rucksack>) returns (r: Option<seq<Item>>)
    ensures r.Some? ==> |r.value| == ChunkCount(|rucksacks|) && |rucksacks| % 3 == 0
    ensures r.Some? ==> forall k :: 0 <= k < |r.value| ==>
      InAllThree(Chunk(rucksacks, k), r.value[k])
    ensures r.None? ==> |rucksacks| % 3 != 0 || exists k :: 0 <= k < ChunkCount(|rucksacks|) && NoCommonItem(Chunk(rucksacks, k))
  {
    var badges: seq<Item> := [];
    for k := 0 to ChunkCount(|rucksacks|)
      invariant |badges| == k
      invariant forall j :: 0 <= j < k ==>
        InAllThree(Chunk(rucksacks, j), badges[j])
    {
      var g := Chunk(rucksacks, k);
      var badge := GetBadge(g);
      if badge.None? {
        if |g| == 3 {
          assert NoCommonItem(Chunk(rucksacks, k));
        }
        return None;
      }
      badges := badges + [badge.value];
    }
    if |rucksacks| > 0 {
      assert |Chunk(rucksacks, ChunkCount(|rucksacks|) - 1)| == 3;
    }
    return Some(badges);
  }

  /** The three rucksacks of a full chunk share no item. */
  ghost predicate NoCommonItem(g: seq<Rucksack>) {
    |g| == 3 && forall x :: !InAllThree(g, x)
  }

  /** An item is in a parsed compartment exactly when its character is in
      the text. */
  lemma CompartmentMembers(s: string)
    ensures forall x :: x in ParseCompartment(s) <==> x.c in s
  {
    forall x ensures x in ParseCompartment(s) <==> x.c in s {
      if x.c in s {
        var i :| 0 <= i < |s| && s[i] == x.c;
        assert ParseCompartment(s)[i] == x;
      }
    }
  }

  // ---------------------------------------------------------------------
  // The examples
  // ---------------------------------------------------------------------

  /** A line made of two halves of equal length is the rucksack of those
      halves. */
  lemma RucksackOfHalves(a: string, b: string)
    requires |a| == |b|
    ensures ParseRucksack(a + b) == Some(FromHalves(a, b))
  {
    assert (a + b)[..|a|] == a;
    assert (a + b)[|a|..] == b;
  }

  /** The example rucksack splits into two compartments of twelve items. */
  lemma ExampleRucksack()
    ensures ParseRucksack("vJrwpWtwJgWr" + "hcsFMMfFFhFp") == Some(FromHalves("vJrwpWtwJgWr", "hcsFMMfFFhFp"))
  {
    RucksackOfHalves("vJrwpWtwJgWr", "hcsFMMfFFhFp");
  }

  /** When the texts of two compartments share exactly one character, the
      duplicate items are that one item. */
  lemma DuplicateOfText(a: string, b: string, c: char)
    requires forall d :: d in a && d in b <==> d == c
    ensures DuplicateItems(Rucksack(ParseCompartment(a), ParseCompartment(b))) == {Item(c)}
  {
    CompartmentMembers(a);
    CompartmentMembers(b);
  }

  /** The rucksack parsed from the two halves of a line. */
  function FromHalves(a: string, b: string): Rucksack {
    Rucksack(ParseCompartment(a), ParseCompartment(b))
  }

  /** An item is in a rucksack parsed from two halves exactly when its
      character is in the line. */
  lemma FromHalvesMembers(a: string, b: string, x: Item)
    ensures x in ItemsOf(FromHalves(a, b)) <==> x.c in a + b
  {
    CompartmentAppend(a, b);
    CompartmentMembers(a + b);
  }

  /** When the lines of three rucksacks share exactly one character, that
      item is the only one in all three. */
  lemma BadgeOfText(a1: string, b1: string, a2: string, b2: string, a3: string, b3: string, c: char)
    requires forall d :: (d in a1 + b1 && d in a2 + b2 && d in a3 + b3) <==> d == c
    ensures forall x :: InAllThree([FromHalves(a1, b1), FromHalves(a2, b2), FromHalves(a3, b3)], x) <==> x == Item(c)
  {
    var g := [FromHalves(a1, b1), FromHalves(a2, b2), FromHalves(a3, b3)];
    forall x ensures InAllThree(g, x) <==> x == Item(c) {
      FromHalvesMembers(a1, b1, x);
      FromHalvesMembers(a2, b2, x);
      FromHalvesMembers(a3, b3, x);
    }
  }

  /** The only item in both compartments of the example rucksack is p. */
  lemma ExampleDuplicate()
    ensures DuplicateItems(Rucksack(ParseCompartment("vJrwpWtwJgWr"), ParseCompartment("hcsFMMfFFhFp"))) == {Item('p')}
  {
    assert forall c :: c in "vJrwpWtwJgWr" && c in "hcsFMMfFFhFp" <==> c == 'p';
    DuplicateOfText("vJrwpWtwJgWr", "hcsFMMfFFhFp", 'p');
  }

  /** The three rucksacks of the example group, parsed from its lines. */
  function ExampleGroup(): seq<Rucksack> {
    [FromHalves("vJrwpWtwJgWr", "hcsFMMfFFhFp"), FromHalves("jqHRNqRjqzjGDLGL", "rsFMfFZSrLrFZsSL"),
     FromHalves("PmmdzqPrV", "vPwwTWBwg")]
  }

  /** The characters the example group's lines share. */
  lemma ExampleSharedText()
    ensures forall d :: (d in "vJrwpWtwJgWr" + "hcsFMMfFFhFp" && d in "jqHRNqRjqzjGDLGL" + "rsFMfFZSrLrFZsSL" &&
      d in "PmmdzqPrV" + "vPwwTWBwg") <==> d == 'r'
  {
    forall d ensures (d in "vJrwpWtwJgWr" + "hcsFMMfFFhFp" && d in "jqHRNqRjqzjGDLGL" + "rsFMfFZSrLrFZsSL" &&
      d in "PmmdzqPrV" + "vPwwTWBwg") <==> d == 'r'
    {
      FirstGroupItems(d);
      SecondGroupItems(d);
      ThirdGroupItems(d);
    }
  }

  /** The items of the first rucksack of the example group, one by one. */
  lemma FirstGroupItems(d: char)
    ensures d in "vJrwpWtwJgWr" + "hcsFMMfFFhFp" <==>
      d in {'v', 'J', 'r', 'w', 'p', 'W', 't', 'g', 'h', 'c', 's', 'F', 'M', 'f'}
  {
    assert "vJrwpWtwJgWr" + "hcsFMMfFFhFp" == "vJrwpWtwJgWrhcsFMMfFFhFp";
  }

  /** The items of the second rucksack of the example group, one by one. */
  lemma SecondGroupItems(d: char)
    ensures d in "jqHRNqRjqzjGDLGL" + "rsFMfFZSrLrFZsSL" <==>
      d in {'j', 'q', 'H', 'R', 'N', 'z', 'G', 'D', 'L', 'r', 's', 'F', 'M', 'f', 'Z', 'S'}
  {
    assert "jqHRNqRjqzjGDLGL" + "rsFMfFZSrLrFZsSL" == "jqHRNqRjqzjGDLGLrsFMfFZSrLrFZsSL";
  }

  /** The items of the third rucksack of the example group, one by one. */
  lemma ThirdGroupItems(d: char)
    ensures d in "PmmdzqPrV" + "vPwwTWBwg" <==> d in {'P', 'm', 'd', 'z', 'q', 'r', 'V', 'v', 'w', 'T', 'W', 'B', 'g'}
  {
    assert "PmmdzqPrV" + "vPwwTWBwg" == "PmmdzqPrVvPwwTWBwg";
  }

  /** The only item the example group shares is r, so it is the badge
      `get_badge` reports. */
  lemma ExampleBadge()
    ensures forall x :: InAllThree(ExampleGroup(), x) <==> x == Item('r')
  {
    ExampleSharedText();
    BadgeOfText("vJrwpWtwJgWr", "hcsFMMfFFhFp", "jqHRNqRjqzjGDLGL", "rsFMfFZSrLrFZsSL", "PmmdzqPrV", "vPwwTWBwg", 'r');
  }
}
