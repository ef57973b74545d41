/** Day 6: the start-of-packet marker, the end of the first window of four
    pairwise different characters in the datastream. */
module Day06 {
  import opened Common

  /** No character occurs twice. */
  predicate Distinct(w: string) {
    forall a, b :: 0 <= a < b < |w| ==> w[a] != w[b]
  }

  /** Distinctness, decided one character at a time, so that it can be
      evaluated on literal streams. */
  function NoRepeat(w: string): (b: bool)
    ensures b <==> Distinct(w)
  {
    if w == [] then true
    else
      var rest := NoRepeat(w[1..]);
      assert Distinct(w) ==> Distinct(w[1..]) by {
        if Distinct(w) {
          forall a, b | 0 <= a < b < |w[1..]| ensures w[1..][a] != w[1..][b] {
            assert w[1..][a] == w[a + 1] && w[1..][b] == w[b + 1];
          }
        }
      }
      assert Distinct(w) ==> w[0] !in w[1..] by {
        if Distinct(w) {
          forall b | 0 <= b < |w[1..]| ensures w[1..][b] != w[0] {
            assert w[1..][b] == w[b + 1];
          }
        }
      }
      w[0] !in w[1..] && rest
  }

  /** The character at index `i` ends a window of four pairwise different
      characters. */
  predicate IsMarker(stream: string, i: nat)
    requires i < |stream|
  {
    i >= 3 && Distinct(stream[i - 3..i + 1])
  }

  /** The four characters ending at index `k`. */
  function Window(stream: string, k: nat): (w: string)
    requires 3 <= k < |stream|
    ensures w == stream[k - 3..k + 1]
  {
    [stream[k - 3], stream[k - 2], stream[k - 1], stream[k]]
  }

  /** The first marker at index `k` or later, as `find_start` reports it:
      one past its last character. */
  function FirstMarkerFrom(stream: string, k: nat): (r: Option<nat>)
    requires k <= |stream|
    ensures r.Some? ==> 4 <= r.value && k < r.value <= |stream|
    decreases |stream| - k
  {
    if k == |stream| then None
    else if k >= 3 && NoRepeat(Window(stream, k)) then Some(k + 1)
    else FirstMarkerFrom(stream, k + 1)
  }

  /** What `find_start` reports: one past the end of the first marker, or
      None when there is no marker. */
  function FirstMarker(stream: string): (r: Option<nat>)
    ensures r.Some? ==> 4 <= r.value <= |stream|
  {
    FirstMarkerFrom(stream, 0)
  }

  /** No index in `lo..hi` ends a marker. */
  predicate NoMarkerIn(stream: string, lo: nat, hi: nat)
    requires hi <= |stream|
  {
    forall j :: lo <= j < hi ==> !IsMarker(stream, j)
  }

  /** The search from `k` finds the first marker at `k` or later. */
  lemma {:induction false} FirstMarkerFromIsFirst(stream: string, k: nat)
    requires k <= |stream|
    ensures FirstMarkerFrom(stream, k).Some? ==>
      IsMarker(stream, FirstMarkerFrom(stream, k).value - 1) && NoMarkerIn(stream, k, FirstMarkerFrom(stream, k).value - 1)
    ensures FirstMarkerFrom(stream, k).None? ==> NoMarkerIn(stream, k, |stream|)
    decreases |stream| - k
  {
    if k < |stream| {
      MarkerAt(stream, k);
      if !IsMarker(stream, k) {
        var r := FirstMarkerFrom(stream, k + 1);
        assert FirstMarkerFrom(stream, k) == r;
        FirstMarkerFromIsFirst(stream, k + 1);
        NoMarkerBefore(stream, k, if r.Some? then r.value - 1 else |stream|);
      }
    }
  }

  /** A stretch without markers extends one index down past a non-marker. */
  lemma NoMarkerBefore(stream: string, k: nat, hi: nat)
    requires k < hi <= |stream| && !IsMarker(stream, k) && NoMarkerIn(stream, k + 1, hi)
    ensures NoMarkerIn(stream, k, hi)
  {
  }

  /** The reported position ends the first marker, and None means there
      is no marker at all. */
  lemma FirstMarkerIsFirst(stream: string)
    ensures var r := FirstMarker(stream);
      (r.Some? ==> IsMarker(stream, r.value - 1) && forall j :: 0 <= j < r.value - 1 ==> !IsMarker(stream, j)) &&
      (r.None? <==> forall j :: 0 <= j < |stream| ==> !IsMarker(stream, j))
  {
    FirstMarkerFromIsFirst(stream, 0);
  }

  /** The test of `find_start` at one index is the marker predicate. */
  lemma MarkerAt(stream: string, k: nat)
    requires k < |stream|
    ensures IsMarker(stream, k) <==> k >= 3 && NoRepeat(Window(stream, k))
  {
  }

  /** The nested loops of `find_start`: is some character of the deque
      repeated later in it? */
  method HasRepeat(deque: seq<char>) returns (repeated: bool)
    ensures repeated <==> !Distinct(deque)
  {
    for i := 0 to |deque|
      invariant forall a, b :: 0 <= a < i && a < b < |deque| ==> deque[a] != deque[b]
    {
      for j := i + 1 to |deque|
        invariant forall b :: i < b < j ==> deque[i] != deque[b]
      {
        if deque[i] == deque[j] {
          return true;
        }
      }
    }
    return false;
  }

  /** `find_start`: push each character onto a deque of the most recent
      characters; once it holds four, report the position if they are
      pairwise different, and otherwise drop the oldest. */
  method FindStart(stream: string) returns (r: Option<nat>)
    ensures r == FirstMarker(stream)
  {
    var deque: seq<char> := [];
    var k := 0;
    while k < |stream|
      invariant k <= |stream|
      invariant |deque| == Min(k, 3)
      invariant deque == stream[k - |deque|..k]
      invariant FirstMarkerFrom(stream, k) == FirstMarker(stream)
    {
      var letter := stream[k];
      deque := deque + [letter];
      assert deque == stream[k + 1 - |deque|..k + 1];
      if |deque| < 4 {
        k := k + 1;
        continue;
      }
      var repeated := HasRepeat(deque);
      if repeated {
        deque := deque[1..];
        k := k + 1;
        continue;
      }
      return Some(k + 1);
    }
    return None;
  }

  /** A marker is found without looking past it: characters appended
      after the first marker do not change the report. */
  lemma {:induction false} MarkerInPrefix(prefix: string, rest: string, k: nat)
    requires k <= |prefix| && FirstMarkerFrom(prefix, k).Some?
    ensures FirstMarkerFrom(prefix + rest, k) == FirstMarkerFrom(prefix, k)
    decreases |prefix| - k
  {
    var stream := prefix + rest;
    if k >= 3 && k < |prefix| {
      assert Window(stream, k) == Window(prefix, k);
    }
    if !(k >= 3 && NoRepeat(Window(prefix, k))) {
      MarkerInPrefix(prefix, rest, k + 1);
    }
  }

  // ---------------------------------------------------------------------
  // The examples, each stream written as the part up to its marker and
  // the rest
  // ---------------------------------------------------------------------

  lemma ExampleOne()
    ensures FirstMarker("mjqjpqm" + "gbljsphdztnvjfqwrcgsmlb") == Some(7)
  {
    assert FirstMarkerFrom("mjqjpqm", 6) == Some(7);
    RepeatSkipped("mjqjpqm", 5, 2, 5);
    RepeatSkipped("mjqjpqm", 4, 1, 3);
    RepeatSkipped("mjqjpqm", 3, 1, 3);
    assert FirstMarkerFrom("mjqjpqm", 2) == Some(7);
    assert FirstMarkerFrom("mjqjpqm", 1) == Some(7);
    assert FirstMarkerFrom("mjqjpqm", 0) == Some(7);
    MarkerInPrefix("mjqjpqm", "gbljsphdztnvjfqwrcgsmlb", 0);
  }

  lemma ExampleTwo()
    ensures FirstMarker("bvwbj" + "plbgvbhsrlpgdmjqwftvncz") == Some(5)
  {
    assert FirstMarkerFrom("bvwbj", 4) == Some(5);
    assert FirstMarkerFrom("bvwbj", 3) == Some(5);
    assert FirstMarkerFrom("bvwbj", 2) == Some(5);
    assert FirstMarkerFrom("bvwbj", 1) == Some(5);
    assert FirstMarkerFrom("bvwbj", 0) == Some(5);
    MarkerInPrefix("bvwbj", "plbgvbhsrlpgdmjqwftvncz", 0);
  }

  lemma ExampleThree()
    ensures FirstMarker("nppdvj" + "thqldpwncqszvftbrmjlhg") == Some(6)
  {
    assert FirstMarkerFrom("nppdvj", 5) == Some(6);
    assert FirstMarkerFrom("nppdvj", 4) == Some(6);
    assert FirstMarkerFrom("nppdvj", 3) == Some(6);
    assert FirstMarkerFrom("nppdvj", 2) == Some(6);
    assert FirstMarkerFrom("nppdvj", 1) == Some(6);
    assert FirstMarkerFrom("nppdvj", 0) == Some(6);
    MarkerInPrefix("nppdvj", "thqldpwncqszvftbrmjlhg", 0);
  }

  /** The last positions of the four example's prefix. */
  lemma ExampleFourTail()
    ensures FirstMarkerFrom("nznrnfrfnt", 6) == Some(10)
  {
    assert FirstMarkerFrom("nznrnfrfnt", 9) == Some(10);
    RepeatSkipped("nznrnfrfnt", 8, 5, 7);
    RepeatSkipped("nznrnfrfnt", 7, 5, 7);
    RepeatSkipped("nznrnfrfnt", 6, 3, 6);
  }

  lemma ExampleFour()
    ensures FirstMarker("nznrnfrfnt" + "jfmvfwmzdfjlvtqnbhcprsg") == Some(10)
  {
    ExampleFourTail();
    RepeatSkipped("nznrnfrfnt", 5, 2, 4);
    RepeatSkipped("nznrnfrfnt", 4, 2, 4);
    RepeatSkipped("nznrnfrfnt", 3, 0, 2);
    assert FirstMarkerFrom("nznrnfrfnt", 2) == Some(10);
    assert FirstMarkerFrom("nznrnfrfnt", 1) == Some(10);
    assert FirstMarkerFrom("nznrnfrfnt", 0) == Some(10);
    MarkerInPrefix("nznrnfrfnt", "jfmvfwmzdfjlvtqnbhcprsg", 0);
  }

  /** The last positions of the five example's prefix. */
  lemma ExampleFiveTail()
    ensures FirstMarkerFrom("zcfzfwzzqfr", 7) == Some(11)
  {
    var s := "zcfzfwzzqfr";
    assert FirstMarkerFrom(s, 10) == Some(11);
    RepeatSkipped(s, 9, 6, 7);
    RepeatSkipped(s, 8, 6, 7);
    RepeatSkipped(s, 7, 6, 7);
  }

  lemma ExampleFive()
    ensures FirstMarker("zcfzfwzzqfr" + "ljwzlrfnpqdbhtmscgvjw") == Some(11)
  {
    ExampleFiveMiddle();
    assert FirstMarkerFrom("zcfzfwzzqfr", 2) == Some(11);
    assert FirstMarkerFrom("zcfzfwzzqfr", 1) == Some(11);
    assert FirstMarkerFrom("zcfzfwzzqfr", 0) == Some(11);
    MarkerInPrefix("zcfzfwzzqfr", "ljwzlrfnpqdbhtmscgvjw", 0);
  }

  /** The middle positions of the five example's prefix. */
  lemma ExampleFiveMiddle()
    ensures FirstMarkerFrom("zcfzfwzzqfr", 3) == Some(11)
  {
    var s := "zcfzfwzzqfr";
    ExampleFiveTail();
    RepeatSkipped(s, 6, 3, 6);
    RepeatSkipped(s, 5, 2, 4);
    RepeatSkipped(s, 4, 2, 4);
    RepeatSkipped(s, 3, 0, 3);
  }

  /** A window holding a repeated character is passed over. */
  lemma RepeatSkipped(stream: string, k: nat, i: nat, j: nat)
    requires 3 <= k < |stream| && k - 3 <= i < j <= k && stream[i] == stream[j]
    ensures FirstMarkerFrom(stream, k) == FirstMarkerFrom(stream, k + 1)
  {
    var w := Window(stream, k);
    assert w[i - (k - 3)] == w[j - (k - 3)];
  }
}
