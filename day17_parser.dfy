/** Parsing of the day 17 jet pattern: one push direction per character. */
module Day17Parser {
  import opened Common

  datatype JetDirection = Left | Right

  /** The character a direction is written as (the inverse of parsing). */
  function JetChar(d: JetDirection): char {
    match d
    case Left => '<'
    case Right => '>'
  }

  /** The directions of a text made only of '<' and '>'. */
  function Directions(input: string): (pattern: seq<JetDirection>)
    requires forall i :: 0 <= i < |input| ==> input[i] == '<' || input[i] == '>'
    ensures |pattern| == |input|
    ensures forall i :: 0 <= i < |input| ==> (pattern[i] == Left <==> input[i] == '<')
    ensures forall i :: 0 <= i < |input| ==> (pattern[i] == Right <==> input[i] == '>')
  {
    seq(|input|, i requires 0 <= i < |input| => if input[i] == '<' then Left else Right)
  }

  /** `parse_jet_pattern`: '<' is Left and '>' is Right; any other
      character (a trailing newline included) reaches `unreachable!()`,
      here None. */
  function ParseJetPattern(input: string): (r: Option<seq<JetDirection>>)
    ensures r.Some? <==> forall i :: 0 <= i < |input| ==> input[i] == '<' || input[i] == '>'
    ensures r.Some? ==> |r.value| == |input|
    ensures r.Some? ==> forall i :: 0 <= i < |input| ==> (r.value[i] == Left <==> input[i] == '<')
    ensures r.Some? ==> forall i :: 0 <= i < |input| ==> (r.value[i] == Right <==> input[i] == '>')
  {
    if forall i :: 0 <= i < |input| ==> input[i] == '<' || input[i] == '>' then Some(Directions(input)) else None
  }

  /** Writes a pattern back as text. */
  function Render(pattern: seq<JetDirection>): (s: string)
    ensures |s| == |pattern|
  {
    if pattern == [] then "" else [JetChar(pattern[0])] + Render(pattern[1..])
  }

  /** Parsing and rendering are inverse: the token list is the input read one
      character at a time, in order, and nothing else. */
  lemma {:induction false} ParseRender(pattern: seq<JetDirection>)
    ensures forall i :: 0 <= i < |Render(pattern)| ==> Render(pattern)[i] == '<' || Render(pattern)[i] == '>'
    ensures ParseJetPattern(Render(pattern)) == Some(pattern)
  {
    if pattern != [] {
      ParseRender(pattern[1..]);
      var text := Render(pattern);
      assert text[1..] == Render(pattern[1..]);
      forall i | 0 <= i < |text|
        ensures text[i] == '<' || text[i] == '>'
      {
        if i > 0 {
          assert text[i] == text[1..][i - 1];
        }
      }
      assert Directions(text)[1..] == Directions(text[1..]);
      assert Directions(text) == [pattern[0]] + pattern[1..];
      assert Directions(text) == pattern;
      assert ParseJetPattern(text) == Some(Directions(text));
    }
  }

  lemma {:induction false} RenderParse(input: string)
    requires ParseJetPattern(input).Some?
    ensures Render(ParseJetPattern(input).value) == input
  {
    if input != [] {
      RenderParse(input[1..]);
      assert Directions(input)[1..] == Directions(input[1..]);
    }
  }

  /** A trailing newline, as a text file usually ends, makes the parser
      panic. */
  lemma NewlinePanics(input: string)
    ensures ParseJetPattern(input + "\n").None?
  {
    assert (input + "\n")[|input|] == '\n';
  }

  /** The 40-character example of the puzzle. */
  lemma ParseExample()
    ensures ParseJetPattern(">>><<><>><<<>><>>><<<>>><<<><<<>><>><<>>") == Some(
      [Right, Right, Right, Left, Left, Right, Left, Right, Right, Left, Left, Left, Right,
       Right, Left, Right, Right, Right, Left, Left, Left, Right, Right, Right, Left, Left,
       Left, Right, Left, Left, Left, Right, Right, Left, Right, Right, Left, Left, Right,
       Right])
  {
    var s := ">>><<><>><<<>><>>><<<>>><<<><<<>><>><<>>";
    var expected := [Right, Right, Right, Left, Left, Right, Left, Right, Right, Left, Left, Left, Right,
       Right, Left, Right, Right, Right, Left, Left, Left, Right, Right, Right, Left, Left,
       Left, Right, Left, Left, Left, Right, Right, Left, Right, Right, Left, Left, Right,
       Right];
    assert forall i :: 0 <= i < |s| ==> s[i] == '<' || s[i] == '>';
    var p := Directions(s);
    assert ParseJetPattern(s) == Some(p);
    assert forall i :: 0 <= i < |s| ==> (expected[i] == Left <==> s[i] == '<');
    assert p == expected;
  }
}
