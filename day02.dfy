/** Day 2: the encrypted strategy guide, one round of rock paper scissors
    per line. */
module Day02 {
  import opened Common

  datatype HandShape = Rock | Paper | Scissors

  /** Both players' shapes in one round. */
  datatype Round = Round(opponent: HandShape, response: HandShape)

  /** `parse_handshape`: A or X is Rock, B or Y Paper, C or Z Scissors; any
      other character is None, where the source panics. */
  function ParseHandShape(c: char): (r: Option<HandShape>)
    ensures r.Some? <==> c in "ABCXYZ"
    ensures r == Some(Rock) <==> c == 'A' || c == 'X'
    ensures r == Some(Paper) <==> c == 'B' || c == 'Y'
    ensures r == Some(Scissors) <==> c == 'C' || c == 'Z'
  {
    match c
    case 'A' => Some(Rock)
    case 'X' => Some(Rock)
    case 'B' => Some(Paper)
    case 'Y' => Some(Paper)
    case 'C' => Some(Scissors)
    case 'Z' => Some(Scissors)
    case _ => None
  }

  /** `parse_round`: the first character is the opponent's shape and the
      last the response; an empty line or a character that is no shape is
      None. */
  function ParseRound(line: string): (r: Option<Round>)
    ensures r.Some? <==> |line| > 0 && ParseHandShape(line[0]).Some? && ParseHandShape(line[|line| - 1]).Some?
    ensures r.Some? ==> r.value.opponent == ParseHandShape(line[0]).value
    ensures r.Some? ==> r.value.response == ParseHandShape(line[|line| - 1]).value
  {
    if |line| == 0 then None
    else
      var first := ParseHandShape(line[0]);
      var last := ParseHandShape(line[|line| - 1]);
      if first.Some? && last.Some? then Some(Round(first.value, last.value)) else None
  }

  /** `parse_encrypted_strategy_guide`: one round per non-empty line, in
      order. */
  function ParseGuide(guide: string): (r: Option<seq<Round>>)
    ensures r.Some? <==> forall line :: line in NonEmpty(Split(guide, '\n')) ==> ParseRound(line).Some?
    ensures r.Some? ==> |r.value| == |NonEmpty(Split(guide, '\n'))|
    ensures r.Some? ==> forall i :: 0 <= i < |r.value| ==> ParseRound(NonEmpty(Split(guide, '\n'))[i]) == Some(r.value[i])
  {
    var lines := NonEmpty(Split(guide, '\n'));
    var parsed := MapAll(ParseRound, lines);
    assert parsed.Some? <==> forall i :: 0 <= i < |lines| ==> ParseRound(lines[i]).Some?;
    assert (forall i :: 0 <= i < |lines| ==> ParseRound(lines[i]).Some?) <==> forall line :: line in lines ==> ParseRound(line).Some?;
    parsed
  }

  // ---------------------------------------------------------------------
  // Rendering with the opponent's letters A-C and the response's X-Z
  // ---------------------------------------------------------------------

  function OpponentLetter(h: HandShape): char {
    match h
    case Rock => 'A'
    case Paper => 'B'
    case Scissors => 'C'
  }

  function ResponseLetter(h: HandShape): char {
    match h
    case Rock => 'X'
    case Paper => 'Y'
    case Scissors => 'Z'
  }

  /** A round as a line of the guide. */
  function RenderRound(r: Round): string {
    [OpponentLetter(r.opponent), ' ', ResponseLetter(r.response)]
  }

  /** The rounds as lines of the guide. */
  function RoundLines(rounds: seq<Round>): (lines: seq<string>)
    ensures |lines| == |rounds|
    ensures forall i :: 0 <= i < |rounds| ==> lines[i] == RenderRound(rounds[i])
  {
    seq(|rounds|, i requires 0 <= i < |rounds| => RenderRound(rounds[i]))
  }

  /** The lines of the guide, each ended by a newline. */
  function RenderGuide(rounds: seq<Round>): string {
    Join(RoundLines(rounds) + [""], '\n')
  }

  /** Both letters decode to the shape they encode. */
  lemma ParseLetters(h: HandShape)
    ensures ParseHandShape(OpponentLetter(h)) == Some(h)
    ensures ParseHandShape(ResponseLetter(h)) == Some(h)
  {
  }

  /** A rendered round parses back. */
  lemma ParseRenderRound(r: Round)
    ensures ParseRound(RenderRound(r)) == Some(r)
  {
    ParseLetters(r.opponent);
    ParseLetters(r.response);
  }

  /** A guide whose non-empty lines are rendered rounds parses to those
      rounds, whatever empty lines lie between them. */
  lemma ParseRoundLines(rounds: seq<Round>, pieces: seq<string>)
    requires |pieces| > 0 && forall i, j :: 0 <= i < |pieces| && 0 <= j < |pieces[i]| ==> pieces[i][j] != '\n'
    requires NonEmpty(pieces) == RoundLines(rounds)
    ensures ParseGuide(Join(pieces, '\n')) == Some(rounds)
  {
    SplitJoin(pieces, '\n');
    var lines := RoundLines(rounds);
    forall i | 0 <= i < |rounds| ensures ParseRound(lines[i]) == Some(rounds[i]) {
      ParseRenderRound(rounds[i]);
    }
    var r := ParseGuide(Join(pieces, '\n'));
    assert r.value == rounds;
  }

  /** Parsing undoes rendering for every guide. */
  lemma ParseRenderGuide(rounds: seq<Round>)
    ensures ParseGuide(RenderGuide(rounds)) == Some(rounds)
  {
    var lines := RoundLines(rounds);
    var pieces := lines + [""];
    assert forall i :: 0 <= i < |lines| ==> pieces[i] == lines[i];
    assert forall i, j :: 0 <= i < |pieces| && 0 <= j < |pieces[i]| ==> pieces[i][j] != '\n';
    assert forall i :: 0 <= i < |lines| ==> lines[i] != "";
    NonEmptyDropsLast(lines);
    ParseRoundLines(rounds, pieces);
  }

  /** The example guide "A Y\nB X\nC Z\n\n", as its lines. */
  function ExampleLines(): seq<string> {
    ["A Y", "B X", "C Z", "", ""]
  }

  lemma ExampleGuide()
    ensures ParseGuide(Join(ExampleLines(), '\n')) ==
      Some([Round(Rock, Paper), Round(Paper, Rock), Round(Scissors, Scissors)])
  {
    var rounds := [Round(Rock, Paper), Round(Paper, Rock), Round(Scissors, Scissors)];
    ExampleRoundLines();
    ExampleNonEmpty();
    ParseRoundLines(rounds, ExampleLines());
  }

  /** The example rounds render as the example's lines. */
  lemma ExampleRoundLines()
    ensures RoundLines([Round(Rock, Paper), Round(Paper, Rock), Round(Scissors, Scissors)]) == ["A Y", "B X", "C Z"]
  {
  }

  /** The example's non-empty lines, and no line holds a newline. */
  lemma ExampleNonEmpty()
    ensures NonEmpty(ExampleLines()) == ["A Y", "B X", "C Z"]
    ensures forall i, j :: 0 <= i < |ExampleLines()| && 0 <= j < |ExampleLines()[i]| ==> ExampleLines()[i][j] != '\n'
  {
    var lines := ExampleLines();
    forall i, j | 0 <= i < |lines| && 0 <= j < |lines[i]| ensures lines[i][j] != '\n' {
      assert i < 3 && |lines[i]| == 3 && lines[i][1] == ' ';
      assert lines[i][0] in "ABC" && lines[i][2] in "XYZ";
    }
  }
}
