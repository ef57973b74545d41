/** Day 24: reading the valley.  Every line that is not empty is a row; the
    cells of all rows, in order, are numbered blizzard by blizzard from 0. */
module Day24Parse {
  import opened Common
  import opened Day24Valley

  datatype ParseValleyError = ParseValleyError

  /** The characters of the map. */
  predicate IsCell(ch: char) {
    ch == '#' || ch == '.' || IsBlizzard(ch)
  }

  predicate IsBlizzard(ch: char) {
    ch == '^' || ch == 'v' || ch == '<' || ch == '>'
  }

  /** The part a valid character stands for, with the id a blizzard gets. */
  function Decode(ch: char, id: U16): (p: Part)
    requires IsCell(ch)
  {
    match ch
    case '#' => Wall
    case '.' => ClearGround
    case '^' => Blizzard(id, Up)
    case 'v' => Blizzard(id, Down)
    case '<' => Blizzard(id, Left)
    case _ => Blizzard(id, Right)
  }

  /** How many blizzard characters there are. */
  function BlizzardCount(cs: string): nat {
    if cs == [] then 0 else (if IsBlizzard(cs[0]) then 1 else 0) + BlizzardCount(cs[1..])
  }

  /** The cells, one after the other, drawing ids from the counter `0..`,
      starting at `next`.  The first character that is no cell is the
      error; `None` is the panic of the `u16` counter, which cannot step
      past 65535 and so cannot hand out that id. */
  function ParseCells(cs: string, next: U16): Option<Result<seq<Part>, ParseValleyError>> {
    if cs == [] then Some(Ok([]))
    else if !IsCell(cs[0]) then Some(Err(ParseValleyError))
    else if IsBlizzard(cs[0]) && next == 0xFFFF then None
    else
      var next' := if IsBlizzard(cs[0]) then next + 1 else next;
      match ParseCells(cs[1..], next')
      case Some(Ok(ps)) => Some(Ok([Decode(cs[0], next)] + ps))
      case other => other
  }

  /** The cells parse exactly when every character is one and the counter
      lasts. */
  lemma {:induction false} ParseCellsOk(cs: string, next: U16)
    ensures (ParseCells(cs, next).Some? && ParseCells(cs, next).value.Ok?) <==>
      (forall i :: 0 <= i < |cs| ==> IsCell(cs[i])) && next + BlizzardCount(cs) <= 0xFFFF
    ensures ParseCells(cs, next).Some? && ParseCells(cs, next).value.Ok? ==> |ParseCells(cs, next).value.value| == |cs|
  {
    if cs != [] {
      var count := if IsBlizzard(cs[0]) then 1 else 0;
      if IsCell(cs[0]) && !(IsBlizzard(cs[0]) && next == 0xFFFF) {
        ParseCellsOk(cs[1..], next + count);
        if forall i :: 0 <= i < |cs| ==> IsCell(cs[i]) {
          forall i | 0 <= i < |cs[1..]| ensures IsCell(cs[1..][i]) {
            assert cs[1..][i] == cs[i + 1];
          }
        } else {
          var j :| 0 <= j < |cs| && !IsCell(cs[j]);
          assert cs[1..][j - 1] == cs[j];
        }
      } else if IsCell(cs[0]) {
        BlizzardCountAtLeast(cs);
      }
    }
  }

  /** Every parsed cell is its character decoded, a blizzard numbered by the
      blizzards before it. */
  lemma {:induction false} ParseCellDecoded(cs: string, next: U16, i: nat)
    requires ParseCells(cs, next).Some? && ParseCells(cs, next).value.Ok?
    requires i < |cs|
    ensures i < |ParseCells(cs, next).value.value| && IsCell(cs[i]) && next + BlizzardCount(cs[..i]) <= 0xFFFF
    ensures ParseCells(cs, next).value.value[i] == Decode(cs[i], next + BlizzardCount(cs[..i]))
  {
    ParseCellsOk(cs, next);
    var next' := if IsBlizzard(cs[0]) then next + 1 else next;
    if i > 0 {
      ParseCellDecoded(cs[1..], next', i - 1);
      assert cs[..i][0] == cs[0] && cs[..i][1..] == cs[1..][..i - 1];
      assert cs[1..][i - 1] == cs[i];
    } else {
      assert cs[..i] == [];
    }
  }

  lemma BlizzardCountAtLeast(cs: string)
    requires cs != [] && IsBlizzard(cs[0])
    ensures BlizzardCount(cs) >= 1
  {
  }

  /** The first character that is no cell is reported, if the counter lasts
      until then. */
  lemma {:induction false} ParseCellsError(cs: string, next: U16, e: nat)
    requires e < |cs| && !IsCell(cs[e]) && forall i :: 0 <= i < e ==> IsCell(cs[i])
    ensures ParseCells(cs, next) == if next + BlizzardCount(cs[..e]) <= 0xFFFF then Some(Err(ParseValleyError)) else None
  {
    if e == 0 {
      assert cs[..e] == [];
    } else {
      assert IsCell(cs[0]);
      assert cs[..e][0] == cs[0] && cs[..e][1..] == cs[1..][..e - 1];
      if !(IsBlizzard(cs[0]) && next == 0xFFFF) {
        var next' := if IsBlizzard(cs[0]) then next + 1 else next;
        forall i | 0 <= i < e - 1 ensures IsCell(cs[1..][i]) {
          assert cs[1..][i] == cs[i + 1];
        }
        ParseCellsError(cs[1..], next', e - 1);
      }
    }
  }

  /** The blizzards counted so far only grow along the text. */
  lemma {:induction false} BlizzardCountPrefix(cs: string, i: nat, j: nat)
    requires i < j <= |cs| && IsBlizzard(cs[i])
    ensures BlizzardCount(cs[..i]) < BlizzardCount(cs[..j])
  {
    if i > 0 {
      assert cs[..i][0] == cs[0] && cs[..i][1..] == cs[1..][..i - 1];
      assert cs[..j][0] == cs[0] && cs[..j][1..] == cs[1..][..j - 1];
      assert cs[1..][i - 1] == cs[i];
      BlizzardCountPrefix(cs[1..], i - 1, j - 1);
    } else {
      assert cs[..i] == [];
      assert cs[..j][0] == cs[0];
    }
  }

  /** The blizzards of a parsed map have pairwise different ids. */
  lemma IdsDistinct(cs: string, ps: seq<Part>, i: nat, j: nat)
    requires ParseCells(cs, 0) == Some(Ok(ps))
    requires i < j < |ps| && ps[i].Blizzard? && ps[j].Blizzard?
    ensures ps[i].id != ps[j].id
  {
    ParseCellsOk(cs, 0);
    ParseCellDecoded(cs, 0, i);
    ParseCellDecoded(cs, 0, j);
    BlizzardCountPrefix(cs, i, j);
  }

  /** The valley's cells, width and height, read from the text. */
  datatype Grid = Grid(data: seq<Part>, width: nat, height: nat)

  /** `from_str`: the rows are the lines that are not empty; the width is
      that of the first row and the height the number of rows.  `None` is a
      panic: the id counter running out, or no row at all, where
      `parsed_rows[0]` fails. */
  function Parse(s: string): (r: Option<Result<Grid, ParseValleyError>>)
    ensures r.Some? && r.value.Ok? ==> r.value.value.width > 0
  {
    var rows := NonEmpty(Split(s, '\n'));
    match ParseCells(Concat(rows), 0)
    case None => None
    case Some(Err(e)) => Some(Err(e))
    case Some(Ok(data)) =>
      if rows == [] then None
      else Some(Ok(Grid(data, |rows[0]|, |rows|)))
  }

  /** What is read: the cells of every row, decoded and numbered in order,
      in a grid as wide as the first row and as high as the row count. */
  lemma ParseMeaning(s: string)
    requires Parse(s).Some? && Parse(s).value.Ok?
    ensures var g := Parse(s).value.value;
      var cs := Concat(NonEmpty(Split(s, '\n')));
      && |g.data| == |cs|
      && g.height == |NonEmpty(Split(s, '\n'))| && g.width == |NonEmpty(Split(s, '\n'))[0]|
      && forall i :: 0 <= i < |cs| ==> IsCell(cs[i]) && BlizzardCount(cs[..i]) <= 0xFFFF && g.data[i] == Decode(cs[i], BlizzardCount(cs[..i]))
  {
    var cs := Concat(NonEmpty(Split(s, '\n')));
    ParseCellsOk(cs, 0);
    forall i | 0 <= i < |cs|
      ensures IsCell(cs[i]) && BlizzardCount(cs[..i]) <= 0xFFFF && Parse(s).value.value.data[i] == Decode(cs[i], BlizzardCount(cs[..i]))
    {
      ParseCellDecoded(cs, 0, i);
    }
  }

  /** A character that is no cell makes the whole text an error when it is
      reached before the counter runs out. */
  lemma ParseError(s: string, e: nat)
    requires var cs := Concat(NonEmpty(Split(s, '\n')));
      e < |cs| && !IsCell(cs[e]) && (forall i :: 0 <= i < e ==> IsCell(cs[i])) && BlizzardCount(cs[..e]) <= 0xFFFF
    ensures Parse(s) == Some(Err(ParseValleyError))
  {
    ParseCellsError(Concat(NonEmpty(Split(s, '\n'))), 0, e);
  }

  /** A text whose lines are all empty has no row: the panic. */
  lemma NoRowIsPanic(s: string)
    requires forall k :: 0 <= k < |Split(s, '\n')| ==> Split(s, '\n')[k] == ""
    ensures Parse(s).None?
  {
  }

  /** `from_str` building the valley. */
  method FromStr(s: string) returns (r: Option<Result<Valley, ParseValleyError>>)
    ensures r.None? <==> Parse(s).None?
    ensures r.Some? && r.value.Err? <==> Parse(s).Some? && Parse(s).value.Err?
    ensures r.Some? && r.value.Ok? ==>
      && Parse(s).Some? && Parse(s).value.Ok?
      && fresh(r.value.value)
      && r.value.value.data == Parse(s).value.value.data
      && r.value.value.width == Parse(s).value.value.width
      && r.value.value.height == Parse(s).value.value.height
      && r.value.value.Valid()
  {
    var p := Parse(s);
    match p
    case None => r := None;
    case Some(Err(e)) => r := Some(Err(e));
    case Some(Ok(g)) =>
      var v := new Valley(g.data, g.width, g.height);
      r := Some(Ok(v));
  }
}
