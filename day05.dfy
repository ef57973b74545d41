/** Day 5: stacks of crates rearranged by a crane, one crate at a time
    (CrateMover 9000) or a block at a time (CrateMover 9001). */
module Day05 {
  import opened Common

  /** A stack of crates, bottom first; `id` is the `u8` label. */
  datatype Stack = Stack(id: nat, crates: seq<char>)

  /** `move amount from from to to`, with 1-based stack labels. */
  datatype Instruction = Instruction(amount: nat, from: nat, to: nat)

  datatype Crane = CrateMover9000 | CrateMover9001

  // ---------------------------------------------------------------------
  // Parsing the drawing
  // ---------------------------------------------------------------------

  /** `parse_crate`: a three-character cell is blank or a bracketed
      crate. */
  function ParseCrate(cell: string): (r: Option<char>)
    requires |cell| == 3
    ensures r.None? <==> cell == "   "
    ensures r.Some? ==> r.value == cell[1]
  {
    if cell == "   " then None else Some(cell[1])
  }

  /** The cells of a drawing line: three characters every four. */
  function StackLine(line: string): (r: seq<Option<char>>)
    requires |line| % 4 == 3
    ensures |r| == (|line| + 1) / 4
  {
    seq((|line| + 1) / 4, k requires 0 <= k < (|line| + 1) / 4 => ParseCrate(line[4 * k..4 * k + 3]))
  }

  /** `parse_stack_line`: read a cell, then one separator character, until
      the line ends right after a cell. A line of any length other than
      4k + 3 runs out inside a cell, where `next().unwrap()` panics: None. */
  method ParseStackLine(line: string) returns (r: Option<seq<Option<char>>>)
    ensures r.Some? <==> |line| % 4 == 3
    ensures r.Some? ==> r.value == StackLine(line)
  {
    var cells := [];
    var position := 0;
    while true
      invariant position == 4 * |cells| && position <= |line|
      invariant forall k :: 0 <= k < |cells| ==> cells[k] == ParseCrate(line[4 * k..4 * k + 3])
      decreases |line| - position
    {
      if position + 3 > |line| {
        return None;
      }
      var cell := line[position..position + 3];
      cells := cells + [ParseCrate(cell)];
      position := position + 3;
      if position == |line| {
        assert cells == StackLine(line);
        return Some(cells);
      }
      position := position + 1;
    }
  }

  /** "    [D]    " holds crate D in the middle cell only. */
  lemma StackLineExample()
    ensures StackLine("    [D]    ") == [None, Some('D'), None]
  {
    var line := "    [D]    ";
    assert line[0..3] == "   " && line[4..7] == "[D]" && line[8..11] == "   ";
  }

  /** The crates of column `j`, read from the bottom row up. */
  function Column(rows: seq<seq<Option<char>>>, j: nat): seq<char> {
    if rows == [] then []
    else
      var bottom := rows[|rows| - 1];
      (if j < |bottom| && bottom[j].Some? then [bottom[j].value] else []) + Column(rows[..|rows| - 1], j)
  }

  /** Every crate drawn lies in a column that has a label. */
  predicate CratesLabelled(rows: seq<seq<Option<char>>>, columns: nat) {
    forall r, i :: 0 <= r < |rows| && 0 <= i < |rows[r]| && rows[r][i].Some? ==> i < columns
  }

  /** `create_stacks`: one empty stack per label, then the rows from the
      bottom up push their crates onto the stacks of their columns. A
      crate in a column without a label is the `stacks[i]` panic: None. */
  method CreateStacks(rows: seq<seq<Option<char>>>, ids: seq<nat>) returns (built: Option<seq<Stack>>)
    ensures built.Some? <==> CratesLabelled(rows, |ids|)
    ensures built.Some? ==> |built.value| == |ids|
    ensures built.Some? ==> forall j :: 0 <= j < |ids| ==> built.value[j] == Stack(ids[j], Column(rows, j))
  {
    var columns: seq<seq<char>> := seq(|ids|, _ => []);
    var r := |rows|;
    while r > 0
      invariant 0 <= r <= |rows| && |columns| == |ids|
      invariant forall j :: 0 <= j < |ids| ==> columns[j] == ColumnBelow(rows, r, j)
      invariant forall r', i :: r <= r' < |rows| && 0 <= i < |rows[r']| && rows[r'][i].Some? ==> i < |ids|
    {
      r := r - 1;
      var row := rows[r];
      for i := 0 to |row|
        invariant |columns| == |ids|
        invariant forall j :: 0 <= j < |ids| ==>
          columns[j] == ColumnBelow(rows, r + 1, j) + (if j < i && row[j].Some? then [row[j].value] else [])
        invariant forall i' :: 0 <= i' < i && row[i'].Some? ==> i' < |ids|
      {
        match row[i]
        case Some(c) =>
          if i >= |columns| {
            assert rows[r][i].Some?;
            return None;
          }
          columns := columns[i := columns[i] + [c]];
        case None =>
      }
      forall j | 0 <= j < |ids|
        ensures columns[j] == ColumnBelow(rows, r, j)
      {
        ColumnBelowStep(rows, r, j);
      }
    }
    var stacks := seq(|ids|, j requires 0 <= j < |ids| => Stack(ids[j], columns[j]));
    forall j | 0 <= j < |ids|
      ensures columns[j] == Column(rows, j)
    {
      ColumnBelowAll(rows, j);
    }
    return Some(stacks);
  }

  /** The crates of column `j` in the rows from `r` down, bottom first. */
  function ColumnBelow(rows: seq<seq<Option<char>>>, r: nat, j: nat): seq<char>
    requires r <= |rows|
    decreases |rows| - r
  {
    if r == |rows| then []
    else ColumnBelow(rows, r + 1, j) + (if j < |rows[r]| && rows[r][j].Some? then [rows[r][j].value] else [])
  }

  lemma ColumnBelowStep(rows: seq<seq<Option<char>>>, r: nat, j: nat)
    requires r < |rows|
    ensures ColumnBelow(rows, r, j) ==
      ColumnBelow(rows, r + 1, j) + (if j < |rows[r]| && rows[r][j].Some? then [rows[r][j].value] else [])
  {
  }

  /** From the top row down, the rows hold exactly the column. */
  lemma {:induction false} ColumnBelowAll(rows: seq<seq<Option<char>>>, j: nat)
    ensures ColumnBelow(rows, 0, j) == Column(rows, j)
    decreases |rows|
  {
    if rows != [] {
      var upper := rows[..|rows| - 1];
      ColumnBelowAll(upper, j);
      ColumnBelowSplit(rows, 0, j);
    }
  }

  /** Leaving off the bottom row leaves off its crate, which comes first. */
  lemma {:induction false} ColumnBelowSplit(rows: seq<seq<Option<char>>>, r: nat, j: nat)
    requires rows != [] && r < |rows|
    ensures var bottom := rows[|rows| - 1];
      ColumnBelow(rows, r, j) ==
        (if j < |bottom| && bottom[j].Some? then [bottom[j].value] else []) + ColumnBelow(rows[..|rows| - 1], r, j)
    decreases |rows| - r
  {
    if r + 1 < |rows| {
      ColumnBelowSplit(rows, r + 1, j);
    }
  }

  /** The three drawing rows of the example fill stacks ZN, MCD and P. */
  lemma StackLineExamples()
    ensures StackLine("[N] [C]    ") == [Some('N'), Some('C'), None]
    ensures StackLine("[Z] [M] [P]") == [Some('Z'), Some('M'), Some('P')]
  {
    var second, bottom := "[N] [C]    ", "[Z] [M] [P]";
    assert second[0..3] == "[N]" && second[4..7] == "[C]" && second[8..11] == "   ";
    assert bottom[0..3] == "[Z]" && bottom[4..7] == "[M]" && bottom[8..11] == "[P]";
  }

  lemma ColumnsExample()
    ensures var rows := [StackLine("    [D]    "), StackLine("[N] [C]    "), StackLine("[Z] [M] [P]")];
      Column(rows, 0) == "ZN" && Column(rows, 1) == "MCD" && Column(rows, 2) == "P"
  {
    StackLineExample();
    StackLineExamples();
    var top, middle, bottom := [None, Some('D'), None], [Some('N'), Some('C'), None], [Some('Z'), Some('M'), Some('P')];
    var rows := [top, middle, bottom];
    assert rows[..2] == [top, middle] && [top, middle][..1] == [top] && [top][..0] == [];
    assert Column([top], 0) == [] && Column([top], 1) == "D" && Column([top], 2) == [];
    assert Column([top, middle], 0) == "N" && Column([top, middle], 1) == "CD" && Column([top, middle], 2) == [];
    assert Column(rows, 0) == "ZN" && Column(rows, 1) == "MCD" && Column(rows, 2) == "P";
  }

  // ---------------------------------------------------------------------
  // Parsing the procedure
  // ---------------------------------------------------------------------

  /** `parse_instruction`: the second, fourth and sixth words are the
      `u32` amount and the `u8` labels; the other words are not looked
      at. `None` where an `unwrap` panics. */
  function ParseInstruction(line: string): (r: Option<Instruction>)
    ensures r.Some? ==> r.value.amount < 0x1_0000_0000 && r.value.from < 256 && r.value.to < 256
  {
    var words := Split(line, ' ');
    if |words| < 6 then None
    else
      var amount := ParseUnsigned(words[1], 0x1_0000_0000);
      var from := ParseUnsigned(words[3], 256);
      var to := ParseUnsigned(words[5], 256);
      if amount.Some? && from.Some? && to.Some? then Some(Instruction(amount.value, from.value, to.value))
      else None
  }

  /** The instruction as the puzzle writes it. */
  function RenderInstruction(ins: Instruction): string {
    Join(["move", NatToString(ins.amount), "from", NatToString(ins.from), "to", NatToString(ins.to)], ' ')
  }

  /** Round trip: every instruction whose numbers fit parses back from its
      text. */
  lemma ParseRenderInstruction(ins: Instruction)
    requires ins.amount < 0x1_0000_0000 && ins.from < 256 && ins.to < 256
    ensures ParseInstruction(RenderInstruction(ins)) == Some(ins)
  {
    var words := ["move", NatToString(ins.amount), "from", NatToString(ins.from), "to", NatToString(ins.to)];
    assert forall i, j :: 0 <= i < |words| && 0 <= j < |words[i]| ==> words[i][j] != ' ' by {
      forall i, j | 0 <= i < |words| && 0 <= j < |words[i]|
        ensures words[i][j] != ' '
      {
        if i == 1 || i == 3 || i == 5 {
          assert IsDigit(words[i][j]);
        }
      }
    }
    SplitJoin(words, ' ');
  }

  /** `parse_procedure`: one instruction per line. */
  function ParseProcedure(text: string): (r: Option<seq<Instruction>>)
    ensures r.Some? ==> |r.value| == |Split(text, '\n')|
    ensures r.Some? ==> forall i :: 0 <= i < |r.value| ==> ParseInstruction(Split(text, '\n')[i]) == Some(r.value[i])
    ensures r.None? ==> exists i :: 0 <= i < |Split(text, '\n')| && ParseInstruction(Split(text, '\n')[i]).None?
  {
    var lines := Split(text, '\n');
    if forall i :: 0 <= i < |lines| ==> ParseInstruction(lines[i]).Some? then
      Some(seq(|lines|, i requires 0 <= i < |lines| => ParseInstruction(lines[i]).value))
    else None
  }

  // ---------------------------------------------------------------------
  // Moving crates
  // ---------------------------------------------------------------------

  /** A 1-based label names one of the stacks. */
  predicate IsLabel(stacks: seq<Stack>, name: nat) {
    1 <= name <= |stacks|
  }

  /** The top `k` crates of stack `name`, bottom first. */
  function Top(stacks: seq<Stack>, name: nat, k: nat): seq<char>
    requires IsLabel(stacks, name) && k <= |stacks[name - 1].crates|
  {
    var crates := stacks[name - 1].crates;
    crates[|crates| - k..]
  }

  /** The stacks with the top `k` crates of `name` taken off. */
  function Removed(stacks: seq<Stack>, name: nat, k: nat): (r: seq<Stack>)
    requires IsLabel(stacks, name) && k <= |stacks[name - 1].crates|
    ensures |r| == |stacks|
  {
    var stack := stacks[name - 1];
    stacks[name - 1 := stack.(crates := stack.crates[..|stack.crates| - k])]
  }

  /** The stacks with `block` put on top of `name`, in its order. */
  function Added(stacks: seq<Stack>, name: nat, block: seq<char>): (r: seq<Stack>)
    requires IsLabel(stacks, name)
    ensures |r| == |stacks|
  {
    var stack := stacks[name - 1];
    stacks[name - 1 := stack.(crates := stack.crates + block)]
  }

  /** One iteration of `run_instruction`: pop the top crate of `from` and
      push it onto `to`. */
  function MoveOne(stacks: seq<Stack>, from: nat, to: nat): (r: seq<Stack>)
    requires IsLabel(stacks, from) && IsLabel(stacks, to) && |stacks[from - 1].crates| > 0
    ensures |r| == |stacks|
  {
    Added(Removed(stacks, from, 1), to, Top(stacks, from, 1))
  }

  /** `k` single-crate moves: the top `k` crates of `from` end on `to`
      in reverse order, or nothing changes when `from` is `to`. */
  function MoveOneAtATime(stacks: seq<Stack>, from: nat, to: nat, k: nat): (r: seq<Stack>)
    requires IsLabel(stacks, from) && IsLabel(stacks, to)
    requires k > 0 ==> |stacks[from - 1].crates| >= (if from == to then 1 else k)
    ensures from == to ==> r == stacks
    ensures from != to ==> r == Added(Removed(stacks, from, k), to, Reverse(Top(stacks, from, k)))
    decreases k
  {
    if k == 0 then
      assert stacks[from - 1].crates[..|stacks[from - 1].crates| - 0] == stacks[from - 1].crates;
      assert Removed(stacks, from, 0) == stacks;
      assert stacks[to - 1].crates + [] == stacks[to - 1].crates;
      assert Added(stacks, to, []) == stacks;
      stacks
    else
      var before := MoveOneAtATime(stacks, from, to, k - 1);
      var r := MoveOne(before, from, to);
      if from == to then
        assert before[from - 1].crates[..|before[from - 1].crates| - 1] + Top(before, from, 1) == before[from - 1].crates;
        assert r == before;
        r
      else
        MoveOneStep(stacks, from, to, k);
        r
  }

  /** One more single-crate move takes the next crate down off `from`
      and puts it on top of `to`. */
  lemma MoveOneStep(stacks: seq<Stack>, from: nat, to: nat, k: nat)
    requires IsLabel(stacks, from) && IsLabel(stacks, to) && from != to
    requires 0 < k <= |stacks[from - 1].crates|
    ensures var before := Added(Removed(stacks, from, k - 1), to, Reverse(Top(stacks, from, k - 1)));
      MoveOne(before, from, to) == Added(Removed(stacks, from, k), to, Reverse(Top(stacks, from, k)))
  {
    var before := Added(Removed(stacks, from, k - 1), to, Reverse(Top(stacks, from, k - 1)));
    var after := Added(Removed(stacks, from, k), to, Reverse(Top(stacks, from, k)));
    var crates := stacks[from - 1].crates;
    var n := |crates|;
    var top := Top(stacks, from, k);
    assert before[from - 1].crates == crates[..n - k + 1];
    assert Top(before, from, 1) == [top[0]];
    assert Reverse(top) == Reverse(top[1..]) + [top[0]];
    assert top[1..] == Top(stacks, from, k - 1);
    assert crates[..n - k + 1][..n - k] == crates[..n - k];
    var moved := MoveOne(before, from, to);
    assert moved[from - 1] == after[from - 1];
    assert moved[to - 1] == after[to - 1];
    assert forall j :: 0 <= j < |stacks| ==> moved[j] == after[j];
  }

  /** The crane can carry out the instruction on these stacks without a
      panic: labels in range and enough crates on the source stack. */
  predicate CanRun(stacks: seq<Stack>, ins: Instruction, crane: Crane) {
    match crane
    case CrateMover9000 =>
      ins.amount == 0 ||
      (IsLabel(stacks, ins.from) && IsLabel(stacks, ins.to) &&
       |stacks[ins.from - 1].crates| >= (if ins.from == ins.to then 1 else ins.amount))
    case CrateMover9001 =>
      IsLabel(stacks, ins.to) &&
      (ins.amount == 0 || (IsLabel(stacks, ins.from) && |stacks[ins.from - 1].crates| >= ins.amount))
  }

  /** The stacks after one instruction: the CrateMover 9000 reverses the
      moved block, the CrateMover 9001 keeps its order. */
  function Apply(stacks: seq<Stack>, ins: Instruction, crane: Crane): (r: seq<Stack>)
    requires CanRun(stacks, ins, crane)
    ensures |r| == |stacks|
    ensures ins.amount == 0 ==> r == stacks
  {
    if ins.amount == 0 then stacks
    else
      match crane
      case CrateMover9000 =>
        if ins.from == ins.to then stacks
        else Added(Removed(stacks, ins.from, ins.amount), ins.to, Reverse(Top(stacks, ins.from, ins.amount)))
      case CrateMover9001 => Added(Removed(stacks, ins.from, ins.amount), ins.to, Top(stacks, ins.from, ins.amount))
  }

  /** Total number of crates. */
  function Total(stacks: seq<Stack>): nat {
    if stacks == [] then 0 else Total(stacks[..|stacks| - 1]) + |stacks[|stacks| - 1].crates|
  }

  /** Replacing one stack changes the total by the difference in size. */
  lemma {:induction false} TotalUpdate(stacks: seq<Stack>, i: nat, stack: Stack)
    requires i < |stacks|
    ensures Total(stacks[i := stack]) + |stacks[i].crates| == Total(stacks) + |stack.crates|
    decreases |stacks|
  {
    var last := |stacks| - 1;
    if i < last {
      assert stacks[i := stack][..last] == stacks[..last][i := stack];
      TotalUpdate(stacks[..last], i, stack);
    } else {
      assert stacks[i := stack][..last] == stacks[..last];
    }
  }

  /** Taking `k` crates off `from` and putting `k` crates on `to` keeps
      the total. */
  lemma TotalOfMove(stacks: seq<Stack>, from: nat, to: nat, k: nat, block: seq<char>)
    requires IsLabel(stacks, from) && IsLabel(stacks, to) && k <= |stacks[from - 1].crates|
    requires |block| == k
    ensures Total(Added(Removed(stacks, from, k), to, block)) == Total(stacks)
  {
    var removed := Removed(stacks, from, k);
    TotalUpdate(stacks, from - 1, removed[from - 1]);
    TotalUpdate(removed, to - 1, Added(removed, to, block)[to - 1]);
  }

  /** Both cranes move crates without creating or losing any. */
  lemma ApplyKeepsTotal(stacks: seq<Stack>, ins: Instruction, crane: Crane)
    requires CanRun(stacks, ins, crane)
    ensures Total(Apply(stacks, ins, crane)) == Total(stacks)
  {
    if ins.amount > 0 {
      match crane
      case CrateMover9000 =>
        if ins.from != ins.to {
          TotalOfMove(stacks, ins.from, ins.to, ins.amount, Reverse(Top(stacks, ins.from, ins.amount)));
        }
      case CrateMover9001 =>
        TotalOfMove(stacks, ins.from, ins.to, ins.amount, Top(stacks, ins.from, ins.amount));
    }
  }

  /** Both cranes keep every name, and touch no stack other than `from`
      and `to`. */
  lemma ApplyTouchesOnlyFromAndTo(stacks: seq<Stack>, ins: Instruction, crane: Crane)
    requires CanRun(stacks, ins, crane)
    ensures forall j :: 0 <= j < |stacks| ==> Apply(stacks, ins, crane)[j].id == stacks[j].id
    ensures forall j :: 0 <= j < |stacks| && j + 1 != ins.from && j + 1 != ins.to ==>
      Apply(stacks, ins, crane)[j] == stacks[j]
  {
  }

  /** Putting the top `k` crates back where they came from restores the
      stacks. */
  lemma PutBack(stacks: seq<Stack>, name: nat, k: nat)
    requires IsLabel(stacks, name) && k <= |stacks[name - 1].crates|
    ensures Added(Removed(stacks, name, k), name, Top(stacks, name, k)) == stacks
  {
    var stack := stacks[name - 1];
    var n := |stack.crates|;
    assert stack.crates[..n - k] + stack.crates[n - k..] == stack.crates;
    assert stack.(crates := stack.crates) == stack;
  }

  /** Moving at most one crate, the two cranes agree. */
  lemma CranesAgreeOnOneCrate(stacks: seq<Stack>, ins: Instruction)
    requires CanRun(stacks, ins, CrateMover9000) && CanRun(stacks, ins, CrateMover9001) && ins.amount <= 1
    ensures Apply(stacks, ins, CrateMover9000) == Apply(stacks, ins, CrateMover9001)
  {
    if ins.amount == 1 {
      if ins.from == ins.to {
        PutBack(stacks, ins.from, 1);
      } else {
        var top := Top(stacks, ins.from, 1);
        assert Reverse(top) == top;
      }
    }
  }

  /** `run_instruction`: pop and push one crate at a time, in place. A
      label out of range or an empty source stack panics (`ok` false); the
      stacks are then left as they were at the panic. */
  method RunInstruction(stacks: array<Stack>, ins: Instruction) returns (ok: bool)
    modifies stacks
    ensures ok <==> CanRun(old(stacks[..]), ins, CrateMover9000)
    ensures ok ==> stacks[..] == Apply(old(stacks[..]), ins, CrateMover9000)
  {
    ghost var start := stacks[..];
    for k := 0 to ins.amount
      invariant k > 0 ==> Moving(start, ins, k)
      invariant k == 0 ==> stacks[..] == start
      invariant k > 0 ==> stacks[..] == MoveOneAtATime(start, ins.from, ins.to, k)
    {
      if !IsLabel(stacks[..], ins.from) || |stacks[ins.from - 1].crates| == 0 || !IsLabel(stacks[..], ins.to) {
        StuckCannotRun(start, ins, k);
        return false;
      }
      MovingOnward(start, ins, k);
      MoveTopCrate(stacks, ins.from, ins.to);
    }
    return true;
  }

  /** After `k` passes of `run_instruction` the labels held and the source
      stack had enough crates for them. */
  predicate Moving(start: seq<Stack>, ins: Instruction, k: nat) {
    IsLabel(start, ins.from) && IsLabel(start, ins.to) &&
    |start[ins.from - 1].crates| >= (if ins.from == ins.to then 1 else k)
  }

  /** The source stack after `k` single-crate moves has lost `k` crates,
      or none when it is also the target. */
  lemma MovedCount(start: seq<Stack>, ins: Instruction, k: nat)
    requires k > 0 && Moving(start, ins, k)
    ensures |MoveOneAtATime(start, ins.from, ins.to, k)[ins.from - 1].crates| ==
      |start[ins.from - 1].crates| - (if ins.from == ins.to then 0 else k)
  {
  }

  /** A pass of `run_instruction` that cannot pop from the source stack, or
      finds a label out of range, means the instruction cannot be run. */
  lemma StuckCannotRun(start: seq<Stack>, ins: Instruction, k: nat)
    requires k < ins.amount && (k > 0 ==> Moving(start, ins, k))
    requires var now := if k == 0 then start else MoveOneAtATime(start, ins.from, ins.to, k);
      !IsLabel(now, ins.from) || |now[ins.from - 1].crates| == 0 || !IsLabel(now, ins.to)
    ensures !CanRun(start, ins, CrateMover9000)
  {
    if k > 0 {
      MovedCount(start, ins, k);
    }
  }

  /** A pass of `run_instruction` that can pop keeps the loop's bound. */
  lemma MovingOnward(start: seq<Stack>, ins: Instruction, k: nat)
    requires k > 0 ==> Moving(start, ins, k)
    requires var now := if k == 0 then start else MoveOneAtATime(start, ins.from, ins.to, k);
      IsLabel(now, ins.from) && |now[ins.from - 1].crates| > 0 && IsLabel(now, ins.to)
    ensures Moving(start, ins, k + 1)
    ensures MoveOneAtATime(start, ins.from, ins.to, k + 1) ==
      MoveOne(if k == 0 then start else MoveOneAtATime(start, ins.from, ins.to, k), ins.from, ins.to)
  {
    if k > 0 {
      MovedCount(start, ins, k);
    }
  }

  /** The body of `run_instruction`'s loop: pop from `from`, push onto
      `to`. */
  method MoveTopCrate(stacks: array<Stack>, from: nat, to: nat)
    requires IsLabel(stacks[..], from) && IsLabel(stacks[..], to) && |stacks[from - 1].crates| > 0
    modifies stacks
    ensures stacks[..] == MoveOne(old(stacks[..]), from, to)
  {
    ghost var start := stacks[..];
    var source := stacks[from - 1];
    var fromCrate := source.crates[|source.crates| - 1];
    stacks[from - 1] := source.(crates := source.crates[..|source.crates| - 1]);
    assert stacks[..] == Removed(start, from, 1);
    assert Top(start, from, 1) == [fromCrate];
    var target := stacks[to - 1];
    stacks[to - 1] := target.(crates := target.crates + [fromCrate]);
    assert stacks[..] == Added(Removed(start, from, 1), to, [fromCrate]);
  }

  /** Pop the top crate of `from`. */
  method PopCrate(stacks: array<Stack>, from: nat) returns (c: char)
    requires IsLabel(stacks[..], from) && |stacks[from - 1].crates| > 0
    modifies stacks
    ensures stacks[..] == Removed(old(stacks[..]), from, 1)
    ensures [c] == Top(old(stacks[..]), from, 1)
  {
    var source := stacks[from - 1];
    c := source.crates[|source.crates| - 1];
    stacks[from - 1] := source.(crates := source.crates[..|source.crates| - 1]);
  }

  /** Popping once more after `k` pops is `k + 1` pops, and the popped
      crate is the next one down. */
  lemma PopAgain(stacks: seq<Stack>, from: nat, k: nat)
    requires IsLabel(stacks, from) && k < |stacks[from - 1].crates|
    ensures var removed := if k == 0 then stacks else Removed(stacks, from, k);
      Removed(removed, from, 1) == Removed(stacks, from, k + 1) &&
      Reverse(if k == 0 then [] else Top(stacks, from, k)) + Top(removed, from, 1) == Reverse(Top(stacks, from, k + 1))
  {
    var removed := if k == 0 then stacks else Removed(stacks, from, k);
    RemovedAgain(stacks, from, k);
    var top := Top(stacks, from, k + 1);
    TopAgain(stacks, from, k);
    assert Top(removed, from, 1) == [top[0]];
    assert Reverse(top) == Reverse(top[1..]) + [top[0]];
  }

  /** Removing one more crate after `k`. */
  lemma RemovedAgain(stacks: seq<Stack>, from: nat, k: nat)
    requires IsLabel(stacks, from) && k < |stacks[from - 1].crates|
    ensures Removed(if k == 0 then stacks else Removed(stacks, from, k), from, 1) == Removed(stacks, from, k + 1)
  {
    var crates := stacks[from - 1].crates;
    var n := |crates|;
    assert crates[..n - k][..n - k - 1] == crates[..n - (k + 1)];
  }

  /** The top `k + 1` crates: the next one down, then the top `k`. */
  lemma TopAgain(stacks: seq<Stack>, from: nat, k: nat)
    requires IsLabel(stacks, from) && k < |stacks[from - 1].crates|
    ensures Top(stacks, from, k + 1)[1..] == (if k == 0 then [] else Top(stacks, from, k))
    ensures Top(if k == 0 then stacks else Removed(stacks, from, k), from, 1) == [Top(stacks, from, k + 1)[0]]
  {
  }

  /** The first loop of `run_instruction_9001`: pop `k` crates of `from`
      onto a queue, which then holds them top first. A bad label or a
      stack that runs out panics (`ok` false). */
  method PopBlock(stacks: array<Stack>, from: nat, k: nat) returns (ok: bool, queue: seq<char>)
    modifies stacks
    ensures ok <==> k == 0 || (IsLabel(old(stacks[..]), from) && k <= |old(stacks[..])[from - 1].crates|)
    ensures ok && k == 0 ==> stacks[..] == old(stacks[..]) && queue == []
    ensures ok && k > 0 ==> stacks[..] == Removed(old(stacks[..]), from, k)
    ensures ok && k > 0 ==> queue == Reverse(Top(old(stacks[..]), from, k))
  {
    ghost var start := stacks[..];
    queue := [];
    for i := 0 to k
      invariant i > 0 ==> IsLabel(start, from) && i <= |start[from - 1].crates|
      invariant stacks[..] == (if i == 0 then start else Removed(start, from, i))
      invariant queue == Reverse(if i == 0 then [] else Top(start, from, i))
    {
      if !IsLabel(stacks[..], from) || |stacks[from - 1].crates| == 0 {
        return false, queue;
      }
      var fromCrate := PopCrate(stacks, from);
      queue := queue + [fromCrate];
      PopAgain(start, from, i);
    }
    ok := true;
  }

  /** The second loop of `run_instruction_9001`: pop the queue onto `to`,
      which puts the queue on top in reverse order. */
  method PushQueue(stacks: array<Stack>, to: nat, queue: seq<char>)
    requires IsLabel(stacks[..], to)
    modifies stacks
    ensures stacks[..] == Added(old(stacks[..]), to, Reverse(queue))
  {
    ghost var start := stacks[..];
    ghost var block := Reverse(queue);
    var rest := queue;
    assert start[to - 1].crates + block[..0] == start[to - 1].crates;
    assert start[to - 1].(crates := start[to - 1].crates) == start[to - 1];
    for k := 0 to |queue|
      invariant stacks[..] == Added(start, to, block[..k])
      invariant rest == queue[..|queue| - k]
    {
      var target := stacks[to - 1];
      assert target.crates == start[to - 1].crates + block[..k];
      assert rest[|rest| - 1] == block[k];
      assert block[..k + 1] == block[..k] + [block[k]];
      stacks[to - 1] := target.(crates := target.crates + [rest[|rest| - 1]]);
      assert stacks[to - 1] == start[to - 1].(crates := start[to - 1].crates + block[..k + 1]);
      rest := rest[..|rest| - 1];
    }
    assert block[..|queue|] == block;
  }

  /** `run_instruction_9001`: pop the block onto a queue, then pop the
      queue onto the target, which restores the block's order. A bad
      label or too few crates panics (`ok` false). */
  method RunInstruction9001(stacks: array<Stack>, ins: Instruction) returns (ok: bool)
    modifies stacks
    ensures ok <==> CanRun(old(stacks[..]), ins, CrateMover9001)
    ensures ok ==> stacks[..] == Apply(old(stacks[..]), ins, CrateMover9001)
  {
    ghost var start := stacks[..];
    var popped, queue := PopBlock(stacks, ins.from, ins.amount);
    if !popped || !IsLabel(stacks[..], ins.to) {
      return false;
    }
    PushQueue(stacks, ins.to, queue);
    if ins.amount == 0 {
      assert start[ins.to - 1].crates + [] == start[ins.to - 1].crates;
      assert start[ins.to - 1].(crates := start[ins.to - 1].crates) == start[ins.to - 1];
    } else {
      ReverseReverse(Top(start, ins.from, ins.amount));
    }
    return true;
  }

  /** The procedure can be run from these stacks without a panic. */
  predicate Runnable(stacks: seq<Stack>, procedure: seq<Instruction>, crane: Crane)
    decreases |procedure|
  {
    procedure == [] ||
    (CanRun(stacks, procedure[0], crane) && Runnable(Apply(stacks, procedure[0], crane), procedure[1..], crane))
  }

  /** `run`: the instructions applied in order. */
  function Run(stacks: seq<Stack>, procedure: seq<Instruction>, crane: Crane): (r: seq<Stack>)
    requires Runnable(stacks, procedure, crane)
    ensures |r| == |stacks|
    decreases |procedure|
  {
    if procedure == [] then stacks else Run(Apply(stacks, procedure[0], crane), procedure[1..], crane)
  }

  /** A whole procedure creates and loses no crates either. */
  lemma {:induction false} RunKeepsTotal(stacks: seq<Stack>, procedure: seq<Instruction>, crane: Crane)
    requires Runnable(stacks, procedure, crane)
    ensures Total(Run(stacks, procedure, crane)) == Total(stacks)
    decreases |procedure|
  {
    if procedure != [] {
      ApplyKeepsTotal(stacks, procedure[0], crane);
      RunKeepsTotal(Apply(stacks, procedure[0], crane), procedure[1..], crane);
    }
  }

  /** `run` with either crane, in place; `ok` is false exactly when some
      instruction panics. */
  method RunProcedure(stacks: array<Stack>, procedure: seq<Instruction>, crane: Crane) returns (ok: bool)
    modifies stacks
    ensures ok <==> Runnable(old(stacks[..]), procedure, crane)
    ensures ok ==> stacks[..] == Run(old(stacks[..]), procedure, crane)
  {
    ghost var start := stacks[..];
    for i := 0 to |procedure|
      invariant Runnable(start, procedure, crane) <==> Runnable(stacks[..], procedure[i..], crane)
      invariant Runnable(start, procedure, crane) ==> Run(stacks[..], procedure[i..], crane) == Run(start, procedure, crane)
    {
      assert procedure[i..][1..] == procedure[i + 1..];
      assert procedure[i..][0] == procedure[i];
      ghost var before := stacks[..];
      var done;
      match crane {
        case CrateMover9000 => done := RunInstruction(stacks, procedure[i]);
        case CrateMover9001 => done := RunInstruction9001(stacks, procedure[i]);
      }
      if !done {
        return false;
      }
      assert Runnable(before, procedure[i..], crane) <==> Runnable(stacks[..], procedure[i + 1..], crane);
    }
    return true;
  }

  /** `get_top_crates`: the top crate of every stack, in stack order. */
  function TopCrates(stacks: seq<Stack>): (s: Option<string>)
    ensures s.Some? <==> forall j :: 0 <= j < |stacks| ==> |stacks[j].crates| > 0
    ensures s.Some? ==> |s.value| == |stacks|
    ensures s.Some? ==> forall j :: 0 <= j < |stacks| ==> s.value[j] == stacks[j].crates[|stacks[j].crates| - 1]
  {
    if forall j :: 0 <= j < |stacks| ==> |stacks[j].crates| > 0 then
      Some(seq(|stacks|, j requires 0 <= j < |stacks| => stacks[j].crates[|stacks[j].crates| - 1]))
    else None
  }

  // ---------------------------------------------------------------------
  // The example
  // ---------------------------------------------------------------------

  function ExampleStacks(): seq<Stack> {
    [Stack(1, "ZN"), Stack(2, "MCD"), Stack(3, "P")]
  }

  function ExampleProcedure(): seq<Instruction> {
    [Instruction(1, 2, 1), Instruction(3, 1, 3), Instruction(2, 2, 1), Instruction(1, 1, 2)]
  }

  /** The stacks after each instruction of the example. */
  function ExampleStacks1(): seq<Stack> {
    [Stack(1, "ZND"), Stack(2, "MC"), Stack(3, "P")]
  }

  function ExampleStacks2(): seq<Stack> {
    [Stack(1, ""), Stack(2, "MC"), Stack(3, "PDNZ")]
  }

  function ExampleStacks3(): seq<Stack> {
    [Stack(1, "CM"), Stack(2, ""), Stack(3, "PDNZ")]
  }

  function ExampleStacks4(): seq<Stack> {
    [Stack(1, "C"), Stack(2, "M"), Stack(3, "PDNZ")]
  }

  /** Running a procedure is applying its first instruction and running
      the rest. */
  lemma RunFirst(stacks: seq<Stack>, procedure: seq<Instruction>, crane: Crane, ins: Instruction,
                 rest: seq<Instruction>, final: seq<Stack>)
    requires procedure == [ins] + rest
    requires CanRun(stacks, ins, crane) && Runnable(Apply(stacks, ins, crane), rest, crane)
    requires Run(Apply(stacks, ins, crane), rest, crane) == final
    ensures Runnable(stacks, procedure, crane)
    ensures Run(stacks, procedure, crane) == final
  {
    assert procedure[0] == ins && procedure[1..] == rest;
  }

  lemma ExampleStep1()
    ensures CanRun(ExampleStacks(), ExampleProcedure()[0], CrateMover9000)
    ensures Apply(ExampleStacks(), ExampleProcedure()[0], CrateMover9000) == ExampleStacks1()
  {
    var s0 := ExampleStacks();
    var removed := Removed(s0, 2, 1);
    assert removed == [Stack(1, "ZN"), Stack(2, "MC"), Stack(3, "P")] by {
      assert "MCD"[..2] == "MC";
    }
    assert Reverse(Top(s0, 2, 1)) == "D" by {
      assert Top(s0, 2, 1) == "D";
    }
    assert Added(removed, 1, "D") == [Stack(1, "ZND"), Stack(2, "MC"), Stack(3, "P")] by {
      assert "ZN" + "D" == "ZND";
    }
  }

  lemma ExampleStep2()
    ensures CanRun(ExampleStacks1(), ExampleProcedure()[1], CrateMover9000)
    ensures Apply(ExampleStacks1(), ExampleProcedure()[1], CrateMover9000) == ExampleStacks2()
  {
    assert ExampleProcedure()[1] == Instruction(3, 1, 3);
    ExampleStep2Parts();
    ExampleStep2Added();
  }

  /** The crates the second example instruction takes off stack 1, and
      what they leave. */
  lemma ExampleStep2Parts()
    ensures Removed(ExampleStacks1(), 1, 3) == [Stack(1, ""), Stack(2, "MC"), Stack(3, "P")]
    ensures Reverse(Top(ExampleStacks1(), 1, 3)) == "DNZ"
  {
    var s1 := ExampleStacks1();
    assert "ZND"[..0] == "";
    assert Top(s1, 1, 3) == "ZND";
    ReverseThree('Z', 'N', 'D');
  }

  /** The crates the second example instruction puts on stack 3. */
  lemma ExampleStep2Added()
    ensures Added([Stack(1, ""), Stack(2, "MC"), Stack(3, "P")], 3, "DNZ") == ExampleStacks2()
  {
    assert "P" + "DNZ" == "PDNZ";
  }

  lemma ReverseThree<T>(a: T, b: T, c: T)
    ensures Reverse([a, b, c]) == [c, b, a]
  {
    assert [a, b, c][1..] == [b, c];
    ReverseTwo(b, c);
  }

  lemma ExampleStep3()
    ensures CanRun(ExampleStacks2(), ExampleProcedure()[2], CrateMover9000)
    ensures Apply(ExampleStacks2(), ExampleProcedure()[2], CrateMover9000) == ExampleStacks3()
  {
    assert ExampleProcedure()[2] == Instruction(2, 2, 1);
    ExampleStep3Parts();
    ExampleStep3Added();
  }

  /** The crates the third example instruction takes off stack 2, and
      what they leave. */
  lemma ExampleStep3Parts()
    ensures Removed(ExampleStacks2(), 2, 2) == [Stack(1, ""), Stack(2, ""), Stack(3, "PDNZ")]
    ensures Reverse(Top(ExampleStacks2(), 2, 2)) == "CM"
  {
    var s2 := ExampleStacks2();
    assert "MC"[..0] == "";
    assert Top(s2, 2, 2) == "MC";
    ReverseTwo('M', 'C');
  }

  /** The crates the third example instruction puts on stack 1. */
  lemma ExampleStep3Added()
    ensures Added([Stack(1, ""), Stack(2, ""), Stack(3, "PDNZ")], 1, "CM") == ExampleStacks3()
  {
    assert "" + "CM" == "CM";
  }

  lemma ReverseTwo<T>(a: T, b: T)
    ensures Reverse([a, b]) == [b, a]
  {
    assert [a, b][1..] == [b];
    assert Reverse([b]) == [b];
  }

  lemma ExampleStep4()
    ensures CanRun(ExampleStacks3(), ExampleProcedure()[3], CrateMover9000)
    ensures Apply(ExampleStacks3(), ExampleProcedure()[3], CrateMover9000) == ExampleStacks4()
  {
    var s3 := [Stack(1, "CM"), Stack(2, ""), Stack(3, "PDNZ")];
    var removed := Removed(s3, 1, 1);
    assert removed == [Stack(1, "C"), Stack(2, ""), Stack(3, "PDNZ")] by {
      assert "CM"[..1] == "C";
    }
    assert Reverse(Top(s3, 1, 1)) == "M" by {
      assert Top(s3, 1, 1) == "M";
    }
    assert Added(removed, 2, "M") == [Stack(1, "C"), Stack(2, "M"), Stack(3, "PDNZ")] by {
      assert "" + "M" == "M";
    }
  }

  lemma ExampleRunLastOne()
    ensures Runnable(ExampleStacks3(), ExampleProcedure()[3..], CrateMover9000)
    ensures Run(ExampleStacks3(), ExampleProcedure()[3..], CrateMover9000) == ExampleStacks4()
  {
    var p := ExampleProcedure();
    assert p[3..] == [p[3]] + [];
    ExampleStep4();
    RunFirst(ExampleStacks3(), p[3..], CrateMover9000, p[3], [], ExampleStacks4());
  }

  lemma ExampleRunLastTwo()
    ensures Runnable(ExampleStacks2(), ExampleProcedure()[2..], CrateMover9000)
    ensures Run(ExampleStacks2(), ExampleProcedure()[2..], CrateMover9000) == ExampleStacks4()
  {
    var p := ExampleProcedure();
    assert p[2..] == [p[2]] + p[3..];
    ExampleStep3();
    ExampleRunLastOne();
    RunFirst(ExampleStacks2(), p[2..], CrateMover9000, p[2], p[3..], ExampleStacks4());
  }

  lemma ExampleRunLastThree()
    ensures Runnable(ExampleStacks1(), ExampleProcedure()[1..], CrateMover9000)
    ensures Run(ExampleStacks1(), ExampleProcedure()[1..], CrateMover9000) == ExampleStacks4()
  {
    var p := ExampleProcedure();
    assert p[1..] == [p[1]] + p[2..];
    ExampleStep2();
    ExampleRunLastTwo();
    RunFirst(ExampleStacks1(), p[1..], CrateMover9000, p[1], p[2..], ExampleStacks4());
  }

  /** The example procedure on the CrateMover 9000 leaves C, M and
      PDNZ. */
  lemma ExampleRun()
    ensures Runnable(ExampleStacks(), ExampleProcedure(), CrateMover9000)
    ensures Run(ExampleStacks(), ExampleProcedure(), CrateMover9000) == ExampleStacks4()
  {
    var p := ExampleProcedure();
    assert p == [p[0]] + p[1..];
    ExampleStep1();
    ExampleRunLastThree();
    RunFirst(ExampleStacks(), p, CrateMover9000, p[0], p[1..], ExampleStacks4());
  }

  /** The top crates after the example procedure spell CMZ. */
  lemma ExampleTopCrates()
    ensures Runnable(ExampleStacks(), ExampleProcedure(), CrateMover9000)
    ensures TopCrates(Run(ExampleStacks(), ExampleProcedure(), CrateMover9000)) == Some("CMZ")
  {
    ExampleRun();
    var last := ExampleStacks4();
    assert forall j :: 0 <= j < |last| ==> |last[j].crates| > 0;
    assert TopCrates(last).value == "CMZ";
  }

  /** After the second test instruction the first stack is empty, and
      reading the top crates there is the `last().unwrap()` panic. */
  lemma EmptyStackPanics()
    ensures CanRun(ExampleStacks1(), ExampleProcedure()[1], CrateMover9000)
    ensures TopCrates(Apply(ExampleStacks1(), ExampleProcedure()[1], CrateMover9000)).None?
  {
    ExampleStep2();
    assert |ExampleStacks2()[0].crates| == 0;
  }
}
