/** Day 10: a CPU with one register X and a clock that ticks once per
    cycle, driving the signal-strength log and a 40-pixel-wide CRT. */
module Day10 {
  import opened Common

  /** The source's register and instruction operand are i32. */
  const OperandBound: nat := 0x8000_0000

  /** The cycles between two recorded signal strengths, and the width of
      a CRT row. */
  const CycleWidth: int := 40

  datatype Instruction = NoOp | AddX(value: int)

  // ---------------------------------------------------------------------
  // Parsing
  // ---------------------------------------------------------------------

  /** `parse_instruction`: exactly "noop" is NoOp; any other line is AddX of
      the i32 after its first space, whatever word stands before it. A line
      without a space, or whose second word is no i32, is None where the
      source panics. */
  function ParseInstruction(line: string): (r: Option<Instruction>)
    ensures line == "noop" ==> r == Some(NoOp)
    ensures line != "noop" ==> (r.Some? <==> |Split(line, ' ')| >= 2 && ParseSigned(Split(line, ' ')[1], OperandBound).Some?)
    ensures line != "noop" && r.Some? ==> r.value == AddX(ParseSigned(Split(line, ' ')[1], OperandBound).value)
  {
    if line == "noop" then Some(NoOp)
    else
      var words := Split(line, ' ');
      if |words| < 2 then None
      else
        match ParseSigned(words[1], OperandBound)
        case None => None
        case Some(v) => Some(AddX(v))
  }

  /** `parse_program`: one instruction per non-empty line, in order. */
  function ParseProgram(input: string): (r: Option<seq<Instruction>>)
    ensures r.Some? <==> forall line :: line in NonEmpty(Split(input, '\n')) ==> ParseInstruction(line).Some?
    ensures r.Some? ==> |r.value| == |NonEmpty(Split(input, '\n'))|
  {
    var lines := NonEmpty(Split(input, '\n'));
    var parsed := MapAll(ParseInstruction, lines);
    assert parsed.Some? <==> forall i :: 0 <= i < |lines| ==> ParseInstruction(lines[i]).Some?;
    assert (forall i :: 0 <= i < |lines| ==> ParseInstruction(lines[i]).Some?) <==> forall line :: line in lines ==> ParseInstruction(line).Some?;
    parsed
  }

  /** An instruction as a line of the program. */
  function InstructionLine(i: Instruction): string {
    match i
    case NoOp => "noop"
    case AddX(v) => "addx " + IntToString(v)
  }

  function InstructionLines(program: seq<Instruction>): (lines: seq<string>)
    ensures |lines| == |program| && forall i :: 0 <= i < |program| ==> lines[i] == InstructionLine(program[i])
  {
    seq(|program|, i requires 0 <= i < |program| => InstructionLine(program[i]))
  }

  /** An instruction whose operand fits an i32. */
  predicate Printable(i: Instruction) {
    i.AddX? ==> -(OperandBound as int) <= i.value < OperandBound
  }

  /** A printed instruction holds no line break and is not empty. */
  lemma InstructionLinePlain(i: Instruction)
    requires Printable(i)
    ensures InstructionLine(i) != ""
    ensures forall j :: 0 <= j < |InstructionLine(i)| ==> InstructionLine(i)[j] != '\n'
  {
    if i.AddX? {
      var number := IntToString(i.value);
      IntToStringReadsBack(i.value, OperandBound);
      assert InstructionLine(i) == "addx " + number;
      forall j | 0 <= j < |InstructionLine(i)| ensures InstructionLine(i)[j] != '\n' {
        if j >= 5 {
          assert InstructionLine(i)[j] == number[j - 5];
        }
      }
    }
  }

  /** A printed instruction reads back as itself. */
  lemma ParseInstructionLine(i: Instruction)
    requires Printable(i)
    ensures ParseInstruction(InstructionLine(i)) == Some(i)
  {
    if i.AddX? {
      var number := IntToString(i.value);
      IntToStringReadsBack(i.value, OperandBound);
      SplitFirstPiece("addx", ' ', number);
      SplitNoSeparator(number, ' ');
      assert InstructionLine(i) == "addx" + [' '] + number;
      assert Split(InstructionLine(i), ' ') == ["addx", number];
    }
  }

  /** A program printed one instruction per line, each line ended by a
      newline, reads back as the program. */
  lemma ParseProgramLines(program: seq<Instruction>)
    requires forall i :: 0 <= i < |program| ==> Printable(program[i])
    ensures ParseProgram(Join(InstructionLines(program) + [""], '\n')) == Some(program)
  {
    var lines := InstructionLines(program);
    var pieces := lines + [""];
    forall i, j | 0 <= i < |pieces| && 0 <= j < |pieces[i]| ensures pieces[i][j] != '\n' {
      InstructionLinePlain(program[i]);
    }
    SplitJoin(pieces, '\n');
    forall i | 0 <= i < |lines| ensures lines[i] != "" && ParseInstruction(lines[i]) == Some(program[i]) {
      InstructionLinePlain(program[i]);
      ParseInstructionLine(program[i]);
    }
    NonEmptyDropsLast(lines);
    var r := ParseProgram(Join(pieces, '\n'));
    assert r.value == program;
  }

  /** The program of the source's parse example. */
  function ExampleProgram(): seq<Instruction> {
    [NoOp, AddX(3), AddX(-5)]
  }

  /** The text of the source's parse example. */
  function ExampleInput(): string {
    "noop\naddx 3\naddx -5\n"
  }

  /** Three lines, each ended by a newline. */
  lemma JoinThreeLines(a: string, b: string, c: string)
    ensures Join([a, b, c, ""], '\n') == a + "\n" + b + "\n" + c + "\n"
  {
    assert [a, b, c, ""][1..] == [b, c, ""];
    assert [b, c, ""][1..] == [c, ""];
    assert [c, ""][1..] == [""];
    assert Join([c, ""], '\n') == c + "\n";
    assert Join([b, c, ""], '\n') == b + "\n" + (c + "\n");
    assert Join([a, b, c, ""], '\n') == a + "\n" + (b + "\n" + (c + "\n"));
  }

  /** The example program printed one instruction per line. */
  lemma ExampleLines()
    ensures InstructionLines(ExampleProgram()) + [""] == ["noop", "addx 3", "addx -5", ""]
  {
    assert IntToString(3) == "3";
    assert IntToString(-5) == "-5";
    assert InstructionLine(AddX(3)) == "addx 3";
    assert InstructionLine(AddX(-5)) == "addx -5";
  }

  /** The example program printed is the example's text. */
  lemma ExampleText()
    ensures Join(InstructionLines(ExampleProgram()) + [""], '\n') == ExampleInput()
  {
    ExampleLines();
    JoinThreeLines("noop", "addx 3", "addx -5");
  }

  /** The source's parse example: together with ExampleText, its text
      parses to NoOp, AddX(3), AddX(-5). */
  lemma ExampleParse()
    ensures ParseProgram(Join(InstructionLines(ExampleProgram()) + [""], '\n')) == Some([NoOp, AddX(3), AddX(-5)])
  {
    ParseProgramLines(ExampleProgram());
  }

  /** The word before the operand is never looked at: "subx 3" adds 3. */
  lemma AnyWordAdds()
    ensures ParseInstruction("subx 3") == Some(AddX(3))
  {
    SplitFirstPiece("subx", ' ', "3");
    SplitNoSeparator("3", ' ');
    assert "subx 3" == "subx" + [' '] + "3";
    assert Split("subx 3", ' ') == ["subx", "3"];
    assert ParseNat("3") == 3;
  }

  // ---------------------------------------------------------------------
  // The clock, as functions of the program
  // ---------------------------------------------------------------------

  /** The cycles an instruction takes: two for AddX, one for NoOp. */
  function Cycles(i: Instruction): nat {
    if i.AddX? then 2 else 1
  }

  /** The cycles a whole program takes. */
  function TotalCycles(program: seq<Instruction>): nat {
    if program == [] then 0 else TotalCycles(program[..|program| - 1]) + Cycles(program[|program| - 1])
  }

  /** X once every instruction of the program has completed: it starts at
      1 and each AddX adds its operand. */
  function RegisterAfter(program: seq<Instruction>): int {
    if program == [] then 1
    else
      var last := program[|program| - 1];
      RegisterAfter(program[..|program| - 1]) + (if last.AddX? then last.value else 0)
  }

  /** The operand each instruction adds to X. */
  function Increments(program: seq<Instruction>): (r: seq<int>)
    ensures |r| == |program|
  {
    seq(|program|, i requires 0 <= i < |program| => if program[i].AddX? then program[i].value else 0)
  }

  /** X during each cycle, cycle 1 first: an instruction runs all its cycles
      with the X its predecessors left. */
  function RegisterDuring(program: seq<Instruction>): (xs: seq<int>)
    ensures |xs| == TotalCycles(program)
  {
    if program == [] then []
    else
      var before := program[..|program| - 1];
      var x := RegisterAfter(before);
      RegisterDuring(before) + (if program[|program| - 1].AddX? then [x, x] else [x])
  }

  /** The condition of `increment_clock` for recording a strength, with
      Rust's truncating remainder. */
  predicate IsSignalCycle(cycle: int) {
    cycle == 20 || TruncRem(cycle - 20, CycleWidth) == 0
  }

  /** The condition of `increment_clock` for lighting a pixel: the one
      drawn is (cycle % 40) - 1 and the sprite covers X - 1 to X + 1. */
  predicate PixelLit(cycle: int, register: int) {
    var pixel := TruncRem(cycle, CycleWidth) - 1;
    register - 1 <= pixel <= register + 1
  }

  /** The strength recorded during one cycle, if any. */
  function SignalAt(cycle: int, register: int): seq<int> {
    if IsSignalCycle(cycle) then [cycle * register] else []
  }

  /** The strengths recorded over cycles 1 to |xs|, X during cycle c being
      xs[c - 1]. */
  function Signals(xs: seq<int>): seq<int> {
    if xs == [] then [] else Signals(xs[..|xs| - 1]) + SignalAt(|xs|, xs[|xs| - 1])
  }

  /** The CRT pixels drawn over cycles 1 to |xs|. */
  function Screen(xs: seq<int>): (crt: seq<bool>)
    ensures |crt| == |xs|
    ensures forall k :: 0 <= k < |xs| ==> crt[k] == PixelLit(k + 1, xs[k])
  {
    if xs == [] then []
    else Screen(xs[..|xs| - 1]) + [PixelLit(|xs|, xs[|xs| - 1])]
  }

  // ---------------------------------------------------------------------
  // The CPU
  // ---------------------------------------------------------------------

  /** `increment_clock`: takes the next cycle from the clock, records the
      strength cycle * X at a signal cycle, and draws one pixel. */
  method IncrementClock(clock: int, register: int, strengths: seq<int>, crt: seq<bool>)
    returns (nextClock: int, strengths': seq<int>, crt': seq<bool>)
    ensures nextClock == clock + 1
    ensures strengths' == strengths + SignalAt(clock, register)
    ensures crt' == crt + [PixelLit(clock, register)]
  {
    nextClock := clock + 1;
    strengths' := strengths;
    if clock == 20 || TruncRem(clock - 20, CycleWidth) == 0 {
      strengths' := strengths' + [clock * register];
    }
    var pixel := TruncRem(clock, CycleWidth) - 1;
    var spriteStart := register - 1;
    var spriteEnd := register + 1;
    crt' := crt + [spriteStart <= pixel && pixel <= spriteEnd];
  }

  /** One more cycle run with X appended to the cycles so far. */
  lemma SignalsSnoc(xs: seq<int>, x: int)
    ensures Signals(xs + [x]) == Signals(xs) + SignalAt(|xs| + 1, x)
  {
    var ys := xs + [x];
    assert ys[..|ys| - 1] == xs && ys[|ys| - 1] == x;
    assert Signals(ys) == Signals(ys[..|ys| - 1]) + SignalAt(|ys|, ys[|ys| - 1]);
  }

  lemma ScreenSnoc(xs: seq<int>, x: int)
    ensures Screen(xs + [x]) == Screen(xs) + [PixelLit(|xs| + 1, x)]
  {
    assert (xs + [x])[..|xs|] == xs;
  }

  /** Two more cycles run with the same X. */
  lemma SignalsTwice(xs: seq<int>, x: int)
    ensures Signals(xs + [x, x]) == Signals(xs) + SignalAt(|xs| + 1, x) + SignalAt(|xs| + 2, x)
  {
    var once := xs + [x];
    SnocTwice(xs, x);
    SignalsSnoc(xs, x);
    SignalsSnoc(once, x);
  }

  lemma ScreenTwice(xs: seq<int>, x: int)
    ensures Screen(xs + [x, x]) == Screen(xs) + [PixelLit(|xs| + 1, x)] + [PixelLit(|xs| + 2, x)]
  {
    var once := xs + [x];
    SnocTwice(xs, x);
    ScreenSnoc(xs, x);
    ScreenSnoc(once, x);
  }

  /** Two cycles appended are one appended twice. */
  lemma SnocTwice(xs: seq<int>, x: int)
    ensures xs + [x, x] == (xs + [x]) + [x]
  {
    assert |xs + [x, x]| == |xs| + 2;
  }

  /** Running instruction n extends the cycles with the X its predecessors
      left, once or twice. */
  lemma RegisterDuringStep(program: seq<Instruction>, n: nat)
    requires n < |program|
    ensures program[n].AddX? ==> RegisterDuring(program[..n + 1]) == RegisterDuring(program[..n]) + [RegisterAfter(program[..n]), RegisterAfter(program[..n])]
    ensures program[n].NoOp? ==> RegisterDuring(program[..n + 1]) == RegisterDuring(program[..n]) + [RegisterAfter(program[..n])]
    ensures RegisterAfter(program[..n + 1]) == RegisterAfter(program[..n]) + (if program[n].AddX? then program[n].value else 0)
  {
    assert program[..n + 1][..n] == program[..n];
  }

  /** `run_program`: X starts at 1 and the clock at cycle 1; an AddX ticks
      twice and only then adds its operand, a NoOp ticks once. The
      strengths and pixels are those of X during each cycle. */
  method RunProgram(program: seq<Instruction>) returns (strengths: seq<int>, crt: seq<bool>)
    ensures strengths == Signals(RegisterDuring(program))
    ensures crt == Screen(RegisterDuring(program))
  {
    strengths := [];
    var clock := 1;
    var register := 1;
    crt := [];
    for n := 0 to |program|
      invariant clock == |RegisterDuring(program[..n])| + 1
      invariant register == RegisterAfter(program[..n])
      invariant strengths == Signals(RegisterDuring(program[..n]))
      invariant crt == Screen(RegisterDuring(program[..n]))
    {
      RegisterDuringStep(program, n);
      if program[n].AddX? {
        SignalsTwice(RegisterDuring(program[..n]), register);
        ScreenTwice(RegisterDuring(program[..n]), register);
        clock, strengths, crt := IncrementClock(clock, register, strengths, crt);
        clock, strengths, crt := IncrementClock(clock, register, strengths, crt);
        register := register + program[n].value;
      } else {
        SignalsSnoc(RegisterDuring(program[..n]), register);
        ScreenSnoc(RegisterDuring(program[..n]), register);
        clock, strengths, crt := IncrementClock(clock, register, strengths, crt);
      }
    }
    assert program[..|program|] == program;
  }

  // ---------------------------------------------------------------------
  // Properties of the clock
  // ---------------------------------------------------------------------

  /** The cycles each instruction takes. */
  function CycleCounts(program: seq<Instruction>): (r: seq<int>)
    ensures |r| == |program| && forall i :: 0 <= i < |program| ==> r[i] == Cycles(program[i])
  {
    seq(|program|, i requires 0 <= i < |program| => Cycles(program[i]))
  }

  /** The cycles of a program are the sum of its instructions' cycles, so
      the CRT gets one pixel per cycle. */
  lemma {:induction false} CrtLength(program: seq<Instruction>)
    ensures |Screen(RegisterDuring(program))| == Sum(CycleCounts(program))
  {
    if program != [] {
      var before := program[..|program| - 1];
      CrtLength(before);
      var last := [Cycles(program[|program| - 1])];
      assert CycleCounts(program) == CycleCounts(before) + last;
      SumAppend(CycleCounts(before), last);
    }
  }

  /** X after a program is 1 plus every AddX operand. */
  lemma {:induction false} RegisterAfterIsSum(program: seq<Instruction>)
    ensures RegisterAfter(program) == 1 + Sum(Increments(program))
  {
    if program != [] {
      var before := program[..|program| - 1];
      RegisterAfterIsSum(before);
      assert Increments(program) == Increments(before) + [Increments(program)[|program| - 1]];
      SumAppend(Increments(before), [Increments(program)[|program| - 1]]);
    }
  }

  /** The X values of a program cycle by cycle begin with those of any
      prefix of it. */
  lemma {:induction false} RegisterDuringPrefix(program: seq<Instruction>, n: nat)
    requires n <= |program|
    ensures RegisterDuring(program[..n]) <= RegisterDuring(program)
  {
    if n < |program| {
      var before := program[..|program| - 1];
      assert before[..n] == program[..n];
      RegisterDuringPrefix(before, n);
    } else {
      assert program[..n] == program;
    }
  }

  /** Instruction n starts at cycle TotalCycles(program[..n]) + 1 with the X
      its predecessors left; an AddX keeps that X for its second cycle too,
      and X changes only once the instruction has completed. */
  lemma RegisterTiming(program: seq<Instruction>, n: nat)
    requires n < |program|
    ensures TotalCycles(program[..n]) + Cycles(program[n]) <= |RegisterDuring(program)|
    ensures RegisterDuring(program)[TotalCycles(program[..n])] == RegisterAfter(program[..n])
    ensures program[n].AddX? ==> RegisterDuring(program)[TotalCycles(program[..n]) + 1] == RegisterAfter(program[..n])
    ensures program[n].AddX? ==> RegisterAfter(program[..n + 1]) == RegisterAfter(program[..n]) + program[n].value
    ensures program[n].NoOp? ==> RegisterAfter(program[..n + 1]) == RegisterAfter(program[..n])
  {
    assert program[..n + 1][..n] == program[..n];
    RegisterDuringPrefix(program, n + 1);
  }

  /** For a cycle of the clock (which starts at 1), the truncating test
      `cycle_num == 20 || (cycle_num - 20) % 40 == 0` holds exactly at
      cycles 20, 60, 100, and so on. */
  lemma SignalCycles(cycle: int)
    requires cycle >= 1
    ensures IsSignalCycle(cycle) <==> cycle >= 20 && (cycle - 20) % CycleWidth == 0
  {
    var a := cycle - 20;
    var r := TruncRem(a, CycleWidth);
    if a < 0 {
      assert -19 <= a < 0;
      assert r != 0;
    }
  }

  /** How many signal cycles there are among cycles 1 to n. */
  function SignalCount(n: nat): nat {
    if n < 20 then 0 else (n - 20) / CycleWidth + 1
  }

  /** The strengths are recorded at cycles 20, 60, 100, ...: one for each
      such cycle the program reaches, the k-th being 20 + 40k times X during
      that cycle. */
  lemma {:induction false} SignalsListed(xs: seq<int>)
    ensures |Signals(xs)| == SignalCount(|xs|)
    ensures forall k :: 0 <= k < |Signals(xs)| ==> Signals(xs)[k] == (20 + CycleWidth * k) * xs[19 + CycleWidth * k]
  {
    if xs != [] {
      var n := |xs|;
      var before := xs[..n - 1];
      SignalsListed(before);
      SignalCycles(n);
      var s := Signals(before);
      if IsSignalCycle(n) {
        var m := (n - 20) / CycleWidth;
        assert n == 20 + CycleWidth * m;
        assert SignalCount(n - 1) == m;
        assert Signals(xs) == s + SignalAt(n, xs[n - 1]);
        assert SignalAt(n, xs[n - 1]) == [n * xs[n - 1]];
        forall k | 0 <= k < |Signals(xs)|
          ensures Signals(xs)[k] == (20 + CycleWidth * k) * xs[19 + CycleWidth * k]
        {
          if k < m {
            assert Signals(xs)[k] == s[k];
            assert xs[19 + CycleWidth * k] == before[19 + CycleWidth * k];
          }
        }
      } else {
        assert SignalCount(n - 1) == SignalCount(n);
        assert Signals(xs) == s + SignalAt(n, xs[n - 1]);
        assert SignalAt(n, xs[n - 1]) == [];
        forall k | 0 <= k < |Signals(xs)|
          ensures Signals(xs)[k] == (20 + CycleWidth * k) * xs[19 + CycleWidth * k]
        {
          assert xs[19 + CycleWidth * k] == before[19 + CycleWidth * k];
        }
      }
    }
  }

  /** For a cycle of the clock, the pixel is lit exactly when
      X - 1 <= (cycle % 40) - 1 <= X + 1. */
  lemma PixelLitAt(cycle: int, register: int)
    requires cycle >= 1
    ensures PixelLit(cycle, register) <==> register - 1 <= cycle % CycleWidth - 1 <= register + 1
  {
    var q := TruncDiv(cycle, CycleWidth);
    var r := TruncRem(cycle, CycleWidth);
    assert cycle == q * CycleWidth + r && 0 <= r < CycleWidth;
    assert cycle % CycleWidth == r;
  }

  // ---------------------------------------------------------------------
  // Drawing the screen
  // ---------------------------------------------------------------------

  /** A lit pixel is drawn as '#', a dark one as '.'. */
  function PixelChar(lit: bool): char {
    if lit then '#' else '.'
  }

  /** `display_crt`: the pixels in rows of 40, each row after a newline. */
  function DisplayCrt(crt: seq<bool>): (s: string)
    ensures |s| == |crt| + Rows(|crt|)
    decreases |crt|
  {
    if crt == [] then ""
    else
      var n := if |crt| < CycleWidth then |crt| else CycleWidth;
      "\n" + seq(n, k requires 0 <= k < n => PixelChar(crt[k])) + DisplayCrt(crt[n..])
  }

  /** The number of rows `chunks(40)` cuts `n` pixels into. */
  function Rows(n: nat): nat {
    (n + CycleWidth - 1) / CycleWidth
  }

  /** Where pixel `k` is drawn: after the newlines of its row and the rows
      above it. */
  function PixelIndex(k: nat): nat {
    k + k / CycleWidth + 1
  }

  /** Where the newline starting row `r` is drawn. */
  function RowStart(r: nat): nat {
    r * (CycleWidth + 1)
  }

  /** Pixel `k` sits in row `k / 40`, after that row's newline and those of
      the rows above it. */
  lemma {:induction false} DisplayCrtPixel(crt: seq<bool>, k: nat)
    requires k < |crt|
    ensures DisplayCrt(crt)[PixelIndex(k)] == PixelChar(crt[k])
    decreases |crt|
  {
    var n := if |crt| < CycleWidth then |crt| else CycleWidth;
    var rest := crt[n..];
    var row := seq(n, k requires 0 <= k < n => PixelChar(crt[k]));
    var s := DisplayCrt(crt);
    assert s == "\n" + row + DisplayCrt(rest);
    if k < n {
      assert k / CycleWidth == 0;
      assert s[PixelIndex(k)] == row[k];
    } else {
      var j := k - CycleWidth;
      DivStep(k);
      DisplayCrtPixel(rest, j);
      assert rest[j] == crt[k];
      assert s[PixelIndex(k)] == DisplayCrt(rest)[PixelIndex(j)];
    }
  }

  /** Every row of the display starts with a newline. */
  lemma {:induction false} DisplayCrtRowStart(crt: seq<bool>, r: nat)
    requires r < Rows(|crt|)
    ensures DisplayCrt(crt)[RowStart(r)] == '\n'
    decreases |crt|
  {
    var n := if |crt| < CycleWidth then |crt| else CycleWidth;
    var rest := crt[n..];
    var row := seq(n, k requires 0 <= k < n => PixelChar(crt[k]));
    var s := DisplayCrt(crt);
    assert s == "\n" + row + DisplayCrt(rest);
    if r > 0 {
      RowsStep(|crt|, r);
      DisplayCrtRowStart(rest, r - 1);
      assert s[RowStart(r)] == DisplayCrt(rest)[RowStart(r - 1)];
    }
  }

  /** A row after the first leaves a full first row and one row fewer
      after it. */
  lemma RowsStep(m: nat, r: nat)
    requires 1 <= r < Rows(m)
    ensures m > CycleWidth && Rows(m - CycleWidth) == Rows(m) - 1
    ensures RowStart(r) == RowStart(r - 1) + CycleWidth + 1
  {
  }

  /** Dividing by the row width after removing one row. */
  lemma DivStep(k: nat)
    requires k >= CycleWidth
    ensures PixelIndex(k) == PixelIndex(k - CycleWidth) + CycleWidth + 1
  {
    var j := k - CycleWidth;
    assert k == j + CycleWidth;
    assert k / CycleWidth == j / CycleWidth + 1;
  }

  /** The whole display: each pixel in its place, each row after a
      newline. */
  lemma DisplayCrtPixels(crt: seq<bool>)
    ensures forall k :: 0 <= k < |crt| ==> DisplayCrt(crt)[PixelIndex(k)] == PixelChar(crt[k])
    ensures forall r :: 0 <= r < Rows(|crt|) ==> DisplayCrt(crt)[RowStart(r)] == '\n'
  {
    forall k | 0 <= k < |crt| ensures DisplayCrt(crt)[PixelIndex(k)] == PixelChar(crt[k]) {
      DisplayCrtPixel(crt, k);
    }
    forall r | 0 <= r < Rows(|crt|) ensures DisplayCrt(crt)[RowStart(r)] == '\n' {
      DisplayCrtRowStart(crt, r);
    }
  }
}
