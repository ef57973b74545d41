// Day 21: monkeys yelling numbers.  Each monkey's job is a number or an
// operation on two other monkeys' numbers; the execution order puts every
// operand before the operation that needs it, and evaluating in that order
// gives the number `root` yells.
module Day21 {
  import opened Common

  type MonkeyId = string

  datatype Operation =
    | Add(a: MonkeyId, b: MonkeyId)
    | Subtract(a: MonkeyId, b: MonkeyId)
    | Divide(a: MonkeyId, b: MonkeyId)
    | Multiply(a: MonkeyId, b: MonkeyId)

  datatype Yell = Number(v: int) | MathsOperation(op: Operation)

  datatype Job = Job(monkeyId: MonkeyId, yell: Yell)

  /** The values of a Rust `i64`. */
  predicate IsI64(x: int) {
    -0x8000_0000_0000_0000 <= x < 0x8000_0000_0000_0000
  }

  // ---------------------------------------------------------------------
  // Parsing

  /** `parse_operation`: "a op b" split on spaces; `None` is a panic: a
    * missing piece or an unknown operator.  Pieces after the third are
    * ignored. */
  function ParseOperation(input: string): (r: Option<Operation>)
    ensures r.Some? ==> |Split(input, ' ')| >= 3
    ensures r.Some? ==> r.value.a == Split(input, ' ')[0] && r.value.b == Split(input, ' ')[2]
  {
    var split := Split(input, ' ');
    if |split| < 3 then None
    else
      var a, op, b := split[0], split[1], split[2];
      if op == "+" then Some(Add(a, b))
      else if op == "-" then Some(Subtract(a, b))
      else if op == "*" then Some(Multiply(a, b))
      else if op == "/" then Some(Divide(a, b))
      else None
  }

  /** `parse_job`: "id: yell", where a yell starting with a digit is an `i64`
    * number and anything else an operation.  `None` is a panic. */
  function ParseJob(input: string): (r: Option<Job>)
    ensures |SplitOn(input, ": ")| < 2 ==> r.None?
    ensures r.Some? ==> r.value.monkeyId == SplitOn(input, ": ")[0]
    ensures r.Some? && r.value.yell.Number? ==> 0 <= r.value.yell.v < 0x8000_0000_0000_0000
  {
    var split := SplitOn(input, ": ");
    if |split| < 2 || |split[1]| == 0 then None
    else
      var yell := split[1];
      if IsDigit(yell[0]) then
        match ParseUnsigned(yell, 0x8000_0000_0000_0000)
        case None => None
        case Some(v) => Some(Job(split[0], Number(v)))
      else
        match ParseOperation(yell)
        case None => None
        case Some(op) => Some(Job(split[0], MathsOperation(op)))
  }

  /** `parse_jobs`: one job per line. */
  function ParseJobs(input: string): (r: Option<seq<Job>>)
    ensures r.Some? <==> forall i :: 0 <= i < |Split(input, '\n')| ==> ParseJob(Split(input, '\n')[i]).Some?
    ensures r.Some? ==> |r.value| == |Split(input, '\n')|
    ensures r.Some? ==> forall i :: 0 <= i < |r.value| ==> ParseJob(Split(input, '\n')[i]) == Some(r.value[i])
  {
    var lines := Split(input, '\n');
    var r := MapAll(ParseJob, lines);
    assert (forall i :: 0 <= i < |lines| ==> ParseJob(lines[i]).Some?) ==> r.Some? by {
      if forall i :: 0 <= i < |lines| ==> ParseJob(lines[i]).Some? {
        forall i | 0 <= i < |lines| ensures (ParseJob)(lines[i]).Some? {
          assert ParseJob(lines[i]).Some?;
        }
      }
    }
    r
  }

  /** A yell text starting with a digit is a number, anything else an
    * operation. */
  lemma JobKinds(input: string)
    requires ParseJob(input).Some?
    ensures var yell := SplitOn(input, ": ")[1];
      |yell| > 0 &&
      (IsDigit(yell[0]) <==> ParseJob(input).value.yell.Number?) &&
      (ParseJob(input).value.yell.Number? ==> ParseJob(input).value.yell.v == ParseNat(yell))
  {
    var yell := SplitOn(input, ": ")[1];
    if IsDigit(yell[0]) {
      assert IsNumeral(yell) by {
        assert ParseUnsigned(yell, 0x8000_0000_0000_0000).Some?;
      }
    }
  }

  /** The names the puzzle uses: lower-case letters. */
  predicate IsName(s: string) {
    |s| > 0 && forall j :: 0 <= j < |s| ==> 'a' <= s[j] <= 'z'
  }

  function Symbol(op: Operation): string {
    match op
    case Add(_, _) => "+"
    case Subtract(_, _) => "-"
    case Multiply(_, _) => "*"
    case Divide(_, _) => "/"
  }

  /** A job as the input writes it. */
  function RenderJob(job: Job): string
    requires Writable(job)
  {
    job.monkeyId + ": " + YellText(job)
  }

  /** A job that can be written down: names of letters, numbers that fit. */
  predicate Writable(job: Job) {
    && IsName(job.monkeyId)
    && match job.yell
       case Number(v) => 0 <= v < 0x8000_0000_0000_0000
       case MathsOperation(op) => IsName(op.a) && IsName(op.b)
  }

  function YellText(job: Job): string
    requires Writable(job)
  {
    match job.yell
    case Number(v) => NatToString(v)
    case MathsOperation(op) => op.a + " " + Symbol(op) + " " + op.b
  }

  lemma NoColon(s: string, sep: string)
    requires |sep| == 2 && sep[0] == ':'
    requires forall j :: 0 <= j < |s| ==> s[j] != ':'
    ensures NoMatchBefore(s, sep, |s|)
  {
  }

  /** Parsing a written job gives the job back. */
  lemma ParseRenderJob(job: Job)
    requires Writable(job)
    ensures ParseJob(RenderJob(job)) == Some(job)
  {
    var id, yell := job.monkeyId, YellText(job);
    assert RenderJob(job) == id + ": " + yell;
    assert NoMatchBefore(id + ": ", ": ", |id|) by {
      forall p | 0 <= p < |id| ensures !MatchAt(id + ": ", ": ", p) {
        assert (id + ": ")[p] == id[p] && 'a' <= id[p] <= 'z';
        assert ": "[0] == ':';
      }
    }
    SplitOnFirstPiece(id, ": ", yell);
    YellTextParses(job);
    NoColon(yell, ": ");
    SplitOnNoMatch(yell, ": ");
  }

  /** A written job is one line. */
  lemma RenderJobOneLine(job: Job)
    requires Writable(job)
    ensures forall j :: 0 <= j < |RenderJob(job)| ==> RenderJob(job)[j] != '\n'
  {
    var id, yell := job.monkeyId, YellText(job);
    YellTextParses(job);
    var line := RenderJob(job);
    assert line == id + ": " + yell;
    forall j | 0 <= j < |line| ensures line[j] != '\n' {
      if j < |id| {
        assert line[j] == id[j];
      } else if j >= |id| + 2 {
        assert line[j] == yell[j - |id| - 2];
      }
    }
  }

  /** The written jobs, one per line. */
  function RenderJobs(jobs: seq<Job>): (lines: seq<string>)
    requires forall k :: 0 <= k < |jobs| ==> Writable(jobs[k])
    ensures |lines| == |jobs| && forall k :: 0 <= k < |jobs| ==> lines[k] == RenderJob(jobs[k])
  {
    seq(|jobs|, k requires 0 <= k < |jobs| && Writable(jobs[k]) => RenderJob(jobs[k]))
  }

  /** Parsing the written jobs, one per line, gives the jobs back. */
  lemma ParseRenderJobs(jobs: seq<Job>)
    requires |jobs| > 0 && forall k :: 0 <= k < |jobs| ==> Writable(jobs[k])
    ensures ParseJobs(Join(RenderJobs(jobs), '\n')) == Some(jobs)
  {
    var lines := RenderJobs(jobs);
    forall k | 0 <= k < |jobs| ensures ParseJob(lines[k]) == Some(jobs[k]) {
      ParseRenderJob(jobs[k]);
    }
    forall k, j | 0 <= k < |lines| && 0 <= j < |lines[k]| ensures lines[k][j] != '\n' {
      RenderJobOneLine(jobs[k]);
    }
    SplitJoin(lines, '\n');
    var r := MapAll(ParseJob, lines);
    assert r.value == jobs;
  }

  /** The yell text holds no colon, and it reads back as the yell. */
  lemma YellTextParses(job: Job)
    requires Writable(job)
    ensures var yell := YellText(job);
      && (forall j :: 0 <= j < |yell| ==> yell[j] != ':' && yell[j] != '\n')
      && |yell| > 0
      && (IsDigit(yell[0]) <==> job.yell.Number?)
      && (job.yell.Number? ==> ParseUnsigned(yell, 0x8000_0000_0000_0000) == Some(job.yell.v))
      && (job.yell.MathsOperation? ==> ParseOperation(yell) == Some(job.yell.op))
  {
    var yell := YellText(job);
    match job.yell {
      case Number(v) =>
        assert forall j :: 0 <= j < |yell| ==> IsDigit(yell[j]);
      case MathsOperation(op) =>
        OperationTextParses(op);
        assert yell[0] == op.a[0];
    }
  }

  lemma OperationTextParses(op: Operation)
    requires IsName(op.a) && IsName(op.b)
    ensures var yell := op.a + " " + Symbol(op) + " " + op.b;
      && (forall j :: 0 <= j < |yell| ==> yell[j] != ':' && yell[j] != '\n')
      && ParseOperation(yell) == Some(op)
  {
    var sym := Symbol(op);
    OperationTextNoColon(op.a, sym, op.b);
    SplitThree(op.a, sym, op.b);
  }

  /** Three words joined by spaces hold no colon and no newline. */
  lemma OperationTextNoColon(a: string, sym: string, b: string)
    requires IsName(a) && IsName(b) && |sym| == 1 && sym[0] != ':' && sym[0] != '\n'
    ensures var yell := a + " " + sym + " " + b;
      forall j :: 0 <= j < |yell| ==> yell[j] != ':' && yell[j] != '\n'
  {
    var yell := a + " " + sym + " " + b;
    forall j | 0 <= j < |yell| ensures yell[j] != ':' && yell[j] != '\n' {
      if j < |a| {
        assert yell[j] == a[j];
      } else if j >= |a| + 3 {
        assert yell[j] == b[j - |a| - 3];
      }
    }
  }

  /** Three words without spaces, joined by spaces, split back into them. */
  lemma SplitThree(a: string, sym: string, b: string)
    requires IsName(a) && IsName(b) && |sym| == 1 && sym[0] != ' '
    ensures Split(a + " " + sym + " " + b, ' ') == [a, sym, b]
  {
    assert a + " " + sym + " " + b == a + [' '] + (sym + [' '] + b);
    assert forall j :: 0 <= j < |a| ==> a[j] != ' ';
    assert forall j :: 0 <= j < |b| ==> b[j] != ' ';
    SplitFirstPiece(a, ' ', sym + [' '] + b);
    SplitFirstPiece(sym, ' ', b);
    SplitNoSeparator(b, ' ');
  }

  // ---------------------------------------------------------------------
  // The job map and its evaluation

  type JobMap = map<MonkeyId, Yell>

  /** `HashMap::from_iter`: a later job for the same monkey replaces an
    * earlier one. */
  function ToJobMap(jobs: seq<Job>): (m: JobMap)
    ensures forall k :: 0 <= k < |jobs| ==> jobs[k].monkeyId in m
    ensures forall id :: id in m ==> exists k :: 0 <= k < |jobs| && jobs[k].monkeyId == id
  {
    if jobs == [] then map[]
    else
      var last := jobs[|jobs| - 1];
      var m := ToJobMap(jobs[..|jobs| - 1])[last.monkeyId := last.yell];
      assert forall k :: 0 <= k < |jobs| - 1 ==> jobs[..|jobs| - 1][k] == jobs[k];
      m
  }

  /** A monkey's entry is its last job in the input. */
  lemma {:induction false} ToJobMapLast(jobs: seq<Job>, k: nat)
    requires k < |jobs|
    requires forall l :: k < l < |jobs| ==> jobs[l].monkeyId != jobs[k].monkeyId
    ensures ToJobMap(jobs)[jobs[k].monkeyId] == jobs[k].yell
  {
    if k < |jobs| - 1 {
      var init := jobs[..|jobs| - 1];
      assert init[k] == jobs[k];
      forall l | k < l < |init| ensures init[l].monkeyId != init[k].monkeyId {
        assert init[l] == jobs[l];
      }
      ToJobMapLast(init, k);
    }
  }

  /** The operands a job needs. */
  function Operands(y: Yell): seq<MonkeyId> {
    match y
    case Number(_) => []
    case MathsOperation(op) => [op.a, op.b]
  }

  /** `rank` witnesses that no monkey depends on itself: each operand that has
    * a job ranks below the monkey that needs it. */
  ghost predicate Ranked(jobs: JobMap, rank: map<MonkeyId, nat>) {
    && (forall id :: id in jobs ==> id in rank)
    && (forall id {:trigger RankedAt(jobs, rank, id)} :: id in jobs ==> RankedAt(jobs, rank, id))
  }

  /** The operands of `id` that have jobs rank below it. */
  ghost predicate RankedAt(jobs: JobMap, rank: map<MonkeyId, nat>, id: MonkeyId) {
    id in jobs && id in rank &&
    forall c :: c in Operands(jobs[id]) && c in jobs ==> c in rank && rank[c] < rank[id]
  }

  /** Rust's `/` on signed integers: the quotient rounded towards zero. */
  function Quotient(x: int, y: int): (q: int)
    requires y != 0
    ensures Abs(x - q * y) < Abs(y)
    ensures x - q * y == 0 || (x - q * y > 0 <==> x > 0)
  {
    if y > 0 then
      assert x == TruncDiv(x, y) * y + TruncRem(x, y);
      TruncDiv(x, y)
    else
      assert x == TruncDiv(x, -y) * -y + TruncRem(x, -y);
      -TruncDiv(x, -y)
  }

  /** The exact value of an operation, before any overflow. */
  function Exact(op: Operation, x: int, y: int): int
    requires op.Divide? ==> y != 0
  {
    match op
    case Add(_, _) => x + y
    case Subtract(_, _) => x - y
    case Multiply(_, _) => x * y
    case Divide(_, _) => Quotient(x, y)
  }

  /** One operation on two `i64` values; `None` is a panic: overflow or
    * division by zero. */
  function Apply(op: Operation, x: int, y: int): (r: Option<int>)
    ensures r.Some? <==> !(op.Divide? && y == 0) && IsI64(Exact(op, x, y))
    ensures r.Some? ==> r.value == Exact(op, x, y)
  {
    if op.Divide? && y == 0 then None
    else if IsI64(Exact(op, x, y)) then Some(Exact(op, x, y))
    else None
  }

  /** The number a monkey yells, working through the jobs it depends on;
    * `None` when an operand has no job or an operation panics. */
  ghost function Eval(jobs: JobMap, rank: map<MonkeyId, nat>, id: MonkeyId): Option<int>
    requires Ranked(jobs, rank) && id in jobs
    decreases rank[id]
  {
    match jobs[id]
    case Number(v) => Some(v)
    case MathsOperation(op) =>
      if op.a !in jobs || op.b !in jobs then None
      else
        assert RankedAt(jobs, rank, id) && op.a in Operands(jobs[id]) && op.b in Operands(jobs[id]);
        match (Eval(jobs, rank, op.a), Eval(jobs, rank, op.b))
        case (Some(x), Some(y)) => Apply(op, x, y)
        case _ => None
  }

  /** A monkey whose number can be worked out has operands whose numbers can. */
  lemma EvalNeedsOperands(jobs: JobMap, rank: map<MonkeyId, nat>, id: MonkeyId, c: MonkeyId)
    requires Ranked(jobs, rank) && id in jobs && Eval(jobs, rank, id).Some?
    requires c in Operands(jobs[id])
    ensures c in jobs && Eval(jobs, rank, c).Some?
  {
  }

  /** The number does not depend on which ranking is used. */
  lemma {:induction false} EvalRankFree(jobs: JobMap, rank: map<MonkeyId, nat>, rank': map<MonkeyId, nat>, id: MonkeyId)
    requires Ranked(jobs, rank) && Ranked(jobs, rank') && id in jobs
    ensures Eval(jobs, rank, id) == Eval(jobs, rank', id)
    decreases rank[id]
  {
    match jobs[id] {
      case Number(_) =>
      case MathsOperation(op) =>
        if op.a in jobs && op.b in jobs {
          assert RankedAt(jobs, rank, id) && RankedAt(jobs, rank', id);
          assert op.a in Operands(jobs[id]) && op.b in Operands(jobs[id]);
          EvalRankFree(jobs, rank, rank', op.a);
          EvalRankFree(jobs, rank, rank', op.b);
        }
    }
  }

  // ---------------------------------------------------------------------
  // `get_execution_order`

  /** The size of the unfolding of a monkey's job: it bounds how often the
    * loop can still pop jobs on its behalf. */
  ghost function Unfolding(jobs: JobMap, rank: map<MonkeyId, nat>, id: MonkeyId): nat
    requires Ranked(jobs, rank) && id in jobs
    decreases rank[id]
  {
    match jobs[id]
    case Number(_) => 1
    case MathsOperation(op) =>
      assert RankedAt(jobs, rank, id) && op.a in Operands(jobs[id]) && op.b in Operands(jobs[id]);
      1 + (if op.a in jobs then Unfolding(jobs, rank, op.a) else 0)
        + (if op.b in jobs then Unfolding(jobs, rank, op.b) else 0)
  }

  /** What pushing a child adds to the queue. */
  ghost function ChildWeight(jobs: JobMap, rank: map<MonkeyId, nat>, c: MonkeyId): nat
    requires Ranked(jobs, rank)
  {
    if c in jobs then Unfolding(jobs, rank, c) else 0
  }

  /** The work a queued job still stands for. */
  ghost function JobWeight(jobs: JobMap, rank: map<MonkeyId, nat>, y: Yell): nat
    requires Ranked(jobs, rank)
  {
    1 + ChildrenWeight(jobs, rank, Operands(y))
  }

  ghost function ChildrenWeight(jobs: JobMap, rank: map<MonkeyId, nat>, cs: seq<MonkeyId>): nat
    requires Ranked(jobs, rank)
  {
    if cs == [] then 0
    else ChildrenWeight(jobs, rank, cs[..|cs| - 1]) + ChildWeight(jobs, rank, cs[|cs| - 1])
  }

  ghost function QueueWeight(jobs: JobMap, rank: map<MonkeyId, nat>, queue: seq<Yell>): nat
    requires Ranked(jobs, rank)
  {
    if queue == [] then 0 else JobWeight(jobs, rank, queue[0]) + QueueWeight(jobs, rank, queue[1..])
  }

  lemma {:induction false} QueueWeightSplit(jobs: JobMap, rank: map<MonkeyId, nat>, q: seq<Yell>, r: seq<Yell>)
    requires Ranked(jobs, rank)
    ensures QueueWeight(jobs, rank, q + r) == QueueWeight(jobs, rank, q) + QueueWeight(jobs, rank, r)
    decreases |q|
  {
    if q == [] {
      assert q + r == r;
    } else {
      assert (q + r)[1..] == q[1..] + r;
      QueueWeightSplit(jobs, rank, q[1..], r);
    }
  }

  /** Queuing a monkey's job adds exactly its unfolding. */
  lemma JobWeightOfMonkey(jobs: JobMap, rank: map<MonkeyId, nat>, id: MonkeyId)
    requires Ranked(jobs, rank) && id in jobs
    ensures JobWeight(jobs, rank, jobs[id]) == Unfolding(jobs, rank, id)
  {
    match jobs[id] {
      case Number(_) =>
      case MathsOperation(op) =>
        ChildrenWeightSnoc(jobs, rank, [], op.a);
        ChildrenWeightSnoc(jobs, rank, [op.a], op.b);
        assert [] + [op.a] == [op.a] && [op.a] + [op.b] == [op.a, op.b];
    }
  }

  lemma ChildrenWeightPrefix(jobs: JobMap, rank: map<MonkeyId, nat>, cs: seq<MonkeyId>, k: nat)
    requires Ranked(jobs, rank) && k < |cs|
    ensures ChildrenWeight(jobs, rank, cs[..k + 1]) == ChildrenWeight(jobs, rank, cs[..k]) + ChildWeight(jobs, rank, cs[k])
  {
    assert cs[..k + 1][..k] == cs[..k];
  }

  lemma ChildrenWeightSnoc(jobs: JobMap, rank: map<MonkeyId, nat>, cs: seq<MonkeyId>, c: MonkeyId)
    requires Ranked(jobs, rank)
    ensures ChildrenWeight(jobs, rank, cs + [c]) == ChildrenWeight(jobs, rank, cs) + ChildWeight(jobs, rank, c)
  {
    assert (cs + [c])[..|cs|] == cs;
  }

  /** `order.remove(order.iter().position(|a| a == child).unwrap())`: drop the
    * first occurrence. */
  function RemoveFirst(order: seq<MonkeyId>, x: MonkeyId): (r: seq<MonkeyId>)
    ensures forall y :: y in r ==> y in order
    ensures forall y :: y in order && y != x ==> y in r
  {
    if order == [] then []
    else if order[0] == x then order[1..]
    else [order[0]] + RemoveFirst(order[1..], x)
  }

  predicate Distinct(s: seq<MonkeyId>) {
    forall i, j :: 0 <= i < j < |s| ==> s[i] != s[j]
  }

  /** `y` comes somewhere before `z`. */
  predicate Before(order: seq<MonkeyId>, y: MonkeyId, z: MonkeyId) {
    exists i, j :: 0 <= i < j < |order| && order[i] == y && order[j] == z
  }

  /** One push of a child: remove it if present, then append it. */
  function Moved(order: seq<MonkeyId>, x: MonkeyId): seq<MonkeyId> {
    RemoveFirst(order, x) + [x]
  }

  lemma {:induction false} RemoveFirstDistinct(order: seq<MonkeyId>, x: MonkeyId)
    requires Distinct(order)
    ensures Distinct(RemoveFirst(order, x)) && x !in RemoveFirst(order, x)
    decreases |order|
  {
    if order != [] && order[0] != x {
      RemoveFirstDistinct(order[1..], x);
      var r := RemoveFirst(order[1..], x);
      assert order[0] !in r by {
        assert order[0] !in order[1..];
      }
    }
  }

  lemma {:induction false} RemoveFirstKeepsBefore(order: seq<MonkeyId>, x: MonkeyId, y: MonkeyId, z: MonkeyId)
    requires Before(order, y, z) && y != x && z != x
    ensures Before(RemoveFirst(order, x), y, z)
    decreases |order|
  {
    var i, j :| 0 <= i < j < |order| && order[i] == y && order[j] == z;
    var r := RemoveFirst(order, x);
    if order[0] == x {
      assert order[1..][i - 1] == y && order[1..][j - 1] == z;
    } else if i == 0 {
      assert z in order[1..] by { assert order[1..][j - 1] == z; }
      var k :| 0 <= k < |RemoveFirst(order[1..], x)| && RemoveFirst(order[1..], x)[k] == z;
      assert r[0] == y && r[k + 1] == z;
    } else {
      assert Before(order[1..], y, z) by {
        assert order[1..][i - 1] == y && order[1..][j - 1] == z;
      }
      RemoveFirstKeepsBefore(order[1..], x, y, z);
      var i', j' :| 0 <= i' < j' < |RemoveFirst(order[1..], x)| &&
        RemoveFirst(order[1..], x)[i'] == y && RemoveFirst(order[1..], x)[j'] == z;
      assert r[i' + 1] == y && r[j' + 1] == z;
    }
  }

  /** Moving `x` to the end puts it after everyone else and keeps the others' order. */
  lemma MovedOrder(order: seq<MonkeyId>, x: MonkeyId)
    requires Distinct(order)
    ensures Distinct(Moved(order, x))
    ensures forall y :: y in Moved(order, x) <==> y in order || y == x
    ensures forall y :: y in order && y != x ==> Before(Moved(order, x), y, x)
  {
    RemoveFirstDistinct(order, x);
    var r := RemoveFirst(order, x);
    var m := Moved(order, x);
    forall y | y in order && y != x ensures Before(m, y, x) {
      assert y in r;
      var k :| 0 <= k < |r| && r[k] == y;
      assert m[k] == y && m[|m| - 1] == x;
    }
  }

  lemma MovedKeepsBefore(order: seq<MonkeyId>, x: MonkeyId, y: MonkeyId, z: MonkeyId)
    requires Before(order, y, z) && y != x
    ensures Before(Moved(order, x), y, z)
  {
    var m := Moved(order, x);
    var r := RemoveFirst(order, x);
    if z == x {
      var i, j :| 0 <= i < j < |order| && order[i] == y && order[j] == z;
      assert y in order;
      assert y in r;
      var k :| 0 <= k < |r| && r[k] == y;
      assert m[k] == y && m[|m| - 1] == x;
    } else {
      RemoveFirstKeepsBefore(order, x, y, z);
      var i, j :| 0 <= i < j < |r| && r[i] == y && r[j] == z;
      assert m[i] == y && m[j] == z;
    }
  }

  /** What the loop of `get_execution_order` keeps: the order holds each
    * monkey once, all with jobs and none of them `root` but the first;
    * every operation in it is still queued or has both operands after it;
    * and everything in it is something `root`'s number depends on. */
  ghost predicate OrderInvariant(jobs: JobMap, rank: map<MonkeyId, nat>, order: seq<MonkeyId>, queue: seq<Yell>)
    requires Ranked(jobs, rank) && "root" in jobs
  {
    && Distinct(order) && |order| > 0 && order[0] == "root"
    && (forall y :: y in order ==> y in jobs)
    && (forall y :: y in order && jobs[y] !in queue ==> forall c :: c in Operands(jobs[y]) ==> Before(order, y, c))
    && (forall y :: y in order && y != "root" ==> rank[y] < rank["root"])
    && (forall q :: q in queue ==> forall c :: c in Operands(q) && c in jobs ==> rank[c] < rank["root"])
    && (forall y :: y in order ==> Eval(jobs, rank, "root").Some? ==> Eval(jobs, rank, y).Some?)
    && (forall q :: q in queue ==> Eval(jobs, rank, "root").Some? ==>
          forall c :: c in Operands(q) ==> c in jobs && Eval(jobs, rank, c).Some?)
  }

  /** `get_execution_order(job_map)`: monkeys in an order in which every
    * operand comes before the operation that needs it, `root` last.
    * `None` is a panic: `root` or some needed operand has no job.  The loop
    * ends because the jobs depend on one another without cycles, which
    * `rank` witnesses. */
  method ExecutionOrder(jobs: JobMap, ghost rank: map<MonkeyId, nat>) returns (r: Option<seq<MonkeyId>>)
    requires Ranked(jobs, rank)
    ensures "root" in jobs && Eval(jobs, rank, "root").Some? ==> r.Some?
    ensures r.Some? ==> "root" in jobs && OrderSound(jobs, rank, r.value)
  {
    if "root" !in jobs {
      return None;
    }
    var queue := [jobs["root"]];
    var order := ["root"];
    OrderStart(jobs, rank);
    while queue != []
      invariant OrderInvariant(jobs, rank, order, queue)
      decreases QueueWeight(jobs, rank, queue)
    {
      var job := queue[|queue| - 1];
      ghost var before := queue;
      queue := queue[..|queue| - 1];
      assert before == queue + [job];
      QueueWeightSplit(jobs, rank, queue, [job]);
      PendingStart(jobs, rank, order, queue, job);
      var ok;
      ok, order, queue := PushChildren(jobs, rank, order, queue, job);
      if !ok {
        return None;
      }
    }
    r := Some(Reverse(order));
    ReversedOrder(jobs, rank, order);
  }

  /** The loop starts with `root` in the order and its job queued. */
  lemma OrderStart(jobs: JobMap, rank: map<MonkeyId, nat>)
    requires Ranked(jobs, rank) && "root" in jobs
    ensures OrderInvariant(jobs, rank, ["root"], [jobs["root"]])
  {
    assert RankedAt(jobs, rank, "root");
  }

  /** The order `get_execution_order` returns. */
  ghost predicate OrderSound(jobs: JobMap, rank: map<MonkeyId, nat>, order: seq<MonkeyId>)
    requires Ranked(jobs, rank) && "root" in jobs
  {
    && Distinct(order) && |order| > 0 && order[|order| - 1] == "root"
    && (forall y :: y in order ==> y in jobs)
    && (forall k :: 0 <= k < |order| ==> forall c :: c in Operands(jobs[order[k]]) ==> c in order[..k])
    && (forall y :: y in order ==> Eval(jobs, rank, "root").Some? ==> Eval(jobs, rank, y).Some?)
  }

  lemma ReversedOrder(jobs: JobMap, rank: map<MonkeyId, nat>, order: seq<MonkeyId>)
    requires Ranked(jobs, rank) && "root" in jobs
    requires OrderInvariant(jobs, rank, order, [])
    ensures OrderSound(jobs, rank, Reverse(order))
  {
    var r := Reverse(order);
    forall i, j | 0 <= i < j < |r| ensures r[i] != r[j] {
      assert r[i] == order[|order| - 1 - i] && r[j] == order[|order| - 1 - j];
    }
    forall y | y in r ensures y in order {
      var k :| 0 <= k < |r| && r[k] == y;
      assert order[|order| - 1 - k] == y;
    }
    forall k, c | 0 <= k < |r| && c in Operands(jobs[r[k]]) ensures c in r[..k] {
      var y := r[k];
      assert y == order[|order| - 1 - k];
      assert Before(order, y, c);
      var i, j :| 0 <= i < j < |order| && order[i] == y && order[j] == c;
      assert i == |order| - 1 - k;
      assert r[|order| - 1 - j] == c;
    }
  }

  /** The loop's state while the children of the popped `job` are being
    * pushed: `OrderInvariant` with `job` still counted as queued, except that
    * a monkey whose job it is already has the `pushed` children after it. */
  ghost predicate Pending(jobs: JobMap, rank: map<MonkeyId, nat>, order: seq<MonkeyId>, queue: seq<Yell>,
                          job: Yell, pushed: seq<MonkeyId>)
    requires Ranked(jobs, rank) && "root" in jobs
  {
    && Distinct(order) && |order| > 0 && order[0] == "root"
    && (forall y :: y in order ==> y in jobs)
    && (forall y :: y in order && jobs[y] !in queue && jobs[y] != job ==>
          forall c :: c in Operands(jobs[y]) ==> Before(order, y, c))
    && (forall y :: y in order && jobs[y] !in queue && jobs[y] == job ==>
          forall c :: c in pushed ==> Before(order, y, c))
    && (forall y :: y in order && y != "root" ==> rank[y] < rank["root"])
    && (forall q :: q in queue + [job] ==> forall c :: c in Operands(q) && c in jobs ==> rank[c] < rank["root"])
    && (forall y :: y in order ==> Eval(jobs, rank, "root").Some? ==> Eval(jobs, rank, y).Some?)
    && (forall q :: q in queue + [job] ==> Eval(jobs, rank, "root").Some? ==>
          forall c :: c in Operands(q) ==> c in jobs && Eval(jobs, rank, c).Some?)
  }

  lemma PendingStart(jobs: JobMap, rank: map<MonkeyId, nat>, order: seq<MonkeyId>, queue: seq<Yell>, job: Yell)
    requires Ranked(jobs, rank) && "root" in jobs
    requires OrderInvariant(jobs, rank, order, queue + [job])
    ensures Pending(jobs, rank, order, queue, job, [])
  {
  }

  lemma PendingDone(jobs: JobMap, rank: map<MonkeyId, nat>, order: seq<MonkeyId>, queue: seq<Yell>, job: Yell)
    requires Ranked(jobs, rank) && "root" in jobs
    requires Pending(jobs, rank, order, queue, job, Operands(job))
    ensures OrderInvariant(jobs, rank, order, queue)
  {
  }

  /** The body of the loop for one popped job: push each operand (moving it
    * to the end of the order) and queue its job. */
  method PushChildren(jobs: JobMap, ghost rank: map<MonkeyId, nat>, order: seq<MonkeyId>, queue: seq<Yell>, job: Yell)
      returns (ok: bool, order': seq<MonkeyId>, queue': seq<Yell>)
    requires Ranked(jobs, rank) && "root" in jobs
    requires Pending(jobs, rank, order, queue, job, [])
    ensures Eval(jobs, rank, "root").Some? ==> ok
    ensures ok ==> OrderInvariant(jobs, rank, order', queue')
    ensures ok ==> QueueWeight(jobs, rank, queue') < QueueWeight(jobs, rank, queue) + JobWeight(jobs, rank, job)
  {
    var children := Operands(job);
    order', queue' := order, queue;
    for k := 0 to |children|
      invariant Pending(jobs, rank, order', queue', job, children[..k])
      invariant QueueWeight(jobs, rank, queue') == QueueWeight(jobs, rank, queue) + ChildrenWeight(jobs, rank, children[..k])
    {
      var child := children[k];
      ok, order', queue' := PushChild(jobs, rank, order', queue', job, child, children, k);
      if !ok {
        return false, order', queue';
      }
      ChildrenWeightPrefix(jobs, rank, children, k);
    }
    assert children[..|children|] == children;
    PendingDone(jobs, rank, order', queue', job);
    return true, order', queue';
  }

  /** One child: `order` loses it and gains it again at the end, and its job
    * goes to the front of the queue. */
  method PushChild(jobs: JobMap, ghost rank: map<MonkeyId, nat>, order: seq<MonkeyId>, queue: seq<Yell>,
                   job: Yell, child: MonkeyId, ghost children: seq<MonkeyId>, ghost k: nat)
      returns (ok: bool, order': seq<MonkeyId>, queue': seq<Yell>)
    requires Ranked(jobs, rank) && "root" in jobs
    requires children == Operands(job) && k < |children| && child == children[k]
    requires Pending(jobs, rank, order, queue, job, children[..k])
    ensures Eval(jobs, rank, "root").Some? ==> ok
    ensures ok ==> child in jobs && queue' == [jobs[child]] + queue
    ensures ok ==> order' == Moved(order, child)
    ensures ok ==> Pending(jobs, rank, order', queue', job, children[..k + 1])
    ensures ok ==> QueueWeight(jobs, rank, queue') == QueueWeight(jobs, rank, queue) + ChildWeight(jobs, rank, child)
  {
    assert job in queue + [job];
    order' := Moved(order, child);
    if child !in jobs {
      return false, order', queue;
    }
    queue' := [jobs[child]] + queue;
    assert queue'[1..] == queue;
    JobWeightOfMonkey(jobs, rank, child);
    PushChildKeeps(jobs, rank, order, queue, job, child, children[..k]);
    assert children[..k + 1] == children[..k] + [child];
    return true, order', queue';
  }

  lemma PushChildKeeps(jobs: JobMap, rank: map<MonkeyId, nat>, order: seq<MonkeyId>, queue: seq<Yell>,
                       job: Yell, child: MonkeyId, pushed: seq<MonkeyId>)
    requires Ranked(jobs, rank) && "root" in jobs
    requires child in Operands(job) && child in jobs
    requires Pending(jobs, rank, order, queue, job, pushed)
    ensures Pending(jobs, rank, Moved(order, child), [jobs[child]] + queue, job, pushed + [child])
  {
    assert job in queue + [job];
    var order', queue' := Moved(order, child), [jobs[child]] + queue;
    assert rank[child] < rank["root"];
    MovedOrder(order, child);
    assert order'[0] == "root";
    forall y | y in order' && jobs[y] !in queue' && jobs[y] != job
      ensures forall c :: c in Operands(jobs[y]) ==> Before(order', y, c)
    {
      assert y != child && y in order;
      forall c | c in Operands(jobs[y]) ensures Before(order', y, c) {
        MovedKeepsBefore(order, child, y, c);
      }
    }
    forall y | y in order' && jobs[y] !in queue' && jobs[y] == job
      ensures forall c :: c in pushed + [child] ==> Before(order', y, c)
    {
      assert y != child && y in order;
      forall c | c in pushed + [child] ensures Before(order', y, c) {
        if c != child {
          MovedKeepsBefore(order, child, y, c);
        }
      }
    }
    forall q | q in queue' + [job] ensures forall c :: c in Operands(q) && c in jobs ==> rank[c] < rank["root"] {
      if q == jobs[child] {
        forall c | c in Operands(q) && c in jobs ensures rank[c] < rank["root"] {
          assert RankedAt(jobs, rank, child);
        }
      } else {
        assert q in queue + [job];
      }
    }
    forall q | q in queue' + [job] ensures Eval(jobs, rank, "root").Some? ==>
      forall c :: c in Operands(q) ==> c in jobs && Eval(jobs, rank, c).Some?
    {
      if q == jobs[child] && Eval(jobs, rank, "root").Some? {
        forall c | c in Operands(q) ensures c in jobs && Eval(jobs, rank, c).Some? {
          EvalNeedsOperands(jobs, rank, child, c);
        }
      } else {
        assert q in queue + [job] || q == jobs[child];
      }
    }
  }

  // ---------------------------------------------------------------------
  // `get_root_yell`

  /** `unwrap_value`: the number a monkey's entry holds; `None` is a panic:
    * no entry, or an operation not yet replaced by its number. */
  function UnwrapValue(jobs: JobMap, id: MonkeyId): (r: Option<int>)
    ensures r.Some? <==> id in jobs && jobs[id].Number?
    ensures r.Some? ==> jobs[id] == Number(r.value)
  {
    if id in jobs && jobs[id].Number? then Some(jobs[id].v) else None
  }

  /** The number `root` yells, if it has a job. */
  ghost function RootYell(jobs: JobMap, rank: map<MonkeyId, nat>): Option<int>
    requires Ranked(jobs, rank)
  {
    if "root" in jobs then Eval(jobs, rank, "root") else None
  }

  /** `get_root_yell(jobs)`: work through the execution order, replacing each
    * operation in the job map by its number.  `None` is a panic. */
  method GetRootYell(jobs: seq<Job>, ghost rank: map<MonkeyId, nat>) returns (r: Option<int>)
    requires Ranked(ToJobMap(jobs), rank)
    ensures r == RootYell(ToJobMap(jobs), rank)
  {
    var jobMap := ToJobMap(jobs);
    ghost var original := jobMap;
    var order := ExecutionOrder(jobMap, rank);
    if order.None? {
      return None;
    }
    var ids := order.value;
    ProcessedStart(original, rank, ids);
    for i := 0 to |ids|
      invariant Processed(original, rank, ids, i, jobMap)
    {
      var id := ids[i];
      OperandsReady(original, rank, ids, i, jobMap);
      var something := jobMap[id];
      if something.MathsOperation? {
        var op := something.op;
        var x := UnwrapValue(jobMap, op.a);
        var y := UnwrapValue(jobMap, op.b);
        var v := Apply(op, x.value, y.value);
        if v.None? {
          assert id in ids;
          return None;
        }
        StepOperation(original, rank, ids, i, jobMap, v.value);
        jobMap := jobMap[id := Number(v.value)];
      } else {
        StepNumber(original, rank, ids, i, jobMap);
      }
    }
    r := UnwrapValue(jobMap, "root");
  }

  /** The job map after the first `i` monkeys of the order are worked out:
    * they hold their numbers, everyone else their original job. */
  ghost predicate Processed(original: JobMap, rank: map<MonkeyId, nat>, ids: seq<MonkeyId>, i: nat, jobMap: JobMap)
    requires Ranked(original, rank)
  {
    && i <= |ids| && jobMap.Keys == original.Keys
    && (forall k :: 0 <= k < i ==>
          ids[k] in original && Eval(original, rank, ids[k]).Some? &&
          jobMap[ids[k]] == Number(Eval(original, rank, ids[k]).value))
    && (forall id :: id in original && id !in ids[..i] ==> jobMap[id] == original[id])
  }

  lemma ProcessedStart(original: JobMap, rank: map<MonkeyId, nat>, ids: seq<MonkeyId>)
    requires Ranked(original, rank)
    ensures Processed(original, rank, ids, 0, original)
  {
  }

  /** The next monkey still has its own job, and its operands are worked out. */
  lemma OperandsReady(original: JobMap, rank: map<MonkeyId, nat>, ids: seq<MonkeyId>, i: nat, jobMap: JobMap)
    requires Ranked(original, rank) && "root" in original && OrderSound(original, rank, ids)
    requires Processed(original, rank, ids, i, jobMap) && i < |ids|
    ensures ids[i] in original && ids[i] in jobMap && jobMap[ids[i]] == original[ids[i]]
    ensures original[ids[i]].MathsOperation? ==>
      var op := original[ids[i]].op;
      && op.a in original && op.b in original
      && UnwrapValue(jobMap, op.a) == Eval(original, rank, op.a)
      && UnwrapValue(jobMap, op.b) == Eval(original, rank, op.b)
      && Eval(original, rank, op.a).Some? && Eval(original, rank, op.b).Some?
      && Eval(original, rank, ids[i]) == Apply(op, Eval(original, rank, op.a).value, Eval(original, rank, op.b).value)
  {
    var id := ids[i];
    assert id in ids;
    assert id !in ids[..i];
    if original[id].MathsOperation? {
      var op := original[id].op;
      assert op.a in Operands(original[id]) && op.b in Operands(original[id]);
      assert op.a in ids[..i];
      assert op.b in ids[..i];
      var ka :| 0 <= ka < i && ids[ka] == op.a;
      var kb :| 0 <= kb < i && ids[kb] == op.b;
    }
  }

  lemma StepNumber(original: JobMap, rank: map<MonkeyId, nat>, ids: seq<MonkeyId>, i: nat, jobMap: JobMap)
    requires Ranked(original, rank) && Distinct(ids) && i < |ids| && ids[i] in original
    requires Processed(original, rank, ids, i, jobMap)
    requires jobMap[ids[i]] == original[ids[i]] && original[ids[i]].Number?
    ensures Processed(original, rank, ids, i + 1, jobMap)
  {
    assert ids[..i + 1] == ids[..i] + [ids[i]];
  }

  lemma StepOperation(original: JobMap, rank: map<MonkeyId, nat>, ids: seq<MonkeyId>, i: nat, jobMap: JobMap, v: int)
    requires Ranked(original, rank) && Distinct(ids) && i < |ids| && ids[i] in original
    requires Processed(original, rank, ids, i, jobMap)
    requires Eval(original, rank, ids[i]) == Some(v)
    ensures Processed(original, rank, ids, i + 1, jobMap[ids[i] := Number(v)])
  {
    assert ids[..i + 1] == ids[..i] + [ids[i]];
    forall k | 0 <= k < i ensures ids[k] != ids[i] {
    }
  }

  // ---------------------------------------------------------------------
  // The worked example

  /** How deep each monkey of the example sits below the numbers. */
  function ExampleRank(): map<MonkeyId, nat> {
    map["dbpl" := 0, "zczc" := 0, "dvpt" := 0, "lfqf" := 0, "humn" := 0, "ljgn" := 0, "sllz" := 0, "hmdt" := 0,
        "ptdq" := 1, "drzm" := 1, "lgvd" := 2, "sjmn" := 2, "cczh" := 3, "pppw" := 4, "root" := 5]
  }

  /** The job map the example's jobs build; their monkey names are all
    * different, so every job is its monkey's entry. */
  function ExampleMap(): JobMap {
    map["root" := MathsOperation(Add("pppw", "sjmn")), "dbpl" := Number(5),
        "cczh" := MathsOperation(Add("sllz", "lgvd")), "zczc" := Number(2),
        "ptdq" := MathsOperation(Subtract("humn", "dvpt")), "dvpt" := Number(3),
        "lfqf" := Number(4), "humn" := Number(5), "ljgn" := Number(2),
        "sjmn" := MathsOperation(Multiply("drzm", "dbpl")), "sllz" := Number(4),
        "pppw" := MathsOperation(Divide("cczh", "lfqf")),
        "lgvd" := MathsOperation(Multiply("ljgn", "ptdq")),
        "drzm" := MathsOperation(Subtract("hmdt", "zczc")), "hmdt" := Number(32)]
  }

  lemma ExampleNumbersRanked(id: MonkeyId)
    requires id in ["dbpl", "zczc", "dvpt", "lfqf", "humn", "ljgn", "sllz", "hmdt"]
    ensures RankedAt(ExampleMap(), ExampleRank(), id)
  {
  }

  lemma ExampleOperationsRanked(id: MonkeyId)
    requires id in ["root", "cczh", "ptdq", "sjmn"] || id in ["pppw", "lgvd", "drzm"]
    ensures RankedAt(ExampleMap(), ExampleRank(), id)
  {
    if id in ["root", "cczh", "ptdq", "sjmn"] {
      ExampleFirstOperationsRanked(id);
    }
  }

  lemma ExampleFirstOperationsRanked(id: MonkeyId)
    requires id in ["root", "cczh", "ptdq", "sjmn"]
    ensures RankedAt(ExampleMap(), ExampleRank(), id)
  {
  }

  /** The example's jobs depend on one another without cycles. */
  lemma ExampleRanked()
    ensures Ranked(ExampleMap(), ExampleRank())
  {
    forall id | id in ExampleMap() ensures RankedAt(ExampleMap(), ExampleRank(), id) {
      if id in ["dbpl", "zczc", "dvpt", "lfqf", "humn", "ljgn", "sllz", "hmdt"] {
        ExampleNumbersRanked(id);
      } else {
        ExampleOperationsRanked(id);
      }
    }
  }

  /** An operation whose operands are worked out applies its operator. */
  lemma EvalOperation(jobs: JobMap, rank: map<MonkeyId, nat>, id: MonkeyId, x: int, y: int)
    requires Ranked(jobs, rank) && id in jobs && jobs[id].MathsOperation?
    requires jobs[id].op.a in jobs && Eval(jobs, rank, jobs[id].op.a) == Some(x)
    requires jobs[id].op.b in jobs && Eval(jobs, rank, jobs[id].op.b) == Some(y)
    ensures Eval(jobs, rank, id) == Apply(jobs[id].op, x, y)
  {
  }

  /** `pppw` yells 2: (4 + 2 * (5 - 3)) / 4. */
  lemma ExampleLeft()
    requires Ranked(ExampleMap(), ExampleRank())
    ensures Eval(ExampleMap(), ExampleRank(), "pppw") == Some(2)
  {
    var m, rank := ExampleMap(), ExampleRank();
    EvalOperation(m, rank, "ptdq", 5, 3);
    EvalOperation(m, rank, "lgvd", 2, 2);
    EvalOperation(m, rank, "cczh", 4, 4);
    EvalOperation(m, rank, "pppw", 8, 4);
  }

  /** `sjmn` yells 150: (32 - 2) * 5. */
  lemma ExampleRight()
    requires Ranked(ExampleMap(), ExampleRank())
    ensures Eval(ExampleMap(), ExampleRank(), "sjmn") == Some(150)
  {
    var m, rank := ExampleMap(), ExampleRank();
    EvalOperation(m, rank, "drzm", 32, 2);
    EvalOperation(m, rank, "sjmn", 30, 5);
  }

  /** The example's `root` yells 152. */
  lemma ExampleRootYell()
    ensures Ranked(ExampleMap(), ExampleRank())
    ensures RootYell(ExampleMap(), ExampleRank()) == Some(152)
  {
    ExampleRanked();
    ExampleLeft();
    ExampleRight();
    EvalOperation(ExampleMap(), ExampleRank(), "root", 2, 150);
  }
}
