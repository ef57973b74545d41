/** Day 25: SNAFU numbers, written in balanced base 5 with the digits
    '=', '-', '0', '1', '2' standing for -2..2. */
module Day25 {
  import opened Common

  /** `SNAFU`: a number that is read and written in SNAFU notation. */
  datatype Snafu = Snafu(value: int)

  /** `ParseSNAFUError` */
  datatype ParseSnafuError = ParseSnafuError

  /** `fmt::Error`, returned when a remainder is outside -2..2. */
  datatype FmtError = FmtError

  /** The value of one SNAFU digit; any other character is an error. */
  function DigitValue(c: char): (d: Option<int>)
    ensures d.Some? <==> c in "=-012"
    ensures d.Some? ==> -2 <= d.value <= 2
  {
    match c
    case '2' => Some(2)
    case '1' => Some(1)
    case '0' => Some(0)
    case '-' => Some(-1)
    case '=' => Some(-2)
    case _ => None
  }

  /** The character of one remainder; one outside -2..2 is an error. */
  function DigitChar(r: int): (c: Option<char>)
    ensures c.Some? <==> -2 <= r <= 2
    ensures c.Some? ==> DigitValue(c.value) == Some(r)
  {
    match r
    case 2 => Some('2')
    case 1 => Some('1')
    case 0 => Some('0')
    case -1 => Some('-')
    case -2 => Some('=')
    case _ => None
  }

  /** `from_str`: the digits, read from the right, weighted by 1, 5, 25, ...
      and summed; the first bad character makes the sum an error. */
  function FromStr(s: string): (r: Result<Snafu, ParseSnafuError>)
    ensures r.Ok? <==> forall i :: 0 <= i < |s| ==> s[i] in "=-012"
  {
    if s == [] then Ok(Snafu(0))
    else
      match DigitValue(s[|s| - 1])
      case None => Err(ParseSnafuError)
      case Some(d) =>
        match FromStr(s[..|s| - 1])
        case Err(e) => Err(e)
        case Ok(n) => Ok(Snafu(5 * n.value + d))
  }

  /** A SNAFU string as the encoder writes it: non-empty, only SNAFU digits,
      and led by '1' or '2'. */
  predicate Canonical(s: string) {
    |s| > 0 && (s[0] == '1' || s[0] == '2') && forall i :: 0 <= i < |s| ==> s[i] in "=-012"
  }

  /** The value of remainders listed least significant first. */
  function LittleEndian(rem: seq<int>): int {
    if rem == [] then 0 else rem[0] + 5 * LittleEndian(rem[1..])
  }

  lemma {:induction false} LittleEndianAppend(rem: seq<int>, d: int)
    ensures LittleEndian(rem + [d]) == LittleEndian(rem) + d * Pow(5, |rem|)
  {
    if rem != [] {
      assert (rem + [d])[1..] == rem[1..] + [d];
      LittleEndianAppend(rem[1..], d);
    }
  }

  lemma {:induction false} LittleEndianUpdate(rem: seq<int>, i: nat, k: int)
    requires i < |rem|
    ensures LittleEndian(rem[i := rem[i] + k]) == LittleEndian(rem) + k * Pow(5, i)
  {
    if i > 0 {
      assert rem[i := rem[i] + k][1..] == rem[1..][i - 1 := rem[i] + k];
      LittleEndianUpdate(rem[1..], i - 1, k);
    }
  }

  /** A carry from position `i` to `i + 1` keeps the value. */
  lemma CarryKeepsValue(rem: seq<int>, i: nat)
    requires i + 1 < |rem|
    ensures LittleEndian(rem[i := rem[i] - 5][i + 1 := rem[i + 1] + 1]) == LittleEndian(rem)
  {
    LittleEndianUpdate(rem, i, -5);
    LittleEndianUpdate(rem[i := rem[i] - 5], i + 1, 1);
  }

  /** The characters of balanced remainders, most significant first. */
  function Render(digits: seq<int>): (s: string)
    requires forall i :: 0 <= i < |digits| ==> -2 <= digits[i] <= 2
    ensures |s| == |digits|
    ensures forall i :: 0 <= i < |s| ==> DigitChar(digits[i]) == Some(s[i])
  {
    seq(|digits|, i requires 0 <= i < |digits| => DigitChar(digits[i]).value)
  }

  /** Writing the reversed remainders and parsing the text gives back their
      value. */
  lemma {:induction false} RenderReverseParses(rem: seq<int>)
    requires forall i :: 0 <= i < |rem| ==> -2 <= rem[i] <= 2
    ensures FromStr(Render(Reverse(rem))) == Ok(Snafu(LittleEndian(rem)))
  {
    if rem != [] {
      var s := Render(Reverse(rem));
      assert Reverse(rem) == Reverse(rem[1..]) + [rem[0]];
      assert s[..|s| - 1] == Render(Reverse(rem[1..]));
      RenderReverseParses(rem[1..]);
    }
  }

  lemma Distribute(q: int, r: int, p: int)
    ensures (q * 5 + r) * p == q * (5 * p) + r * p
  {
  }

  lemma DivisionStep(value: int, low: int, n: nat, quotient: int)
    requires value == low + quotient * Pow(5, n)
    ensures value == (low + TruncRem(quotient, 5) * Pow(5, n)) + TruncDiv(quotient, 5) * Pow(5, n + 1)
  {
    var p := Pow(5, n);
    var q, r := TruncDiv(quotient, 5), TruncRem(quotient, 5);
    assert Pow(5, n + 1) == 5 * p;
    assert quotient == q * 5 + r;
    Distribute(q, r, p);
  }

  /** One division step keeps the value of the remainders and the quotient
      together. */
  lemma RemainderStep(value: int, rem: seq<int>, quotient: int)
    requires value == LittleEndian(rem) + quotient * Pow(5, |rem|)
    ensures value == LittleEndian(rem + [TruncRem(quotient, 5)]) + TruncDiv(quotient, 5) * Pow(5, |rem| + 1)
  {
    DivisionStep(value, LittleEndian(rem), |rem|, quotient);
    LittleEndianAppend(rem, TruncRem(quotient, 5));
  }

  /** The base-5 digits of a natural number, least significant first. */
  function Base5(v: nat): (ds: seq<int>)
    ensures forall j :: 0 <= j < |ds| ==> 0 <= ds[j] <= 4
  {
    if v == 0 then [] else [v % 5] + Base5(v / 5)
  }

  /** The remainders so far are the first base-5 digits of the size of
      `value`, with its sign, and the size of `quotient` holds the rest. */
  ghost predicate DigitsSoFar(value: int, rem: seq<int>, quotient: int) {
    && |rem| + |Base5(Abs(quotient))| == |Base5(Abs(value))|
    && (forall j :: 0 <= j < |rem| ==>
          rem[j] == if value < 0 then -Base5(Abs(value))[j] else Base5(Abs(value))[j])
    && (forall j :: 0 <= j < |Base5(Abs(quotient))| ==>
          Base5(Abs(quotient))[j] == Base5(Abs(value))[|rem| + j])
  }

  /** A truncating division step by 5 takes the lowest base-5 digit of the
      quotient's size, with the value's sign. */
  lemma DigitsStep(value: int, rem: seq<int>, quotient: int)
    requires quotient != 0 && DigitsSoFar(value, rem, quotient)
    requires value >= 0 ==> quotient >= 0
    requires value <= 0 ==> quotient <= 0
    ensures DigitsSoFar(value, rem + [TruncRem(quotient, 5)], TruncDiv(quotient, 5))
  {
    var a := Abs(quotient);
    assert Base5(a) == [a % 5] + Base5(a / 5);
    assert TruncRem(quotient, 5) == if quotient < 0 then -(a % 5) else a % 5;
    assert Abs(TruncDiv(quotient, 5)) == a / 5;
    var rem' := rem + [TruncRem(quotient, 5)];
    assert rem'[|rem|] == if value < 0 then -Base5(Abs(value))[|rem|] else Base5(Abs(value))[|rem|] by {
      assert Base5(a)[0] == Base5(Abs(value))[|rem| + 0];
    }
    forall j | 0 <= j < |Base5(a / 5)|
      ensures Base5(a / 5)[j] == Base5(Abs(value))[|rem'| + j]
    {
      assert Base5(a / 5)[j] == Base5(a)[j + 1];
    }
  }

  /** No base-5 digit of `v` is 3 or 4. */
  predicate NoDigitAboveTwo(v: nat) {
    forall j :: 0 <= j < |Base5(v)| ==> Base5(v)[j] <= 2
  }

  /** -1 is written as "-", but -3 has the base-5 digit 3 and is an error. */
  lemma NegativeExamples()
    ensures NoDigitAboveTwo(1) && !NoDigitAboveTwo(3)
  {
    assert Base5(1) == [1] + Base5(0);
    assert Base5(3) == [3] + Base5(0);
    assert Base5(3)[0] == 3;
  }

  /** Negated digits, reversed, are all at least -2 exactly when the digits
      are all at most 2. */
  lemma NegatedInRange(digits: seq<int>, ds: seq<int>)
    requires |digits| == |ds| && forall j :: 0 <= j < |ds| ==> digits[j] == -ds[j]
    requires forall j :: 0 <= j < |ds| ==> 0 <= ds[j]
    ensures (forall k :: 0 <= k < |digits| ==> -2 <= Reverse(digits)[k] <= 2) <==>
            (forall j :: 0 <= j < |ds| ==> ds[j] <= 2)
  {
    var r := Reverse(digits);
    if forall j :: 0 <= j < |ds| ==> ds[j] <= 2 {
      forall k | 0 <= k < |digits| ensures -2 <= r[k] <= 2 {
        assert r[k] == digits[|digits| - 1 - k];
      }
    } else {
      var j :| 0 <= j < |ds| && ds[j] > 2;
      assert r[|ds| - 1 - j] == digits[j];
    }
  }

  /** The first loop of `fmt`: the truncating remainders of repeated
      division by 5, least significant first.  They are the base-5 digits
      of the size of the value, negated for a negative value. */
  method Remainders(value: int) returns (remainders: seq<int>)
    ensures LittleEndian(remainders) == value
    ensures DigitsSoFar(value, remainders, 0)
    ensures value == 0 <==> remainders == []
    ensures value >= 0 ==> forall j :: 0 <= j < |remainders| ==> 0 <= remainders[j] <= 4
    ensures value < 0 ==> forall j :: 0 <= j < |remainders| ==> -4 <= remainders[j] <= 0
    ensures value > 0 ==> remainders[|remainders| - 1] > 0
  {
    remainders := [];
    var quotient := value;
    while quotient != 0
      invariant value == LittleEndian(remainders) + quotient * Pow(5, |remainders|)
      invariant value >= 0 ==> quotient >= 0
      invariant value <= 0 ==> quotient <= 0
      invariant value >= 0 ==> forall j :: 0 <= j < |remainders| ==> 0 <= remainders[j] <= 4
      invariant value < 0 ==> forall j :: 0 <= j < |remainders| ==> -4 <= remainders[j] <= 0
      invariant value != 0 ==> (quotient != 0 || (|remainders| > 0 && remainders[|remainders| - 1] != 0))
      invariant value == 0 ==> remainders == []
      invariant DigitsSoFar(value, remainders, quotient)
      decreases Abs(quotient)
    {
      DigitsStep(value, remainders, quotient);
      var remainder := TruncRem(quotient, 5);
      RemainderStep(value, remainders, quotient);
      quotient := TruncDiv(quotient, 5);
      remainders := remainders + [remainder];
    }
  }

  /** The second loop of `fmt`: every remainder above 2 is lowered by 5 and
      the next one raised by 1, with a new leading 1 after the last. The
      value is kept, and remainders that are all between 0 and 4 become
      balanced digits led by 1 or 2. */
  method Balance(digits: seq<int>) returns (remainders: seq<int>)
    requires (forall j :: 0 <= j < |digits| ==> 0 <= digits[j] <= 4) ||
             (forall j :: 0 <= j < |digits| ==> -4 <= digits[j] <= 0)
    ensures LittleEndian(remainders) == LittleEndian(digits)
    ensures (forall j :: 0 <= j < |digits| ==> digits[j] <= 0) ==> remainders == digits
    ensures (forall j :: 0 <= j < |digits| ==> 0 <= digits[j]) ==>
      forall j :: 0 <= j < |remainders| ==> -2 <= remainders[j] <= 2
    ensures (|digits| > 0 && digits[|digits| - 1] > 0 && forall j :: 0 <= j < |digits| ==> 0 <= digits[j]) ==>
      (|remainders| > 0 && 1 <= remainders[|remainders| - 1] <= 2)
  {
    ghost var natural := forall j :: 0 <= j < |digits| ==> 0 <= digits[j];
    ghost var leading := |digits| > 0 && digits[|digits| - 1] > 0;
    remainders := digits;
    var i := 0;
    while i < |remainders|
      invariant i <= |remainders| && |digits| <= |remainders| <= |digits| + 1
      invariant |remainders| == |digits| + 1 ==> |digits| <= i && remainders[|digits|] == 1
      invariant LittleEndian(remainders) == LittleEndian(digits)
      invariant (forall j :: 0 <= j < |digits| ==> digits[j] <= 0) ==> remainders == digits
      invariant natural ==> forall j :: 0 <= j < i ==> -2 <= remainders[j] <= 2
      invariant natural ==> forall j :: i < j < |remainders| ==> 0 <= remainders[j] <= 4
      invariant natural && i < |remainders| ==> 0 <= remainders[i] <= 5
      invariant natural && leading ==> remainders[|remainders| - 1] >= 1
      invariant natural && leading && i == |remainders| ==> remainders[|remainders| - 1] <= 2
      decreases |digits| + 1 - i
    {
      remainders := Carry(remainders, i);
      i := i + 1;
    }
  }

  /** One pass of the second loop of `fmt`: a remainder above 2 at `i` is
      lowered by 5 and the next one raised by 1, or a 1 is appended after
      the last. The value stays the same. */
  method Carry(rem: seq<int>, i: nat) returns (r: seq<int>)
    requires i < |rem|
    ensures LittleEndian(r) == LittleEndian(rem)
    ensures rem[i] <= 2 ==> r == rem
    ensures rem[i] > 2 && i == |rem| - 1 ==> r == rem[i := rem[i] - 5] + [1]
    ensures rem[i] > 2 && i < |rem| - 1 ==> r == rem[i := rem[i] - 5][i + 1 := rem[i + 1] + 1]
  {
    r := rem;
    if rem[i] > 2 {
      if i == |rem| - 1 {
        LittleEndianUpdate(rem, i, -5);
        LittleEndianAppend(rem[i := rem[i] - 5], 1);
        assert Pow(5, i + 1) == 5 * Pow(5, i);
        r := rem[i := rem[i] - 5] + [1];
      } else {
        CarryKeepsValue(rem, i);
        r := rem[i := rem[i] - 5][i + 1 := rem[i + 1] + 1];
      }
    }
  }

  /** The last loop of `fmt`: one character per remainder, most significant
      first; a remainder outside -2..2 is an error. */
  method WriteDigits(digits: seq<int>) returns (r: Result<string, FmtError>)
    ensures r.Ok? <==> forall j :: 0 <= j < |digits| ==> -2 <= digits[j] <= 2
    ensures r.Ok? ==> r.value == Render(digits)
  {
    var s := "";
    for k := 0 to |digits|
      invariant forall j :: 0 <= j < k ==> -2 <= digits[j] <= 2
      invariant |s| == k
      invariant forall j :: 0 <= j < k ==> DigitChar(digits[j]) == Some(s[j])
    {
      var c := DigitChar(digits[k]);
      if c.None? {
        return Err(FmtError);
      }
      s := s + [c.value];
    }
    return Ok(s);
  }

  /** `fmt`: the remainders, balanced, then written most significant first.
      A remainder below -2, which only a negative value produces, makes it
      an error: a negative value is written exactly when no base-5 digit of
      its size is above 2 (-1 is written as "-", -3 is an error). */
  method Fmt(n: Snafu) returns (r: Result<string, FmtError>)
    ensures r.Ok? ==> FromStr(r.value) == Ok(n)
    ensures n.value >= 0 ==> r.Ok?
    ensures n.value == 0 ==> r == Ok("")
    ensures n.value > 0 ==> r.Ok? && Canonical(r.value)
    ensures n.value < 0 ==> (r.Ok? <==> NoDigitAboveTwo(-n.value))
  {
    var digits := Remainders(n.value);
    var remainders := Balance(digits);
    var reversed := Reverse(remainders);
    r := WriteDigits(reversed);
    if n.value < 0 {
      assert remainders == digits;
      NegatedInRange(digits, Base5(-n.value));
    }
    if r.Ok? {
      assert forall j :: 0 <= j < |remainders| ==> -2 <= remainders[j] <= 2 by {
        forall j | 0 <= j < |remainders| ensures -2 <= remainders[j] <= 2 {
          assert remainders[j] == reversed[|remainders| - 1 - j];
        }
      }
      RenderReverseParses(remainders);
      if n.value > 0 {
        assert r.value[0] == DigitChar(remainders[|remainders| - 1]).value;
      }
    }
  }

  /** The range of the source's `i64`. */
  predicate IsI64(v: int) {
    -0x8000_0000_0000_0000 <= v < 0x8000_0000_0000_0000
  }

  /** `Add`: the sum of the values. The `i64` addition panics on overflow
      (a debug build), here None. */
  function Add(a: Snafu, b: Snafu): (c: Option<Snafu>)
    ensures c.Some? <==> IsI64(a.value + b.value)
    ensures c.Some? ==> c.value.value == a.value + b.value
  {
    var v := a.value + b.value;
    if IsI64(v) then Some(Snafu(v)) else None
  }

  /** The values of a list of numbers. */
  function Values(ns: seq<Snafu>): (vs: seq<int>)
    ensures |vs| == |ns| && forall i :: 0 <= i < |ns| ==> vs[i] == ns[i].value
  {
    seq(|ns|, i requires 0 <= i < |ns| => ns[i].value)
  }

  /** `Sum`: a fold of `Add` from `SNAFU { value: 0 }`; None once a partial
      sum overflows. */
  function SumAll(ns: seq<Snafu>): (r: Option<Snafu>)
    ensures ns == [] ==> r == Some(Snafu(0))
    ensures r.Some? ==> r.value.value == Sum(Values(ns))
  {
    if ns == [] then Some(Snafu(0))
    else
      assert Values(ns)[..|ns| - 1] == Values(ns[..|ns| - 1]);
      match SumAll(ns[..|ns| - 1])
      case None => None
      case Some(total) => Add(total, ns[|ns| - 1])
  }

  /** Every partial sum, from the first number to the last, fits in `i64`. */
  ghost predicate PartialSumsFit(ns: seq<Snafu>) {
    forall k :: 0 < k <= |ns| ==> IsI64(Sum(Values(ns[..k])))
  }

  /** The sum of SNAFU numbers exists exactly when no partial sum overflows,
      and then its value is the sum of their values. */
  lemma {:induction false} SumAllIsSum(ns: seq<Snafu>)
    ensures SumAll(ns).Some? <==> PartialSumsFit(ns)
    ensures SumAll(ns).Some? ==> SumAll(ns).value.value == Sum(Values(ns))
  {
    if ns != [] {
      var front := ns[..|ns| - 1];
      var last := ns[|ns| - 1];
      assert Values(ns)[..|ns| - 1] == Values(front);
      assert Sum(Values(ns)) == Sum(Values(front)) + last.value;
      SumAllIsSum(front);
      assert ns[..|ns|] == ns;
      forall k | 0 < k <= |front| ensures ns[..k] == front[..k] {
      }
      assert PartialSumsFit(ns) <==> PartialSumsFit(front) && IsI64(Sum(Values(ns)));
      if SumAll(front).Some? {
        assert SumAll(ns) == Add(SumAll(front).value, last);
      } else {
        assert SumAll(ns).None?;
      }
    }
  }

  /** Adding the numbers of two lists is adding their sums, when none of
      the three folds overflows. */
  lemma SumAllAppend(ns: seq<Snafu>, ms: seq<Snafu>)
    requires SumAll(ns).Some? && SumAll(ms).Some? && SumAll(ns + ms).Some?
    ensures SumAll(ns + ms).value.value == SumAll(ns).value.value + SumAll(ms).value.value
  {
    SumAllIsSum(ns);
    SumAllIsSum(ms);
    SumAllIsSum(ns + ms);
    assert Values(ns + ms) == Values(ns) + Values(ms);
    SumAppend(Values(ns), Values(ms));
  }

  /** `parse_fuel_requirements`: one number per non-empty line; the first
      line that is not SNAFU makes the whole list an error. */
  function ParseFuelRequirements(input: string): (r: Result<seq<Snafu>, ParseSnafuError>)
    ensures r.Ok? ==> |r.value| == |NonEmpty(Split(input, '\n'))|
  {
    ParseAll(NonEmpty(Split(input, '\n')))
  }

  /** Every line parsed, in order, or the error. */
  function ParseAll(lines: seq<string>): (r: Result<seq<Snafu>, ParseSnafuError>)
    ensures r.Ok? <==> forall i :: 0 <= i < |lines| ==> FromStr(lines[i]).Ok?
    ensures r.Ok? ==> (|r.value| == |lines| &&
      forall i :: 0 <= i < |lines| ==> FromStr(lines[i]) == Ok(r.value[i]))
  {
    if lines == [] then Ok([])
    else
      match FromStr(lines[0])
      case Err(e) => Err(e)
      case Ok(n) =>
        match ParseAll(lines[1..])
        case Err(e) => Err(e)
        case Ok(rest) => Ok([n] + rest)
  }

  // ---------------------------------------------------------------------
  // Uniqueness of the canonical form
  // ---------------------------------------------------------------------

  /** A sequence of SNAFU digits led by '1' or '2' has a positive value. */
  lemma {:induction false} CanonicalPositive(s: string)
    requires Canonical(s)
    ensures FromStr(s).Ok? && FromStr(s).value.value > 0
  {
    if |s| == 1 {
      assert s[..0] == "";
    } else {
      CanonicalPositive(s[..|s| - 1]);
    }
  }

  /** Two canonical strings with the same value are the same string: the
      last digit is fixed by the value modulo 5, the rest by the value
      without it. */
  lemma {:induction false} CanonicalUnique(s: string, t: string)
    requires Canonical(s) && Canonical(t)
    requires FromStr(s) == FromStr(t)
    ensures s == t
    decreases |s|
  {
    var v, w := DigitValue(s[|s| - 1]).value, DigitValue(t[|t| - 1]).value;
    var ps, pt := s[..|s| - 1], t[..|t| - 1];
    assert FromStr(s).value.value == 5 * FromStr(ps).value.value + v;
    assert FromStr(t).value.value == 5 * FromStr(pt).value.value + w;
    SameDigits(FromStr(ps).value.value, v, FromStr(pt).value.value, w);
    assert s[|s| - 1] == t[|t| - 1] by {
      assert DigitValue(s[|s| - 1]) == DigitValue(t[|t| - 1]);
    }
    if |s| == 1 && |t| == 1 {
    } else if |s| == 1 {
      CanonicalPositive(pt);
      assert false;
    } else if |t| == 1 {
      CanonicalPositive(ps);
      assert false;
    } else {
      CanonicalUnique(ps, pt);
      assert s == ps + [s[|s| - 1]] && t == pt + [t[|t| - 1]];
    }
  }

  /** A number has one way of being written as five times another plus a
      digit between -2 and 2. */
  lemma SameDigits(a: int, v: int, b: int, w: int)
    requires -2 <= v <= 2 && -2 <= w <= 2
    requires 5 * a + v == 5 * b + w
    ensures a == b && v == w
  {
  }

  /** The unit test of `from_str`. */
  lemma ParseExample()
    ensures FromStr("2=-01") == Ok(Snafu(976))
  {
    assert "2=-01"[..4] == "2=-0";
    assert "2=-0"[..3] == "2=-";
    assert "2=-"[..2] == "2=";
    assert "2="[..1] == "2";
    assert "2"[..0] == "";
  }

  /** The canonical SNAFU string of `value` is `t`, given that `t` is
      canonical and parses to `value`. */
  lemma TableRow(s: string, t: string, value: int)
    requires Canonical(s) && Canonical(t) && FromStr(t) == Ok(Snafu(value))
    ensures FromStr(s) == Ok(Snafu(value)) <==> s == t
  {
    if FromStr(s) == Ok(Snafu(value)) {
      CanonicalUnique(s, t);
    }
  }

  /** The row 1 of the `fmt` unit test: "1" is the only canonical string
      with that value, so it is what `Fmt` writes. */
  lemma DisplayExample1(s: string)
    requires Canonical(s)
    ensures FromStr(s) == Ok(Snafu(1)) <==> s == "1"
  {
    assert "1"[..0] == "";
    TableRow(s, "1", 1);
  }

  /** The row 2 of the `fmt` unit test: "2" is the only canonical string
      with that value, so it is what `Fmt` writes. */
  lemma DisplayExample2(s: string)
    requires Canonical(s)
    ensures FromStr(s) == Ok(Snafu(2)) <==> s == "2"
  {
    assert "2"[..0] == "";
    TableRow(s, "2", 2);
  }

  /** The row 3 of the `fmt` unit test: "1=" is the only canonical string
      with that value, so it is what `Fmt` writes. */
  lemma DisplayExample3(s: string)
    requires Canonical(s)
    ensures FromStr(s) == Ok(Snafu(3)) <==> s == "1="
  {
    assert "1="[..1] == "1";
    assert "1"[..0] == "";
    TableRow(s, "1=", 3);
  }

  /** The row 4 of the `fmt` unit test: "1-" is the only canonical string
      with that value, so it is what `Fmt` writes. */
  lemma DisplayExample4(s: string)
    requires Canonical(s)
    ensures FromStr(s) == Ok(Snafu(4)) <==> s == "1-"
  {
    assert "1-"[..1] == "1";
    assert "1"[..0] == "";
    TableRow(s, "1-", 4);
  }

  /** The row 5 of the `fmt` unit test: "10" is the only canonical string
      with that value, so it is what `Fmt` writes. */
  lemma DisplayExample5(s: string)
    requires Canonical(s)
    ensures FromStr(s) == Ok(Snafu(5)) <==> s == "10"
  {
    assert "10"[..1] == "1";
    assert "1"[..0] == "";
    TableRow(s, "10", 5);
  }

  /** The row 6 of the `fmt` unit test: "11" is the only canonical string
      with that value, so it is what `Fmt` writes. */
  lemma DisplayExample6(s: string)
    requires Canonical(s)
    ensures FromStr(s) == Ok(Snafu(6)) <==> s == "11"
  {
    assert "11"[..1] == "1";
    assert "1"[..0] == "";
    TableRow(s, "11", 6);
  }

  /** The row 7 of the `fmt` unit test: "12" is the only canonical string
      with that value, so it is what `Fmt` writes. */
  lemma DisplayExample7(s: string)
    requires Canonical(s)
    ensures FromStr(s) == Ok(Snafu(7)) <==> s == "12"
  {
    assert "12"[..1] == "1";
    assert "1"[..0] == "";
    TableRow(s, "12", 7);
  }

  /** The row 8 of the `fmt` unit test: "2=" is the only canonical string
      with that value, so it is what `Fmt` writes. */
  lemma DisplayExample8(s: string)
    requires Canonical(s)
    ensures FromStr(s) == Ok(Snafu(8)) <==> s == "2="
  {
    assert "2="[..1] == "2";
    assert "2"[..0] == "";
    TableRow(s, "2=", 8);
  }

  /** The row 9 of the `fmt` unit test: "2-" is the only canonical string
      with that value, so it is what `Fmt` writes. */
  lemma DisplayExample9(s: string)
    requires Canonical(s)
    ensures FromStr(s) == Ok(Snafu(9)) <==> s == "2-"
  {
    assert "2-"[..1] == "2";
    assert "2"[..0] == "";
    TableRow(s, "2-", 9);
  }

  /** The row 10 of the `fmt` unit test: "20" is the only canonical string
      with that value, so it is what `Fmt` writes. */
  lemma DisplayExample10(s: string)
    requires Canonical(s)
    ensures FromStr(s) == Ok(Snafu(10)) <==> s == "20"
  {
    assert "20"[..1] == "2";
    assert "2"[..0] == "";
    TableRow(s, "20", 10);
  }

  /** The row 15 of the `fmt` unit test: "1=0" is the only canonical string
      with that value, so it is what `Fmt` writes. */
  lemma DisplayExample15(s: string)
    requires Canonical(s)
    ensures FromStr(s) == Ok(Snafu(15)) <==> s == "1=0"
  {
    assert "1=0"[..2] == "1=";
    assert "1="[..1] == "1";
    assert "1"[..0] == "";
    TableRow(s, "1=0", 15);
  }

  /** The row 20 of the `fmt` unit test: "1-0" is the only canonical string
      with that value, so it is what `Fmt` writes. */
  lemma DisplayExample20(s: string)
    requires Canonical(s)
    ensures FromStr(s) == Ok(Snafu(20)) <==> s == "1-0"
  {
    assert "1-0"[..2] == "1-";
    assert "1-"[..1] == "1";
    assert "1"[..0] == "";
    TableRow(s, "1-0", 20);
  }

  /** The row 2022 of the `fmt` unit test: "1=11-2" is the only canonical string
      with that value, so it is what `Fmt` writes. */
  lemma DisplayExample2022(s: string)
    requires Canonical(s)
    ensures FromStr(s) == Ok(Snafu(2022)) <==> s == "1=11-2"
  {
    Reads2022();
    assert Canonical("1=11-2");
    TableRow(s, "1=11-2", 2022);
  }

  /** "1=11-2" reads as 2022. */
  lemma Reads2022()
    ensures FromStr("1=11-2") == Ok(Snafu(2022))
  {
    assert "1=11-2"[..5] == "1=11-";
    assert "1=11-"[..4] == "1=11";
    assert "1=11"[..3] == "1=1";
    assert "1=1"[..2] == "1=";
    assert "1="[..1] == "1";
    assert "1"[..0] == "";
  }

  /** The row 12345 of the `fmt` unit test: "1-0---0" is the only canonical string
      with that value, so it is what `Fmt` writes. */
  lemma DisplayExample12345(s: string)
    requires Canonical(s)
    ensures FromStr(s) == Ok(Snafu(12345)) <==> s == "1-0---0"
  {
    Reads12345();
    assert Canonical("1-0---0");
    TableRow(s, "1-0---0", 12345);
  }

  /** "1-0---0" reads as 12345. */
  lemma Reads12345()
    ensures FromStr("1-0---0") == Ok(Snafu(12345))
  {
    assert "1-0---0"[..6] == "1-0---";
    assert "1-0---"[..5] == "1-0--";
    assert "1-0--"[..4] == "1-0-";
    assert "1-0-"[..3] == "1-0";
    assert "1-0"[..2] == "1-";
    assert "1-"[..1] == "1";
    assert "1"[..0] == "";
  }

  /** The first seven digits of "1121-1110-1=0". */
  lemma PrefixOfLongExample()
    ensures FromStr("1121-11") == Ok(Snafu(20106))
  {
    assert "1121-11"[..6] == "1121-1";
    assert "1121-1"[..5] == "1121-";
    assert "1121-"[..4] == "1121";
    assert "1121"[..3] == "112";
    assert "112"[..2] == "11";
    assert "11"[..1] == "1";
    assert "1"[..0] == "";
  }

  /** The row 314159265 of the `fmt` unit test: "1121-1110-1=0" is the only canonical string
      with that value, so it is what `Fmt` writes. */
  lemma DisplayExample314159265(s: string)
    requires Canonical(s)
    ensures FromStr(s) == Ok(Snafu(314159265)) <==> s == "1121-1110-1=0"
  {
    LongExample();
    assert Canonical("1121-1110-1=0");
    TableRow(s, "1121-1110-1=0", 314159265);
  }

  /** "1121-1110-1=0" reads as 314159265. */
  lemma LongExample()
    ensures FromStr("1121-1110-1=0") == Ok(Snafu(314159265))
  {
    assert "1121-1110-1=0"[..12] == "1121-1110-1=";
    assert "1121-1110-1="[..11] == "1121-1110-1";
    assert "1121-1110-1"[..10] == "1121-1110-";
    assert "1121-1110-"[..9] == "1121-1110";
    assert "1121-1110"[..8] == "1121-111";
    assert "1121-111"[..7] == "1121-11";
    PrefixOfLongExample();
  }

  /** The row 4890 of the `fmt` unit test: "2=-1=0" is the only canonical string
      with that value, so it is what `Fmt` writes. */
  lemma DisplayExample4890(s: string)
    requires Canonical(s)
    ensures FromStr(s) == Ok(Snafu(4890)) <==> s == "2=-1=0"
  {
    Reads4890();
    assert Canonical("2=-1=0");
    TableRow(s, "2=-1=0", 4890);
  }

  /** "2=-1=0" reads as 4890. */
  lemma Reads4890()
    ensures FromStr("2=-1=0") == Ok(Snafu(4890))
  {
    assert "2=-1=0"[..5] == "2=-1=";
    assert "2=-1="[..4] == "2=-1";
    assert "2=-1"[..3] == "2=-";
    assert "2=-"[..2] == "2=";
    assert "2="[..1] == "2";
    assert "2"[..0] == "";
  }
}
