/** Small value types shared by the puzzle models: optional values, results
    and the three-way comparison outcome of Rust's `Ordering`. */
module Common {

  datatype Option<T> = None | Some(value: T) {
    /** Lets `:-` pass a `None` on, as Rust's `?` does. */
    predicate IsFailure() {
      None?
    }

    function PropagateFailure<U>(): Option<U>
      requires None?
    {
      None
    }

    function Extract(): T
      requires Some?
    {
      value
    }
  }

  datatype Result<T, E> = Ok(value: T) | Err(error: E)

  /** Rust's `std::cmp::Ordering`. */
  datatype Ordering = Less | Equal | Greater {
    /** `Ordering::reverse`. */
    function Reverse(): Ordering {
      match this
      case Less => Greater
      case Equal => Equal
      case Greater => Less
    }

    /** `Ordering::then`: keep this ordering unless it is `Equal`. */
    function Then(other: Ordering): Ordering {
      if this == Equal then other else this
    }
  }

  /** `Ord::cmp` on unbounded integers. */
  function CompareInt(a: int, b: int): (o: Ordering)
    ensures o == Less <==> a < b
    ensures o == Equal <==> a == b
    ensures o == Greater <==> a > b
  {
    if a < b then Less else if a == b then Equal else Greater
  }

  function Max(a: int, b: int): int {
    if a < b then b else a
  }

  function Min(a: int, b: int): int {
    if a < b then a else b
  }

  function Abs(a: int): int {
    if a < 0 then -a else a
  }

  /** Sum of a sequence of integers, folded from the left. */
  function Sum(s: seq<int>): int {
    if s == [] then 0 else Sum(s[..|s| - 1]) + s[|s| - 1]
  }

  lemma {:induction false} SumAppend(s: seq<int>, t: seq<int>)
    ensures Sum(s + t) == Sum(s) + Sum(t)
  {
    if t == [] {
      assert s + t == s;
    } else {
      assert (s + t)[..|s + t| - 1] == s + t[..|t| - 1];
      SumAppend(s, t[..|t| - 1]);
    }
  }

  /** A character is an ASCII decimal digit. */
  predicate IsDigit(c: char) {
    '0' as int <= c as int <= '9' as int
  }

  /** Value of one decimal digit. */
  function DigitValue(c: char): (d: nat)
    requires IsDigit(c)
    ensures d < 10
  {
    c as int - '0' as int
  }

  /** Decimal value of a non-empty string of digits (Rust's `str::parse` on
      unsigned integers, without the width limit). */
  function ParseNat(s: string): (n: nat)
    requires forall i :: 0 <= i < |s| ==> IsDigit(s[i])
  {
    if s == [] then 0 else 10 * ParseNat(s[..|s| - 1]) + DigitValue(s[|s| - 1])
  }

  /** Every character is a digit and there is at least one. */
  predicate IsNumeral(s: string) {
    |s| > 0 && forall i :: 0 <= i < |s| ==> IsDigit(s[i])
  }

  /** The digit character of a value below 10. */
  function DigitChar(d: nat): (c: char)
    requires d < 10
    ensures IsDigit(c) && DigitValue(c) == d
  {
    ('0' as int + d) as char
  }

  /** Decimal text of a natural number, without leading zeros (Rust's
      `to_string` on unsigned integers). */
  function NatToString(n: nat): (s: string)
    ensures IsNumeral(s)
    ensures ParseNat(s) == n
  {
    if n < 10 then
      var s := [DigitChar(n)];
      assert s[..0] == "";
      s
    else
      var s := NatToString(n / 10) + [DigitChar(n % 10)];
      assert s[..|s| - 1] == NatToString(n / 10);
      s
  }

  /** `str::parse` on an unsigned integer type whose values are below
      `bound`: an optional '+', then at least one digit, and a value that
      fits. Anything else is an error. */
  function ParseUnsigned(s: string, bound: nat): (r: Option<nat>)
    ensures r.Some? ==> r.value < bound
    ensures IsNumeral(s) ==> (r.Some? <==> ParseNat(s) < bound)
    ensures IsNumeral(s) && r.Some? ==> r.value == ParseNat(s)
    ensures |s| > 0 && s[0] == '[' ==> r.None?
  {
    var digits := if |s| > 0 && s[0] == '+' then s[1..] else s;
    if IsNumeral(digits) && ParseNat(digits) < bound then Some(ParseNat(digits)) else None
  }

  /** `str::parse` on a signed integer type whose values lie in
      `-bound..bound-1`: an optional sign, then at least one digit, and a
      value that fits. */
  function ParseSigned(s: string, bound: nat): (r: Option<int>)
    requires bound > 0
    ensures r.Some? ==> -(bound as int) <= r.value < bound
    ensures IsNumeral(s) && ParseNat(s) < bound ==> r == Some(ParseNat(s))
    ensures |s| > 1 && s[0] == '-' && IsNumeral(s[1..]) && ParseNat(s[1..]) <= bound ==>
      r == Some(-(ParseNat(s[1..]) as int))
  {
    if |s| > 0 && s[0] == '-' then
      var digits := s[1..];
      if IsNumeral(digits) && ParseNat(digits) <= bound then Some(-(ParseNat(digits) as int)) else None
    else
      var digits := if |s| > 0 && s[0] == '+' then s[1..] else s;
      if IsNumeral(digits) && ParseNat(digits) < bound then Some(ParseNat(digits) as int) else None
  }

  /** `b` to the power `e`. */
  function Pow(b: int, e: nat): int {
    if e == 0 then 1 else b * Pow(b, e - 1)
  }

  lemma {:induction false} PowPositive(b: int, e: nat)
    requires b > 0
    ensures Pow(b, e) > 0
  {
    if e > 0 {
      PowPositive(b, e - 1);
    }
  }

  /** Integer division rounding toward zero, as Rust's `/` on signed
      integers (Dafny's own `/` is Euclidean). */
  function TruncDiv(a: int, b: int): (q: int)
    requires b > 0
    ensures a >= 0 ==> q >= 0
    ensures a <= 0 ==> q <= 0
    ensures b == 5 && a != 0 ==> Abs(q) < Abs(a)
  {
    if a >= 0 then a / b else -((-a) / b)
  }

  /** The remainder that goes with `TruncDiv`, as Rust's `%`: it has the
      sign of the dividend. */
  function TruncRem(a: int, b: int): (r: int)
    requires b > 0
    ensures a == TruncDiv(a, b) * b + r
    ensures a >= 0 ==> 0 <= r < b
    ensures a < 0 ==> -b < r <= 0
  {
    a - TruncDiv(a, b) * b
  }

  /** The elements in reverse order. */
  function Reverse<T>(s: seq<T>): (r: seq<T>)
    ensures |r| == |s|
    ensures forall i :: 0 <= i < |s| ==> r[i] == s[|s| - 1 - i]
  {
    if s == [] then [] else Reverse(s[1..]) + [s[0]]
  }

  /** Reversing twice gives the sequence back. */
  lemma ReverseReverse<T>(s: seq<T>)
    ensures Reverse(Reverse(s)) == s
  {
    assert forall i :: 0 <= i < |s| ==> Reverse(Reverse(s))[i] == s[i];
  }

  /** The pieces joined back together with `sep` between them. */
  function Join(pieces: seq<string>, sep: char): string
    requires |pieces| > 0
  {
    if |pieces| == 1 then pieces[0] else pieces[0] + [sep] + Join(pieces[1..], sep)
  }

  /** `str::split` on one character: the pieces between the separators,
      including empty ones and an empty last piece after a trailing
      separator. */
  function Split(s: string, sep: char): (pieces: seq<string>)
    ensures |pieces| > 0
    ensures forall i, j :: 0 <= i < |pieces| && 0 <= j < |pieces[i]| ==> pieces[i][j] != sep
    ensures Join(pieces, sep) == s
  {
    if s == [] then [""]
    else
      var rest := Split(s[1..], sep);
      if s[0] == sep then [""] + rest
      else
        var pieces := [[s[0]] + rest[0]] + rest[1..];
        assert pieces[1..] == rest[1..];
        pieces
  }

  /** A piece holding no separator splits to itself. */
  lemma {:induction false} SplitNoSeparator(a: string, sep: char)
    requires forall j :: 0 <= j < |a| ==> a[j] != sep
    ensures Split(a, sep) == [a]
    decreases |a|
  {
    if a != [] {
      SplitNoSeparator(a[1..], sep);
    }
  }

  /** A first piece without separator, then the separator, comes off the
      front of the split. */
  lemma {:induction false} SplitFirstPiece(a: string, sep: char, t: string)
    requires forall j :: 0 <= j < |a| ==> a[j] != sep
    ensures Split(a + [sep] + t, sep) == [a] + Split(t, sep)
    decreases |a|
  {
    var s := a + [sep] + t;
    if a == [] {
      assert s[1..] == t;
    } else {
      assert s[1..] == a[1..] + [sep] + t;
      SplitFirstPiece(a[1..], sep, t);
      assert [a[0]] + a[1..] == a;
    }
  }

  /** Splitting undoes joining pieces that hold no separator. */
  lemma {:induction false} SplitJoin(pieces: seq<string>, sep: char)
    requires |pieces| > 0
    requires forall i, j :: 0 <= i < |pieces| && 0 <= j < |pieces[i]| ==> pieces[i][j] != sep
    ensures Split(Join(pieces, sep), sep) == pieces
    decreases |pieces|
  {
    if |pieces| == 1 {
      SplitNoSeparator(pieces[0], sep);
    } else {
      SplitJoin(pieces[1..], sep);
      SplitFirstPiece(pieces[0], sep, Join(pieces[1..], sep));
    }
  }

  /** The pieces joined back together with the string `sep` between them. */
  function JoinOn(pieces: seq<string>, sep: string): string
    requires |pieces| > 0
  {
    if |pieces| == 1 then pieces[0] else pieces[0] + sep + JoinOn(pieces[1..], sep)
  }

  /** `sep` occurs in `s` starting at position `p`. */
  predicate MatchAt(s: string, sep: string, p: nat) {
    p + |sep| <= |s| && forall j :: 0 <= j < |sep| ==> s[p + j] == sep[j]
  }

  /** `sep` starts at no position before `n`. */
  predicate NoMatchBefore(s: string, sep: string, n: nat) {
    forall p :: 0 <= p < n ==> !MatchAt(s, sep, p)
  }

  /** `str::split` on a non-empty string pattern: the text is cut at the
      leftmost occurrences of `sep` that do not overlap, so a run of three
      newlines split on "\n\n" leaves a newline at the front of the next
      piece. */
  function SplitOn(s: string, sep: string): (pieces: seq<string>)
    requires |sep| > 0
    ensures |pieces| > 0
    ensures JoinOn(pieces, sep) == s
    decreases |s|
  {
    if |s| < |sep| then [s]
    else if MatchAt(s, sep, 0) then
      assert s[..|sep|] == sep;
      assert s == sep + s[|sep|..];
      [""] + SplitOn(s[|sep|..], sep)
    else
      var rest := SplitOn(s[1..], sep);
      var pieces := [[s[0]] + rest[0]] + rest[1..];
      assert pieces[1..] == rest[1..];
      pieces
  }

  /** A text in which `sep` never occurs is one piece. */
  lemma {:induction false} SplitOnNoMatch(a: string, sep: string)
    requires |sep| > 0
    requires NoMatchBefore(a, sep, |a|)
    ensures SplitOn(a, sep) == [a]
    decreases |a|
  {
    if |a| >= |sep| {
      assert !MatchAt(a, sep, 0);
      forall p | 0 <= p < |a[1..]| ensures !MatchAt(a[1..], sep, p) {
        assert !MatchAt(a, sep, p + 1);
      }
      SplitOnNoMatch(a[1..], sep);
    }
  }

  /** A first piece in which `sep` does not start before the separator that
      follows it comes off the front of the split. */
  lemma {:induction false} SplitOnFirstPiece(a: string, sep: string, t: string)
    requires |sep| > 0
    requires NoMatchBefore(a + sep, sep, |a|)
    ensures SplitOn(a + sep + t, sep) == [a] + SplitOn(t, sep)
    decreases |a|
  {
    var s := a + sep + t;
    if a == [] {
      assert MatchAt(s, sep, 0);
      assert s[|sep|..] == t;
    } else {
      assert !MatchAt(a + sep, sep, 0);
      assert !MatchAt(s, sep, 0);
      assert s[1..] == a[1..] + sep + t;
      forall p | 0 <= p < |a[1..]| ensures !MatchAt(a[1..] + sep, sep, p) {
        assert !MatchAt(a + sep, sep, p + 1);
      }
      SplitOnFirstPiece(a[1..], sep, t);
      assert [a[0]] + a[1..] == a;
    }
  }

  /** Splitting undoes joining when `sep` begins nowhere inside a piece,
      not even running into the separator after it. */
  lemma {:induction false} SplitOnJoin(pieces: seq<string>, sep: string)
    requires |sep| > 0 && |pieces| > 0
    requires forall i :: 0 <= i < |pieces| - 1 ==> NoMatchBefore(pieces[i] + sep, sep, |pieces[i]|)
    requires NoMatchBefore(pieces[|pieces| - 1], sep, |pieces[|pieces| - 1]|)
    ensures SplitOn(JoinOn(pieces, sep), sep) == pieces
    decreases |pieces|
  {
    if |pieces| == 1 {
      SplitOnNoMatch(pieces[0], sep);
    } else {
      SplitOnJoin(pieces[1..], sep);
      SplitOnFirstPiece(pieces[0], sep, JoinOn(pieces[1..], sep));
    }
  }

  /** The pieces that are not empty, in order (`filter(|line| line != "")`). */
  function NonEmpty(pieces: seq<string>): (r: seq<string>)
    ensures |r| <= |pieces|
    ensures forall i :: 0 <= i < |r| ==> r[i] != "" && r[i] in pieces
    ensures forall p :: p in pieces && p != "" ==> p in r
  {
    if pieces == [] then []
    else if pieces[0] == "" then NonEmpty(pieces[1..])
    else [pieces[0]] + NonEmpty(pieces[1..])
  }

  /** Dropping the empty lines leaves non-empty lines followed by one
      empty line as they were. */
  lemma {:induction false} NonEmptyDropsLast(lines: seq<string>)
    requires forall i :: 0 <= i < |lines| ==> lines[i] != ""
    ensures NonEmpty(lines + [""]) == lines
  {
    if lines == [] {
      assert NonEmpty([""][1..]) == [];
    } else {
      assert (lines + [""])[1..] == lines[1..] + [""];
      NonEmptyDropsLast(lines[1..]);
    }
  }

  /** Dropping the empty pieces keeps pieces that are all non-empty. */
  lemma {:induction false} NonEmptyKeepsAll(pieces: seq<string>)
    requires forall i :: 0 <= i < |pieces| ==> pieces[i] != ""
    ensures NonEmpty(pieces) == pieces
  {
    if pieces != [] {
      NonEmptyKeepsAll(pieces[1..]);
    }
  }

  /** Joining with one more piece at the end. */
  lemma {:induction false} JoinSnoc(pieces: seq<string>, sep: char, x: string)
    requires |pieces| > 0
    ensures Join(pieces + [x], sep) == Join(pieces, sep) + [sep] + x
    decreases |pieces|
  {
    if |pieces| > 1 {
      assert (pieces + [x])[1..] == pieces[1..] + [x];
      JoinSnoc(pieces[1..], sep, x);
    }
  }

  /** Text appended after the last piece belongs to the last piece. */
  lemma {:induction false} JoinOnExtendLast(pieces: seq<string>, sep: string, x: string)
    requires |pieces| > 0
    ensures JoinOn(pieces, sep) + x == JoinOn(pieces[..|pieces| - 1] + [pieces[|pieces| - 1] + x], sep)
    decreases |pieces|
  {
    var ext := pieces[..|pieces| - 1] + [pieces[|pieces| - 1] + x];
    if |pieces| > 1 {
      JoinOnExtendLast(pieces[1..], sep, x);
      assert ext[1..] == pieces[1..][..|pieces[1..]| - 1] + [pieces[1..][|pieces[1..]| - 1] + x];
    }
  }

  /** `f` applied to every element, as `map(..).collect()` over a parser
      whose every failure is fatal: None as soon as one element fails. */
  function MapAll<A, B>(f: A -> Option<B>, xs: seq<A>): (r: Option<seq<B>>)
    ensures r.Some? <==> forall i :: 0 <= i < |xs| ==> f(xs[i]).Some?
    ensures r.Some? ==> |r.value| == |xs| && forall i :: 0 <= i < |xs| ==> r.value[i] == f(xs[i]).value
  {
    if xs == [] then Some([])
    else
      var head := f(xs[0]);
      var tail := MapAll(f, xs[1..]);
      if head.Some? && tail.Some? then Some([head.value] + tail.value)
      else
        assert tail.None? ==> exists i :: 0 <= i < |xs[1..]| && f(xs[1..][i]).None?;
        None
  }

  /** A sum of non-negative numbers is non-negative. */
  lemma {:induction false} SumNonNegative(s: seq<int>)
    requires forall i :: 0 <= i < |s| ==> s[i] >= 0
    ensures Sum(s) >= 0
  {
    if s != [] {
      SumNonNegative(s[..|s| - 1]);
    }
  }

  /** The sequences one after the other (`flat_map`, `flatten`). */
  function Concat<T>(xss: seq<seq<T>>): seq<T> {
    if xss == [] then [] else Concat(xss[..|xss| - 1]) + xss[|xss| - 1]
  }

  /** An element of the concatenation comes from one of the sequences. */
  lemma {:induction false} InConcat<T>(xss: seq<seq<T>>, x: T)
    ensures x in Concat(xss) <==> exists i :: 0 <= i < |xss| && x in xss[i]
  {
    if xss != [] {
      var n := |xss| - 1;
      InConcat(xss[..n], x);
      assert forall i :: 0 <= i < n ==> xss[..n][i] == xss[i];
    }
  }

  /** The sum of a concatenation is the sum of the sums of its parts. */
  lemma {:induction false} SumConcat(xss: seq<seq<int>>, sums: seq<int>)
    requires |sums| == |xss| && forall i :: 0 <= i < |xss| ==> sums[i] == Sum(xss[i])
    ensures Sum(Concat(xss)) == Sum(sums)
  {
    if xss != [] {
      var n := |xss| - 1;
      SumConcat(xss[..n], sums[..n]);
      SumAppend(Concat(xss[..n]), xss[n]);
    }
  }

  /** A signed number as `str::parse` reads it: a minus sign before the
      digits of a negative one. */
  function IntToString(n: int): string {
    if n < 0 then "-" + NatToString(-n) else NatToString(n)
  }

  /** A printed number holds only a sign and digits, and reads back as
      itself. */
  lemma IntToStringReadsBack(n: int, bound: nat)
    requires -(bound as int) <= n < bound
    ensures forall j :: 0 <= j < |IntToString(n)| ==> IntToString(n)[j] != ' ' && IntToString(n)[j] != '\n'
    ensures ParseSigned(IntToString(n), bound) == Some(n)
  {
    var number := IntToString(n);
    var digits := NatToString(Abs(n));
    assert forall j :: 0 <= j < |digits| ==> IsDigit(digits[j]);
    if n < 0 {
      assert number == "-" + digits;
      assert number[1..] == digits;
      forall j | 0 <= j < |number| ensures number[j] != ' ' && number[j] != '\n' {
        if j > 0 {
          assert number[j] == digits[j - 1];
        }
      }
    }
  }

  lemma MulAtLeast(k: int, m: int)
    requires k >= 1 && m > 0
    ensures k * m >= m
  {
  }

  lemma MulDistributes(a: int, b: int, m: int)
    ensures a * m + b * m == (a + b) * m
  {
  }

  /** A quotient and remainder in range are the ones `/` and `%` give. */
  lemma DivModUnique(x: int, m: int, q: int, r: int)
    requires m > 0 && x == q * m + r && 0 <= r < m
    ensures x / m == q && x % m == r
  {
    var q', r' := x / m, x % m;
    assert x == q' * m + r';
    MulDistributes(q, -q', m);
    if q > q' {
      MulAtLeast(q - q', m);
    } else if q' > q {
      MulAtLeast(q' - q, m);
      MulDistributes(q', -q, m);
    }
  }

  /** Membership in a sequence, split at its last element. */
  lemma InSnoc<T>(s: seq<T>, x: T)
    requires s != []
    ensures x in s <==> x in s[..|s| - 1] || x == s[|s| - 1]
  {
    assert s == s[..|s| - 1] + [s[|s| - 1]];
  }
}
