/**
 * Parsing of the text captured by the `%B` placeholder, as Go's
 * `strconv.Atoi` does it on a 64-bit platform: an optional sign, then one
 * or more decimal digits, and a value that must fit in a signed 64-bit int.
 */
module BuildNumbers {
  import opened Wrappers

  /** Bounds of Go's `int` on a 64-bit platform. */
  const MaxInt: int := 0x7FFF_FFFF_FFFF_FFFF
  const MinInt: int := -0x8000_0000_0000_0000

  /** The two errors `strconv.Atoi` reports. */
  datatype NumError = ErrSyntax | ErrRange

  predicate IsDigit(c: char) {
    '0' <= c <= '9'
  }

  predicate AllDigits(s: string) {
    forall i :: 0 <= i < |s| ==> IsDigit(s[i])
  }

  /** A non-empty run of decimal digits: what the `[0-9]+` of `%B` captures. */
  predicate IsDecimal(s: string) {
    s != [] && AllDigits(s)
  }

  function DigitValue(c: char): (d: nat)
    requires IsDigit(c)
    ensures d < 10
  {
    c as int - '0' as int
  }

  function DigitChar(d: nat): (c: char)
    requires d < 10
    ensures IsDigit(c) && DigitValue(c) == d
  {
    ('0' as int + d) as char
  }

  /** The value of a digit string, most significant digit first. */
  function DecimalValue(s: string): nat
    requires AllDigits(s)
  {
    if s == [] then 0 else DecimalValue(s[..|s| - 1]) * 10 + DigitValue(s[|s| - 1])
  }

  /** The canonical decimal text of a natural number (no leading zeros). */
  function Decimal(n: nat): (s: string)
    ensures IsDecimal(s)
  {
    if n < 10 then [DigitChar(n)] else Decimal(n / 10) + [DigitChar(n % 10)]
  }

  /** The largest value `strconv.ParseUint` accepts for a 64-bit int. */
  const MaxUint: int := 0xFFFF_FFFF_FFFF_FFFF

  /** The length of the run of digits that `s` begins with. */
  function DigitRun(s: string): (n: nat)
    ensures n <= |s| && AllDigits(s[..n])
    ensures n < |s| ==> !IsDigit(s[n])
  {
    if s != [] && IsDigit(s[0]) then
      var n := 1 + DigitRun(s[1..]);
      assert forall i :: 1 <= i < n ==> s[..n][i] == s[1..][..n - 1][i - 1];
      n
    else 0
  }

  /**
   * `strconv.Atoi`: an optional '+' or '-', then at least one digit and
   * nothing else, else a syntax error; a value outside the int range is a
   * range error. The digits are read from left to right and reading stops
   * with a range error as soon as the value read so far exceeds the largest
   * unsigned 64-bit value, before any later non-digit is seen.
   */
  function Atoi(s: string): (r: Result<int, NumError>)
    ensures r.Success? ==> MinInt <= r.value <= MaxInt
    ensures r.Success? ==> exists i :: 0 <= i < |s| && IsDigit(s[i])
  {
    if s == [] then Failure(ErrSyntax)
    else
      var negative := s[0] == '-';
      var digits := if s[0] == '-' || s[0] == '+' then s[1..] else s;
      var run := digits[..DigitRun(digits)];
      if digits == [] then Failure(ErrSyntax)
      else if DecimalValue(run) > MaxUint then Failure(ErrRange)
      else if |run| < |digits| then Failure(ErrSyntax)
      else
        var v: int := if negative then -(DecimalValue(digits) as int) else DecimalValue(digits);
        if v < MinInt || MaxInt < v then Failure(ErrRange) else Success(v)
  }

  /** Reading back the canonical text of a number gives the number. */
  lemma {:induction false} DecimalValueOfDecimal(n: nat)
    ensures DecimalValue(Decimal(n)) == n
  {
    var s := Decimal(n);
    if n >= 10 {
      DecimalValueOfDecimal(n / 10);
      assert s[..|s| - 1] == Decimal(n / 10);
    }
  }

  /** Atoi inverts Decimal on the whole non-negative int range. */
  lemma AtoiOfDecimal(n: nat)
    requires n <= MaxInt
    ensures Atoi(Decimal(n)) == Success(n)
  {
    DecimalValueOfDecimal(n);
    var s := Decimal(n);
    assert s[..DigitRun(s)] == s;
  }

  /**
   * On a digit string (the only thing `%B` can capture) Atoi fails exactly
   * when the value exceeds the int range, and otherwise yields that value.
   */
  lemma AtoiOfDigits(s: string)
    requires IsDecimal(s)
    ensures Atoi(s).Success? <==> DecimalValue(s) <= MaxInt
    ensures Atoi(s).Success? ==> Atoi(s).value == DecimalValue(s) >= 0
    ensures Atoi(s).Failure? ==> Atoi(s).error == ErrRange
  {
    assert s[..DigitRun(s)] == s;
  }

  /** Appending digits never makes the value smaller. */
  lemma {:induction false} DecimalValueGrows(a: string, b: string)
    requires AllDigits(a) && AllDigits(b)
    ensures AllDigits(a + b) && DecimalValue(a) <= DecimalValue(a + b)
  {
    assert forall i :: 0 <= i < |a + b| ==> (a + b)[i] == if i < |a| then a[i] else b[i - |a|];
    if b != [] {
      var b' := b[..|b| - 1];
      DecimalValueGrows(a, b');
      assert (a + b)[..|a + b| - 1] == a + b';
      assert DecimalValue(a + b) == DecimalValue(a + b') * 10 + DigitValue(b[|b| - 1]);
    } else {
      assert a + b == a;
    }
  }

  /**
   * A digit text whose value overflows 64 bits is a range error whatever
   * follows it: "99999999999999999999a" is a range error, not a syntax error.
   */
  lemma AtoiOverflowFirst(d: string, rest: string)
    requires IsDecimal(d) && DecimalValue(d) > MaxUint
    ensures Atoi(d + rest) == Failure(ErrRange)
  {
    var s := d + rest;
    assert s[0] == d[0];
    var n := DigitRun(s);
    assert n >= |d|;
    var run := s[..n];
    assert run == d + run[|d|..];
    assert AllDigits(run[|d|..]) by {
      forall i | 0 <= i < |run| - |d| ensures IsDigit(run[|d|..][i]) {
        assert run[|d|..][i] == run[|d| + i];
      }
    }
    DecimalValueGrows(d, run[|d|..]);
  }
}
