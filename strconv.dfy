/** Decimal conversions from Go's `strconv` package on the 64-bit `int`:
    `Itoa` renders page numbers and word counts, `Atoi` parses star ratings. */
module Strconv {
  import opened Wrappers

  const MinInt64: int := -0x8000_0000_0000_0000
  const MaxInt64: int := 0x7FFF_FFFF_FFFF_FFFF

  predicate IsDigit(c: char) {
    '0' <= c <= '9'
  }

  predicate AllDigits(s: string) {
    forall i :: 0 <= i < |s| ==> IsDigit(s[i])
  }

  function DigitChar(d: nat): (c: char)
    requires d < 10
    ensures IsDigit(c)
  {
    ('0' as int + d) as char
  }

  /** The value of a run of decimal digits, most significant first. */
  function DecimalValue(s: string): nat
    requires AllDigits(s)
  {
    if s == [] then 0
    else DecimalValue(s[..|s| - 1]) * 10 + (s[|s| - 1] as int - '0' as int)
  }

  /** The shortest decimal rendering of `n`: at least one digit, and a
      leading zero only for zero itself. */
  function NatToDecimal(n: nat): (s: string)
    ensures |s| >= 1 && AllDigits(s)
    ensures s[0] == '0' <==> n == 0
  {
    if n < 10 then [DigitChar(n)] else NatToDecimal(n / 10) + [DigitChar(n % 10)]
  }

  /** `strconv.Itoa`: a minus sign exactly for negative numbers, then the
      digits of the magnitude. */
  function Itoa(n: int): (s: string)
    ensures |s| >= 1
    ensures s[0] == '-' <==> n < 0
    ensures n >= 0 ==> AllDigits(s)
    ensures forall i :: 0 <= i < |s| ==> s[i] == '-' || IsDigit(s[i])
  {
    if n < 0 then "-" + NatToDecimal(-n) else NatToDecimal(n)
  }

  /** `Itoa` renders the shortest form: no leading zero except for zero
      itself, and none after the minus sign. */
  lemma ItoaCanonical(n: int)
    ensures n >= 0 ==> (Itoa(n)[0] == '0' <==> n == 0)
    ensures n < 0 ==> |Itoa(n)| >= 2 && Itoa(n)[1] != '0'
  {
    if n < 0 {
      assert Itoa(n)[1..] == NatToDecimal(-n);
    }
  }

  /** The error kinds of a `*strconv.NumError`. */
  datatype NumError = ErrSyntax | ErrRange

  /** The text after one leading sign, if there is one. */
  function Unsigned(s: string): string {
    if s != [] && (s[0] == '-' || s[0] == '+') then s[1..] else s
  }

  /** A sign-optional decimal numeral: after at most one sign, one or more
      digits and nothing else. */
  predicate IsNumeral(s: string) {
    Unsigned(s) != [] && AllDigits(Unsigned(s))
  }

  /** The mathematical value of a numeral, negated under a minus sign. */
  function NumeralValue(s: string): int
    requires IsNumeral(s)
  {
    if s[0] == '-' then -(DecimalValue(Unsigned(s)) as int) else DecimalValue(Unsigned(s))
  }

  /** `strconv.Atoi`: an optional `+` or `-`, then one or more decimal digits
      and nothing else; a value outside the 64-bit range is `ErrRange`. */
  function Atoi(s: string): (r: Result<int, NumError>)
    ensures s == [] ==> r == Failure(ErrSyntax)
    ensures r.Success? <==> IsNumeral(s) && MinInt64 <= NumeralValue(s) <= MaxInt64
    ensures r.Success? ==> r.value == NumeralValue(s)
    ensures r == Failure(ErrRange) <==> IsNumeral(s) && !(MinInt64 <= NumeralValue(s) <= MaxInt64)
    ensures r.Success? ==> MinInt64 <= r.value <= MaxInt64
    ensures r.Success? ==> exists i :: 0 <= i < |s| && IsDigit(s[i])
  {
    var digits := if s != [] && (s[0] == '-' || s[0] == '+') then s[1..] else s;
    if digits == [] || !AllDigits(digits) then Failure(ErrSyntax)
    else
      var v: int := if s[0] == '-' then -(DecimalValue(digits) as int) else DecimalValue(digits);
      if v < MinInt64 || MaxInt64 < v then Failure(ErrRange) else Success(v)
  }

  /** Go's own cases: a plus sign is accepted, a fraction or an empty
      numeral is not. */
  lemma AtoiExamples()
    ensures Atoi("+5") == Success(5)
    ensures Atoi("-12") == Success(-12)
    ensures Atoi("4.5") == Failure(ErrSyntax)
    ensures Atoi("-") == Failure(ErrSyntax)
  {
    assert Unsigned("+5") == "5";
    assert Unsigned("-12") == "12" && "12"[..1] == "1";
    assert !IsDigit("4.5"[1]);
  }

  lemma {:induction false} DecimalValueOfNatToDecimal(n: nat)
    ensures DecimalValue(NatToDecimal(n)) == n
  {
    var s := NatToDecimal(n);
    if n >= 10 {
      DecimalValueOfNatToDecimal(n / 10);
      assert s[..|s| - 1] == NatToDecimal(n / 10);
    }
  }

  /** Parsing what `Itoa` renders gives the number back. */
  lemma AtoiItoa(n: int)
    requires MinInt64 <= n <= MaxInt64
    ensures Atoi(Itoa(n)) == Success(n)
  {
    var s := Itoa(n);
    if n < 0 {
      DecimalValueOfNatToDecimal(-n);
      assert s[1..] == NatToDecimal(-n);
    } else {
      DecimalValueOfNatToDecimal(n);
    }
  }

  /** Different numbers render differently. */
  lemma ItoaInjective(m: int, n: int)
    requires Itoa(m) == Itoa(n)
    ensures m == n
  {
    if m < 0 {
      assert Itoa(m)[1..] == NatToDecimal(-m) && Itoa(n)[1..] == NatToDecimal(-n);
      DecimalValueOfNatToDecimal(-m);
      DecimalValueOfNatToDecimal(-n);
    } else {
      DecimalValueOfNatToDecimal(m);
      DecimalValueOfNatToDecimal(n);
    }
  }
}
