/** Decimal integer text as Go's strconv package reads and writes it:
    `Atoi` (base-10 parse with a 64-bit range check) and `Itoa`. */
module Decimal {
  import opened Options

  const MinInt64: int := -0x8000_0000_0000_0000
  const MaxInt64: int := 0x7fff_ffff_ffff_ffff

  predicate IsDigit(c: char) {
    '0' <= c <= '9'
  }

  predicate AllDigits(s: string) {
    forall i :: 0 <= i < |s| ==> IsDigit(s[i])
  }

  function DigitValue(c: char): (d: nat)
    requires IsDigit(c)
    ensures d < 10
  {
    c as int - '0' as int
  }

  function DigitChar(d: nat): (c: char)
    requires d < 10
    ensures IsDigit(c) && DigitValue(c) == d
  {
    ('0' as int + d) as char
  }

  /** Value of a digit string, most significant digit first. */
  function DigitsValue(s: string): nat
    requires AllDigits(s)
    decreases |s|
  {
    if |s| == 0 then 0 else DigitsValue(s[..|s| - 1]) * 10 + DigitValue(s[|s| - 1])
  }

  /** The shortest decimal spelling of `n` (no leading zeros). */
  function NatDigits(n: nat): string
    decreases n
  {
    if n < 10 then [DigitChar(n)] else NatDigits(n / 10) + [DigitChar(n % 10)]
  }

  /** strconv.Itoa: a minus sign for negative values, then the digits. */
  function Itoa(n: int): string {
    if n < 0 then "-" + NatDigits(-n) else NatDigits(n)
  }

  /** The syntax strconv accepts in base 10: an optional `+` or `-`
      followed by one or more decimal digits, nothing else. */
  function ParseDecimal(s: string): Option<int> {
    if |s| > 0 && (s[0] == '+' || s[0] == '-') then
      var digits := s[1..];
      if |digits| > 0 && AllDigits(digits) then
        var magnitude: int := DigitsValue(digits);
        Some(if s[0] == '-' then -magnitude else magnitude)
      else
        None
    else if |s| > 0 && AllDigits(s) then
      var value: int := DigitsValue(s);
      Some(value)
    else
      None
  }

  /** strconv.Atoi on a 64-bit platform: the error result is `None`. */
  function Atoi(s: string): (r: Option<int>)
    ensures |s| == 0 ==> r == None
    ensures r.Some? ==> MinInt64 <= r.value <= MaxInt64
    ensures r.Some? ==> IsDigit(s[0]) || s[0] == '+' || s[0] == '-'
    ensures r.Some? ==> forall i :: 0 < i < |s| ==> IsDigit(s[i])
    ensures r.Some? ==> IsDigit(s[|s| - 1])
  {
    match ParseDecimal(s)
    case None => None
    case Some(v) => if MinInt64 <= v <= MaxInt64 then Some(v) else None
  }

  /** The value an optional sign followed by digits denotes. */
  function SignedValue(sign: string, digits: string): int
    requires AllDigits(digits)
  {
    var magnitude: int := DigitsValue(digits);
    if sign == "-" then -magnitude else magnitude
  }

  /** Conversely, Atoi accepts every optional sign followed by one or more
      digits, leading zeros and "-0" included, and returns the value they
      denote exactly when it fits in 64 bits. */
  lemma AtoiAccepts(sign: string, digits: string)
    requires sign == "" || sign == "+" || sign == "-"
    requires |digits| > 0 && AllDigits(digits)
    ensures Atoi(sign + digits) ==
      if MinInt64 <= SignedValue(sign, digits) <= MaxInt64 then Some(SignedValue(sign, digits)) else None
  {
    var s := sign + digits;
    if sign == "" {
      assert s == digits;
      assert IsDigit(s[0]);
    } else {
      assert s[1..] == digits;
    }
  }

  lemma {:induction false} NatDigitsDecode(n: nat)
    ensures |NatDigits(n)| > 0
    ensures AllDigits(NatDigits(n))
    ensures DigitsValue(NatDigits(n)) == n
    decreases n
  {
    if n >= 10 {
      NatDigitsDecode(n / 10);
      var s := NatDigits(n);
      assert s[..|s| - 1] == NatDigits(n / 10);
    }
  }

  /** Itoa only ever writes digits and a leading minus sign. */
  lemma ItoaAlphabet(n: int)
    ensures |Itoa(n)| > 0
    ensures forall i :: 0 <= i < |Itoa(n)| ==> IsDigit(Itoa(n)[i]) || (i == 0 && Itoa(n)[i] == '-')
  {
    if n < 0 {
      NatDigitsDecode(-n);
    } else {
      NatDigitsDecode(n);
    }
  }

  /** Reading back what Itoa wrote gives the original integer. */
  lemma ParseItoa(n: int)
    ensures ParseDecimal(Itoa(n)) == Some(n)
  {
    if n < 0 {
      NatDigitsDecode(-n);
      assert Itoa(n)[1..] == NatDigits(-n);
    } else {
      NatDigitsDecode(n);
    }
  }

  /** Atoi inverts Itoa on every value a Go int can hold. */
  lemma AtoiItoa(n: int)
    requires MinInt64 <= n <= MaxInt64
    ensures Atoi(Itoa(n)) == Some(n)
  {
    ParseItoa(n);
  }

  lemma ItoaInjective(a: int, b: int)
    requires Itoa(a) == Itoa(b)
    ensures a == b
  {
    ParseItoa(a);
    ParseItoa(b);
  }

  /** A character that is neither a digit nor `-` never occurs in Itoa's output. */
  lemma ItoaExcludes(n: int, c: char)
    requires !IsDigit(c) && c != '-'
    ensures c !in Itoa(n)
  {
    ItoaAlphabet(n);
  }
}
