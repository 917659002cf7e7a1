/** The slice of Java semantics the model relies on: fixed-width integers with
    wrap-around, division that rounds toward zero, `String.valueOf` and
    `Integer.parseInt`/`Long.parseLong` on decimal text, `String.substring`, and
    the exceptions the modelled code can throw. */
module JavaLang {
  import opened Wrappers

  const INT_MIN: int := -0x8000_0000
  const INT_MAX: int := 0x7fff_ffff
  const LONG_MIN: int := -0x8000_0000_0000_0000
  const LONG_MAX: int := 0x7fff_ffff_ffff_ffff

  /** A Java `int`. */
  type Int32 = x: int | -0x8000_0000 <= x <= 0x7fff_ffff

  /** A Java `long`. */
  type Int64 = x: int | -0x8000_0000_0000_0000 <= x <= 0x7fff_ffff_ffff_ffff

  /** A value of `Runtime.availableProcessors()`, which the JVM never reports below one. */
  type Processors = p: int | 1 <= p <= 0x7fff_ffff witness 1

  /** The exceptions the modelled code throws, by Java class. */
  datatype Exception =
    | IllegalArgument(message: string)
    | NullPointer
    | ArrayIndexOutOfBounds(index: int)
    | StringIndexOutOfBounds(begin: int, end: int)
    | NumberFormat(input: string)
    | NoSuchElement
    | Arithmetic
    | AssertionFailed(message: string)
      /** The framework's `IllegalAlgorithmConfigException`. */
    | IllegalAlgorithmConfig(message: string)

  /** 32-bit two's-complement wrap-around of an exact result (`int` arithmetic). */
  function WrapInt(x: int): (r: Int32)
    ensures (r - x) % 0x1_0000_0000 == 0
    ensures INT_MIN <= x <= INT_MAX ==> r == x
  {
    (x - INT_MIN) % 0x1_0000_0000 + INT_MIN
  }

  /** 64-bit two's-complement wrap-around of an exact result (`long` arithmetic). */
  function WrapLong(x: int): (r: Int64)
    ensures (r - x) % 0x1_0000_0000_0000_0000 == 0
    ensures LONG_MIN <= x <= LONG_MAX ==> r == x
  {
    (x - LONG_MIN) % 0x1_0000_0000_0000_0000 + LONG_MIN
  }

  /** Java's integer `/`, which rounds toward zero; only positive divisors occur in
      the model, so the `MIN_VALUE / -1` overflow case does not arise. */
  function Div(a: int, b: int): (q: int)
    requires b > 0
    ensures a >= 0 ==> q == a / b
    ensures a < 0 ==> q == -((-a) / b) && q <= 0
  {
    if a >= 0 then a / b else -((-a) / b)
  }

  predicate IsDigit(c: char) {
    '0' <= c <= '9'
  }

  predicate AllDigits(s: string) {
    forall i | 0 <= i < |s| :: IsDigit(s[i])
  }

  function DigitValue(c: char): (d: nat)
    requires IsDigit(c)
    ensures d < 10
  {
    c as int - '0' as int
  }

  function DigitChar(d: nat): (c: char)
    requires d < 10
    ensures IsDigit(c) && DigitValue(c) == d
  {
    (d + '0' as int) as char
  }

  /** Decimal digits of a natural number, most significant first, without leading zeros. */
  function NatToDecimal(n: nat): (s: string)
    ensures |s| >= 1 && AllDigits(s)
    ensures |s| > 1 ==> s[0] != '0'
    decreases n
  {
    if n < 10 then [DigitChar(n)] else NatToDecimal(n / 10) + [DigitChar(n % 10)]
  }

  /** The number a string of decimal digits denotes (leading zeros allowed). */
  function DecimalValue(s: string): nat
    requires AllDigits(s)
  {
    if |s| == 0 then 0 else DecimalValue(s[..|s| - 1]) * 10 + DigitValue(s[|s| - 1])
  }

  lemma {:induction false} DecimalRoundTrip(n: nat)
    ensures DecimalValue(NatToDecimal(n)) == n
    decreases n
  {
    if n >= 10 {
      var s := NatToDecimal(n / 10);
      var t := s + [DigitChar(n % 10)];
      assert t[..|t| - 1] == s;
      DecimalRoundTrip(n / 10);
    }
  }

  /** `String.valueOf` of an `int` or a `long`. */
  function IntToString(x: int): string {
    if x < 0 then "-" + NatToDecimal(-x) else NatToDecimal(x)
  }

  /** The text `Integer.parseInt` and `Long.parseLong` accept, whatever its value:
      an optional `+` or `-`, then one or more decimal digits. */
  predicate IsIntegerLiteral(s: string) {
    || (|s| >= 1 && AllDigits(s))
    || (|s| >= 2 && (s[0] == '+' || s[0] == '-') && AllDigits(s[1..]))
  }

  /** `Integer.parseInt(s)` when `[lo, hi]` is the `int` range and `Long.parseLong(s)`
      when it is the `long` range: an optional `+` or `-`, then one or more decimal
      digits, denoting a value inside the range; anything else throws
      `NumberFormatException`. */
  function ParseIntegral(s: string, lo: int, hi: int): (r: Result<int, Exception>)
    ensures r.Success? ==> lo <= r.value <= hi
    ensures r.Failure? ==> r.error == NumberFormat(s)
    ensures r.Success? ==> IsIntegerLiteral(s)
    ensures |s| >= 1 && AllDigits(s) ==>
              r == if lo <= DecimalValue(s) <= hi then Success(DecimalValue(s)) else Failure(NumberFormat(s))
    ensures |s| >= 2 && s[0] == '+' && AllDigits(s[1..]) ==>
              r == if lo <= DecimalValue(s[1..]) <= hi then Success(DecimalValue(s[1..])) else Failure(NumberFormat(s))
    ensures |s| >= 2 && s[0] == '-' && AllDigits(s[1..]) ==>
              r == if lo <= -(DecimalValue(s[1..]) as int) <= hi then Success(-(DecimalValue(s[1..]) as int)) else Failure(NumberFormat(s))
  {
    if |s| == 0 then Failure(NumberFormat(s))
    else
      var digits := if s[0] == '-' || s[0] == '+' then s[1..] else s;
      if |digits| == 0 || !AllDigits(digits) then Failure(NumberFormat(s))
      else
        var v: int := if s[0] == '-' then -(DecimalValue(digits) as int) else DecimalValue(digits);
        if lo <= v <= hi then Success(v) else Failure(NumberFormat(s))
  }

  /** `Integer.parseInt(s)`. */
  function ParseInt(s: string): (r: Result<Int32, Exception>)
    ensures r.Failure? ==> r.error == NumberFormat(s)
    ensures r.Success? ==> IsIntegerLiteral(s)
  {
    match ParseIntegral(s, INT_MIN, INT_MAX)
    case Success(v) => Success(v)
    case Failure(e) => Failure(e)
  }

  /** `Long.parseLong(s)`. */
  function ParseLong(s: string): (r: Result<Int64, Exception>)
    ensures r.Failure? ==> r.error == NumberFormat(s)
    ensures r.Success? ==> IsIntegerLiteral(s)
  {
    match ParseIntegral(s, LONG_MIN, LONG_MAX)
    case Success(v) => Success(v)
    case Failure(e) => Failure(e)
  }

  /** Parsing reads back exactly what `String.valueOf` wrote. */
  lemma ParseIntegralOfIntToString(x: int, lo: int, hi: int)
    requires lo <= x <= hi
    ensures ParseIntegral(IntToString(x), lo, hi) == Success(x)
  {
    var n: nat := if x < 0 then -x else x;
    DecimalRoundTrip(n);
    var s := IntToString(x);
    if x < 0 {
      assert s[1..] == NatToDecimal(n);
    } else {
      assert s[0] != '-' && s[0] != '+' by { assert IsDigit(s[0]); }
    }
  }

  lemma ParseIntOfIntToString(x: Int32)
    ensures ParseInt(IntToString(x)) == Success(x)
  {
    ParseIntegralOfIntToString(x, INT_MIN, INT_MAX);
  }

  lemma ParseLongOfIntToString(x: Int64)
    ensures ParseLong(IntToString(x)) == Success(x)
  {
    ParseIntegralOfIntToString(x, LONG_MIN, LONG_MAX);
  }

  /** The decimal text of a number never contains a space or an `=`. */
  lemma IntToStringCharacters(x: int)
    ensures |IntToString(x)| >= 1
    ensures forall i | 0 <= i < |IntToString(x)| :: IsDigit(IntToString(x)[i]) || IntToString(x)[i] == '-'
  {
  }

  /** `String.substring(begin, end)`: throws unless `0 <= begin <= end <= length`. */
  function Substring(s: string, begin: int, end: int): (r: Result<string, Exception>)
    ensures r.Success? <==> 0 <= begin <= end <= |s|
    ensures r.Failure? ==> r.error == StringIndexOutOfBounds(begin, end)
    ensures r.Success? ==> |r.value| == end - begin
    ensures r.Success? ==> forall i | 0 <= i < |r.value| :: r.value[i] == s[begin + i]
  {
    if 0 <= begin <= end <= |s| then Success(s[begin..end]) else Failure(StringIndexOutOfBounds(begin, end))
  }
}
