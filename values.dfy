/** The Python values the protocol engine produces and consumes (`str | int | float`,
    plus the `bool` that flag decoders return), and the parts of Python's
    numeric semantics the codec relies on: `==` across numeric types,
    `round()`, `int()` and `str()` of a natural number. Floats are modelled
    as exact reals. */
module Values {
  import opened Wrappers

  datatype Value = Int(i: int) | Real(r: real) | Str(s: string) | Bool(b: bool)

  /** The number a numeric value stands for (`float(value)` for the numeric cases);
      a string has none. */
  function AsReal(v: Value): (r: Option<real>)
    ensures r.None? <==> v.Str?
  {
    match v
    case Int(i) => Some(i as real)
    case Real(x) => Some(x)
    case Bool(b) => Some(if b then 1.0 else 0.0)
    case Str(_) => None
  }

  /** Python's `a == b`: strings equal strings with the same characters; numbers,
      floats and booleans compare by numeric value (`True == 1 == 1.0`). */
  predicate PyEq(a: Value, b: Value)
  {
    if a.Str? || b.Str? then a.Str? && b.Str? && a.s == b.s else AsReal(a) == AsReal(b)
  }

  /** Python's `round(x)` for one argument: the nearest integer, ties to the even one. */
  function RoundHalfEven(x: real): (n: int)
    ensures -0.5 <= n as real - x <= 0.5
    ensures (n as real - x == 0.5 || x - n as real == 0.5) ==> n % 2 == 0
  {
    var f := x.Floor;
    var d := x - f as real;
    if d < 0.5 then f
    else if d > 0.5 then f + 1
    else if f % 2 == 0 then f
    else f + 1
  }

  /** Python's `int(x)` for a float: truncation toward zero. */
  function Trunc(x: real): (n: int)
    ensures 0.0 <= x ==> 0 <= n && n as real <= x < n as real + 1.0
    ensures x < 0.0 ==> n <= 0 && n as real - 1.0 < x <= n as real
  {
    if 0.0 <= x then x.Floor else -((-x).Floor)
  }

  function DigitChar(d: nat): char
    requires d < 10
  {
    "0123456789"[d]
  }

  /** Python's `str(n)` for a natural number: its decimal digits, most significant first. */
  function NatToString(n: nat): (s: string)
    ensures 1 <= |s|
    ensures n < 10 <==> |s| == 1
    decreases n
  {
    if n < 10 then [DigitChar(n)] else NatToString(n / 10) + [DigitChar(n % 10)]
  }

  /** Reading the decimal digits back gives the number: `str` is injective on naturals. */
  function DigitsValue(s: string): int
  {
    if |s| == 0 then 0 else DigitsValue(s[..|s| - 1]) * 10 + (s[|s| - 1] as int - '0' as int)
  }

  lemma {:induction false} NatToStringValue(n: nat)
    ensures DigitsValue(NatToString(n)) == n
    decreases n
  {
    if n >= 10 {
      var s := NatToString(n);
      assert s[..|s| - 1] == NatToString(n / 10);
      NatToStringValue(n / 10);
    }
  }

  /** A whole number rounds to itself. */
  lemma RoundWhole(n: int)
    ensures RoundHalfEven(n as real) == n
  {
  }

  /** Rounding is off by at most a half, so after dividing by the scale `m` it is
      off by at most half of `1/|m|`. */
  lemma RoundScaledError(n: int, x: real, m: real)
    requires m > 0.0 && -0.5 <= n as real - x * m <= 0.5
    ensures -0.5 / m <= n as real / m - x <= 0.5 / m
  {
    var d := n as real - x * m;
    assert n as real / m - x == d / m;
    DivideNonNegative(d + 0.5, m);
    DivideNonNegative(0.5 - d, m);
    assert (d + 0.5) / m == d / m + 0.5 / m;
    assert (0.5 - d) / m == 0.5 / m - d / m;
  }

  lemma DivideNonNegative(a: real, m: real)
    requires 0.0 <= a && 0.0 < m
    ensures 0.0 <= a / m
  {
  }
}
