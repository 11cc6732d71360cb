/** The runtime values the SQL Server writer classifies, and the pieces of the
    PHP runtime its type scanner relies on: string conversion (strval) and
    the numeric-string test (is_numeric) together with the number such a
    string denotes. Numbers are mathematical integers and reals. */
module PhpValues {

  datatype Option<T> = None | Some(value: T)

  const INT64_MIN: int := -0x8000_0000_0000_0000
  const INT64_MAX: int := 0x7FFF_FFFF_FFFF_FFFF

  /** A PHP integer is a signed 64-bit machine integer. */
  type Int64 = i: int | INT64_MIN <= i <= INT64_MAX

  /** A value handed to the scanner. `Inf` is exactly the float INF (the
      scanner compares with ===). Every other float (finite, -INF, NAN) is a
      `Float`, carried by the text PHP renders it as: the scanner only ever
      matches patterns against that text and then stops at is_float, so the
      magnitude of a float never decides its type. */
  datatype Value =
    | Null
    | Inf
    | Bool(b: bool)
    | Int(i: Int64)
    | Float(repr: string)
    | Str(s: string)

  predicate IsDigit(c: char) { '0' <= c <= '9' }

  predicate AllDigits(s: string) { forall k :: 0 <= k < |s| ==> IsDigit(s[k]) }

  function DigitChar(d: nat): (c: char)
    requires d < 10
    ensures IsDigit(c)
  {
    ['0', '1', '2', '3', '4', '5', '6', '7', '8', '9'][d]
  }

  function DigitValue(c: char): (d: nat)
    requires IsDigit(c)
    ensures d < 10
  {
    c as int - '0' as int
  }

  /** Decimal text of a natural number, most significant digit first. */
  function NatText(n: nat): (s: string)
    ensures |s| > 0 && AllDigits(s)
  {
    if n < 10 then [DigitChar(n)] else NatText(n / 10) + [DigitChar(n % 10)]
  }

  /** PHP's string form of an integer: an optional minus sign, then digits. */
  function IntText(i: int): (s: string)
  {
    if i < 0 then "-" + NatText(-i) else NatText(i)
  }

  /** An optional leading minus sign followed by at least one digit. */
  predicate SignedDigits(s: string)
  {
    |s| > 0 && (IsDigit(s[0]) || s[0] == '-') && forall k :: 0 < k < |s| ==> IsDigit(s[k])
  }

  lemma IntTextIsSignedDigits(i: int)
    ensures SignedDigits(IntText(i))
  {
    var t := NatText(if i < 0 then -i else i);
    if i < 0 {
      assert IntText(i) == "-" + t;
      assert forall k :: 0 < k < |"-" + t| ==> ("-" + t)[k] == t[k - 1];
    }
  }

  /** strval: the text preg_match and mb_strlen see for a value. */
  function Text(v: Value): (s: string)
  {
    match v
    case Null => ""
    case Inf => "INF"
    case Bool(b) => if b then "1" else ""
    case Int(i) => IntText(i)
    case Float(repr) => repr
    case Str(s) => s
  }

  // ---------------------------------------------------------------------
  // is_numeric on strings: optional surrounding whitespace, an optional
  // sign, digits with an optional decimal point (at least one digit), and
  // an optional exponent ('e' or 'E', an optional sign, at least one digit).

  predicate IsWhite(c: char)
  {
    c == ' ' || c == '\t' || c == '\n' || c == '\r' || c == '\U{000B}' || c == '\U{000C}'
  }

  /** The characters that can occur anywhere in a numeric string. */
  predicate IsNumericChar(c: char)
  {
    IsDigit(c) || IsWhite(c) || c == '+' || c == '-' || c == '.' || c == 'e' || c == 'E'
  }

  function LeadingWhite(s: string): (n: nat)
    ensures n <= |s|
    ensures forall k :: 0 <= k < n ==> IsWhite(s[k])
  {
    if |s| > 0 && IsWhite(s[0]) then 1 + LeadingWhite(s[1..]) else 0
  }

  function TrailingWhite(s: string): (n: nat)
    ensures n <= |s|
    ensures forall k :: |s| - n <= k < |s| ==> IsWhite(s[k])
  {
    if |s| > 0 && IsWhite(s[|s| - 1]) then 1 + TrailingWhite(s[..|s| - 1]) else 0
  }

  /** Index of the first occurrence of `a` or `b`, or |s| when neither occurs. */
  function FindEither(s: string, a: char, b: char): (k: nat)
    ensures k <= |s|
    ensures forall j :: 0 <= j < k ==> s[j] != a && s[j] != b
    ensures k < |s| ==> s[k] == a || s[k] == b
  {
    if |s| == 0 || s[0] == a || s[0] == b then 0 else 1 + FindEither(s[1..], a, b)
  }

  function Pow10(n: nat): (p: nat)
    ensures p > 0
  {
    if n == 0 then 1 else 10 * Pow10(n - 1)
  }

  /** The number a string of decimal digits denotes. */
  function DigitsValue(s: string): nat
    requires AllDigits(s)
  {
    if s == [] then 0 else 10 * DigitsValue(s[..|s| - 1]) + DigitValue(s[|s| - 1])
  }

  /** The mantissa: digits with at most one decimal point, at least one digit. */
  function ParseMantissa(m: string): Option<real>
  {
    var d := FindEither(m, '.', '.');
    var ip := m[..d];
    var fp := if d < |m| then m[d + 1..] else "";
    if AllDigits(ip) && AllDigits(fp) && |ip| + |fp| > 0 then
      Some(DigitsValue(ip + fp) as real / Pow10(|fp|) as real)
    else
      None
  }

  /** The exponent after 'e' or 'E': an optional sign and at least one digit. */
  function ParseExponent(x: string): Option<int>
  {
    if |x| > 0 && (x[0] == '+' || x[0] == '-') then
      var ds := x[1..];
      if |ds| > 0 && AllDigits(ds) then
        Some(if x[0] == '-' then -(DigitsValue(ds) as int) else DigitsValue(ds))
      else None
    else if |x| > 0 && AllDigits(x) then Some(DigitsValue(x))
    else None
  }

  function Scale(m: real, e: int): real
  {
    if e >= 0 then m * Pow10(e) as real else m / Pow10(-e) as real
  }

  /** An unsigned number: mantissa, optionally followed by an exponent. */
  function ParseUnsigned(u: string): Option<real>
  {
    var e := FindEither(u, 'e', 'E');
    var m := ParseMantissa(u[..e]);
    if m.None? then None
    else if e == |u| then m
    else
      var x := ParseExponent(u[e + 1..]);
      if x.None? then None else Some(Scale(m.value, x.value))
  }

  function ParseSigned(t: string): Option<real>
  {
    if |t| > 0 && (t[0] == '+' || t[0] == '-') then
      var u := ParseUnsigned(t[1..]);
      if u.None? then None else Some(if t[0] == '-' then -u.value else u.value)
    else
      ParseUnsigned(t)
  }

  /** The core of a string once surrounding whitespace is dropped. */
  function Core(s: string): string
  {
    var a := LeadingWhite(s);
    var t := s[a..];
    t[..|t| - TrailingWhite(t)]
  }

  /** The number a numeric string denotes, None when is_numeric rejects it. */
  function ParseNumeric(s: string): Option<real>
  {
    ParseSigned(Core(s))
  }

  /** is_numeric on any value: integers and floats (INF and NAN included) are
      numeric, booleans and null are not, strings when they parse. */
  predicate IsNumeric(v: Value)
  {
    match v
    case Null => false
    case Bool(_) => false
    case Inf => true
    case Int(_) => true
    case Float(_) => true
    case Str(s) => ParseNumeric(s).Some?
  }

  /** The number an integer or a numeric string stands for in the
      comparisons `floor($value) == $value`, `$value >= 0` and
      `$value <= N`. */
  function NumberOf(v: Value): Option<real>
  {
    match v
    case Int(i) => Some(i as real)
    case Str(s) => ParseNumeric(s)
    case _ => None
  }

  predicate IsIntegral(x: real) { x.Floor as real == x }

  // ---------------------------------------------------------------------
  // Shape of numeric strings: which characters they contain, and where a
  // minus sign can stand.

  lemma {:induction false} MantissaShape(m: string)
    requires ParseMantissa(m).Some?
    ensures forall k :: 0 <= k < |m| ==> IsDigit(m[k]) || m[k] == '.'
  {
    var d := FindEither(m, '.', '.');
    forall k | 0 <= k < |m| ensures IsDigit(m[k]) || m[k] == '.' {
      if k < d {
        assert m[k] == m[..d][k];
      } else if k > d {
        assert m[k] == m[d + 1..][k - d - 1];
      }
    }
  }

  lemma ExponentShape(x: string)
    requires ParseExponent(x).Some?
    ensures forall k :: 0 <= k < |x| ==> IsDigit(x[k]) || (k == 0 && (x[k] == '+' || x[k] == '-'))
  {
    if x[0] == '+' || x[0] == '-' {
      assert forall k :: 0 < k < |x| ==> x[k] == x[1..][k - 1];
    }
  }

  /** In an unsigned number a minus sign only follows the exponent marker. */
  lemma {:induction false} UnsignedShape(u: string)
    requires ParseUnsigned(u).Some?
    ensures forall k :: 0 <= k < |u| ==> IsNumericChar(u[k])
    ensures forall k :: 0 <= k < |u| && u[k] == '-' ==> 0 < k && (u[k - 1] == 'e' || u[k - 1] == 'E')
  {
    var e := FindEither(u, 'e', 'E');
    var m := u[..e];
    MantissaShape(m);
    assert forall j :: 0 <= j < e ==> u[j] == m[j];
    if e < |u| {
      var x := u[e + 1..];
      ExponentShape(x);
      assert forall j :: e < j < |u| ==> u[j] == x[j - e - 1];
    }
    forall k | 0 <= k < |u|
      ensures IsNumericChar(u[k])
      ensures u[k] == '-' ==> 0 < k && (u[k - 1] == 'e' || u[k - 1] == 'E')
    {
      UnsignedCharShape(u, e, k);
    }
  }

  /** One character of an unsigned number, given the shape of its mantissa
      (before position e) and of its exponent (after it). */
  lemma UnsignedCharShape(u: string, e: nat, k: nat)
    requires e <= |u| && k < |u|
    requires forall j :: 0 <= j < e ==> IsDigit(u[j]) || u[j] == '.'
    requires e < |u| ==> u[e] == 'e' || u[e] == 'E'
    requires forall j :: e < j < |u| ==> IsDigit(u[j]) || (j == e + 1 && (u[j] == '+' || u[j] == '-'))
    ensures IsNumericChar(u[k])
    ensures u[k] == '-' ==> 0 < k && (u[k - 1] == 'e' || u[k - 1] == 'E')
  {
  }

  lemma {:induction false} SignedShape(t: string)
    requires ParseSigned(t).Some?
    ensures forall k :: 0 <= k < |t| ==> IsNumericChar(t[k])
    ensures forall k :: 0 < k < |t| && t[k] == '-' ==> t[k - 1] == 'e' || t[k - 1] == 'E'
  {
    if |t| > 0 && (t[0] == '+' || t[0] == '-') {
      var u := t[1..];
      UnsignedShape(u);
      forall k | 0 < k < |t| ensures t[k] == u[k - 1] { }
      forall k | 0 < k < |t| && t[k] == '-' ensures t[k - 1] == 'e' || t[k - 1] == 'E' {
        assert u[k - 1] == '-';
      }
    } else {
      UnsignedShape(t);
    }
  }

  /** Every character of a numeric string is a digit, whitespace, a sign, a
      decimal point or an exponent marker, and no minus sign directly follows
      a digit. */
  lemma {:induction false} NumericShape(s: string)
    requires ParseNumeric(s).Some?
    ensures forall k :: 0 <= k < |s| ==> IsNumericChar(s[k])
    ensures forall k :: 0 < k < |s| && s[k] == '-' ==> !IsDigit(s[k - 1])
  {
    var a := LeadingWhite(s);
    var c := Core(s);
    CoreSlice(s);
    SignedShape(c);
    forall k | 0 <= k < |s|
      ensures IsNumericChar(s[k])
      ensures 0 < k && s[k] == '-' ==> !IsDigit(s[k - 1])
    {
      if a <= k < a + |c| {
        CoreCharShape(s, a, c, k);
      }
    }
  }

  /** The core sits right after the leading whitespace, and everything
      around it is whitespace. */
  lemma CoreSlice(s: string)
    ensures var a, c := LeadingWhite(s), Core(s);
      a + |c| <= |s| && s[a..a + |c|] == c &&
      (forall k :: 0 <= k < a ==> IsWhite(s[k])) &&
      (forall k :: a + |c| <= k < |s| ==> IsWhite(s[k]))
  {
    var a := LeadingWhite(s);
    var t := s[a..];
    var c := t[..|t| - TrailingWhite(t)];
    assert s[a..a + |c|] == c;
    forall k | a + |c| <= k < |s| ensures IsWhite(s[k]) {
      assert s[k] == t[k - a];
    }
  }

  /** A character of the signed number inside a numeric string: it can occur
      in a number, and a minus sign there follows whitespace or an exponent
      marker, never a digit. */
  lemma CoreCharShape(s: string, a: nat, c: string, k: nat)
    requires a + |c| <= |s| && s[a..a + |c|] == c
    requires a <= k < a + |c|
    requires a > 0 ==> IsWhite(s[a - 1])
    requires forall j :: 0 <= j < |c| ==> IsNumericChar(c[j])
    requires forall j :: 0 < j < |c| && c[j] == '-' ==> c[j - 1] == 'e' || c[j - 1] == 'E'
    ensures IsNumericChar(s[k])
    ensures 0 < k && s[k] == '-' ==> !IsDigit(s[k - 1])
  {
    assert s[k] == c[k - a];
    if 0 < k && s[k] == '-' && k > a {
      assert s[k - 1] == c[k - a - 1];
    }
  }

  /** A string holding a character that cannot occur in a number is not
      numeric. */
  lemma NumericChars(s: string)
    ensures ParseNumeric(s).Some? ==> forall k :: 0 <= k < |s| ==> IsNumericChar(s[k])
  {
    if ParseNumeric(s).Some? {
      NumericShape(s);
    }
  }
}
