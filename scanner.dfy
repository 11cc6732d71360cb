/** scanType: the column type a value needs. The branches are tried in the
    order the writer lists them and the first that applies decides. */
module Scanner {
  import opened PhpValues
  import opened Patterns
  import opened SqlServerTypes

  /** The largest value an INT column holds (2^31 - 1). */
  const INT_MAX: int := 2147483647
  /** The largest value a BIGINT column holds (2^63 - 1). */
  const BIGINT_MAX: int := 9223372036854775807

  /** The tier of a number that is not rejected for leading zeros: INT
      when integral and in [0, INT_MAX], else BIGINT when integral and in
      [0, BIGINT_MAX], else FLOAT. */
  function NumericTier(x: real): (r: TypeCode)
    ensures r in {INT32, INT64, DOUBLE}
  {
    if IsIntegral(x) && 0.0 <= x && x <= INT_MAX as real then INT32
    else if IsIntegral(x) && 0.0 <= x && x <= BIGINT_MAX as real then INT64
    else DOUBLE
  }

  /** The tier of a text by its length in characters. */
  function LengthTier(n: nat): (r: TypeCode)
  {
    if n <= 191 then TEXT7
    else if n <= 255 then TEXT8
    else TEXT32
  }

  /** The literals the writer treats as booleans: true, false, '0', '1'. */
  predicate IsBoolLiteral(v: Value)
  {
    v.Bool? || v == Str("0") || v == Str("1")
  }

  /** scanType. `startsWithZeros` stands for the helper of the same name,
      which is not part of this model. */
  function ScanType(v: Value, flagSpecial: bool, startsWithZeros: Value -> bool): (r: TypeCode)
    ensures r in Forward
    ensures !flagSpecial ==>
      r != SPECIAL_MONEY && r != SPECIAL_POINT && r != SPECIAL_LINESTRING && r != SPECIAL_POLYGON
  {
    if v.Null? then BOOL
    else if v.Inf? then TEXT7
    else
      var s := Text(v);
      if flagSpecial && IsMoney(s) then SPECIAL_MONEY
      else if flagSpecial && IsPoint(s) then SPECIAL_POINT
      else if flagSpecial && IsLineString(s) then SPECIAL_LINESTRING
      else if flagSpecial && IsPolygon(s) then SPECIAL_POLYGON
      else if IsDate(s) then SPECIAL_DATE
      else if IsDateTime(s) then SPECIAL_DATETIME
      else if IsBoolLiteral(v) then BOOL
      else if v.Float? then DOUBLE
      else if !startsWithZeros(v) && IsNumeric(v) then NumericTier(NumberOf(v).value)
      else LengthTier(|s|)
  }

  /** The first two branches: null and INF, whatever the flag. */
  lemma ScanNullAndInf(flagSpecial: bool, startsWithZeros: Value -> bool)
    ensures ScanType(Null, flagSpecial, startsWithZeros) == BOOL
    ensures ScanType(Inf, flagSpecial, startsWithZeros) == TEXT7
  {
  }

  /** A value is MONEY exactly when the flag is set and its text has the
      money shape; null and INF never are. */
  lemma ScanMoneyIff(v: Value, flagSpecial: bool, startsWithZeros: Value -> bool)
    ensures ScanType(v, flagSpecial, startsWithZeros) == SPECIAL_MONEY <==>
      flagSpecial && !v.Null? && !v.Inf? && IsMoney(Text(v))
  {
  }

  /** Geometry prefixes decide the type only with the flag set and only when
      the text is not money-shaped. */
  lemma ScanGeometry(v: Value, startsWithZeros: Value -> bool)
    requires !v.Null? && !v.Inf? && !IsMoney(Text(v))
    ensures IsPoint(Text(v)) ==> ScanType(v, true, startsWithZeros) == SPECIAL_POINT
    ensures IsLineString(Text(v)) ==> ScanType(v, true, startsWithZeros) == SPECIAL_LINESTRING
    ensures IsPolygon(Text(v)) ==> ScanType(v, true, startsWithZeros) == SPECIAL_POLYGON
  {
    PrefixesExclusive(Text(v));
  }

  /** Dates and date-times are recognised whether or not the flag is set. */
  lemma {:induction false} ScanDates(v: Value, flagSpecial: bool, startsWithZeros: Value -> bool)
    requires !v.Null? && !v.Inf?
    ensures IsDate(Text(v)) ==> ScanType(v, flagSpecial, startsWithZeros) == SPECIAL_DATE
    ensures IsDateTime(Text(v)) ==> ScanType(v, flagSpecial, startsWithZeros) == SPECIAL_DATETIME
  {
    var s := Text(v);
    if IsDate(s) || IsDateTime(s) {
      MoneyIsNoDate(s);
      DateShape(s);
      PrefixHead(s);
    }
  }

  /** true, false, '0' and '1' are BOOL whatever the flag: in particular
      '1' is never INT. */
  lemma {:induction false} ScanBoolLiterals(v: Value, flagSpecial: bool, startsWithZeros: Value -> bool)
    requires IsBoolLiteral(v)
    ensures ScanType(v, flagSpecial, startsWithZeros) == BOOL
  {
    var s := Text(v);
    assert |s| <= 1;
    DateShape(s);
    PrefixHead(s);
  }

  /** A float, rendered as a numeric text or as -INF or NAN, is FLOAT unless
      the flag is set and its text has the money shape. */
  lemma {:induction false} ScanFloat(repr: string, flagSpecial: bool, startsWithZeros: Value -> bool)
    requires ParseNumeric(repr).Some? || repr == "-INF" || repr == "NAN"
    requires !(flagSpecial && IsMoney(repr))
    ensures ScanType(Float(repr), flagSpecial, startsWithZeros) == DOUBLE
  {
    if ParseNumeric(repr).Some? {
      NumericIsNoPattern(repr);
    } else {
      DateShape(repr);
      PrefixHead(repr);
    }
  }

  /** Integers: a non-negative one is INT up to INT_MAX and BIGINT above;
      a negative one is FLOAT. */
  lemma {:induction false} ScanInt(i: Int64, flagSpecial: bool, startsWithZeros: Value -> bool)
    requires !startsWithZeros(Int(i))
    ensures ScanType(Int(i), flagSpecial, startsWithZeros) ==
      if 0 <= i <= INT_MAX then INT32 else if 0 <= i then INT64 else DOUBLE
  {
    IntTextIsSignedDigits(i);
    SignedDigitsIsNoPattern(IntText(i));
  }

  /** A numeric string other than '0' and '1', without leading zeros and not
      taken as money, is classified by the number it denotes. */
  lemma {:induction false} ScanNumericString(s: string, flagSpecial: bool, startsWithZeros: Value -> bool)
    requires ParseNumeric(s).Some? && s != "0" && s != "1"
    requires !startsWithZeros(Str(s))
    requires !(flagSpecial && IsMoney(s))
    ensures var x := ParseNumeric(s).value;
      ScanType(Str(s), flagSpecial, startsWithZeros) ==
        if IsIntegral(x) && 0.0 <= x <= INT_MAX as real then INT32
        else if IsIntegral(x) && 0.0 <= x <= BIGINT_MAX as real then INT64
        else DOUBLE
  {
    NumericIsNoPattern(s);
    assert !IsBoolLiteral(Str(s)) && IsNumeric(Str(s));
  }

  /** A string that matches no pattern, is no boolean literal and is either
      non-numeric or rejected for leading zeros gets the tier of its length. */
  lemma ScanText(s: string, flagSpecial: bool, startsWithZeros: Value -> bool)
    requires !(flagSpecial && (IsMoney(s) || IsPoint(s) || IsLineString(s) || IsPolygon(s)))
    requires !IsDate(s) && !IsDateTime(s) && s != "0" && s != "1"
    requires startsWithZeros(Str(s)) || ParseNumeric(s).None?
    ensures ScanType(Str(s), flagSpecial, startsWithZeros) ==
      if |s| <= 191 then TEXT7 else if |s| <= 255 then TEXT8 else TEXT32
  {
  }

  /** The length tiers never shrink as the text grows. */
  lemma LengthTierMonotone(n: nat, m: nat)
    requires n <= m
    ensures LengthTier(n) <= LengthTier(m)
    ensures LengthTier(n) in {TEXT7, TEXT8, TEXT32}
  {
  }

  /** A text of n letters x. */
  function Xs(n: nat): (s: string)
    ensures |s| == n && forall k :: 0 <= k < n ==> s[k] == 'x'
  {
    seq(n, _ => 'x')
  }

  /** A text of letters x is neither numeric nor any pattern. */
  lemma {:induction false} XsAreText(n: nat)
    requires n > 0
    ensures ParseNumeric(Xs(n)).None?
    ensures !IsMoney(Xs(n)) && !IsPoint(Xs(n)) && !IsLineString(Xs(n)) && !IsPolygon(Xs(n))
    ensures !IsDate(Xs(n)) && !IsDateTime(Xs(n))
  {
    var s := Xs(n);
    DateShape(s);
    PrefixHead(s);
    NumericChars(s);
    MoneyShape(s);
    assert !IsNumericChar(s[0]);
  }

  /** A text of n letters x, n > 0, gets the tier of its length. */
  lemma ScanXs(n: nat, flagSpecial: bool, startsWithZeros: Value -> bool)
    requires n > 0
    ensures ScanType(Str(Xs(n)), flagSpecial, startsWithZeros) == LengthTier(n)
  {
    XsAreText(n);
    assert Xs(n)[0] == 'x';
  }

  /** The length boundaries exercised for the intermediate NVARCHAR(191)
      tier: 190 and 191 letters stay in it, 192 letters move to
      NVARCHAR(255). */
  lemma Issue411Boundaries(flagSpecial: bool, startsWithZeros: Value -> bool)
    ensures ScanType(Str(Xs(190)), flagSpecial, startsWithZeros) == TEXT7
    ensures ScanType(Str(Xs(191)), flagSpecial, startsWithZeros) == TEXT7
    ensures ScanType(Str(Xs(192)), flagSpecial, startsWithZeros) == TEXT8
  {
    ScanXs(190, flagSpecial, startsWithZeros);
    ScanXs(191, flagSpecial, startsWithZeros);
    ScanXs(192, flagSpecial, startsWithZeros);
  }

  /** '1.00' has the money shape. */
  lemma OnePointZeroZeroIsMoney(s: string)
    requires s == "1.00"
    ensures IsMoney(s)
  {
    assert s[..1] == "1";
  }

  /** '1.00' is numeric and denotes the number 1. */
  lemma OnePointZeroZeroDenotesOne(s: string)
    requires s == "1.00"
    ensures ParseNumeric(s) == Some(1.0)
  {
    assert Core(s) == s by {
      assert LeadingWhite(s) == 0 && TrailingWhite(s) == 0;
    }
    assert FindEither(s, 'e', 'E') == 4;
    assert s[..4] == s;
    assert FindEither(s, '.', '.') == 1;
    var digits := s[..1] + s[2..];
    assert digits == "100";
    var one, ten := digits[..1], digits[..2];
    assert one[..0] == [] && ten[..1] == one;
    assert DigitsValue(one) == 1;
    assert DigitsValue(ten) == 10;
    assert DigitsValue(digits) == 100;
  }

  /** '1.00' is MONEY with the flag set; without it the text denotes the
      integral number 1, so it is INT rather than FLOAT. */
  lemma MoneyOrInt(s: string, startsWithZeros: Value -> bool)
    requires s == "1.00" && !startsWithZeros(Str(s))
    ensures ScanType(Str(s), true, startsWithZeros) == SPECIAL_MONEY
    ensures ScanType(Str(s), false, startsWithZeros) == INT32
  {
    OnePointZeroZeroIsMoney(s);
    ScanMoneyIff(Str(s), true, startsWithZeros);
    OnePointZeroZeroDenotesOne(s);
    assert |s| == 4 && IsIntegral(1.0);
    ScanNumericString(s, false, startsWithZeros);
  }

  /** A numeric text with leading zeros is kept as text. */
  lemma LeadingZerosStayText(flagSpecial: bool, startsWithZeros: Value -> bool)
    requires startsWithZeros(Str("007"))
    ensures ScanType(Str("007"), flagSpecial, startsWithZeros) == TEXT7
  {
    var s := "007";
    DateShape(s);
    PrefixHead(s);
    MoneyShape(s);
  }
}
