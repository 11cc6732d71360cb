/** The regular expressions of the scanner, written out as predicates over
    the text of a value. The patterns are byte patterns without the `u`
    flag, so `\d` is an ASCII digit, and `$` (without the `D` flag) matches
    at the very end or just before a final newline. */
module Patterns {
  import opened PhpValues

  /** Strips the one newline that a trailing `$` lets through. */
  function BeforeFinalNewline(s: string): string
    requires |s| > 0 && s[|s| - 1] == '\n'
  {
    s[..|s| - 1]
  }

  /** `-?\d+\.\d{2}` spanning the whole of s. */
  predicate MoneyBody(s: string)
  {
    var n := |s|;
    n >= 4 && s[n - 3] == '.' && IsDigit(s[n - 2]) && IsDigit(s[n - 1]) &&
    var head := s[..n - 3];
    (|head| > 0 && head[0] == '-' && |head| > 1 && AllDigits(head[1..])) ||
    (|head| > 0 && AllDigits(head))
  }

  /** `/^-?\d+\.\d{2}$/` */
  predicate IsMoney(s: string)
  {
    MoneyBody(s) || (|s| > 0 && s[|s| - 1] == '\n' && MoneyBody(BeforeFinalNewline(s)))
  }

  /** `/^POINT\(/`, `/^LINESTRING\(/`, `/^POLYGON\(/`: prefix tests. */
  predicate HasPrefix(s: string, p: string)
  {
    |p| <= |s| && s[..|p|] == p
  }

  predicate IsPoint(s: string) { HasPrefix(s, "POINT(") }
  predicate IsLineString(s: string) { HasPrefix(s, "LINESTRING(") }
  predicate IsPolygon(s: string) { HasPrefix(s, "POLYGON(") }

  /** `\d{4}\-\d\d-\d\d` spanning the whole of s. */
  predicate DateBody(s: string)
  {
    |s| == 10 && AllDigits(s[..4]) && s[4] == '-' && AllDigits(s[5..7]) &&
    s[7] == '-' && AllDigits(s[8..])
  }

  /** `/^\d{4}\-\d\d-\d\d$/` */
  predicate IsDate(s: string)
  {
    DateBody(s) || (|s| > 0 && s[|s| - 1] == '\n' && DateBody(BeforeFinalNewline(s)))
  }

  /** `\d{4}\-\d\d-\d\d\s\d\d:\d\d:\d\d` spanning the whole of s. `\s` matches
      the same six characters that is_numeric skips as whitespace. */
  predicate DateTimeBody(s: string)
  {
    |s| == 19 && DateBody(s[..10]) && IsWhite(s[10]) &&
    AllDigits(s[11..13]) && s[13] == ':' && AllDigits(s[14..16]) && s[16] == ':' &&
    AllDigits(s[17..])
  }

  /** `/^\d{4}\-\d\d-\d\d\s\d\d:\d\d:\d\d$/` */
  predicate IsDateTime(s: string)
  {
    DateTimeBody(s) || (|s| > 0 && s[|s| - 1] == '\n' && DateTimeBody(BeforeFinalNewline(s)))
  }

  /** A date or date-time text has a minus sign right after a digit (at
      index 4), and a date-time text has a colon (at index 13). */
  lemma DateShape(s: string)
    ensures IsDate(s) || IsDateTime(s) ==> |s| > 4 && IsDigit(s[3]) && s[4] == '-'
    ensures IsDateTime(s) ==> |s| > 13 && s[13] == ':'
  {
    if IsDate(s) || IsDateTime(s) {
      var t := if DateBody(s) || DateTimeBody(s) then s else BeforeFinalNewline(s);
      assert s[..|t|] == t;
      var d := t[..10];
      assert d[..4][3] == s[3];
    }
  }

  /** Each geometry text starts with an upper-case letter. */
  lemma PrefixHead(s: string)
    ensures IsPoint(s) || IsPolygon(s) ==> |s| > 0 && s[0] == 'P'
    ensures IsLineString(s) ==> |s| > 0 && s[0] == 'L'
  {
    if IsPoint(s) { assert s[..6][0] == s[0]; }
    if IsPolygon(s) { assert s[..8][0] == s[0]; }
    if IsLineString(s) { assert s[..11][0] == s[0]; }
  }

  /** Numeric strings never look like dates, date-times or geometry. */
  lemma {:induction false} NumericIsNoPattern(s: string)
    requires ParseNumeric(s).Some?
    ensures !IsDate(s) && !IsDateTime(s)
    ensures !IsPoint(s) && !IsLineString(s) && !IsPolygon(s)
  {
    NumericShape(s);
    DateShape(s);
    PrefixHead(s);
    if |s| > 4 {
      assert s[4] == '-' ==> !IsDigit(s[3]);
    }
    if |s| > 13 {
      assert IsNumericChar(s[13]);
    }
    if |s| > 0 {
      assert IsNumericChar(s[0]);
    }
  }

  /** The text of an integer matches none of the scanner's patterns. */
  lemma {:induction false} SignedDigitsIsNoPattern(s: string)
    requires SignedDigits(s)
    ensures !IsMoney(s) && !IsDate(s) && !IsDateTime(s)
    ensures !IsPoint(s) && !IsLineString(s) && !IsPolygon(s)
  {
    DateShape(s);
    PrefixHead(s);
    assert |s| >= 4 ==> s[|s| - 3] != '.' && s[|s| - 4] != '.';
  }

  /** A money text is never a date or a date-time. */
  lemma MoneyIsNoDate(s: string)
    requires IsDate(s) || IsDateTime(s)
    ensures !IsMoney(s)
  {
    DateShape(s);
    var t := if MoneyBody(s) then s else if |s| > 0 && s[|s| - 1] == '\n' then BeforeFinalNewline(s) else s;
    assert s[..|t|] == t;
  }

  /** A money text ends in two digits, possibly followed by a newline, so
      its next-to-last character is a digit. */
  lemma MoneyShape(s: string)
    ensures IsMoney(s) ==> |s| >= 4 && IsDigit(s[|s| - 2])
  {
    if IsMoney(s) && !MoneyBody(s) {
      var t := BeforeFinalNewline(s);
      assert t[|t| - 1] == s[|s| - 2];
    }
  }

  /** No text starts with two of the geometry prefixes. */
  lemma PrefixesExclusive(s: string)
    ensures IsPoint(s) ==> !IsLineString(s) && !IsPolygon(s)
    ensures IsLineString(s) ==> !IsPolygon(s)
  {
    PrefixHead(s);
    if IsPoint(s) { assert s[..6][2] == s[2]; }
    if IsPolygon(s) { assert s[..8][2] == s[2]; }
  }
}
