/** The SQL Server type codes and the codec between a code and the SQL type
    text used in DDL: the forward table (code to type text), the reverse
    table keyed by normalised type text, and `code`, which reads a column
    type text back as a code. */
module SqlServerTypes {

  type TypeCode = int

  // Ordinary codes, in widening order.
  const BOOL: TypeCode := 0
  const INT32: TypeCode := 2
  const INT64: TypeCode := 3
  const DOUBLE: TypeCode := 4
  const TEXT7: TypeCode := 5
  const TEXT8: TypeCode := 6
  const TEXT32: TypeCode := 7
  // Special codes.
  const SPECIAL_DATE: TypeCode := 80
  const SPECIAL_DATETIME: TypeCode := 81
  const SPECIAL_POINT: TypeCode := 90
  const SPECIAL_LINESTRING: TypeCode := 91
  const SPECIAL_POLYGON: TypeCode := 92
  const SPECIAL_MONEY: TypeCode := 93
  /** A type text that maps to no known code. */
  const SPECIFIED: TypeCode := 99

  /** The forward table: the type text each code stands for in DDL. */
  const Forward: map<TypeCode, string> := map[
    BOOL := " BIT ",
    INT32 := " INT ",
    INT64 := " BIGINT ",
    DOUBLE := " FLOAT ",
    TEXT7 := " NVARCHAR(191) ",
    TEXT8 := " NVARCHAR(255) ",
    TEXT32 := " NTEXT ",
    SPECIAL_DATE := " DATE ",
    SPECIAL_DATETIME := " DATETIME ",
    SPECIAL_POINT := " POINT ",
    SPECIAL_LINESTRING := " LINESTRING ",
    SPECIAL_POLYGON := " POLYGON ",
    SPECIAL_MONEY := " MONEY "
  ]

  /** The order in which the forward table's entries were written, which is
      the order a loop over it visits them. */
  const ForwardOrder: seq<TypeCode> := [
    BOOL, INT32, INT64, DOUBLE, TEXT7, TEXT8, TEXT32,
    SPECIAL_DATE, SPECIAL_DATETIME, SPECIAL_POINT, SPECIAL_LINESTRING, SPECIAL_POLYGON, SPECIAL_MONEY
  ]

  lemma ForwardOrderCoversForward()
    ensures forall c :: c in ForwardOrder <==> c in Forward
    ensures forall i, j :: 0 <= i < j < |ForwardOrder| ==> ForwardOrder[i] != ForwardOrder[j]
  {
  }

  /** strtolower: ASCII upper-case letters become lower-case. */
  function Lower(s: string): (r: string)
    ensures |r| == |s|
    ensures forall k :: 0 <= k < |s| ==> r[k] == LowerChar(s[k])
  {
    seq(|s|, k requires 0 <= k < |s| => LowerChar(s[k]))
  }

  function LowerChar(c: char): char
  {
    if 'A' <= c <= 'Z' then (c as int - 'A' as int + 'a' as int) as char else c
  }

  /** The characters trim strips by default: space, tab, newline, carriage
      return, NUL and vertical tab. */
  predicate IsTrimmed(c: char)
  {
    c == ' ' || c == '\t' || c == '\n' || c == '\r' || c == '\0' || c == '\U{000B}'
  }

  function TrimLeft(s: string): (r: string)
    ensures |r| <= |s| && r == s[|s| - |r|..]
    ensures |r| > 0 ==> !IsTrimmed(r[0])
  {
    if |s| > 0 && IsTrimmed(s[0]) then TrimLeft(s[1..]) else s
  }

  function TrimRight(s: string): (r: string)
    ensures |r| <= |s| && r == s[..|r|]
    ensures |r| > 0 ==> !IsTrimmed(r[|r| - 1])
  {
    if |s| > 0 && IsTrimmed(s[|s| - 1]) then TrimRight(s[..|s| - 1]) else s
  }

  /** trim: strips the trimmed characters from both ends. */
  function Trim(s: string): string
  {
    TrimRight(TrimLeft(s))
  }

  /** The key of the reverse table: trimmed, lower-cased type text. */
  function Normalize(s: string): string
  {
    Trim(Lower(s))
  }

  /** The reverse table a loop over `codes` builds from `table`: each
      visited entry stores its code under the key `key` gives its type text,
      later entries overwriting earlier ones. */
  function ReverseOf(key: string -> string, table: map<TypeCode, string>, codes: seq<TypeCode>): (m: map<string, TypeCode>)
    requires forall c :: c in codes ==> c in table
  {
    if codes == [] then map[]
    else
      var last := codes[|codes| - 1];
      ReverseOf(key, table, codes[..|codes| - 1])[key(table[last]) := last]
  }

  /** One more step of the loop: the prefix through position i stores
      codes[i] under its key on top of the shorter prefix. */
  lemma ReverseOfStep(key: string -> string, table: map<TypeCode, string>, codes: seq<TypeCode>, i: nat)
    requires forall c :: c in codes ==> c in table
    requires i < |codes|
    ensures forall c :: c in codes[..i + 1] ==> c in table
    ensures forall c :: c in codes[..i] ==> c in table
    ensures ReverseOf(key, table, codes[..i + 1]) ==
      ReverseOf(key, table, codes[..i])[key(table[codes[i]]) := codes[i]]
  {
    assert codes[..i + 1][..i] == codes[..i];
  }

  /** A reverse table derived from the forward table by a loop that visits
      every code of the forward table, in the order `order`. */
  ghost predicate DerivedReverse(reverse: map<string, TypeCode>, order: seq<TypeCode>)
  {
    (forall c :: c in order <==> c in Forward) && reverse == ReverseOf(Normalize, Forward, order)
  }

  /** The table a loop over all of ForwardOrder builds is derived. */
  lemma ReverseDerived(reverse: map<string, TypeCode>)
    requires forall c :: c in ForwardOrder ==> c in Forward
    requires reverse == ReverseOf(Normalize, Forward, ForwardOrder)
    ensures DerivedReverse(reverse, ForwardOrder)
  {
    ForwardOrderCoversForward();
  }

  /** code: the code stored under a type text in the reverse table, or
      SPECIFIED when there is none; without specials, a code at or above
      `rangeSpecial` is reported as SPECIFIED too. */
  function Code(reverse: map<string, TypeCode>, description: string, includeSpecials: bool, rangeSpecial: int): (r: TypeCode)
    ensures r == SPECIFIED || r in reverse.Values
    ensures description !in reverse ==> r == SPECIFIED
    ensures !includeSpecials ==> r == SPECIFIED || r < rangeSpecial
  {
    var found := if description in reverse then reverse[description] else SPECIFIED;
    if includeSpecials then found
    else if found >= rangeSpecial then SPECIFIED
    else found
  }

  /** The characters of a type name in the forward table. */
  predicate IsNameChar(ch: char)
  {
    'A' <= ch <= 'Z' || '0' <= ch <= '9' || ch == '(' || ch == ')'
  }

  /** A type text written as one space, a non-empty type name and one space. */
  predicate Padded(t: string)
  {
    |t| >= 3 && t[0] == ' ' && t[|t| - 1] == ' ' && IsName(t[1..|t| - 1])
  }

  predicate IsName(name: string)
  {
    forall k :: 0 <= k < |name| ==> IsNameChar(name[k])
  }

  /** Every entry of the forward table is a padded type name. */
  lemma ForwardPadded()
    ensures forall c :: c in Forward ==> Padded(Forward[c])
  {
    forall c | c in Forward ensures Padded(Forward[c]) {
      if c <= TEXT32 {
        OrdinaryPadded(c);
      } else {
        SpecialPadded(c);
      }
    }
  }

  lemma OrdinaryPadded(c: TypeCode)
    requires c in Forward && c <= TEXT32
    ensures Padded(Forward[c])
  {
  }

  lemma SpecialPadded(c: TypeCode)
    requires c in Forward && c > TEXT32
    ensures Padded(Forward[c])
  {
  }

  /** Distinct codes have distinct type texts. */
  lemma ForwardDistinct()
    ensures forall c, d :: c in Forward && d in Forward && c != d ==> Forward[c] != Forward[d]
  {
  }

  /** trim drops exactly one space from each end of a text that starts and
      ends with a character trim keeps. */
  lemma TrimPadded(m: string)
    requires |m| > 0 && !IsTrimmed(m[0]) && !IsTrimmed(m[|m| - 1])
    ensures Trim([' '] + m + [' ']) == m
  {
    var p := [' '] + m + [' '];
    assert p[1..] == m + [' '];
    assert (m + [' '])[0] == m[0];
    assert TrimLeft(p) == m + [' '];
    assert (m + [' '])[..|m|] == m;
    assert TrimRight(m + [' ']) == TrimRight(m) == m;
  }

  /** strtolower leaves the padding spaces alone. */
  lemma LowerPaddedName(name: string)
    ensures Lower([' '] + name + [' ']) == [' '] + Lower(name) + [' ']
  {
    var p := [' '] + name + [' '];
    forall k | 1 <= k <= |name| ensures p[k] == name[k - 1] { }
  }

  /** A padded type name normalises to the lower-cased name. */
  lemma NormalizePadded(t: string)
    requires Padded(t)
    ensures Normalize(t) == Lower(t[1..|t| - 1])
  {
    var name := t[1..|t| - 1];
    assert t == [' '] + name + [' '];
    LowerPaddedName(name);
    var low := Lower(name);
    assert low[0] == LowerChar(name[0]) && low[|low| - 1] == LowerChar(name[|name| - 1]);
    TrimPadded(low);
  }

  /** strtolower loses nothing on type names. */
  lemma LowerNameInjective(a: string, b: string)
    requires IsName(a) && IsName(b)
    requires Lower(a) == Lower(b)
    ensures a == b
  {
    forall k | 0 <= k < |a| ensures a[k] == b[k] {
      assert Lower(a)[k] == Lower(b)[k];
    }
  }

  /** Distinct padded type names have distinct lower-cased names. */
  lemma PaddedNamesDistinct(s: string, t: string)
    requires Padded(s) && Padded(t) && s != t
    ensures Lower(s[1..|s| - 1]) != Lower(t[1..|t| - 1])
  {
    var a, b := s[1..|s| - 1], t[1..|t| - 1];
    assert s == [' '] + a + [' '];
    assert t == [' '] + b + [' '];
    if Lower(a) == Lower(b) {
      LowerNameInjective(a, b);
    }
  }

  /** Distinct padded type names have distinct normalised texts. */
  lemma PaddedDistinct(s: string, t: string)
    requires Padded(s) && Padded(t) && s != t
    ensures Normalize(s) != Normalize(t)
  {
    PaddedNamesDistinct(s, t);
    NormalizePadded(s);
    NormalizePadded(t);
  }

  /** In a table of distinct padded type names, distinct codes have
      distinct normalised type texts. */
  lemma PaddedKeysInjective(table: map<TypeCode, string>)
    requires forall c :: c in table ==> Padded(table[c])
    requires forall c, d :: c in table && d in table && c != d ==> table[c] != table[d]
    ensures KeysInjective(Normalize, table)
  {
    forall c, d | c in table && d in table && c != d
      ensures Normalize(table[c]) != Normalize(table[d])
    {
      PaddedDistinct(table[c], table[d]);
    }
  }

  /** Distinct codes have distinct normalised type texts. */
  lemma NormalizedForwardInjective()
    ensures KeysInjective(Normalize, Forward)
  {
    ForwardPadded();
    ForwardDistinct();
    PaddedKeysInjective(Forward);
  }

  /** Every code of the table is ordinary (at most TEXT32) or special (at
      least SPECIAL_DATE). */
  lemma ForwardBands(c: TypeCode)
    requires c in Forward
    ensures c <= TEXT32 || SPECIAL_DATE <= c < SPECIFIED
  {
  }

  /** A table whose distinct codes have distinct keys. */
  predicate KeysInjective(key: string -> string, table: map<TypeCode, string>)
  {
    forall d, e :: d in table && e in table && d != e ==> key(table[d]) != key(table[e])
  }

  /** Whatever a loop over the codes of such a table stores under a code's
      key is that code. */
  lemma {:induction false} ReverseOfFinds(key: string -> string, table: map<TypeCode, string>, codes: seq<TypeCode>, c: TypeCode)
    requires forall d :: d in codes ==> d in table
    requires KeysInjective(key, table)
    requires c in codes
    ensures key(table[c]) in ReverseOf(key, table, codes)
    ensures ReverseOf(key, table, codes)[key(table[c])] == c
  {
    var last := codes[|codes| - 1];
    var init := codes[..|codes| - 1];
    if c != last {
      assert c in init by {
        var i :| 0 <= i < |codes| && codes[i] == c;
        assert init[i] == c;
      }
      ReverseOfFinds(key, table, init, c);
    }
  }

  /** Every key of a loop-built reverse table is the key of a visited code. */
  lemma {:induction false} ReverseOfKeys(key: string -> string, table: map<TypeCode, string>, codes: seq<TypeCode>, k: string)
    requires forall d :: d in codes ==> d in table
    requires k in ReverseOf(key, table, codes)
    ensures exists c :: c in codes && k == key(table[c])
  {
    var last := codes[|codes| - 1];
    var init := codes[..|codes| - 1];
    if k != key(table[last]) {
      ReverseOfKeys(key, table, init, k);
      var c :| c in init && k == key(table[c]);
      assert c in codes;
    }
  }

  /** Round trip: reading back the type text the forward table gives a code
      yields that code, whatever order the table was derived in. */
  lemma CodeRoundTrip(reverse: map<string, TypeCode>, order: seq<TypeCode>, c: TypeCode, rangeSpecial: int)
    requires DerivedReverse(reverse, order)
    requires c in Forward
    ensures Code(reverse, Normalize(Forward[c]), true, rangeSpecial) == c
  {
    NormalizedForwardInjective();
    ReverseOfFinds(Normalize, Forward, order, c);
  }

  /** The reverse table holds exactly the normalised forward texts. */
  lemma ReverseKeys(reverse: map<string, TypeCode>, order: seq<TypeCode>, key: string)
    requires DerivedReverse(reverse, order)
    ensures key in reverse <==> exists c :: c in Forward && key == Normalize(Forward[c])
  {
    NormalizedForwardInjective();
    if key in reverse {
      ReverseOfKeys(Normalize, Forward, order, key);
    } else {
      forall c | c in Forward ensures key != Normalize(Forward[c]) {
        ReverseOfFinds(Normalize, Forward, order, c);
      }
    }
  }

  /** Without specials, a result at or above `rangeSpecial` collapses to
      SPECIFIED and every other result is the one with specials. */
  lemma CodeWithoutSpecials(reverse: map<string, TypeCode>, description: string, rangeSpecial: int)
    ensures var full := Code(reverse, description, true, rangeSpecial);
      Code(reverse, description, false, rangeSpecial) == if full >= rangeSpecial then SPECIFIED else full
  {
  }

  /** With the interface's split between ordinary and special codes (any
      bound above TEXT32 and at most SPECIAL_DATE), reading back the type
      text of a code without specials keeps ordinary codes and turns every
      special code into SPECIFIED. */
  lemma CodeWithoutSpecialsOnForward(reverse: map<string, TypeCode>, order: seq<TypeCode>, c: TypeCode, rangeSpecial: int)
    requires DerivedReverse(reverse, order)
    requires c in Forward
    requires TEXT32 < rangeSpecial <= SPECIAL_DATE
    ensures Code(reverse, Normalize(Forward[c]), false, rangeSpecial) == if c <= TEXT32 then c else SPECIFIED
  {
    ForwardBands(c);
    CodeRoundTrip(reverse, order, c, rangeSpecial);
  }

  /** A type text outside the table reads back as SPECIFIED in both modes. */
  lemma CodeUnknown(reverse: map<string, TypeCode>, order: seq<TypeCode>, description: string, includeSpecials: bool, rangeSpecial: int)
    requires DerivedReverse(reverse, order)
    requires forall c :: c in Forward ==> description != Normalize(Forward[c])
    ensures Code(reverse, description, includeSpecials, rangeSpecial) == SPECIFIED
  {
    ReverseKeys(reverse, order, description);
  }

  /** With specials included, a type text reads back as a code of the table
      exactly when it is that code's normalised type text. */
  lemma CodeReadsBackOnlyItsKey(reverse: map<string, TypeCode>, order: seq<TypeCode>, d: string, c: TypeCode, rangeSpecial: int)
    requires DerivedReverse(reverse, order)
    requires c in Forward
    ensures Code(reverse, d, true, rangeSpecial) == c <==> d == Normalize(Forward[c])
  {
    ForwardBands(c);
    CodeRoundTrip(reverse, order, c, rangeSpecial);
    ReverseKeys(reverse, order, d);
    if d in reverse {
      var e :| e in Forward && d == Normalize(Forward[e]);
      CodeRoundTrip(reverse, order, e, rangeSpecial);
    }
  }

  /** strtolower turns no character into a parenthesis. */
  lemma LowerMakesNoParen(s: string)
    requires forall k :: 0 <= k < |s| ==> s[k] != '('
    ensures forall k :: 0 <= k < |Lower(s)| ==> Lower(s)[k] != '('
  {
  }

  /** The type text of INT is its name padded with spaces. */
  lemma IntTypeText(t: string)
    requires t == Forward[INT32]
    ensures Padded(t) && forall k :: 0 <= k < |t| ==> t[k] != '('
  {
    assert t == " INT ";
  }

  /** The normalised type text of INT holds no parenthesis. */
  lemma IntKeyHasNoParen(t: string)
    requires t == Forward[INT32]
    ensures forall k :: 0 <= k < |Normalize(t)| ==> Normalize(t)[k] != '('
  {
    IntTypeText(t);
    PaddedKeyHasNoParen(t);
  }

  /** A padded type name without parentheses normalises to a text without
      parentheses. */
  lemma PaddedKeyHasNoParen(t: string)
    requires Padded(t) && forall k :: 0 <= k < |t| ==> t[k] != '('
    ensures forall k :: 0 <= k < |Normalize(t)| ==> Normalize(t)[k] != '('
  {
    NormalizePadded(t);
    var name := t[1..|t| - 1];
    assert forall k :: 0 <= k < |name| ==> name[k] == t[k + 1];
    LowerMakesNoParen(name);
  }

  /** Every normalised type text is non-empty, so the empty text reads back
      as SPECIFIED. */
  lemma EmptyTextIsUnknown(reverse: map<string, TypeCode>, order: seq<TypeCode>, includeSpecials: bool, rangeSpecial: int)
    requires DerivedReverse(reverse, order)
    ensures Code(reverse, "", includeSpecials, rangeSpecial) == SPECIFIED
  {
    ForwardPadded();
    forall c | c in Forward ensures "" != Normalize(Forward[c]) {
      NormalizePadded(Forward[c]);
    }
    CodeUnknown(reverse, order, "", includeSpecials, rangeSpecial);
  }
}
