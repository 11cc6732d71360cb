/** Ordering of column names as sort() leaves them, and the text operations
    that build the name of a unique constraint from them. Strings are
    compared character by character, as strcmp compares UTF-8 bytes. */
module StringOrder {

  /** a sorts at or before b: a is a prefix of b, or a has the smaller
      character at the first position where they differ. */
  predicate Le(a: string, b: string)
  {
    if a == [] then true
    else if b == [] then false
    else if a[0] != b[0] then a[0] < b[0]
    else Le(a[1..], b[1..])
  }

  lemma {:induction false} LeTotal(a: string, b: string)
    ensures Le(a, b) || Le(b, a)
  {
    if a != [] && b != [] && a[0] == b[0] {
      LeTotal(a[1..], b[1..]);
    }
  }

  lemma {:induction false} LeReflexive(a: string)
    ensures Le(a, a)
  {
    if a != [] {
      LeReflexive(a[1..]);
    }
  }

  lemma {:induction false} LeAntisymmetric(a: string, b: string)
    requires Le(a, b) && Le(b, a)
    ensures a == b
  {
    if a != [] && b != [] {
      LeAntisymmetric(a[1..], b[1..]);
      assert a == [a[0]] + a[1..] && b == [b[0]] + b[1..];
    }
  }

  lemma {:induction false} LeTransitive(a: string, b: string, c: string)
    requires Le(a, b) && Le(b, c)
    ensures Le(a, c)
  {
    if a != [] && b != [] && c != [] && a[0] == b[0] && b[0] == c[0] {
      LeTransitive(a[1..], b[1..], c[1..]);
    }
  }

  predicate SortedStrings(s: seq<string>)
  {
    forall i, j :: 0 <= i < j < |s| ==> Le(s[i], s[j])
  }

  /** Inserts x before the first element it sorts at or before. */
  function Insert(x: string, s: seq<string>): (r: seq<string>)
    requires SortedStrings(s)
    ensures SortedStrings(r)
    ensures multiset(r) == multiset(s) + multiset{x}
  {
    if s == [] then [x]
    else if Le(x, s[0]) then
      assert forall j :: 0 < j < |s| ==> Le(x, s[j]) by {
        forall j | 0 < j < |s| ensures Le(x, s[j]) { LeTransitive(x, s[0], s[j]); }
      }
      [x] + s
    else
      LeTotal(x, s[0]);
      var t := Insert(x, s[1..]);
      assert s == [s[0]] + s[1..];
      assert forall y :: y in multiset(t) ==> Le(s[0], y) by {
        forall y | y in multiset(t) ensures Le(s[0], y) {
          assert y in multiset(s[1..]) || y == x;
        }
      }
      assert forall j :: 0 <= j < |t| ==> Le(s[0], t[j]) by {
        forall j | 0 <= j < |t| ensures Le(s[0], t[j]) { assert t[j] in multiset(t); }
      }
      [s[0]] + t
  }

  /** sort(): the strings in ascending order. */
  function Sort(s: seq<string>): (r: seq<string>)
    ensures SortedStrings(r)
    ensures multiset(r) == multiset(s)
  {
    if s == [] then []
    else
      assert s == s[..|s| - 1] + [s[|s| - 1]];
      Insert(s[|s| - 1], Sort(s[..|s| - 1]))
  }

  /** The head of a sorted sequence sorts at or before every element. */
  lemma SortedHead(s: seq<string>, x: string)
    requires SortedStrings(s) && x in multiset(s)
    ensures s != [] && Le(s[0], x)
  {
    var i :| 0 <= i < |s| && s[i] == x;
    if i == 0 {
      LeReflexive(x);
    }
  }

  lemma SortedTail(s: seq<string>)
    requires SortedStrings(s) && s != []
    ensures SortedStrings(s[1..])
  {
    forall i, j | 0 <= i < j < |s| - 1 ensures Le(s[1..][i], s[1..][j]) {
      assert s[1..][i] == s[i + 1] && s[1..][j] == s[j + 1];
    }
  }

  /** Two sorted sequences with the same elements start alike. */
  lemma SortedSameHead(a: seq<string>, b: seq<string>)
    requires SortedStrings(a) && SortedStrings(b)
    requires multiset(a) == multiset(b) && a != []
    ensures b != [] && a[0] == b[0]
  {
    assert a[0] in multiset(a);
    SortedHead(b, a[0]);
    assert b[0] in multiset(b);
    SortedHead(a, b[0]);
    LeAntisymmetric(a[0], b[0]);
  }

  /** Two sorted sequences with the same elements are equal: a sorted
      order leaves nothing to choose. */
  lemma {:induction false} SortedUnique(a: seq<string>, b: seq<string>)
    requires SortedStrings(a) && SortedStrings(b)
    requires multiset(a) == multiset(b)
    ensures a == b
  {
    if a != [] {
      SortedSameHead(a, b);
      RemoveHead(a);
      RemoveHead(b);
      SortedTail(a);
      SortedTail(b);
      SortedUnique(a[1..], b[1..]);
      assert a == [a[0]] + a[1..] && b == [b[0]] + b[1..];
    } else {
      assert |b| == |multiset(b)|;
    }
  }

  /** Removing the element at position i removes one occurrence of it. */
  lemma RemoveOne(s: seq<string>, i: nat)
    requires i < |s|
    ensures multiset(s[..i] + s[i + 1..]) == multiset(s) - multiset{s[i]}
  {
    assert s == s[..i] + [s[i]] + s[i + 1..];
  }

  /** A position where an element of the multiset occurs. */
  lemma IndexOf(s: seq<string>, x: string) returns (i: nat)
    requires x in multiset(s)
    ensures i < |s| && s[i] == x
  {
    assert x in s;
    i :| 0 <= i < |s| && s[i] == x;
  }

  lemma RemoveHead(s: seq<string>)
    requires s != []
    ensures multiset(s[1..]) == multiset(s) - multiset{s[0]}
  {
    assert s == [s[0]] + s[1..];
  }

  /** Sorting forgets the order it was given: any two orderings of the same
      strings sort to the same sequence. */
  lemma SortOrderIndependent(a: seq<string>, b: seq<string>)
    requires multiset(a) == multiset(b)
    ensures Sort(a) == Sort(b)
  {
    SortedUnique(Sort(a), Sort(b));
  }

  /** implode: the strings joined by a separator. */
  function Join(sep: string, s: seq<string>): string
  {
    if s == [] then ""
    else if |s| == 1 then s[0]
    else s[0] + sep + Join(sep, s[1..])
  }

  /** Applies f to each element, keeping the order. */
  function MapSeq(f: string -> string, s: seq<string>): (r: seq<string>)
    ensures |r| == |s| && forall k :: 0 <= k < |s| ==> r[k] == f(s[k])
  {
    seq(|s|, k requires 0 <= k < |s| => f(s[k]))
  }

  /** Mapping a sequence with one element removed is removing that
      element's image from the mapped sequence. */
  lemma MapSeqRemove(f: string -> string, s: seq<string>, i: nat)
    requires i < |s|
    ensures MapSeq(f, s[..i] + s[i + 1..]) == MapSeq(f, s)[..i] + MapSeq(f, s)[i + 1..]
  {
    var m := MapSeq(f, s);
    var r := s[..i] + s[i + 1..];
    forall k | 0 <= k < |r| ensures MapSeq(f, r)[k] == (m[..i] + m[i + 1..])[k] {
      if k < i {
        assert r[k] == s[k];
      } else {
        assert r[k] == s[k + 1];
      }
    }
  }

  /** Matching the head of a with b[i], equal images of the remainders
      give equal images of the whole. */
  lemma MapSeqPermutationStep(f: string -> string, a: seq<string>, b: seq<string>, i: nat)
    requires i < |b| && a != [] && b[i] == a[0]
    requires multiset(MapSeq(f, a[1..])) == multiset(MapSeq(f, b[..i] + b[i + 1..]))
    ensures multiset(MapSeq(f, a)) == multiset(MapSeq(f, b))
  {
    var ma, mb := MapSeq(f, a), MapSeq(f, b);
    MapSeqRemove(f, a, 0);
    assert a[..0] + a[1..] == a[1..] && ma[..0] + ma[1..] == ma[1..];
    MapSeqRemove(f, b, i);
    RemoveHead(ma);
    RemoveOne(mb, i);
    var x := f(a[0]);
    assert ma[0] == x && mb[i] == x;
    assert multiset(ma) == (multiset(ma) - multiset{x}) + multiset{x};
    assert multiset(mb) == (multiset(mb) - multiset{x}) + multiset{x};
  }

  /** Mapping two orderings of the same strings gives two orderings of the
      same images. */
  lemma {:induction false} MapSeqPermutation(f: string -> string, a: seq<string>, b: seq<string>)
    requires multiset(a) == multiset(b)
    ensures multiset(MapSeq(f, a)) == multiset(MapSeq(f, b))
  {
    if a != [] {
      var i := IndexOf(b, a[0]);
      var rest := b[..i] + b[i + 1..];
      RemoveHead(a);
      RemoveOne(b, i);
      MapSeqPermutation(f, a[1..], rest);
      MapSeqPermutationStep(f, a, b, i);
    } else {
      assert |b| == |multiset(b)|;
    }
  }
}
