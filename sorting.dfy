/** Python's `sorted` over strings: the code-point lexicographic order and a
    sort that returns the unique ordered permutation of its input. */
module Sorting {

  /** `a <= b` on Python strings: compare code points from the left, a
      proper prefix comes first. */
  predicate StrLe(a: string, b: string)
  {
    if |a| == 0 then true
    else if |b| == 0 then false
    else if a[0] != b[0] then a[0] < b[0]
    else StrLe(a[1..], b[1..])
  }

  predicate Sorted(s: seq<string>)
  {
    forall i, j :: 0 <= i < j < |s| ==> StrLe(s[i], s[j])
  }

  lemma {:induction false} StrLeReflexive(a: string)
    ensures StrLe(a, a)
  {
    if |a| > 0 { StrLeReflexive(a[1..]); }
  }

  lemma {:induction false} StrLeTotal(a: string, b: string)
    ensures StrLe(a, b) || StrLe(b, a)
  {
    if |a| > 0 && |b| > 0 && a[0] == b[0] {
      StrLeTotal(a[1..], b[1..]);
    }
  }

  lemma {:induction false} StrLeTransitive(a: string, b: string, c: string)
    requires StrLe(a, b) && StrLe(b, c)
    ensures StrLe(a, c)
  {
    if |a| > 0 && |b| > 0 && |c| > 0 && a[0] == b[0] && b[0] == c[0] {
      StrLeTransitive(a[1..], b[1..], c[1..]);
    }
  }

  lemma {:induction false} StrLeAntisymmetric(a: string, b: string)
    requires StrLe(a, b) && StrLe(b, a)
    ensures a == b
  {
    if |a| > 0 && |b| > 0 {
      StrLeAntisymmetric(a[1..], b[1..]);
      assert a == [a[0]] + a[1..];
      assert b == [b[0]] + b[1..];
    }
  }

  /** Every element of `r` is at least `x` when every element of the
      multiset it was drawn from is. */
  lemma LowerBoundByMultiset(x: string, r: seq<string>, m: multiset<string>)
    requires multiset(r) == m
    requires forall e :: e in m ==> StrLe(x, e)
    ensures forall k :: 0 <= k < |r| ==> StrLe(x, r[k])
  {
    forall k | 0 <= k < |r| ensures StrLe(x, r[k]) {
      assert r[k] in multiset(r);
    }
  }

  /** The head of a sorted sequence is at most each of its elements. */
  lemma HeadIsLeast(s: seq<string>, e: string)
    requires Sorted(s) && e in multiset(s)
    ensures StrLe(s[0], e)
  {
    var k :| 0 <= k < |s| && s[k] == e;
    if k == 0 { StrLeReflexive(e); }
  }

  /** What follows the head of a sorted sequence is sorted. */
  lemma SortedTail(s: seq<string>)
    requires Sorted(s) && |s| > 0
    ensures Sorted(s[1..])
  {
    forall i, j | 0 <= i < j < |s| - 1 ensures StrLe(s[1..][i], s[1..][j]) {
      assert s[1..][i] == s[i + 1] && s[1..][j] == s[j + 1];
    }
  }

  /** An element at most the head is at most every element. */
  lemma BelowHead(x: string, s: seq<string>)
    requires Sorted(s) && |s| > 0 && StrLe(x, s[0])
    ensures forall k :: 0 <= k < |s| ==> StrLe(x, s[k])
  {
    forall k | 0 <= k < |s| ensures StrLe(x, s[k]) {
      if k > 0 { StrLeTransitive(x, s[0], s[k]); }
    }
  }

  /** An element above the head leaves the head least among the rest and
      the element. */
  lemma AboveHead(x: string, s: seq<string>)
    requires Sorted(s) && |s| > 0 && !StrLe(x, s[0])
    ensures forall e :: e in multiset(s[1..]) + multiset{x} ==> StrLe(s[0], e)
  {
    StrLeTotal(x, s[0]);
    assert s == [s[0]] + s[1..];
    forall e | e in multiset(s[1..]) + multiset{x} ensures StrLe(s[0], e) {
      if e != x {
        assert e in multiset(s);
        HeadIsLeast(s, e);
      }
    }
  }

  /** Inserts `x` into a sorted sequence, before the first element it does
      not exceed. */
  function Insert(x: string, s: seq<string>): (r: seq<string>)
    requires Sorted(s)
    ensures Sorted(r)
    ensures multiset(r) == multiset(s) + multiset{x}
  {
    if |s| == 0 then [x]
    else if StrLe(x, s[0]) then
      BelowHead(x, s);
      [x] + s
    else
      SortedTail(s);
      var rest := Insert(x, s[1..]);
      assert s == [s[0]] + s[1..];
      AboveHead(x, s);
      LowerBoundByMultiset(s[0], rest, multiset(s[1..]) + multiset{x});
      [s[0]] + rest
  }

  /** Python's `sorted(s)` on a list of strings: the sorted permutation. */
  function SortStrings(s: seq<string>): (r: seq<string>)
    ensures Sorted(r)
    ensures multiset(r) == multiset(s)
    ensures |r| == |s|
  {
    if |s| == 0 then []
    else
      assert s == [s[0]] + s[1..];
      Insert(s[0], SortStrings(s[1..]))
  }

  /** Two sorted sequences with the same elements are equal, so the sorted
      list does not depend on the order in which its elements were found. */
  lemma {:induction false} SortedUnique(a: seq<string>, b: seq<string>)
    requires Sorted(a) && Sorted(b)
    requires multiset(a) == multiset(b)
    ensures a == b
  {
    if |a| == 0 {
      assert |b| == |multiset(b)| == 0;
    } else {
      assert |b| == |multiset(b)| == |multiset(a)| == |a|;
      assert a[0] in multiset(a) && b[0] in multiset(b);
      HeadIsLeast(b, a[0]);
      HeadIsLeast(a, b[0]);
      StrLeAntisymmetric(a[0], b[0]);
      SameTails(a, b);
      SortedTail(a);
      SortedTail(b);
      SortedUnique(a[1..], b[1..]);
    }
  }

  /** Removing equal heads from two arrangements of the same elements
      leaves two arrangements of the same elements. */
  lemma SameTails(a: seq<string>, b: seq<string>)
    requires |a| > 0 && |b| > 0 && a[0] == b[0] && multiset(a) == multiset(b)
    ensures multiset(a[1..]) == multiset(b[1..])
  {
    assert a == [a[0]] + a[1..];
    assert b == [b[0]] + b[1..];
    assert multiset(a) == multiset{a[0]} + multiset(a[1..]);
    assert multiset(b) == multiset{a[0]} + multiset(b[1..]);
    assert multiset(a[1..]) == multiset(a) - multiset{a[0]};
    assert multiset(b[1..]) == multiset(b) - multiset{a[0]};
  }

  /** Sorting two arrangements of the same elements gives the same list. */
  lemma SortIgnoresOrder(s: seq<string>, t: seq<string>)
    requires multiset(s) == multiset(t)
    ensures SortStrings(s) == SortStrings(t)
  {
    SortedUnique(SortStrings(s), SortStrings(t));
  }
}
