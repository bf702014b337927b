/** Sequence operations shared by the phone list, the key order of the book and the date texts. */
module Seqs {
  import opened Base

  /** The index of the first element equal to `x`, as the loop with `break` in edit_phone finds it. */
  function FirstIndex<T(==)>(s: seq<T>, x: T): (r: Option<nat>)
    ensures r.Some? ==> r.value < |s| && s[r.value] == x
    ensures r.Some? ==> forall j :: 0 <= j < r.value ==> s[j] != x
    ensures r.None? <==> x !in s
  {
    if |s| == 0 then None
    else if s[0] == x then Some(0)
    else match FirstIndex(s[1..], x)
      case None => None
      case Some(i) => Some(i + 1)
  }

  /** The elements of `s` other than `x`, in their original order (a list comprehension with a filter). */
  function Without<T(==)>(s: seq<T>, x: T): (r: seq<T>)
    ensures multiset(r) == multiset(s)[x := 0]
    ensures x !in s ==> r == s
  {
    if |s| == 0 then []
    else
      var pre, last := s[..|s| - 1], s[|s| - 1];
      var rest := Without(pre, x);
      assert s == pre + [last];
      assert multiset(s) == multiset(pre) + multiset{last};
      if last != x then rest + [last] else rest
  }

  /** What is kept: every element other than `x`, and nothing else. */
  lemma WithoutMembers<T>(s: seq<T>, x: T)
    ensures forall i :: 0 <= i < |Without(s, x)| ==> Without(s, x)[i] in s && Without(s, x)[i] != x
    ensures forall i :: 0 <= i < |s| && s[i] != x ==> s[i] in Without(s, x)
  {
    var r := Without(s, x);
    forall i | 0 <= i < |r|
      ensures r[i] in s && r[i] != x
    {
      assert r[i] in multiset(r);
    }
    forall i | 0 <= i < |s| && s[i] != x
      ensures s[i] in r
    {
      assert multiset(s)[s[i]] > 0;
      assert multiset(r)[s[i]] > 0;
    }
  }

  /** Filtering a concatenation filters each part: with one-element inputs, this fixes the order of the result. */
  lemma {:induction false} WithoutConcat<T>(a: seq<T>, b: seq<T>, x: T)
    ensures Without(a + b, x) == Without(a, x) + Without(b, x)
    ensures |b| == 1 ==> Without(b, x) == if b[0] == x then [] else b
  {
    if |b| == 1 {
      assert b[..0] == [];
    }
    if |b| > 0 {
      var b' := b[..|b| - 1];
      assert (a + b)[..|a + b| - 1] == a + b';
      WithoutConcat(a, b', x);
    } else {
      assert a + b == a;
    }
  }

  /** A sequence is what comes before position `i`, the element there, and what comes after. */
  lemma SplitAt<T>(s: seq<T>, i: nat)
    requires i < |s|
    ensures s == s[..i] + [s[i]] + s[i + 1..]
  {
  }

  /** No element occurs twice. */
  predicate Distinct<T(==)>(s: seq<T>)
  {
    forall i, j :: 0 <= i < j < |s| ==> s[i] != s[j]
  }

  /** Removing elements keeps a sequence free of repeats. */
  lemma {:induction false} WithoutDistinct<T>(s: seq<T>, x: T)
    requires Distinct(s)
    ensures Distinct(Without(s, x))
  {
    if |s| > 0 {
      var pre := s[..|s| - 1];
      assert Distinct(pre);
      WithoutDistinct(pre, x);
      var last, rest := s[|s| - 1], Without(pre, x);
      assert last !in pre;
      assert last !in rest by {
        assert multiset(rest)[last] <= multiset(pre)[last] == 0;
      }
      assert s == pre + [last];
    }
  }

  /** Python's `<` on strings: code point by code point, a proper prefix first. */
  predicate TextLess(a: string, b: string)
  {
    if |a| == 0 then |b| > 0
    else if |b| == 0 then false
    else a[0] < b[0] || (a[0] == b[0] && TextLess(a[1..], b[1..]))
  }

  /** Comparing two texts that start with fields of equal width compares the fields first. */
  lemma {:induction false} TextLessConcat(p: string, s: string, q: string, t: string)
    requires |p| == |q|
    ensures TextLess(p + s, q + t) <==> TextLess(p, q) || (p == q && TextLess(s, t))
  {
    if |p| == 0 {
      assert p + s == s && q + t == t;
    } else {
      assert (p + s)[1..] == p[1..] + s && (q + t)[1..] == q[1..] + t;
      TextLessConcat(p[1..], s, q[1..], t);
      assert p == q <==> p[0] == q[0] && p[1..] == q[1..];
    }
  }
}
