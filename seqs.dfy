/** The list operations that the job tracker borrows from the Kotlin collections
    library: `filter`, `indexOf`, `remove(element)` and the replacement
    `list[indexOf(x)] = y`, stated over sequences, with the order facts that make
    them trustworthy (a filter keeps a subsequence, removal takes out exactly
    the first match). */
module Seqs {

  /** `a` can be obtained from `b` by deleting elements: same elements, same
      relative order. */
  ghost predicate IsSubseq<T>(a: seq<T>, b: seq<T>)
    decreases |b|
  {
    a == [] || (b != [] && ((a[0] == b[0] && IsSubseq(a[1..], b[1..])) || IsSubseq(a, b[1..])))
  }

  /** Kotlin's `filter`: the elements of `s` that satisfy `p`, in their order.
      The result keeps every element that satisfies `p` as often as `s` holds
      it and drops every other one. */
  function Filter<T(!new)>(s: seq<T>, p: T -> bool): (r: seq<T>)
    ensures IsSubseq(r, s)
    ensures forall x :: multiset(r)[x] == if p(x) then multiset(s)[x] else 0
  {
    if s == [] then []
    else
      assert s == [s[0]] + s[1..];
      if p(s[0]) then [s[0]] + Filter(s[1..], p) else Filter(s[1..], p)
  }

  /** Kotlin's `indexOf`: the position of the first element equal to `x`, or -1. */
  function FirstIndex<T(==)>(s: seq<T>, x: T): (i: int)
    ensures -1 <= i < |s|
    ensures i == -1 <==> x !in s
    ensures 0 <= i ==> s[i] == x && x !in s[..i]
    ensures forall k :: 0 <= k < i ==> s[k] != x
  {
    if s == [] then -1
    else if s[0] == x then 0
    else
      var j := FirstIndex(s[1..], x);
      assert s[1..][..j + 1] == s[1..j + 2] by { if j >= 0 { assert s[..j + 1] == [s[0]] + s[1..][..j]; } }
      if j == -1 then -1 else j + 1
  }

  /** Kotlin's `remove(element)` on a mutable list: drop the first element equal
      to `x`; nothing happens when there is none. */
  function RemoveFirst<T(==)>(s: seq<T>, x: T): (r: seq<T>)
    ensures x !in s ==> r == s
    ensures x in s ==> |r| == |s| - 1 && multiset(r) == multiset(s) - multiset{x}
  {
    var i := FirstIndex(s, x);
    if i < 0 then s
    else
      assert s == s[..i] + [x] + s[i + 1..];
      s[..i] + s[i + 1..]
  }

  /** `s[s.indexOf(x)] = y`: overwrite the first element equal to `x`. */
  function ReplaceFirst<T(==)>(s: seq<T>, x: T, y: T): (r: seq<T>)
    requires x in s
    ensures |r| == |s|
    ensures multiset(r) == multiset(s) - multiset{x} + multiset{y}
  {
    var i := FirstIndex(s, x);
    assert s == s[..i] + [x] + s[i + 1..];
    assert s[i := y] == s[..i] + [y] + s[i + 1..];
    s[i := y]
  }

  /** Writing `s` as `p + [x] + q` with no `x` in `p` pins down where the first
      `x` is. */
  lemma {:induction false} FirstIndexOfSplit<T>(s: seq<T>, x: T, p: seq<T>, q: seq<T>)
    requires s == p + [x] + q && x !in p
    ensures FirstIndex(s, x) == |p|
  {
    assert s[|p|] == x;
    assert forall k :: 0 <= k < |p| ==> s[k] == p[k];
  }

  /** Removal takes out exactly the first occurrence: the elements before it and
      after it stay, in order. */
  lemma {:induction false} RemoveFirstSplit<T>(s: seq<T>, x: T, p: seq<T>, q: seq<T>)
    requires s == p + [x] + q && x !in p
    ensures RemoveFirst(s, x) == p + q
  {
    FirstIndexOfSplit(s, x, p, q);
    assert s[..|p|] == p;
    assert s[|p| + 1..] == q;
  }

  /** Replacement overwrites exactly the first occurrence and keeps everything
      else in place. */
  lemma {:induction false} ReplaceFirstSplit<T>(s: seq<T>, x: T, y: T, p: seq<T>, q: seq<T>)
    requires s == p + [x] + q && x !in p
    ensures ReplaceFirst(s, x, y) == p + [y] + q
  {
    FirstIndexOfSplit(s, x, p, q);
  }

  /** Every element of `s` that is `x` survives removal except one. */
  lemma RemoveFirstCount<T>(s: seq<T>, x: T)
    requires x in s
    ensures multiset(RemoveFirst(s, x))[x] == multiset(s)[x] - 1
    ensures x in RemoveFirst(s, x) <==> multiset(s)[x] > 1
  {
  }

  /** A subsequence never holds an element more often than the sequence does. */
  lemma {:induction false} SubseqMultiset<T>(a: seq<T>, b: seq<T>)
    requires IsSubseq(a, b)
    ensures multiset(a) <= multiset(b)
    decreases |b|
  {
    if a != [] {
      assert b == [b[0]] + b[1..];
      if a[0] == b[0] && IsSubseq(a[1..], b[1..]) {
        SubseqMultiset(a[1..], b[1..]);
        assert a == [a[0]] + a[1..];
      } else {
        SubseqMultiset(a, b[1..]);
      }
    }
  }

  lemma {:induction false} SubseqTransitive<T>(a: seq<T>, b: seq<T>, c: seq<T>)
    requires IsSubseq(a, b) && IsSubseq(b, c)
    ensures IsSubseq(a, c)
    decreases |c|
  {
    if a != [] {
      if IsSubseq(b, c[1..]) {
        SubseqTransitive(a, b, c[1..]);
      } else if a[0] == b[0] && IsSubseq(a[1..], b[1..]) {
        SubseqTransitive(a[1..], b[1..], c[1..]);
      } else {
        SubseqTransitive(a, b[1..], c[1..]);
      }
    }
  }

  /** The two facts `Filter` promises determine its result: any subsequence of
      `s` that holds each element satisfying `p` exactly as often as `s` does,
      and nothing else, is `Filter(s, p)`. So `Filter` keeps exactly those
      elements in their original order. */
  lemma {:induction false} FilterUnique<T(!new)>(s: seq<T>, p: T -> bool, r: seq<T>)
    requires IsSubseq(r, s)
    requires forall x :: multiset(r)[x] == if p(x) then multiset(s)[x] else 0
    ensures r == Filter(s, p)
    decreases |s|
  {
    if s == [] {
      assert multiset(r) == multiset{};
    } else {
      var h, t := s[0], s[1..];
      assert s == [h] + t;
      if r != [] && r[0] == h && IsSubseq(r[1..], t) {
        assert r == [h] + r[1..];
        assert multiset(r)[h] > 0;
        FilterUnique(t, p, r[1..]);
      } else {
        assert IsSubseq(r, t);
        SubseqMultiset(r, t);
        assert multiset(s)[h] == multiset(t)[h] + 1;
        FilterUnique(t, p, r);
      }
    }
  }

  lemma {:induction false} SubseqReflexive<T>(s: seq<T>)
    ensures IsSubseq(s, s)
    decreases |s|
  {
    if s != [] {
      SubseqReflexive(s[1..]);
    }
  }
}
