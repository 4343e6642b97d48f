/** Sequences as bags: what removing one element, or having no repetition, says about the multiset. */
module Bags {
  lemma Regroup<T>(a: seq<T>, b: seq<T>, c: seq<T>)
    ensures a + (b + c) == a + b + c
  {
  }

  lemma CutMultiset<T>(s: seq<T>, j: nat)
    requires j < |s|
    ensures multiset(s) == multiset(s[..j] + s[j + 1..]) + multiset{s[j]}
    ensures s[j] in multiset(s) && |multiset(s)| == |s|
  {
    assert s == s[..j] + [s[j]] + s[j + 1..];
  }

  lemma CutSame<T>(a: seq<T>, i: nat, b: seq<T>, j: nat)
    requires multiset(a) == multiset(b) && i < |a| && j < |b| && a[i] == b[j]
    ensures multiset(a[..i] + a[i + 1..]) == multiset(b[..j] + b[j + 1..])
  {
    CutMultiset(a, i);
    CutMultiset(b, j);
    assert multiset(a[..i] + a[i + 1..]) == multiset(a) - multiset{a[i]};
    assert multiset(b[..j] + b[j + 1..]) == multiset(b) - multiset{b[j]};
  }

  lemma SameSize<T>(a: seq<T>, b: seq<T>)
    requires multiset(a) == multiset(b)
    ensures |a| == |b|
  {
    assert |a| == |multiset(a)| == |multiset(b)| == |b|;
  }

  function Image<T, U>(f: T -> U, s: seq<T>): (r: seq<U>)
    ensures |r| == |s| && forall i :: 0 <= i < |s| ==> r[i] == f(s[i])
  {
    seq(|s|, i requires 0 <= i < |s| => f(s[i]))
  }

  /** The image of a bag does not depend on the order of its elements. */
  lemma {:induction false} ImageBag<T, U>(f: T -> U, a: seq<T>, b: seq<T>)
    requires multiset(a) == multiset(b)
    ensures multiset(Image(f, a)) == multiset(Image(f, b))
    decreases |a|
  {
    SameSize(a, b);
    if a == [] {
      assert Image(f, a) == Image(f, b);
    } else {
      hide *;
      var j := Position(a[0], a, b);
      CutSame(a, 0, b, j);
      var a', b' := a[..0] + a[0 + 1..], b[..j] + b[j + 1..];
      ImageBag(f, a', b');
      ImageCut(f, a, 0);
      ImageCut(f, b, j);
    }
  }

  lemma Position<T>(x: T, a: seq<T>, b: seq<T>) returns (j: nat)
    requires multiset(a) == multiset(b) && x in a
    ensures j < |b| && b[j] == x
  {
    assert x in multiset(b);
    j :| j < |b| && b[j] == x;
  }

  lemma ImageCut<T, U>(f: T -> U, s: seq<T>, j: nat)
    requires j < |s|
    ensures multiset(Image(f, s)) == multiset(Image(f, s[..j] + s[j + 1..])) + multiset{f(s[j])}
  {
    var all := Image(f, s);
    assert Image(f, s[..j] + s[j + 1..]) == all[..j] + all[j + 1..];
    CutMultiset(all, j);
  }

  ghost predicate NoDup<T>(s: seq<T>) {
    forall i, j :: 0 <= i < j < |s| ==> s[i] != s[j]
  }

  lemma {:induction false} NoDupCount<T>(s: seq<T>, x: T)
    requires NoDup(s)
    ensures multiset(s)[x] == if x in s then 1 else 0
  {
    if s != [] {
      NoDupCount(s[1..], x);
      assert s == [s[0]] + s[1..];
      assert s[0] !in s[1..];
    }
  }

  /** Without repetitions, the same elements are the same bag. */
  lemma NoDupMultiset<T>(a: seq<T>, b: seq<T>)
    requires NoDup(a) && NoDup(b) && forall x :: x in a <==> x in b
    ensures multiset(a) == multiset(b)
  {
    forall x ensures multiset(a)[x] == multiset(b)[x] {
      NoDupCount(a, x);
      NoDupCount(b, x);
    }
  }

  /** A bag without repetitions has none in any order. */
  lemma NoDupAnyOrder<T>(a: seq<T>, b: seq<T>)
    requires NoDup(a) && multiset(a) == multiset(b)
    ensures NoDup(b)
  {
    forall i, j | 0 <= i < j < |b| ensures b[i] != b[j] {
      if b[i] == b[j] {
        CutMultiset(b, i);
        var rest := b[..i] + b[i + 1..];
        assert rest[j - 1] == b[j];
        assert b[j] in rest;
        NoDupCount(a, b[i]);
      }
    }
  }

  lemma {:induction false} NoDupSize(s: seq<nat>, k: nat)
    requires NoDup(s) && forall i :: 0 <= i < |s| ==> s[i] < k
    ensures |s| <= k
    decreases k
  {
    SomeBelow(s, k);
    if k > 0 {
      if j: nat :| j < |s| && s[j] == k - 1 {
        var rest := s[..j] + s[j + 1..];
        forall i | 0 <= i < |rest| ensures rest[i] < k - 1 { assert rest[i] == s[if i < j then i else i + 1]; }
        NoDupSize(rest, k - 1);
      } else {
        NoDupSize(s, k - 1);
      }
    }
  }

  lemma SomeBelow(s: seq<nat>, k: nat)
    requires forall i :: 0 <= i < |s| ==> s[i] < k
    ensures s != [] ==> k > 0
  {
    if s != [] { assert s[0] < k; }
  }

  /** As many different numbers below `k` as there are: every one of them. */
  lemma CoversAll(s: seq<nat>, k: nat, j: nat)
    requires NoDup(s) && |s| == k && j < k && forall i :: 0 <= i < |s| ==> s[i] < k
    ensures j in s
  {
    if j !in s {
      var t := s + [j];
      NoDupSize(t, k);
    }
  }
}
