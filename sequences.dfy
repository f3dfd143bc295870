/** `uniquify` (pyjstat/pyjstat.py:352-366): the distinct elements of a list in
    the order of their first occurrence, and the facts about it the encoder
    relies on. */
module Sequences {

  predicate NoDuplicates<T(==)>(s: seq<T>) {
    forall i, j :: 0 <= i < j < |s| ==> s[i] != s[j]
  }

  /** `a` is `b` with some elements left out, the others in their order. */
  predicate IsSubsequence<T(==)>(a: seq<T>, b: seq<T>)
    decreases |b|
  {
    if |a| == 0 then true
    else if |b| == 0 then false
    else (a[|a| - 1] == b[|b| - 1] && IsSubsequence(a[..|a| - 1], b[..|b| - 1])) || IsSubsequence(a, b[..|b| - 1])
  }

  /** A list without duplicates holds each element at most once. */
  lemma {:induction false} NoDuplicatesCount<T>(s: seq<T>, x: T)
    requires NoDuplicates(s)
    ensures multiset(s)[x] <= 1
    decreases |s|
  {
    if |s| > 0 {
      assert s == [s[0]] + s[1..];
      assert NoDuplicates(s[1..]) by {
        forall i, j | 0 <= i < j < |s| - 1 ensures s[1..][i] != s[1..][j] {
          assert s[1..][i] == s[i + 1] && s[1..][j] == s[j + 1];
        }
      }
      NoDuplicatesCount(s[1..], x);
      if s[0] == x {
        assert x !in s[1..] by {
          forall i | 0 <= i < |s| - 1 ensures s[1..][i] != x {
            assert s[1..][i] == s[i + 1];
          }
        }
      }
    }
  }

  /** An element at two positions occurs at least twice. */
  lemma TwoOccurrences<T>(s: seq<T>, i: nat, j: nat)
    requires i < j < |s| && s[i] == s[j]
    ensures multiset(s)[s[i]] >= 2
  {
    assert s == s[..j] + s[j..];
    assert s[..j][i] == s[i];
    assert s[j..][0] == s[j];
  }

  /** Position of the first occurrence of `x` in `s`. */
  function FirstIndex<T(==)>(s: seq<T>, x: T): (k: nat)
    requires x in s
    ensures k < |s| && s[k] == x
    ensures forall j :: 0 <= j < k ==> s[j] != x
  {
    if s[0] == x then 0 else 1 + FirstIndex(s[1..], x)
  }

  /** The comprehension `[x for x in seq if x not in seen and not seen_add(x)]`:
      an element is kept when no earlier element equals it. The set `seen` is
      the set of elements kept so far, so the list is built from the prefix. */
  function Uniquify<T(==)>(s: seq<T>): (r: seq<T>)
    ensures NoDuplicates(r)
    ensures forall i :: 0 <= i < |s| ==> s[i] in r
    ensures forall i :: 0 <= i < |r| ==> r[i] in s
    ensures |r| <= |s|
    decreases |s|
  {
    if |s| == 0 then []
    else
      var kept := Uniquify(s[..|s| - 1]);
      var x := s[|s| - 1];
      assert forall i :: 0 <= i < |s| - 1 ==> s[i] == s[..|s| - 1][i];
      if x in kept then kept else kept + [x]
  }

  /** Elements come out ordered by the position of their first occurrence. */
  lemma {:induction false} UniquifyFirstSeenOrder<T>(s: seq<T>, i: nat, j: nat)
    requires i < j < |Uniquify(s)|
    ensures FirstIndex(s, Uniquify(s)[i]) < FirstIndex(s, Uniquify(s)[j])
  {
    var p := s[..|s| - 1];
    var x := s[|s| - 1];
    var kept := Uniquify(p);
    var r := Uniquify(s);
    assert s == p + [x];
    if j < |kept| {
      assert r[i] == kept[i] && r[j] == kept[j];
      UniquifyFirstSeenOrder(p, i, j);
      FirstIndexOfPrefix(p, x, kept[i]);
      FirstIndexOfPrefix(p, x, kept[j]);
    } else {
      assert x !in kept && r == kept + [x] && r[j] == x;
      assert x !in p;
      assert FirstIndex(s, x) == |s| - 1;
      assert r[i] == kept[i];
      FirstIndexOfPrefix(p, x, kept[i]);
    }
  }

  lemma FirstIndexOfPrefix<T>(p: seq<T>, x: T, y: T)
    requires y in p
    ensures y in p + [x] && FirstIndex(p + [x], y) == FirstIndex(p, y)
  {
    var s := p + [x];
    assert forall j :: 0 <= j < |p| ==> s[j] == p[j];
    assert s[FirstIndex(p, y)] == y;
  }

  /** A list that already has no duplicates is returned unchanged. */
  lemma {:induction false} UniquifyOfDistinct<T>(s: seq<T>)
    requires NoDuplicates(s)
    ensures Uniquify(s) == s
  {
    if |s| > 0 {
      var p := s[..|s| - 1];
      assert NoDuplicates(p);
      UniquifyOfDistinct(p);
      assert s[|s| - 1] !in p;
      assert p + [s[|s| - 1]] == s;
    }
  }

  /** Applying `uniquify` twice is the same as applying it once. */
  lemma UniquifyIdempotent<T>(s: seq<T>)
    ensures Uniquify(Uniquify(s)) == Uniquify(s)
  {
    UniquifyOfDistinct(Uniquify(s));
  }
}
