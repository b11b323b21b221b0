/** Small sequence helpers: list comprehensions with a condition, and
    lookups in insertion-ordered key/value tables (Python dicts). */
module Seqs {
  import opened Wrappers

  /** `[x for x in s if f(x)]`: keeps the elements satisfying `f`, in order. */
  function Filter<T(!new)>(f: T -> bool, s: seq<T>): (r: seq<T>)
    ensures |r| <= |s|
    ensures forall x :: x in r <==> x in s && f(x)
    decreases |s|
  {
    if |s| == 0 then []
    else
      assert s == [s[0]] + s[1..];
      (if f(s[0]) then [s[0]] else []) + Filter(f, s[1..])
  }

  /** A filter of a concatenation is the concatenation of the filters. */
  lemma {:induction false} FilterAppend<T(!new)>(f: T -> bool, a: seq<T>, b: seq<T>)
    ensures Filter(f, a + b) == Filter(f, a) + Filter(f, b)
    decreases |a|
  {
    if |a| == 0 {
      assert a + b == b;
    } else {
      assert (a + b)[0] == a[0];
      assert (a + b)[1..] == a[1..] + b;
      FilterAppend(f, a[1..], b);
    }
  }

  /** Filtering a prefix gives a prefix of the filtered sequence. */
  lemma PrefixFilter<T(!new)>(f: T -> bool, s: seq<T>, k: nat)
    requires k <= |s|
    ensures var p := Filter(f, s[..k]);
      |p| <= |Filter(f, s)| && p == Filter(f, s)[..|p|]
  {
    assert s == s[..k] + s[k..];
    FilterAppend(f, s[..k], s[k..]);
  }

  /** Two conditions that agree on every element keep the same elements. */
  lemma {:induction false} FilterSame<T(!new)>(f: T -> bool, g: T -> bool, s: seq<T>)
    requires forall x | x in s :: f(x) == g(x)
    ensures Filter(f, s) == Filter(g, s)
    decreases |s|
  {
    if |s| > 0 {
      FilterSame(f, g, s[1..]);
    }
  }

  /** A condition no element satisfies keeps nothing. */
  lemma {:induction false} FilterNone<T(!new)>(f: T -> bool, s: seq<T>)
    requires forall x | x in s :: !f(x)
    ensures Filter(f, s) == []
    decreases |s|
  {
    if |s| > 0 {
      assert s[0] in s;
      FilterNone(f, s[1..]);
    }
  }

  /** A filter keeps something exactly when some element satisfies the condition. */
  lemma FilterNonEmpty<T(!new)>(f: T -> bool, s: seq<T>)
    ensures |Filter(f, s)| > 0 <==> exists x :: x in s && f(x)
  {
    var r := Filter(f, s);
    if |r| > 0 {
      assert r[0] in r;
    }
  }

  /** `a` is `b` with some elements deleted: its elements occur in `b` in
      the same relative order. */
  predicate IsSubseq<T(==)>(a: seq<T>, b: seq<T>)
    decreases |b|
  {
    if |a| == 0 then true
    else if |b| == 0 then false
    else if a[0] == b[0] then IsSubseq(a[1..], b[1..])
    else IsSubseq(a, b[1..])
  }

  /** A filter keeps the relative order of what it keeps. */
  lemma {:induction false} FilterIsSubseq<T(!new)>(f: T -> bool, s: seq<T>)
    ensures IsSubseq(Filter(f, s), s)
    decreases |s|
  {
    if |s| > 0 {
      var r := Filter(f, s);
      FilterIsSubseq(f, s[1..]);
      if f(s[0]) {
        assert r[0] == s[0] && r[1..] == Filter(f, s[1..]);
      } else {
        assert r == Filter(f, s[1..]);
        if |r| > 0 {
          assert r[0] in r && r[0] != s[0];
        }
      }
    }
  }

  /** A filter keeps every copy of an element it keeps, and no copy of one it
      drops. */
  lemma {:induction false} FilterCount<T(!new)>(f: T -> bool, s: seq<T>, x: T)
    ensures multiset(Filter(f, s))[x] == if f(x) then multiset(s)[x] else 0
    decreases |s|
  {
    if |s| > 0 {
      FilterCount(f, s[1..], x);
      assert s == [s[0]] + s[1..];
      assert multiset(s) == multiset{s[0]} + multiset(s[1..]);
      var head := if f(s[0]) then [s[0]] else [];
      assert multiset(Filter(f, s)) == multiset(head) + multiset(Filter(f, s[1..]));
    }
  }

  /** `d.get(k)` on a dict given as its insertion-ordered items. */
  function Lookup<V>(kvs: seq<(string, V)>, k: string): (r: Option<V>)
    ensures r.None? <==> forall i :: 0 <= i < |kvs| ==> kvs[i].0 != k
    ensures r.Some? ==> (k, r.value) in kvs
    decreases |kvs|
  {
    if |kvs| == 0 then None
    else if kvs[0].0 == k then Some(kvs[0].1)
    else
      var r := Lookup(kvs[1..], k);
      assert forall i :: 1 <= i < |kvs| ==> kvs[i] == kvs[1..][i - 1];
      r
  }
}
