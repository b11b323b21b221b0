/** Registrants and the order on them (bot.py, `_pick_best` and the key
    tuples `_rank_key` builds): picking the best-ranked candidate, sorting,
    and the uniqueness of user ids. The concrete key is in `Ranking`. */
module Registrants {
  import opened Wrappers
  import opened Seqs

  /** One WvW registration. `role` is `""` when none was chosen (Python's
      falsy `None`/`""`); `updatedAt` is the already parsed epoch second. */
  datatype Registrant = Registrant(
    uid: int,
    attending: bool,
    klass: string,
    spec: string,
    role: string,
    displayName: string,
    updatedAt: int)

  /** `(tier rank, -updated_at, uid)`; compared lexicographically, lower is better. */
  datatype RankKey = RankKey(tier: int, freshness: int, uid: int)

  /** Python's `<=` on the key tuples. */
  predicate KeyLe(a: RankKey, b: RankKey)
  {
    || a.tier < b.tier
    || (a.tier == b.tier && a.freshness < b.freshness)
    || (a.tier == b.tier && a.freshness == b.freshness && a.uid <= b.uid)
  }

  /** `KeyLe` is a total order on keys. */
  lemma KeyLeIsTotalOrder(a: RankKey, b: RankKey, c: RankKey)
    ensures KeyLe(a, a)
    ensures KeyLe(a, b) || KeyLe(b, a)
    ensures KeyLe(a, b) && KeyLe(b, a) ==> a == b
    ensures KeyLe(a, b) && KeyLe(b, c) ==> KeyLe(a, c)
  {
  }

  /** The registrations come from a dict keyed by user id: ids are unique. */
  ghost predicate DistinctUids(s: seq<Registrant>)
  {
    forall i, j | 0 <= i < j < |s| :: s[i].uid != s[j].uid
  }

  /** With unique ids, an id identifies its registrant. */
  lemma UidIdentifies(s: seq<Registrant>, x: Registrant, y: Registrant)
    requires DistinctUids(s) && x in s && y in s && x.uid == y.uid
    ensures x == y
  {
    var i :| 0 <= i < |s| && s[i] == x;
    var j :| 0 <= j < |s| && s[j] == y;
    assert i == j;
  }

  function UidSet(s: seq<Registrant>): set<int>
  {
    set x | x in s :: x.uid
  }

  /** Keys that carry the registrant's id as their last component, as
      `_rank_key` does; this is what makes the order strict. */
  ghost predicate KeysById(key: Registrant -> RankKey)
  {
    forall x :: key(x).uid == x.uid
  }

  ghost predicate SortedBy(key: Registrant -> RankKey, s: seq<Registrant>)
  {
    forall i, j | 0 <= i < j < |s| :: KeyLe(key(s[i]), key(s[j]))
  }

  /** `_pick_best`: the best-ranked candidate whose role is allowed, or None
      when no candidate has an allowed role. Ties keep the earlier candidate,
      as a stable sort followed by `[0]` does. */
  function PickBest(key: Registrant -> RankKey, cands: seq<Registrant>, allow: seq<string>): (r: Option<Registrant>)
    ensures r.None? <==> forall x :: x in cands ==> x.role !in allow
    ensures r.Some? ==> r.value in cands && r.value.role in allow
    ensures r.Some? ==> forall x :: x in cands && x.role in allow ==> KeyLe(key(r.value), key(x))
    decreases |cands|
  {
    if |cands| == 0 then None
    else
      var rest := PickBest(key, cands[1..], allow);
      assert cands == [cands[0]] + cands[1..];
      if cands[0].role !in allow then rest
      else if rest.None? || KeyLe(key(cands[0]), key(rest.value)) then Some(cands[0])
      else rest
  }

  /** One step of the pick: the head against the best of the rest. */
  lemma PickBestCons(key: Registrant -> RankKey, x: Registrant, s: seq<Registrant>, allow: seq<string>)
    ensures var rest := PickBest(key, s, allow);
      PickBest(key, [x] + s, allow) ==
        if x.role !in allow then rest
        else if rest.None? || KeyLe(key(x), key(rest.value)) then Some(x)
        else rest
  {
    assert ([x] + s)[0] == x && ([x] + s)[1..] == s;
  }

  /** With unique ids the pick is the one and only best allowed candidate. */
  lemma PickBestUnique(key: Registrant -> RankKey, cands: seq<Registrant>, allow: seq<string>, x: Registrant)
    requires KeysById(key)
    requires DistinctUids(cands)
    requires x in cands && x.role in allow
    requires forall y :: y in cands && y.role in allow ==> KeyLe(key(x), key(y))
    ensures PickBest(key, cands, allow) == Some(x)
  {
    var p := PickBest(key, cands, allow).value;
    assert KeyLe(key(x), key(p)) && KeyLe(key(p), key(x));
    assert x.uid == p.uid;
    var i :| 0 <= i < |cands| && cands[i] == x;
    var j :| 0 <= j < |cands| && cands[j] == p;
    assert i == j;
  }

  /** Every element of `s` ranks no better than `lo`. */
  ghost predicate AllAbove(key: Registrant -> RankKey, lo: Registrant, s: seq<Registrant>)
  {
    forall j | 0 <= j < |s| :: KeyLe(key(lo), key(s[j]))
  }

  /** Inserts `x` before the first element it does not rank after. */
  function InsertBy(key: Registrant -> RankKey, x: Registrant, s: seq<Registrant>): seq<Registrant>
    decreases |s|
  {
    if |s| == 0 then [x]
    else if KeyLe(key(x), key(s[0])) then [x] + s
    else [s[0]] + InsertBy(key, x, s[1..])
  }

  /** Insertion into a sorted list keeps it sorted, and a lower bound of
      the list and of `x` bounds the result. */
  lemma {:induction false} InsertKeepsSorted(key: Registrant -> RankKey, x: Registrant, s: seq<Registrant>)
    requires SortedBy(key, s)
    ensures SortedBy(key, InsertBy(key, x, s))
    ensures forall lo :: AllAbove(key, lo, s) && KeyLe(key(lo), key(x)) ==> AllAbove(key, lo, InsertBy(key, x, s))
    decreases |s|
  {
    if |s| > 0 && !KeyLe(key(x), key(s[0])) {
      InsertKeepsSorted(key, x, s[1..]);
      assert AllAbove(key, s[0], s[1..]);
    }
  }

  /** Insertion adds exactly `x`: nothing is lost or duplicated. */
  lemma {:induction false} InsertIsPermutation(key: Registrant -> RankKey, x: Registrant, s: seq<Registrant>)
    ensures multiset(InsertBy(key, x, s)) == multiset(s) + multiset{x}
    decreases |s|
  {
    if |s| > 0 && !KeyLe(key(x), key(s[0])) {
      InsertIsPermutation(key, x, s[1..]);
      assert s == [s[0]] + s[1..];
    }
  }

  /** Inserting a registrant with a new id keeps the ids unique. */
  lemma {:induction false} InsertKeepsDistinct(key: Registrant -> RankKey, x: Registrant, s: seq<Registrant>)
    requires DistinctUids(s)
    requires forall j | 0 <= j < |s| :: s[j].uid != x.uid
    ensures DistinctUids(InsertBy(key, x, s))
    decreases |s|
  {
    if |s| > 0 && !KeyLe(key(x), key(s[0])) {
      var rest := InsertBy(key, x, s[1..]);
      InsertKeepsDistinct(key, x, s[1..]);
      InsertIsPermutation(key, x, s[1..]);
      assert InsertBy(key, x, s) == [s[0]] + rest;
      forall j | 0 <= j < |rest|
        ensures rest[j].uid != s[0].uid
      {
        assert rest[j] in multiset(s[1..]) + multiset{x};
        if rest[j] != x {
          var k :| 0 <= k < |s[1..]| && s[1..][k] == rest[j];
          assert s[k + 1] == rest[j];
        }
      }
    }
  }

  /** `list.sort(key=...)`, as insertion sort. */
  function SortBy(key: Registrant -> RankKey, s: seq<Registrant>): seq<Registrant>
    decreases |s|
  {
    if |s| == 0 then [] else InsertBy(key, s[0], SortBy(key, s[1..]))
  }

  /** Sorting sorts. */
  lemma {:induction false} SortIsSorted(key: Registrant -> RankKey, s: seq<Registrant>)
    ensures SortedBy(key, SortBy(key, s))
    decreases |s|
  {
    if |s| > 0 {
      SortIsSorted(key, s[1..]);
      InsertKeepsSorted(key, s[0], SortBy(key, s[1..]));
    }
  }

  /** Sorting only reorders. */
  lemma {:induction false} SortIsPermutation(key: Registrant -> RankKey, s: seq<Registrant>)
    ensures multiset(SortBy(key, s)) == multiset(s)
    decreases |s|
  {
    if |s| > 0 {
      var rest := SortBy(key, s[1..]);
      SortIsPermutation(key, s[1..]);
      InsertIsPermutation(key, s[0], rest);
      assert SortBy(key, s) == InsertBy(key, s[0], rest);
      assert multiset(s) == multiset(s[1..]) + multiset{s[0]} by {
        assert s == [s[0]] + s[1..];
      }
    }
  }

  /** Sorting registrants with unique ids keeps the ids unique. */
  lemma {:induction false} SortKeepsDistinct(key: Registrant -> RankKey, s: seq<Registrant>)
    requires DistinctUids(s)
    ensures DistinctUids(SortBy(key, s))
    decreases |s|
  {
    if |s| > 0 {
      var rest := SortBy(key, s[1..]);
      SortKeepsDistinct(key, s[1..]);
      SortIsPermutation(key, s[1..]);
      assert forall j | 0 <= j < |rest| :: rest[j] in multiset(s[1..]);
      assert forall y | y in s[1..] :: y.uid != s[0].uid;
      InsertKeepsDistinct(key, s[0], rest);
    }
  }

  /** A sub-list picked by a condition keeps unique ids. */
  lemma {:induction false} FilterKeepsDistinct(f: Registrant -> bool, s: seq<Registrant>)
    requires DistinctUids(s)
    ensures DistinctUids(Filter(f, s))
    decreases |s|
  {
    if |s| > 0 {
      FilterKeepsDistinct(f, s[1..]);
      var rest := Filter(f, s[1..]);
      assert forall y :: y in rest ==> y in s[1..];
      assert forall y :: y in s[1..] ==> y.uid != s[0].uid;
      assert Filter(f, s) == (if f(s[0]) then [s[0]] else []) + rest;
    }
  }

  /** A sub-list picked by a condition keeps the order. */
  lemma {:induction false} FilterKeepsSorted(key: Registrant -> RankKey, f: Registrant -> bool, s: seq<Registrant>)
    requires SortedBy(key, s)
    ensures SortedBy(key, Filter(f, s))
    decreases |s|
  {
    if |s| > 0 {
      FilterKeepsSorted(key, f, s[1..]);
      var rest := Filter(f, s[1..]);
      assert forall y :: y in rest ==> y in s[1..];
      assert forall y :: y in s[1..] ==> KeyLe(key(s[0]), key(y));
      assert Filter(f, s) == (if f(s[0]) then [s[0]] else []) + rest;
    }
  }
}
