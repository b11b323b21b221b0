/** Build recommendations (bot.py, `best_specs_for_role`): the built-in
    (class, spec) pairs whose resolved roles include a role, best tier first,
    cut to a limit with Python's slice semantics. */
module Recommend {
  import opened Seqs
  import opened Meta

  /** A matching pair and its tier rank. */
  datatype Candidate = Candidate(key: SpecKey, rank: nat)

  /** `best_specs_for_role`'s default `limit`. */
  const DefaultLimit: int := 2

  /** The (class, spec) pairs of a table shaped like `ELITE_SPECS_BASE`, class
      by class, each class's specs in table order. */
  function TableKeys(table: Table): (r: seq<SpecKey>)
    ensures forall k :: k in r <==>
      exists i, j :: 0 <= i < |table| && 0 <= j < |table[i].1| && k == SpecKey(table[i].0, table[i].1[j].0)
    decreases |table|
  {
    if |table| == 0 then []
    else
      var rest := TableKeys(table[1..]);
      assert forall i :: 1 <= i < |table| ==> table[i] == table[1..][i - 1];
      SpecKeys(table[0].0, table[0].1) + rest
  }

  function SpecKeys(klass: string, specs: seq<(string, BaseEntry)>): (r: seq<SpecKey>)
    ensures |r| == |specs|
    ensures forall j :: 0 <= j < |r| ==> r[j] == SpecKey(klass, specs[j].0)
  {
    seq(|specs|, j requires 0 <= j < |specs| => SpecKey(klass, specs[j].0))
  }

  type Table = seq<(string, seq<(string, BaseEntry)>)>

  /** How many (class, spec) pairs a table lists. */
  function PairCount(table: Table): nat
    decreases |table|
  {
    if |table| == 0 then 0 else |table[0].1| + PairCount(table[1..])
  }

  /** Where class `i`'s pairs start in the visiting order: after every pair
      of the classes before it. */
  function ClassStart(table: Table, i: nat): nat
    requires i <= |table|
  {
    PairCount(table[..i])
  }

  /** A table lists its first class's pairs, then the rest's. */
  lemma PairCountSplit(table: Table, i: nat)
    requires 0 < i <= |table|
    ensures ClassStart(table, i) == |table[0].1| + ClassStart(table[1..], i - 1)
  {
    assert table[..i][1..] == table[1..][..i - 1];
  }

  /** Class `i`'s pairs fill the positions from `ClassStart(table, i)` on,
      in the class's own spec order. */
  lemma {:induction false} TableKeysAt(table: Table, i: nat)
    requires i < |table|
    ensures var r, c := TableKeys(table), ClassStart(table, i);
      && c + |table[i].1| <= |r|
      && r[c..c + |table[i].1|] == SpecKeys(table[i].0, table[i].1)
    decreases i
  {
    var r := TableKeys(table);
    var head := SpecKeys(table[0].0, table[0].1);
    var rest := table[1..];
    assert r == head + TableKeys(rest);
    if i == 0 {
      assert table[..0] == [];
      assert r[..|head|] == head;
    } else {
      TableKeysAt(rest, i - 1);
      PairCountSplit(table, i);
      assert rest[i - 1] == table[i];
      SliceAfter(head, TableKeys(rest), ClassStart(rest, i - 1), |table[i].1|);
    }
  }

  /** A slice of the second half of a concatenation, shifted by the first. */
  lemma SliceAfter<T>(a: seq<T>, b: seq<T>, c: nat, n: nat)
    requires c + n <= |b|
    ensures (a + b)[|a| + c..|a| + c + n] == b[c..c + n]
  {
  }

  /** Later classes start after every pair of the earlier ones. */
  lemma {:induction false} ClassStartGrows(table: Table, i: nat, k: nat)
    requires i < k <= |table|
    ensures ClassStart(table, i) + |table[i].1| <= ClassStart(table, k)
    decreases k
  {
    var p := table[..k];
    assert p == table[..k - 1] + [table[k - 1]];
    PairCountAppend(table[..k - 1], table[k - 1]);
    if i < k - 1 {
      ClassStartGrows(table, i, k - 1);
    }
  }

  lemma {:induction false} PairCountAppend(s: Table, x: (string, seq<(string, BaseEntry)>))
    ensures PairCount(s + [x]) == PairCount(s) + |x.1|
    decreases |s|
  {
    if |s| > 0 {
      assert (s + [x])[1..] == s[1..] + [x];
      PairCountAppend(s[1..], x);
    }
  }

  /** The pairs come class by class in table order, each class's specs in
      its own order: spec `j` of class `i` comes before spec `l` of class `k`
      when `i < k`, or `i == k` and `j < l`. */
  lemma TableKeysOrder(table: Table, i: nat, j: nat, k: nat, l: nat)
    requires i < |table| && j < |table[i].1| && k < |table| && l < |table[k].1|
    requires i < k || (i == k && j < l)
    ensures var r := TableKeys(table);
      var p, q := ClassStart(table, i) + j, ClassStart(table, k) + l;
      && p < q < |r|
      && r[p] == SpecKey(table[i].0, table[i].1[j].0)
      && r[q] == SpecKey(table[k].0, table[k].1[l].0)
  {
    var r := TableKeys(table);
    var ci, ck := ClassStart(table, i), ClassStart(table, k);
    TableKeysAt(table, i);
    TableKeysAt(table, k);
    assert r[ci + j] == r[ci..ci + |table[i].1|][j];
    assert r[ck + l] == r[ck..ck + |table[k].1|][l];
    if i < k {
      ClassStartGrows(table, i, k);
    }
  }

  /** The nested loops: every pair whose resolved roles contain `role`, with
      its tier rank, in table order. */
  function Candidates(t: Tables, role: string, keys: seq<SpecKey>): (r: seq<Candidate>)
    ensures |r| <= |keys|
    decreases |keys|
  {
    if |keys| == 0 then []
    else
      var k := keys[0];
      var meta := ResolveSpecMeta(t, k.klass, k.spec);
      (if role in meta.roles then [Candidate(k, TierRank(meta.tier))] else []) + Candidates(t, role, keys[1..])
  }

  /** A candidate list holds exactly the matching pairs, each with its rank. */
  lemma {:induction false} CandidatesSpec(t: Tables, role: string, keys: seq<SpecKey>)
    ensures forall c :: c in Candidates(t, role, keys) <==> c.key in keys && Matches(t, role, c)
    decreases |keys|
  {
    if |keys| > 0 {
      CandidatesSpec(t, role, keys[1..]);
      assert keys == [keys[0]] + keys[1..];
    }
  }

  /** Ranks never decrease along the list. */
  ghost predicate RankSorted(s: seq<Candidate>)
  {
    forall i, j | 0 <= i < j < |s| :: s[i].rank <= s[j].rank
  }

  /** The candidates of one rank, in list order. */
  function AtRank(s: seq<Candidate>, n: nat): seq<Candidate>
  {
    Filter((c: Candidate) => c.rank == n, s)
  }

  /** Puts `c` before the first element it does not rank after. */
  function Insert(c: Candidate, s: seq<Candidate>): (r: seq<Candidate>)
    ensures |r| == |s| + 1
    ensures forall x :: x in r <==> x == c || x in s
    decreases |s|
  {
    if |s| == 0 || c.rank <= s[0].rank then [c] + s
    else [s[0]] + Insert(c, s[1..])
  }

  /** `candidates.sort(key=lambda x: x[2])`: Python's stable sort on the rank. */
  function SortByRank(s: seq<Candidate>): (r: seq<Candidate>)
    ensures |r| == |s|
    ensures forall x :: x in r <==> x in s
    decreases |s|
  {
    if |s| == 0 then [] else Insert(s[0], SortByRank(s[1..]))
  }

  lemma {:induction false} InsertSorted(c: Candidate, s: seq<Candidate>)
    requires RankSorted(s)
    ensures RankSorted(Insert(c, s))
    decreases |s|
  {
    if |s| > 0 && c.rank > s[0].rank {
      InsertSorted(c, s[1..]);
      var r := Insert(c, s);
      assert r == [s[0]] + Insert(c, s[1..]);
      forall i, j | 0 <= i < j < |r|
        ensures r[i].rank <= r[j].rank
      {
        if i == 0 {
          assert r[j] in Insert(c, s[1..]);
          assert r[j] == c || r[j] in s[1..];
        }
      }
    }
  }

  /** Inserting keeps every other rank's candidates where they were and puts
      `c` first among its own rank. */
  lemma {:induction false} InsertAtRank(c: Candidate, s: seq<Candidate>, n: nat)
    ensures AtRank(Insert(c, s), n) == (if c.rank == n then [c] else []) + AtRank(s, n)
    decreases |s|
  {
    var f := (x: Candidate) => x.rank == n;
    if |s| == 0 || c.rank <= s[0].rank {
      FilterAppend(f, [c], s);
    } else {
      InsertAtRank(c, s[1..], n);
      FilterAppend(f, [s[0]], Insert(c, s[1..]));
      FilterAppend(f, [s[0]], s[1..]);
      assert s == [s[0]] + s[1..];
    }
  }

  /** The sort is stable and sorted: ranks never decrease, and the candidates
      of each rank keep their original order. These two facts determine the
      result. */
  lemma SortByRankSpec(s: seq<Candidate>)
    ensures RankSorted(SortByRank(s))
    ensures forall n: nat :: AtRank(SortByRank(s), n) == AtRank(s, n)
  {
    SortByRankSorted(s);
    SortByRankStable(s);
  }

  /** Ranks never decrease along the sorted list. */
  lemma {:induction false} SortByRankSorted(s: seq<Candidate>)
    ensures RankSorted(SortByRank(s))
    decreases |s|
  {
    if |s| > 0 {
      SortByRankSorted(s[1..]);
      InsertSorted(s[0], SortByRank(s[1..]));
    }
  }

  /** Each rank's candidates keep their original order. */
  lemma {:induction false} SortByRankStable(s: seq<Candidate>)
    ensures forall n: nat :: AtRank(SortByRank(s), n) == AtRank(s, n)
    decreases |s|
  {
    if |s| > 0 {
      SortByRankStable(s[1..]);
      forall n: nat
        ensures AtRank(SortByRank(s), n) == AtRank(s, n)
      {
        InsertAtRank(s[0], SortByRank(s[1..]), n);
        FilterAppend((x: Candidate) => x.rank == n, [s[0]], s[1..]);
        assert s == [s[0]] + s[1..];
      }
    }
  }

  /** Python's `s[:limit]`: a negative limit counts from the end. */
  function SliceTo<T>(s: seq<T>, limit: int): (r: seq<T>)
    ensures limit >= 0 ==> |r| == if limit < |s| then limit else |s|
    ensures limit < 0 ==> |r| == if |s| + limit > 0 then |s| + limit else 0
    ensures r == s[..|r|]
  {
    var n := if limit >= 0 then limit else |s| + limit;
    if n <= 0 then [] else if n >= |s| then s else s[..n]
  }

  /** The matching candidates of `keys`, best tier first, cut to `limit`. */
  function TopCandidates(t: Tables, role: string, keys: seq<SpecKey>, limit: int): seq<Candidate>
  {
    SliceTo(SortByRank(Candidates(t, role, keys)), limit)
  }

  /** `f"{klass} - {spec}"`. */
  function Describe(k: SpecKey): string
  {
    k.klass + " - " + k.spec
  }

  function DescribeAll(top: seq<Candidate>): (r: seq<string>)
    ensures |r| == |top|
    ensures forall i :: 0 <= i < |r| ==> r[i] == Describe(top[i].key)
  {
    seq(|top|, i requires 0 <= i < |top| => Describe(top[i].key))
  }

  /** Every built-in pair, in the order the nested loops visit them. */
  const BaseKeys: seq<SpecKey> := TableKeys(EliteSpecsBase)

  /** `best_specs_for_role(role, limit)`, visiting the pairs of `keys`. */
  function Recommendations(t: Tables, role: string, keys: seq<SpecKey>, limit: int): seq<string>
  {
    DescribeAll(TopCandidates(t, role, keys, limit))
  }

  /** `best_specs_for_role(role, limit)` over the built-in table. */
  function BestSpecsForRole(t: Tables, role: string, limit: int): seq<string>
  {
    Recommendations(t, role, BaseKeys, limit)
  }

  /** A pair whose resolved roles include `role`. */
  ghost predicate Suits(t: Tables, role: string, k: SpecKey)
  {
    role in ResolveSpecMeta(t, k.klass, k.spec).roles
  }

  /** A candidate for `role`: its resolved roles contain `role` and it
      carries its pair's tier rank. */
  ghost predicate Matches(t: Tables, role: string, c: Candidate)
  {
    Suits(t, role, c.key) && c.rank == TierRankOf(t, c.key.klass, c.key.spec)
  }

  /** Cutting the sorted list: at most `limit` entries, as many as there are
      when the limit allows, ranks never decreasing, and nothing left out
      ranking better than anything kept. */
  lemma SortedPrefix(all: seq<Candidate>, limit: int)
    ensures var top := SliceTo(SortByRank(all), limit);
      && (limit >= 0 ==> |top| == if limit < |all| then limit else |all|)
      && (forall c :: c in top ==> c in all)
      && RankSorted(top)
      && (forall c, d :: c in top && d in all && d !in top ==> c.rank <= d.rank)
  {
    var sorted := SortByRank(all);
    var top := SliceTo(sorted, limit);
    SortByRankSorted(all);
    PrefixRanksFirst(sorted, |top|);
  }

  /** In a sorted list, a prefix ranks no worse than anything after it. */
  lemma PrefixRanksFirst(sorted: seq<Candidate>, m: nat)
    requires RankSorted(sorted) && m <= |sorted|
    ensures forall c, d :: c in sorted[..m] && d in sorted && d !in sorted[..m] ==> c.rank <= d.rank
  {
    var top := sorted[..m];
    forall c, d | c in top && d in sorted && d !in top
      ensures c.rank <= d.rank
    {
      var i :| 0 <= i < |top| && top[i] == c;
      var j :| 0 <= j < |sorted| && sorted[j] == d;
      assert forall k | 0 <= k < |top| :: top[k] != d;
      assert sorted[i] == c && i < |top| <= j;
    }
  }

  /** The reported candidates: at most `limit`, as many as match when the
      limit allows, each a listed pair matching `role`, ranks never
      decreasing, and no matching pair left out ranking better. */
  lemma TopCandidatesSpec(t: Tables, role: string, keys: seq<SpecKey>, limit: int)
    ensures var all := Candidates(t, role, keys);
      var top := TopCandidates(t, role, keys, limit);
      && (limit >= 0 ==> |top| == if limit < |all| then limit else |all|)
      && (forall c :: c in top ==> c.key in keys && Matches(t, role, c))
      && RankSorted(top)
      && (forall c, d :: c in top && d in all && d !in top ==> c.rank <= d.rank)
  {
    CandidatesSpec(t, role, keys);
    SortedPrefix(Candidates(t, role, keys), limit);
  }

  /** The order among equal tiers is the table's: the reported candidates of
      one rank are the first of that rank in table order. */
  lemma TopKeepsTableOrder(t: Tables, role: string, keys: seq<SpecKey>, limit: int, n: nat)
    ensures var top := AtRank(TopCandidates(t, role, keys, limit), n);
      |top| <= |AtRank(Candidates(t, role, keys), n)| && top == AtRank(Candidates(t, role, keys), n)[..|top|]
  {
    var all := Candidates(t, role, keys);
    var sorted := SortByRank(all);
    var top := TopCandidates(t, role, keys, limit);
    SortByRankStable(all);
    assert top == sorted[..|top|];
    PrefixFilter((c: Candidate) => c.rank == n, sorted, |top|);
  }

  /** Each recommendation describes, in order, a reported candidate: a
      listed pair matching `role`; there are at most `limit` of them. */
  lemma RecommendationsSpec(t: Tables, role: string, keys: seq<SpecKey>, limit: int)
    ensures var r := Recommendations(t, role, keys, limit); var top := TopCandidates(t, role, keys, limit);
      && |r| == |top|
      && (limit >= 0 ==> |r| <= limit)
      && forall i | 0 <= i < |r| :: r[i] == Describe(top[i].key) && top[i].key in keys && Matches(t, role, top[i])
  {
    var top := TopCandidates(t, role, keys, limit);
    TopCandidatesSpec(t, role, keys, limit);
    assert forall i | 0 <= i < |top| :: top[i] in top;
  }

  /** Over the built-in table: line `i` describes the `i`-th reported
      candidate, a built-in pair whose resolved roles include `role`; there
      are at most `limit` lines. */
  lemma BestSpecsForRoleSpec(t: Tables, role: string, limit: int)
    ensures var r := BestSpecsForRole(t, role, limit); var top := TopCandidates(t, role, BaseKeys, limit);
      && |r| == |top|
      && (limit >= 0 ==> |r| <= limit)
      && forall i | 0 <= i < |r| :: r[i] == Describe(top[i].key) && top[i].key in BaseKeys && Suits(t, role, top[i].key)
  {
    RecommendationsSpec(t, role, BaseKeys, limit);
  }
}
