/** The role-gap predictor (bot.py, `_role_counts_from_attending` and
    `preview_next_missing_role`): which support role, if any, keeps the next
    squad from being formed, judged from role counts alone. */
module Predictor {
  import opened Wrappers
  import opened Seqs
  import opened Roles
  import opened Registrants

  /** Registrants per canonical role bucket. */
  datatype Counts = Counts(
    commander: nat,
    primary: nat,
    secondary: nat,
    tertiary: nat,
    stripDps: nat,
    dps: nat,
    utility: nat)

  const NoCounts: Counts := Counts(0, 0, 0, 0, 0, 0, 0)

  /** `base[r] += 1` for a bucket role; any other role is ignored. */
  function Bump(c: Counts, role: string): Counts
  {
    if role == RoleCommander then c.(commander := c.commander + 1)
    else if role == RolePrimary then c.(primary := c.primary + 1)
    else if role == RoleSecondary then c.(secondary := c.secondary + 1)
    else if role == RoleTertiary then c.(tertiary := c.tertiary + 1)
    else if role == RoleStripDps then c.(stripDps := c.stripDps + 1)
    else if role == RoleDps then c.(dps := c.dps + 1)
    else if role == RoleUtility then c.(utility := c.utility + 1)
    else c
  }

  /** `_role_counts_from_attending`: one pass over the pool, bumping buckets. */
  function RoleCounts(pool: seq<Registrant>): Counts
    decreases |pool|
  {
    if |pool| == 0 then NoCounts
    else Bump(RoleCounts(pool[..|pool| - 1]), pool[|pool| - 1].role)
  }

  /** Reference count: how many registrants in the pool hold `role`. */
  function CountRole(pool: seq<Registrant>, role: string): nat
    decreases |pool|
  {
    if |pool| == 0 then 0
    else (if pool[0].role == role then 1 else 0) + CountRole(pool[1..], role)
  }

  lemma {:induction false} CountRoleAppend(a: seq<Registrant>, b: seq<Registrant>, role: string)
    ensures CountRole(a + b, role) == CountRole(a, role) + CountRole(b, role)
    decreases |a|
  {
    if |a| > 0 {
      assert (a + b)[1..] == a[1..] + b;
      CountRoleAppend(a[1..], b, role);
    } else {
      assert a + b == b;
    }
  }

  /** The loop's tally in each bucket is the number of registrants holding
      that bucket's role. */
  lemma {:induction false} RoleCountsAreBucketCounts(pool: seq<Registrant>)
    ensures RoleCounts(pool).commander == CountRole(pool, RoleCommander)
    ensures RoleCounts(pool).primary == CountRole(pool, RolePrimary)
    ensures RoleCounts(pool).secondary == CountRole(pool, RoleSecondary)
    ensures RoleCounts(pool).tertiary == CountRole(pool, RoleTertiary)
    ensures RoleCounts(pool).stripDps == CountRole(pool, RoleStripDps)
    ensures RoleCounts(pool).dps == CountRole(pool, RoleDps)
    ensures RoleCounts(pool).utility == CountRole(pool, RoleUtility)
    decreases |pool|
  {
    if |pool| > 0 {
      var init := pool[..|pool| - 1];
      var last := pool[|pool| - 1];
      RoleCountsAreBucketCounts(init);
      assert pool == init + [last];
      forall role | true
        ensures CountRole(pool, role) == CountRole(init, role) + (if last.role == role then 1 else 0)
      {
        CountRoleAppend(init, [last], role);
      }
    }
  }

  /** Reordering the pool does not change any role's count. */
  lemma {:induction false} CountRolePermutation(a: seq<Registrant>, b: seq<Registrant>, role: string)
    requires multiset(a) == multiset(b)
    ensures CountRole(a, role) == CountRole(b, role)
    decreases |a|
  {
    if |a| > 0 {
      var x := a[0];
      assert x in multiset(b);
      var k :| 0 <= k < |b| && b[k] == x;
      var b' := b[..k] + b[k + 1..];
      RemoveAt(b, k);
      assert multiset(a[1..]) == multiset(a) - multiset{x} by {
        assert a == [x] + a[1..];
      }
      CountRolePermutation(a[1..], b', role);
      CountRoleRemoveAt(b, k, role);
      assert CountRole(a, role) == (if x.role == role then 1 else 0) + CountRole(a[1..], role);
    } else {
      assert |b| == |multiset(b)| == 0;
    }
  }

  /** Dropping the element at `k` drops exactly one copy of it. */
  lemma RemoveAt(b: seq<Registrant>, k: nat)
    requires k < |b|
    ensures multiset(b[..k] + b[k + 1..]) == multiset(b) - multiset{b[k]}
  {
    assert b == b[..k] + [b[k]] + b[k + 1..];
  }

  /** Dropping the element at `k` lowers only its own role's count, by one. */
  lemma CountRoleRemoveAt(b: seq<Registrant>, k: nat, role: string)
    requires k < |b|
    ensures CountRole(b, role) == CountRole(b[..k] + b[k + 1..], role) + (if b[k].role == role then 1 else 0)
  {
    assert b == b[..k] + [b[k]] + b[k + 1..];
    CountRoleAppend(b[..k] + [b[k]], b[k + 1..], role);
    CountRoleAppend(b[..k], [b[k]], role);
    CountRoleAppend(b[..k], b[k + 1..], role);
  }

  /** The tallies depend only on who is in the pool, not on its order. */
  lemma RoleCountsPermutation(a: seq<Registrant>, b: seq<Registrant>)
    requires multiset(a) == multiset(b)
    ensures RoleCounts(a) == RoleCounts(b)
  {
    RoleCountsAreBucketCounts(a);
    RoleCountsAreBucketCounts(b);
    forall role | true
      ensures CountRole(a, role) == CountRole(b, role)
    {
      CountRolePermutation(a, b, role);
    }
  }

  /** Roles outside the seven buckets neither help nor block: dropping every
      registrant with such a role leaves the tallies unchanged. */
  lemma RoleCountsIgnoreOtherRoles(pool: seq<Registrant>)
    ensures RoleCounts(Filter((x: Registrant) => x.role in WvwRolesDisplay, pool)) == RoleCounts(pool)
  {
    var kept := Filter((x: Registrant) => x.role in WvwRolesDisplay, pool);
    RoleCountsAreBucketCounts(pool);
    RoleCountsAreBucketCounts(kept);
    forall role | role in WvwRolesDisplay
      ensures CountRole(kept, role) == CountRole(pool, role)
    {
      CountRoleKeepsRole(pool, role);
    }
  }

  lemma {:induction false} CountRoleKeepsRole(pool: seq<Registrant>, role: string)
    requires role in WvwRolesDisplay
    ensures CountRole(Filter((x: Registrant) => x.role in WvwRolesDisplay, pool), role) == CountRole(pool, role)
    decreases |pool|
  {
    var f := (x: Registrant) => x.role in WvwRolesDisplay;
    if |pool| > 0 {
      CountRoleKeepsRole(pool[1..], role);
      assert Filter(f, pool) == (if f(pool[0]) then [pool[0]] else []) + Filter(f, pool[1..]);
      CountRoleAppend(if f(pool[0]) then [pool[0]] else [], Filter(f, pool[1..]), role);
    }
  }

  /** Removing one registrant (by id) from a pool with unique ids lowers
      exactly its own role's count by one. */
  lemma {:induction false} CountRoleWithout(pool: seq<Registrant>, c: Registrant, role: string)
    requires DistinctUids(pool)
    requires c in pool
    ensures CountRole(Filter((x: Registrant) => x.uid != c.uid, pool), role)
         == CountRole(pool, role) - (if c.role == role then 1 else 0)
    decreases |pool|
  {
    var f := (x: Registrant) => x.uid != c.uid;
    assert Filter(f, pool) == (if f(pool[0]) then [pool[0]] else []) + Filter(f, pool[1..]);
    CountRoleAppend(if f(pool[0]) then [pool[0]] else [], Filter(f, pool[1..]), role);
    if pool[0] == c {
      assert forall y | y in pool[1..] :: y.uid != c.uid;
      FilterAllKept(f, pool[1..]);
    } else {
      assert pool[0].uid != c.uid by {
        var k :| 0 <= k < |pool| && pool[k] == c;
      }
      CountRoleWithout(pool[1..], c, role);
    }
  }

  lemma {:induction false} FilterAllKept(f: Registrant -> bool, s: seq<Registrant>)
    requires forall y | y in s :: f(y)
    ensures Filter(f, s) == s
    decreases |s|
  {
    if |s| > 0 {
      FilterAllKept(f, s[1..]);
      assert s == [s[0]] + s[1..];
    }
  }

  /** The reason's tallies: the pool without the commander has the pool's
      tallies with one Commander fewer. */
  lemma CountsWithoutCommander(pool: seq<Registrant>, c: Registrant)
    requires DistinctUids(pool)
    requires c in pool && c.role == RoleCommander
    ensures var rest := RoleCounts(Filter((x: Registrant) => x.uid != c.uid, pool));
      && rest.commander + 1 == RoleCounts(pool).commander
      && rest.(commander := RoleCounts(pool).commander) == RoleCounts(pool)
  {
    var rest := Filter((x: Registrant) => x.uid != c.uid, pool);
    RoleCountsAreBucketCounts(pool);
    RoleCountsAreBucketCounts(rest);
    forall role | true
      ensures CountRole(rest, role) == CountRole(pool, role) - (if c.role == role then 1 else 0)
    {
      CountRoleWithout(pool, c, role);
    }
  }

  function Min(a: int, b: int): int { if a <= b then a else b }

  /** How many squads the supports could staff: each needs a Secondary and a
      Primary, and one Commander (if any) stands in for one Primary. */
  function SupportCap(c: Counts): nat
  {
    Min(Min(c.secondary, c.primary + (if c.commander > 0 then 1 else 0)), MaxSquads)
  }

  /** The squad the predictor looks at: one past the squads that supports and
      DPS (two per squad) could already fill. */
  function NextSquad(c: Counts): nat
  {
    Min(SupportCap(c), (c.dps + c.stripDps) / 2) + 1
  }

  /** The bucket count for a role the predictor can name. */
  function CountOf(c: Counts, role: string): nat
  {
    if role == RolePrimary then c.primary
    else if role == RoleSecondary then c.secondary
    else if role == RoleTertiary then c.tertiary
    else 0
  }

  /** `preview_next_missing_role` on the tallies, branch for branch. */
  function PreviewFromCounts(c: Counts): (r: Option<string>)
    ensures r.None? || r.value in [RolePrimary, RoleSecondary, RoleTertiary]
    ensures Min(SupportCap(c), (c.dps + c.stripDps) / 2) >= MaxSquads ==> r.None?
    ensures r.Some? ==> CountOf(c, r.value) < NextSquad(c)
    ensures r == Some(RolePrimary) ==> c.commander > 0 && NextSquad(c) >= 2
    ensures r.None? && NextSquad(c) <= MaxSquads ==>
              c.primary + 1 >= NextSquad(c) && c.secondary >= NextSquad(c) && c.tertiary >= NextSquad(c)
  {
    var commanderExists := c.commander > 0;
    var nextSquad := NextSquad(c);
    if nextSquad > MaxSquads then None
    else if nextSquad == 1 && commanderExists && c.secondary < 1 then Some(RoleSecondary)
    else if !(nextSquad == 1 && commanderExists) && c.primary < nextSquad - 1 then Some(RolePrimary)
    else if !(nextSquad == 1 && commanderExists) && c.secondary < nextSquad then Some(RoleSecondary)
    else if c.tertiary < nextSquad then Some(RoleTertiary)
    else None
  }

  /** Reference reading of the forecast: for the next squad `n`, the first of
      Primary, Secondary, Tertiary whose count is below what `n` squads need
      (`n - 1` Primaries, as the commander covers one, and `n` of each other). */
  function FirstShortage(c: Counts): Option<string>
  {
    var n := NextSquad(c);
    if n > MaxSquads then None
    else if c.primary + 1 < n then Some(RolePrimary)
    else if c.secondary < n then Some(RoleSecondary)
    else if c.tertiary < n then Some(RoleTertiary)
    else None
  }

  /** The branchy forecast and the reference reading agree on every input: the
      commander special case for the first squad changes nothing, because for
      squad 1 no Primary is needed either way. */
  lemma PreviewIsFirstShortage(c: Counts)
    ensures PreviewFromCounts(c) == FirstShortage(c)
  {
  }

  /** `preview_next_missing_role(attending_pairs)`. */
  function PreviewNextMissingRole(pool: seq<Registrant>): (r: Option<string>)
    ensures r.None? || r.value in [RolePrimary, RoleSecondary, RoleTertiary]
    ensures r == Some(RolePrimary) ==> CountRole(pool, RoleCommander) > 0
    ensures r.Some? ==> CountRole(pool, r.value) < NextSquad(RoleCounts(pool))
  {
    RoleCountsAreBucketCounts(pool);
    PreviewFromCounts(RoleCounts(pool))
  }

  /** One each of Primary, Secondary and Tertiary Support and two Strip DPS
      or DPS: the counts allow one squad, so the forecast is for squad 2,
      which needs a second Secondary Support. */
  lemma FivePlayersForecast(pool: seq<Registrant>, a: Registrant, b: Registrant, z: Registrant, d: Registrant, e: Registrant)
    requires multiset(pool) == multiset{a, b, z, d, e}
    requires a.role == RolePrimary && b.role == RoleSecondary && z.role == RoleTertiary
    requires d.role in [RoleStripDps, RoleDps] && e.role in [RoleStripDps, RoleDps]
    ensures PreviewNextMissingRole(pool) == Some(RoleSecondary)
  {
    var five := [a, b, z, d, e];
    assert multiset(five) == multiset{a, b, z, d, e};
    RoleCountsPermutation(pool, five);
    assert five[..4] == [a, b, z, d] && [a, b, z, d][..3] == [a, b, z];
    assert [a, b, z][..2] == [a, b] && [a, b][..1] == [a] && [a][..0] == [];
    assert RoleCounts([a]) == Bump(NoCounts, RolePrimary) == Counts(0, 1, 0, 0, 0, 0, 0);
    assert RoleCounts([a, b]) == Bump(RoleCounts([a]), RoleSecondary) == Counts(0, 1, 1, 0, 0, 0, 0);
    var c3 := RoleCounts([a, b, z]);
    assert c3 == Bump(RoleCounts([a, b]), RoleTertiary) == Counts(0, 1, 1, 1, 0, 0, 0);
    var c := RoleCounts(five);
    assert c == Bump(Bump(c3, d.role), e.role);
    BumpDps(c3, d.role);
    BumpDps(Bump(c3, d.role), e.role);
    assert c.dps + c.stripDps == 2 && c.primary == 1 && c.secondary == 1 && c.commander == 0;
    assert NextSquad(c) == 2;
  }

  /** A Strip DPS or DPS adds one to the DPS-like tally and to no support
      bucket. */
  lemma BumpDps(c: Counts, role: string)
    requires role in [RoleStripDps, RoleDps]
    ensures var b := Bump(c, role);
      && b.dps + b.stripDps == c.dps + c.stripDps + 1
      && b.commander == c.commander && b.primary == c.primary
      && b.secondary == c.secondary && b.tertiary == c.tertiary
  {
  }

  /** With nobody registered the forecast asks for a Secondary Support, not a
      Primary: for squad 1 without a commander the Primary need is
      `max(0, 1 - 1) = 0`. */
  lemma PreviewEmptyPool()
    ensures PreviewNextMissingRole([]) == Some(RoleSecondary)
  {
  }

  /** The forecast for the first squad never names Primary Support, with or
      without a commander. */
  lemma PreviewFirstSquadNeverPrimary(pool: seq<Registrant>)
    requires NextSquad(RoleCounts(pool)) == 1
    ensures PreviewNextMissingRole(pool) != Some(RolePrimary)
  {
  }

  /** The forecast depends only on who is in the pool. */
  lemma PreviewPermutation(a: seq<Registrant>, b: seq<Registrant>)
    requires multiset(a) == multiset(b)
    ensures PreviewNextMissingRole(a) == PreviewNextMissingRole(b)
  {
    RoleCountsPermutation(a, b);
  }
}
