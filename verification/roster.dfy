/** The squad builder's entry point (bot.py, `build_squads_balanced`): who
    counts as attending, the allocation, the overflow list and the reason
    shown for it. */
module Roster {
  import opened Wrappers
  import opened Seqs
  import opened Roles
  import opened Meta
  import opened Registrants
  import opened Ranking
  import opened Predictor
  import opened Allocator

  datatype ReasonKind = NoShortage | Cap | Imbalance

  /** Why people overflowed, with the tallies of everyone but the commander. */
  datatype Reason = Reason(kind: ReasonKind, message: string, counts: Counts)

  /** What `build_squads_balanced` returns. */
  datatype Allocation = Allocation(
    commander: Option<Registrant>,
    squads: seq<Squad>,
    overflow: seq<Registrant>,
    reason: Reason)

  /** The cap message; the number in it is `MaxSquads`. */
  const CapMessage: string := "Begränsning: Max 10 squads (50 spelare)."

  function ImbalanceMessage(role: string): string
  {
    "Obalans: Saknar **" + role + "** för att bygga nästa squad."
  }

  /** `d.get("attending") and d.get("wvw_role")`: attending with a role chosen. */
  predicate Attends(x: Registrant)
  {
    x.attending && x.role != ""
  }

  /** The attending registrations, best-ranked first. */
  function AttendingPool(t: Tables, records: seq<Registrant>): (pool: seq<Registrant>)
    ensures SortedBy(RankBy(t), pool)
  {
    SortIsSorted(RankBy(t), Filter(Attends, records));
    SortBy(RankBy(t), Filter(Attends, records))
  }

  /** The pool holds exactly the attending records, each as often as in the
      records, so ids stay unique. */
  lemma AttendingPoolSpec(t: Tables, records: seq<Registrant>)
    ensures multiset(AttendingPool(t, records)) == multiset(Filter(Attends, records))
    ensures forall x :: x in AttendingPool(t, records) <==> x in records && Attends(x)
    ensures DistinctUids(records) ==> DistinctUids(AttendingPool(t, records))
  {
    var att := Filter(Attends, records);
    SortIsPermutation(RankBy(t), att);
    forall x
      ensures x in AttendingPool(t, records) <==> x in att
    {
      assert x in AttendingPool(t, records) <==> x in multiset(AttendingPool(t, records));
    }
    if DistinctUids(records) {
      FilterKeepsDistinct(Attends, records);
      SortKeepsDistinct(RankBy(t), att);
    }
  }

  /** Anyone but the commander, or anyone when there is none. */
  function NotCommander(c: Option<Registrant>): Registrant -> bool
  {
    (x: Registrant) => c.None? || x.uid != c.value.uid
  }

  /** The overflow list: attending, not taken, not the commander, in pool order. */
  function Overflow(pool: seq<Registrant>, d: Draft): (r: seq<Registrant>)
    ensures |r| <= |pool|
    ensures forall x :: x in r <==> x in pool && x.uid !in d.used && NotCommander(d.commander)(x)
  {
    Filter((x: Registrant) => x.uid !in d.used && NotCommander(d.commander)(x), pool)
  }

  /** Step 4: the cap when all squads are built and someone is left over,
      otherwise the predictor's missing role over the whole pool, otherwise none. */
  function Explain(pool: seq<Registrant>, commander: Option<Registrant>, squads: seq<Squad>, overflow: seq<Registrant>)
    : (r: Reason)
    ensures r.kind == Cap <==> |squads| >= MaxSquads && |overflow| > 0
    ensures r.kind == Imbalance <==>
      !(|squads| >= MaxSquads && |overflow| > 0) && PreviewNextMissingRole(pool).Some?
    ensures r.kind == Cap ==> r.message == CapMessage
    ensures r.kind == Imbalance ==> r.message == ImbalanceMessage(PreviewNextMissingRole(pool).value)
    ensures r.kind == NoShortage ==> r.message == ""
  {
    var counts := RoleCounts(Filter(NotCommander(commander), pool));
    if |squads| >= MaxSquads && |overflow| > 0 then Reason(Cap, CapMessage, counts)
    else
      var missing := PreviewNextMissingRole(pool);
      if missing.Some? then Reason(Imbalance, ImbalanceMessage(missing.value), counts)
      else Reason(NoShortage, "", counts)
  }

  /** `build_squads_balanced` on an already ranked pool and a rank key. */
  function BuildFromPool(key: Registrant -> RankKey, pool: seq<Registrant>): (a: Allocation)
    ensures a.commander == PickBest(key, pool, [RoleCommander])
    ensures |a.squads| <= MaxSquads
    ensures forall x :: x in a.overflow ==> x in pool && NotCommander(a.commander)(x)
  {
    var d := Assemble(key, pool);
    var overflow := Overflow(pool, d);
    Allocation(d.commander, d.squads, overflow, Explain(pool, d.commander, d.squads, overflow))
  }

  /** `build_squads_balanced()` over the registrations. */
  function BuildSquadsBalanced(t: Tables, records: seq<Registrant>): (a: Allocation)
    ensures |a.squads| <= MaxSquads
    ensures a.commander.Some? ==> a.commander.value.role == RoleCommander
  {
    BuildFromPool(RankBy(t), AttendingPool(t, records))
  }

  // ---------------------------------------------------------------------------
  // Properties on a pool

  /** The uids held by squad members. */
  function SquadUids(squads: seq<Squad>): set<int>
  {
    SlotUids(Flatten(squads))
  }

  /** Someone overflows exactly when attending, in no squad and not the commander. */
  lemma OverflowSpec(key: Registrant -> RankKey, pool: seq<Registrant>)
    ensures var a := BuildFromPool(key, pool);
      forall x :: x in a.overflow <==>
        x in pool && x.uid !in SquadUids(a.squads) && NotCommander(a.commander)(x)
  {
    AssembleFresh(key, pool);
  }

  /** The overflow keeps the pool's order and unique ids. */
  lemma OverflowOrdered(key: Registrant -> RankKey, pool: seq<Registrant>)
    ensures SortedBy(key, pool) ==> SortedBy(key, BuildFromPool(key, pool).overflow)
    ensures DistinctUids(pool) ==> DistinctUids(BuildFromPool(key, pool).overflow)
  {
    var d := Assemble(key, pool);
    var f := (x: Registrant) => x.uid !in d.used && NotCommander(d.commander)(x);
    if SortedBy(key, pool) {
      FilterKeepsSorted(key, f, pool);
    }
    if DistinctUids(pool) {
      FilterKeepsDistinct(f, pool);
    }
  }

  /** Every squad has five members: squad 1 is the Commander squad or
      Primary-led, every later one Primary-led; all members are distinct pool
      members, each captioned with their own role. */
  lemma SquadsSpec(key: Registrant -> RankKey, pool: seq<Registrant>)
    ensures var a := BuildFromPool(key, pool);
      && (forall i | 0 <= i < |a.squads| ::
            LeadShaped(a.squads[i]) || (i == 0 && a.commander.Some? && CommanderShaped(a.squads[0], a.commander.value)))
      && Labelled(Flatten(a.squads))
      && DistinctSlots(Flatten(a.squads))
      && (forall i | 0 <= i < |Flatten(a.squads)| :: Flatten(a.squads)[i].member in pool)
  {
    AssembleShaped(key, pool);
    AssembleFresh(key, pool);
  }

  /** The builder stops short of the cap only when fewer than five people
      overflow or one more Primary-led pass over what is left would not form
      a squad. */
  lemma StopsOnlyWhenStuck(key: Registrant -> RankKey, pool: seq<Registrant>)
    ensures var a := BuildFromPool(key, pool);
      var taken := SquadUids(a.squads) + (if a.commander.Some? then {a.commander.value.uid} else {});
      |a.squads| < MaxSquads ==>
        |a.overflow| < SquadSize || LeadStep(key, pool, taken).squad.None?
  {
    var d := Assemble(key, pool);
    var a := BuildFromPool(key, pool);
    AssembleFresh(key, pool);
    AssembleStops(key, pool);
    assert d.used == Taken(d);
    assert a.overflow == Remaining(pool, d.used) by {
      FilterSame((x: Registrant) => x.uid !in d.used && NotCommander(d.commander)(x),
                 (x: Registrant) => x.uid !in d.used, pool);
    }
    FreeCountIsRemaining(pool, d.used);
  }

  /** The reason's tallies cover everyone but the commander: one Commander
      fewer than the pool when there is one, the pool's own tallies otherwise. */
  lemma ReasonCounts(key: Registrant -> RankKey, pool: seq<Registrant>)
    requires DistinctUids(pool)
    ensures var a := BuildFromPool(key, pool); var all := RoleCounts(pool);
      && (a.commander.None? ==> a.reason.counts == all)
      && (a.commander.Some? ==>
            a.reason.counts.commander + 1 == all.commander && a.reason.counts.(commander := all.commander) == all)
  {
    var c := PickBest(key, pool, [RoleCommander]);
    if c.Some? {
      FilterSame(NotCommander(c), (x: Registrant) => x.uid != c.value.uid, pool);
      CountsWithoutCommander(pool, c.value);
    } else {
      FilterAllKept(NotCommander(c), pool);
    }
  }

  /** An imbalance names Primary, Secondary or Tertiary Support, a role the
      pool holds fewer of than the next squad needs; Primary only when a
      Commander is registered. */
  lemma ImbalanceNamesShortRole(key: Registrant -> RankKey, pool: seq<Registrant>)
    ensures var a := BuildFromPool(key, pool); var m := PreviewNextMissingRole(pool);
      a.reason.kind == Imbalance ==>
        && m.Some? && a.reason.message == ImbalanceMessage(m.value)
        && m.value in [RolePrimary, RoleSecondary, RoleTertiary]
        && CountRole(pool, m.value) < NextSquad(RoleCounts(pool))
        && (m.value == RolePrimary ==> CountRole(pool, RoleCommander) > 0)
  {
  }

  /** The registrants placed in squads. */
  function SquadMembers(squads: seq<Squad>): set<Registrant>
  {
    set i | 0 <= i < |Flatten(squads)| :: Flatten(squads)[i].member
  }

  /** Nobody holding the Commander role sits in a squad except the commander,
      in the first slot of squad 1. */
  lemma CommanderOnlyLeadsFirstSquad(key: Registrant -> RankKey, pool: seq<Registrant>)
    ensures var a := BuildFromPool(key, pool);
      forall i, j | 0 <= i < |a.squads| && 0 <= j < |a.squads[i]| ::
        a.squads[i][j].member.role == RoleCommander ==>
          i == 0 && j == 0 && a.commander == Some(a.squads[0][0].member)
  {
    var a := BuildFromPool(key, pool);
    SquadsSpec(key, pool);
    forall i, j | 0 <= i < |a.squads| && 0 <= j < |a.squads[i]| && a.squads[i][j].member.role == RoleCommander
      ensures i == 0 && j == 0 && a.commander == Some(a.squads[0][0].member)
    {
      var sq := a.squads[i];
      if LeadShaped(sq) {
        ShapedSlotsAreNotCommander(sq);
      } else {
        assert i == 0 && CommanderShaped(sq, a.commander.value);
        ShapedSlotsAreNotCommander(sq);
      }
    }
  }

  /** With unique ids, the pool is exactly the commander, the squad members
      and the overflow, and the overflow shares nobody with the other two. */
  lemma PoolPartition(key: Registrant -> RankKey, pool: seq<Registrant>)
    requires DistinctUids(pool)
    ensures var a := BuildFromPool(key, pool);
      && (forall x :: x in pool <==> a.commander == Some(x) || x in SquadMembers(a.squads) || x in a.overflow)
      && (forall x :: x in a.overflow ==> x !in SquadMembers(a.squads) && a.commander != Some(x))
  {
    var a := BuildFromPool(key, pool);
    var flat := Flatten(a.squads);
    OverflowSpec(key, pool);
    SquadsSpec(key, pool);
    forall x | x in SquadMembers(a.squads)
      ensures x in pool && x.uid in SquadUids(a.squads)
    {
      var i :| 0 <= i < |flat| && flat[i].member == x;
    }
    forall x | x in pool && x !in a.overflow
      ensures a.commander == Some(x) || x in SquadMembers(a.squads)
    {
      if a.commander.Some? && x.uid == a.commander.value.uid {
        UidIdentifies(pool, x, a.commander.value);
      } else {
        assert x.uid in SlotUids(flat);
        var i :| 0 <= i < |flat| && flat[i].member.uid == x.uid;
        UidIdentifies(pool, x, flat[i].member);
      }
    }
  }

  /** One Primary, one Secondary, one Tertiary Support and two Strip DPS or
      DPS, and no Commander: one squad and nobody left over. The reason is
      still an imbalance naming Secondary Support, because the forecast is
      for squad 2, which needs two Secondaries. */
  lemma FivePlayersNoOverflow(key: Registrant -> RankKey, pool: seq<Registrant>,
                              a: Registrant, b: Registrant, z: Registrant, d: Registrant, e: Registrant)
    requires DistinctUids(pool) && multiset(pool) == multiset{a, b, z, d, e}
    requires a.role == RolePrimary && b.role == RoleSecondary && z.role == RoleTertiary
    requires d.role in DpsRoles && e.role in DpsRoles && d.uid != e.uid
    ensures var al := BuildFromPool(key, pool);
      && al.commander.None? && |al.squads| == 1 && LeadShaped(al.squads[0]) && al.overflow == []
      && al.reason.kind == Imbalance && al.reason.message == ImbalanceMessage(RoleSecondary)
  {
    FivePlayersOneSquad(key, pool, a, b, z, d, e);
    FivePlayersForecast(pool, a, b, z, d, e);
    NoOverflowWhenAllTaken(pool, Assemble(key, pool));
  }

  /** Nobody overflows when every pool member is taken. */
  lemma NoOverflowWhenAllTaken(pool: seq<Registrant>, d: Draft)
    requires forall x :: x in pool ==> x.uid in d.used
    ensures Overflow(pool, d) == []
  {
    FilterNone((x: Registrant) => x.uid !in d.used && NotCommander(d.commander)(x), pool);
  }

  // ---------------------------------------------------------------------------
  // Properties over the registrations

  /** The commander is the best-ranked attending Commander, and there is one
      exactly when some attending registrant chose Commander. */
  lemma CommanderIsBest(t: Tables, records: seq<Registrant>)
    ensures var a := BuildSquadsBalanced(t, records);
      && (a.commander.None? <==> forall x :: x in records && Attends(x) ==> x.role != RoleCommander)
      && (a.commander.Some? ==>
            && a.commander.value in records && Attends(a.commander.value)
            && forall x :: x in records && Attends(x) && x.role == RoleCommander ==>
                 KeyLe(RankKeyOf(t, a.commander.value), RankKeyOf(t, x)))
  {
    AttendingPoolSpec(t, records);
  }

  /** Squad members are attending registrants and nobody appears twice
      across the squads. */
  lemma SquadMembersAttend(t: Tables, records: seq<Registrant>)
    ensures var a := BuildSquadsBalanced(t, records);
      && DistinctSlots(Flatten(a.squads))
      && forall i | 0 <= i < |Flatten(a.squads)| ::
           Flatten(a.squads)[i].member in records && Attends(Flatten(a.squads)[i].member)
  {
    AttendingPoolSpec(t, records);
    SquadsSpec(RankBy(t), AttendingPool(t, records));
  }

  /** The overflow is every attending registrant in no squad other than the
      commander, best-ranked first, each once. */
  lemma OverflowMembers(t: Tables, records: seq<Registrant>)
    requires DistinctUids(records)
    ensures var a := BuildSquadsBalanced(t, records);
      && (forall x :: x in a.overflow <==>
            x in records && Attends(x) && x.uid !in SquadUids(a.squads) && NotCommander(a.commander)(x))
      && SortedBy(RankBy(t), a.overflow)
      && DistinctUids(a.overflow)
  {
    var pool := AttendingPool(t, records);
    AttendingPoolSpec(t, records);
    OverflowSpec(RankBy(t), pool);
    OverflowOrdered(RankBy(t), pool);
  }

  /** The reason's tallies and the predictor see the attending registrants
      whatever order they are ranked in. */
  lemma ReasonOverRecords(t: Tables, records: seq<Registrant>)
    requires DistinctUids(records)
    ensures var a := BuildSquadsBalanced(t, records); var att := Filter(Attends, records);
      var all := RoleCounts(att);
      && (a.reason.kind == Imbalance <==>
            !(|a.squads| >= MaxSquads && |a.overflow| > 0) && PreviewNextMissingRole(att).Some?)
      && (a.commander.None? ==> a.reason.counts == all)
      && (a.commander.Some? ==>
            a.reason.counts.commander + 1 == all.commander && a.reason.counts.(commander := all.commander) == all)
  {
    var pool := AttendingPool(t, records);
    var att := Filter(Attends, records);
    AttendingPoolSpec(t, records);
    RoleCountsPermutation(pool, att);
    PreviewPermutation(pool, att);
    ReasonCounts(RankBy(t), pool);
  }
}
