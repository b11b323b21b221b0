/** The squad builder's allocation (bot.py, `build_squads_balanced`, steps 1
    to 3): one global Commander, an optional Commander squad, then Primary-led
    squads of five until the cap, the pool or a missing role stops it. */
module Allocator {
  import opened Wrappers
  import opened Seqs
  import opened Roles
  import opened Registrants

  /** One place in a squad: the label shown and the member holding it. */
  datatype Slot = Slot(caption: string, member: Registrant)
  type Squad = seq<Slot>

  /** A squad under construction and the uids taken so far. */
  datatype Step = Step(squad: Option<Squad>, used: set<int>)
  datatype Tail = Tail(slots: seq<Slot>, used: set<int>)
  datatype Progress = Progress(squads: seq<Squad>, used: set<int>)
  datatype Draft = Draft(commander: Option<Registrant>, squads: seq<Squad>, used: set<int>)

  const SquadSize: nat := 5
  const DpsRoles: seq<string> := [RoleStripDps, RoleDps]
  const FallbackRoles: seq<string> := [RoleStripDps, RoleDps, RoleUtility]
  /** Roles the third slot may hold: a Tertiary, or one of the fallbacks. */
  const ThirdSlotRoles: seq<string> := [RoleTertiary, RoleStripDps, RoleDps, RoleUtility]

  // ---------------------------------------------------------------------------
  // Slots and squads

  function SlotUids(slots: seq<Slot>): set<int>
  {
    set i | 0 <= i < |slots| :: slots[i].member.uid
  }

  ghost predicate DistinctSlots(slots: seq<Slot>)
  {
    forall i, j :: 0 <= i < j < |slots| ==> slots[i].member.uid != slots[j].member.uid
  }

  /** Every slot is labelled with its member's own role. */
  ghost predicate Labelled(slots: seq<Slot>)
  {
    forall i :: 0 <= i < |slots| ==> slots[i].caption == slots[i].member.role
  }

  /** Every slot's member comes from the pool and was not yet taken. */
  ghost predicate FromPool(pool: seq<Registrant>, used: set<int>, slots: seq<Slot>)
  {
    forall i :: 0 <= i < |slots| ==> slots[i].member in pool && slots[i].member.uid !in used
  }

  /** A full tail from index `k` on: the third slot a Tertiary or a fallback,
      then two DPS, and nothing after them. */
  predicate TailShaped(slots: seq<Slot>, k: nat)
  {
    && |slots| == k + 3
    && slots[k].member.role in ThirdSlotRoles
    && slots[k + 1].member.role in DpsRoles
    && slots[k + 2].member.role in DpsRoles
  }

  /** Squads 2..10: Primary, Secondary, third slot, two DPS. */
  predicate LeadShaped(sq: Squad)
  {
    && |sq| == SquadSize
    && sq[0].member.role == RolePrimary
    && sq[1].member.role == RoleSecondary
    && TailShaped(sq, 2)
  }

  /** Squad 1: the commander stands in for the Primary. */
  predicate CommanderShaped(sq: Squad, c: Registrant)
  {
    && |sq| == SquadSize
    && sq[0].member == c
    && c.role == RoleCommander
    && sq[1].member.role == RoleSecondary
    && TailShaped(sq, 2)
  }

  /** Only the commander's own slot of a squad holds the Commander role. */
  lemma ShapedSlotsAreNotCommander(sq: Squad)
    requires LeadShaped(sq) || (|sq| > 0 && CommanderShaped(sq, sq[0].member))
    ensures forall j | 0 < j < |sq| :: sq[j].member.role != RoleCommander
    ensures LeadShaped(sq) ==> sq[0].member.role != RoleCommander
  {
    assert RoleCommander !in ThirdSlotRoles && RoleCommander !in DpsRoles;
    forall j | 2 <= j < |sq|
      ensures sq[j].member.role != RoleCommander
    {
      assert j == 2 || j == 3 || j == 4;
    }
  }

  /** All slots of all squads, squad after squad. */
  function Flatten(squads: seq<Squad>): seq<Slot>
    decreases |squads|
  {
    if |squads| == 0 then [] else squads[0] + Flatten(squads[1..])
  }

  lemma SlotUidsAppend(a: seq<Slot>, b: seq<Slot>)
    ensures SlotUids(a + b) == SlotUids(a) + SlotUids(b)
  {
    var ab := a + b;
    forall u | u in SlotUids(a + b)
      ensures u in SlotUids(a) + SlotUids(b)
    {
      var i :| 0 <= i < |ab| && ab[i].member.uid == u;
      if i >= |a| {
        assert b[i - |a|] == ab[i];
      }
    }
    forall u | u in SlotUids(b)
      ensures u in SlotUids(a + b)
    {
      var i :| 0 <= i < |b| && b[i].member.uid == u;
      assert ab[|a| + i] == b[i];
    }
    forall u | u in SlotUids(a)
      ensures u in SlotUids(a + b)
    {
      var i :| 0 <= i < |a| && a[i].member.uid == u;
      assert ab[i] == a[i];
    }
  }

  /** Concatenating slot lists whose uids do not meet keeps them distinct. */
  lemma JoinSlots(pool: seq<Registrant>, used: set<int>, a: seq<Slot>, b: seq<Slot>)
    requires Labelled(a) && FromPool(pool, used, a) && DistinctSlots(a)
    requires Labelled(b) && FromPool(pool, used + SlotUids(a), b) && DistinctSlots(b)
    ensures Labelled(a + b) && FromPool(pool, used, a + b) && DistinctSlots(a + b)
    ensures used + SlotUids(a) + SlotUids(b) == used + SlotUids(a + b)
  {
    SlotUidsAppend(a, b);
    var ab := a + b;
    forall i, j | 0 <= i < j < |ab|
      ensures ab[i].member.uid != ab[j].member.uid
    {
      if j >= |a| {
        assert ab[j] == b[j - |a|];
        if i < |a| {
          assert ab[i].member.uid in SlotUids(a);
        } else {
          assert ab[i] == b[i - |a|];
        }
      }
    }
    forall i | 0 <= i < |ab|
      ensures ab[i].caption == ab[i].member.role
      ensures ab[i].member in pool && ab[i].member.uid !in used
    {
      if i >= |a| {
        assert ab[i] == b[i - |a|];
      }
    }
  }

  // ---------------------------------------------------------------------------
  // Picking members

  /** `remaining()`: the pool, in order, without anyone already taken. */
  function Remaining(pool: seq<Registrant>, used: set<int>): (r: seq<Registrant>)
    ensures forall x :: x in r <==> x in pool && x.uid !in used
  {
    Filter((x: Registrant) => x.uid !in used, pool)
  }

  /** `len(remaining())`: how many pool members are not yet taken. */
  function FreeCount(pool: seq<Registrant>, used: set<int>): nat
    decreases |pool|
  {
    if |pool| == 0 then 0 else (if pool[0].uid in used then 0 else 1) + FreeCount(pool[1..], used)
  }

  lemma {:induction false} FreeCountIsRemaining(pool: seq<Registrant>, used: set<int>)
    ensures FreeCount(pool, used) == |Remaining(pool, used)|
    decreases |pool|
  {
    if |pool| > 0 {
      FreeCountIsRemaining(pool[1..], used);
    }
  }

  /** `_pick_best(remaining(), allow)`, one pool member at a time: the
      best-ranked free member with an allowed role, ties to the earlier. */
  function PickUnused(key: Registrant -> RankKey, pool: seq<Registrant>, used: set<int>, allow: seq<string>)
    : (r: Option<Registrant>)
    decreases |pool|
    ensures r.Some? ==> r.value in pool && r.value.uid !in used && r.value.role in allow
  {
    if |pool| == 0 then None
    else
      var rest := PickUnused(key, pool[1..], used, allow);
      if pool[0].uid in used || pool[0].role !in allow then rest
      else if rest.None? || KeyLe(key(pool[0]), key(rest.value)) then Some(pool[0])
      else rest
  }

  /** Picking from the pool while skipping taken members is `_pick_best` on
      `remaining()`. */
  lemma {:induction false} PickUnusedIsPickBest(key: Registrant -> RankKey, pool: seq<Registrant>, used: set<int>, allow: seq<string>)
    ensures PickUnused(key, pool, used, allow) == PickBest(key, Remaining(pool, used), allow)
    decreases |pool|
  {
    if |pool| > 0 {
      PickUnusedIsPickBest(key, pool[1..], used, allow);
      var rest := Remaining(pool[1..], used);
      if pool[0].uid !in used {
        assert Remaining(pool, used) == [pool[0]] + rest;
        PickBestCons(key, pool[0], rest, allow);
      } else {
        assert Remaining(pool, used) == rest;
      }
    }
  }

  /** A pick fails exactly when nobody free holds an allowed role, and a
      successful pick is the best-ranked free member with an allowed role. */
  lemma PickUnusedSpec(key: Registrant -> RankKey, pool: seq<Registrant>, used: set<int>, allow: seq<string>)
    ensures PickUnused(key, pool, used, allow).None? <==>
              forall x :: x in pool && x.uid !in used ==> x.role !in allow
    ensures PickUnused(key, pool, used, allow).Some? ==>
              forall x :: x in pool && x.uid !in used && x.role in allow ==>
                KeyLe(key(PickUnused(key, pool, used, allow).value), key(x))
  {
    PickUnusedIsPickBest(key, pool, used, allow);
  }

  /** A squad's slots so far and the uids taken so far. */
  ghost predicate Fresh(pool: seq<Registrant>, used: set<int>, t: Tail)
  {
    && Labelled(t.slots) && FromPool(pool, used, t.slots) && DistinctSlots(t.slots)
    && t.used == used + SlotUids(t.slots)
  }

  /** `if p: squad.append(...); used.add(uid)`. */
  function Take(t: Tail, s: Option<Slot>): (r: Tail)
    ensures |r.slots| == |t.slots| + (if s.Some? then 1 else 0)
    ensures r.slots[..|t.slots|] == t.slots
    ensures s.Some? ==> r.slots[|t.slots|] == s.value
  {
    if s.Some? then Tail(t.slots + [s.value], t.used + {s.value.member.uid}) else t
  }

  lemma TakeKeepsFresh(pool: seq<Registrant>, used: set<int>, t: Tail, s: Option<Slot>)
    requires Fresh(pool, used, t)
    requires s.Some? ==> s.value.caption == s.value.member.role
    requires s.Some? ==> s.value.member in pool && s.value.member.uid !in t.used
    ensures Fresh(pool, used, Take(t, s))
  {
    if s.Some? {
      assert SlotUids([s.value]) == {s.value.member.uid} by {
        assert [s.value][0] == s.value;
      }
      JoinSlots(pool, used, t.slots, [s.value]);
    }
  }

  /** The slot for a pick whose caption is the member's own role. */
  function RoleSlot(p: Option<Registrant>): Option<Slot>
  {
    if p.Some? then Some(Slot(p.value.role, p.value)) else None
  }

  /** The caption of the third slot: "Tertiary Support" for a Tertiary and
      the member's own role otherwise, which is the member's role either way. */
  function TertiaryLabel(x: Registrant): (caption: string)
    ensures caption == x.role
  {
    if x.role == RoleTertiary then RoleTertiary else x.role
  }

  /** The third slot's pick: the best free Tertiary Support, and only when
      there is none, the best free Strip DPS, DPS or Utility. */
  function TertiaryPick(key: Registrant -> RankKey, pool: seq<Registrant>, used: set<int>)
    : (r: Option<Registrant>)
    ensures r.Some? ==> r.value in pool && r.value.uid !in used && r.value.role in ThirdSlotRoles
  {
    var t := PickUnused(key, pool, used, [RoleTertiary]);
    if t.Some? then t else PickUnused(key, pool, used, FallbackRoles)
  }

  /** A fallback fills the third slot only when no Tertiary Support is free,
      and the slot stays empty only when nobody with any of the four roles is. */
  lemma TertiaryPickSpec(key: Registrant -> RankKey, pool: seq<Registrant>, used: set<int>)
    ensures var r := TertiaryPick(key, pool, used);
      && (r.Some? && r.value.role != RoleTertiary ==>
            forall x :: x in pool && x.uid !in used ==> x.role != RoleTertiary)
      && (r.None? <==> forall x :: x in pool && x.uid !in used ==> x.role !in ThirdSlotRoles)
  {
    PickUnusedSpec(key, pool, used, [RoleTertiary]);
    PickUnusedSpec(key, pool, used, FallbackRoles);
  }

  /** The slot for the third pick, captioned as the source does. */
  function TertiarySlot(p: Option<Registrant>): (s: Option<Slot>)
    ensures s == RoleSlot(p)
  {
    if p.Some? then Some(Slot(TertiaryLabel(p.value), p.value)) else None
  }

  /** Third slot and two DPS after the two supports, appended to the squad
      so far; each pick is skipped when nobody suitable is free. */
  function FillTail(key: Registrant -> RankKey, pool: seq<Registrant>, t: Tail): (r: Tail)
    ensures |t.slots| <= |r.slots| <= |t.slots| + 3 && r.slots[..|t.slots|] == t.slots
  {
    var tert := TertiaryPick(key, pool, t.used);
    var t1 := Take(t, TertiarySlot(tert));
    var dps1 := PickUnused(key, pool, t1.used, DpsRoles);
    var t2 := Take(t1, RoleSlot(dps1));
    var dps2 := PickUnused(key, pool, t2.used, DpsRoles);
    Take(t2, RoleSlot(dps2))
  }

  /** The tail's members are free pool members with their own roles as
      captions. */
  lemma FillTailFresh(key: Registrant -> RankKey, pool: seq<Registrant>, used: set<int>, t: Tail)
    requires Fresh(pool, used, t)
    ensures Fresh(pool, used, FillTail(key, pool, t))
  {
    var tert := TertiaryPick(key, pool, t.used);
    var t1 := Take(t, TertiarySlot(tert));
    TakeKeepsFresh(pool, used, t, TertiarySlot(tert));
    var dps1 := PickUnused(key, pool, t1.used, DpsRoles);
    var t2 := Take(t1, RoleSlot(dps1));
    TakeKeepsFresh(pool, used, t1, RoleSlot(dps1));
    var dps2 := PickUnused(key, pool, t2.used, DpsRoles);
    TakeKeepsFresh(pool, used, t2, RoleSlot(dps2));
  }

  /** A full tail is a Tertiary (or fallback) followed by two DPS. */
  lemma FillTailShape(key: Registrant -> RankKey, pool: seq<Registrant>, t: Tail)
    ensures |FillTail(key, pool, t).slots| == |t.slots| + 3 ==> TailShaped(FillTail(key, pool, t).slots, |t.slots|)
  {
    var k := |t.slots|;
    var tert := TertiaryPick(key, pool, t.used);
    var t1 := Take(t, TertiarySlot(tert));
    var dps1 := PickUnused(key, pool, t1.used, DpsRoles);
    var t2 := Take(t1, RoleSlot(dps1));
    var dps2 := PickUnused(key, pool, t2.used, DpsRoles);
    var t3 := Take(t2, RoleSlot(dps2));
    if |t3.slots| == k + 3 {
      assert t3.slots[k] == t2.slots[k] == t1.slots[k];
      assert t3.slots[k + 1] == t2.slots[k + 1];
    }
  }

  /** Releasing every slot of a squad gives back the uids taken before it. */
  lemma ReleaseAll(pool: seq<Registrant>, used: set<int>, t: Tail)
    requires Fresh(pool, used, t)
    ensures t.used - SlotUids(t.slots) == used
  {
    forall u | u in SlotUids(t.slots)
      ensures u !in used
    {
      var i :| 0 <= i < |t.slots| && t.slots[i].member.uid == u;
    }
  }

  // ---------------------------------------------------------------------------
  // Squads

  /** Squad 1: commander, best free Secondary, then the tail; kept only when
      all five places are filled, otherwise everyone but the commander is
      released again. */
  function CommanderSquad(key: Registrant -> RankKey, pool: seq<Registrant>, c: Registrant): (r: Step)
  {
    var t0 := Tail([Slot(RoleCommander, c)], {c.uid});
    var sec := PickUnused(key, pool, t0.used, [RoleSecondary]);
    if sec.None? then Step(None, t0.used)
    else
      var t := FillTail(key, pool, Take(t0, RoleSlot(sec)));
      if |t.slots| == SquadSize then Step(Some(t.slots), t.used)
      else Step(None, t.used - SlotUids(t.slots[1..]))
  }

  /** A failed Commander squad leaves only the commander taken; a formed one
      is the commander, a Secondary and a full tail, all distinct pool
      members captioned with their own roles. */
  lemma CommanderSquadKeeps(key: Registrant -> RankKey, pool: seq<Registrant>, c: Registrant)
    requires c in pool && c.role == RoleCommander
    ensures var r := CommanderSquad(key, pool, c);
      && (r.squad.None? ==> r.used == {c.uid})
      && (r.squad.Some? ==> CommanderShaped(r.squad.value, c) && Fresh(pool, {}, Tail(r.squad.value, r.used)))
  {
    var t0 := Tail([Slot(RoleCommander, c)], {c.uid});
    var sec := PickUnused(key, pool, t0.used, [RoleSecondary]);
    if sec.Some? {
      assert Fresh(pool, {}, t0) by {
        assert SlotUids(t0.slots) == {c.uid} by {
          assert t0.slots[0].member.uid == c.uid;
        }
      }
      var t1 := Take(t0, RoleSlot(sec));
      TakeKeepsFresh(pool, {}, t0, RoleSlot(sec));
      FillTailFresh(key, pool, {}, t1);
      FillTailShape(key, pool, t1);
      var t := FillTail(key, pool, t1);
      assert t.slots[0] == t1.slots[0] && t.slots[1] == t1.slots[1];
      if |t.slots| != SquadSize {
        DropFirst(pool, t);
        ReleaseAll(pool, {c.uid}, Tail(t.slots[1..], t.used));
      }
    }
  }

  /** Everything after the first slot is fresh relative to the first member. */
  lemma DropFirst(pool: seq<Registrant>, t: Tail)
    requires Fresh(pool, {}, t) && |t.slots| > 0
    ensures Fresh(pool, {t.slots[0].member.uid}, Tail(t.slots[1..], t.used))
  {
    var rest := t.slots[1..];
    assert t.slots == [t.slots[0]] + rest;
    SlotUidsAppend([t.slots[0]], rest);
    assert SlotUids([t.slots[0]]) == {t.slots[0].member.uid} by {
      assert [t.slots[0]][0] == t.slots[0];
    }
    forall i | 0 <= i < |rest|
      ensures rest[i].member.uid != t.slots[0].member.uid
    {
      assert rest[i] == t.slots[i + 1];
    }
  }

  /** One pass of the loop for squads 2..10: best free Primary, best free
      Secondary, then the tail; a missing Secondary releases the Primary and a
      short squad releases all of its members. */
  function LeadStep(key: Registrant -> RankKey, pool: seq<Registrant>, used: set<int>): (r: Step)
  {
    var t0 := Tail([], used);
    var prim := PickUnused(key, pool, used, [RolePrimary]);
    if prim.None? then Step(None, used)
    else
      var t1 := Take(t0, RoleSlot(prim));
      var sec := PickUnused(key, pool, t1.used, [RoleSecondary]);
      if sec.None? then Step(None, t1.used - {prim.value.uid})
      else
        var t := FillTail(key, pool, Take(t1, RoleSlot(sec)));
        if |t.slots| == SquadSize then Step(Some(t.slots), t.used)
        else Step(None, t.used - SlotUids(t.slots))
  }

  /** What one pass of the loop guarantees: a failed pass gives back every
      uid it took, a successful one forms a Primary, Secondary, full-tail
      squad of distinct free pool members captioned with their own roles. */
  ghost predicate PassOk(pool: seq<Registrant>, used: set<int>, s: Step)
  {
    && (s.squad.None? ==> s.used == used)
    && (s.squad.Some? ==> LeadShaped(s.squad.value) && Fresh(pool, used, Tail(s.squad.value, s.used)))
  }

  lemma LeadStepKeeps(key: Registrant -> RankKey, pool: seq<Registrant>, used: set<int>)
    ensures PassOk(pool, used, LeadStep(key, pool, used))
  {
    var t0 := Tail([], used);
    assert SlotUids([]) == {};
    var prim := PickUnused(key, pool, used, [RolePrimary]);
    if prim.Some? {
      var t1 := Take(t0, RoleSlot(prim));
      TakeKeepsFresh(pool, used, t0, RoleSlot(prim));
      var sec := PickUnused(key, pool, t1.used, [RoleSecondary]);
      if sec.Some? {
        var t2 := Take(t1, RoleSlot(sec));
        TakeKeepsFresh(pool, used, t1, RoleSlot(sec));
        FillTailFresh(key, pool, used, t2);
        FillTailShape(key, pool, t2);
        var t := FillTail(key, pool, t2);
        if |t.slots| == SquadSize {
          assert t.slots[0] == t2.slots[0] && t.slots[1] == t2.slots[1];
        } else {
          ReleaseAll(pool, used, t);
        }
      }
    }
  }

  // ---------------------------------------------------------------------------
  // When a pass forms a squad, and whom it picks

  /** `x` is the best-ranked free pool member holding one of `allow`: what
      `_pick_best(remaining(), allow)` returns. */
  ghost predicate BestFree(key: Registrant -> RankKey, pool: seq<Registrant>, taken: set<int>, allow: seq<string>, x: Registrant)
  {
    && x in pool && x.uid !in taken && x.role in allow
    && forall y :: y in pool && y.uid !in taken && y.role in allow ==> KeyLe(key(x), key(y))
  }

  /** The third slot's member: the best free Tertiary Support, or, only when
      no Tertiary Support is free, the best free Strip DPS, DPS or Utility. */
  ghost predicate ThirdBest(key: Registrant -> RankKey, pool: seq<Registrant>, taken: set<int>, x: Registrant)
  {
    || BestFree(key, pool, taken, [RoleTertiary], x)
    || (&& (forall y :: y in pool && y.uid !in taken ==> y.role != RoleTertiary)
        && BestFree(key, pool, taken, FallbackRoles, x))
  }

  /** Some free pool member holds one of `allow`. */
  ghost predicate OneFree(pool: seq<Registrant>, taken: set<int>, allow: seq<string>)
  {
    exists x :: x in pool && x.uid !in taken && x.role in allow
  }

  /** Two free pool members with different ids hold one of `allow`. */
  ghost predicate TwoFree(pool: seq<Registrant>, taken: set<int>, allow: seq<string>)
  {
    exists x, y :: x in pool && y in pool && x.uid != y.uid && x.uid !in taken && y.uid !in taken
      && x.role in allow && y.role in allow
  }

  /** A pick succeeds exactly when someone free holds an allowed role, and
      then it is the best-ranked of them. */
  lemma PickUnusedBest(key: Registrant -> RankKey, pool: seq<Registrant>, used: set<int>, allow: seq<string>)
    ensures PickUnused(key, pool, used, allow).None? <==> !OneFree(pool, used, allow)
    ensures PickUnused(key, pool, used, allow).Some? ==>
      BestFree(key, pool, used, allow, PickUnused(key, pool, used, allow).value)
  {
    PickUnusedSpec(key, pool, used, allow);
  }

  /** The third pick succeeds exactly when someone free holds one of the four
      third-slot roles, and then it is the member `ThirdBest` describes. */
  lemma TertiaryPickBest(key: Registrant -> RankKey, pool: seq<Registrant>, used: set<int>)
    ensures TertiaryPick(key, pool, used).None? <==> !OneFree(pool, used, ThirdSlotRoles)
    ensures TertiaryPick(key, pool, used).Some? ==> ThirdBest(key, pool, used, TertiaryPick(key, pool, used).value)
  {
    TertiaryPickSpec(key, pool, used);
    PickUnusedBest(key, pool, used, [RoleTertiary]);
    PickUnusedBest(key, pool, used, FallbackRoles);
  }

  /** The tail fills exactly when the third pick succeeds and two members
      holding Strip DPS or DPS are still free after it. */
  lemma FillTailFull(key: Registrant -> RankKey, pool: seq<Registrant>, t: Tail)
    ensures var p := TertiaryPick(key, pool, t.used);
      |FillTail(key, pool, t).slots| == |t.slots| + 3 <==>
        p.Some? && TwoFree(pool, t.used + {p.value.uid}, DpsRoles)
  {
    var tert := TertiaryPick(key, pool, t.used);
    var t1 := Take(t, TertiarySlot(tert));
    var dps1 := PickUnused(key, pool, t1.used, DpsRoles);
    var t2 := Take(t1, RoleSlot(dps1));
    var dps2 := PickUnused(key, pool, t2.used, DpsRoles);
    PickUnusedBest(key, pool, t1.used, DpsRoles);
    PickUnusedBest(key, pool, t2.used, DpsRoles);
    if tert.Some? {
      assert t1.used == t.used + {tert.value.uid};
      if dps1.Some? && dps2.Some? {
        var x, y := dps1.value, dps2.value;
        assert x.uid != y.uid && x.uid !in t1.used && y.uid !in t1.used;
      }
      if TwoFree(pool, t1.used, DpsRoles) {
        var x, y :| x in pool && y in pool && x.uid != y.uid && x.uid !in t1.used && y.uid !in t1.used
          && x.role in DpsRoles && y.role in DpsRoles;
        assert OneFree(pool, t1.used, DpsRoles);
        assert dps1.Some?;
        assert OneFree(pool, t2.used, DpsRoles) by {
          if x.uid == dps1.value.uid {
            assert y.uid !in t2.used;
          } else {
            assert x.uid !in t2.used;
          }
        }
      }
    }
  }

  /** Each place of a full tail holds the best-ranked free member for it at
      its turn: the third slot's member as `ThirdBest` says, then the best
      free Strip DPS or DPS twice. */
  lemma FillTailBest(key: Registrant -> RankKey, pool: seq<Registrant>, t: Tail)
    ensures var r := FillTail(key, pool, t); var k := |t.slots|;
      |r.slots| == k + 3 ==>
        && ThirdBest(key, pool, t.used, r.slots[k].member)
        && BestFree(key, pool, t.used + {r.slots[k].member.uid}, DpsRoles, r.slots[k + 1].member)
        && BestFree(key, pool, t.used + {r.slots[k].member.uid} + {r.slots[k + 1].member.uid}, DpsRoles,
                    r.slots[k + 2].member)
  {
    var k := |t.slots|;
    var tert := TertiaryPick(key, pool, t.used);
    var t1 := Take(t, TertiarySlot(tert));
    var dps1 := PickUnused(key, pool, t1.used, DpsRoles);
    var t2 := Take(t1, RoleSlot(dps1));
    var dps2 := PickUnused(key, pool, t2.used, DpsRoles);
    var t3 := Take(t2, RoleSlot(dps2));
    if |t3.slots| == k + 3 {
      TertiaryPickBest(key, pool, t.used);
      PickUnusedBest(key, pool, t1.used, DpsRoles);
      PickUnusedBest(key, pool, t2.used, DpsRoles);
      assert t3.slots[k] == t2.slots[k] == t1.slots[k];
      assert t3.slots[k + 1] == t2.slots[k + 1];
    }
  }

  /** With a Tertiary Support and two Strip DPS or DPS free, the tail fills. */
  lemma FillTailFillsWith(key: Registrant -> RankKey, pool: seq<Registrant>, t: Tail, z: Registrant, d: Registrant, e: Registrant)
    requires DistinctUids(pool)
    requires z in pool && z.uid !in t.used && z.role == RoleTertiary
    requires d in pool && d.uid !in t.used && d.role in DpsRoles
    requires e in pool && e.uid !in t.used && e.role in DpsRoles && d.uid != e.uid
    ensures |FillTail(key, pool, t).slots| == |t.slots| + 3
  {
    TertiaryPickBest(key, pool, t.used);
    assert OneFree(pool, t.used, ThirdSlotRoles);
    var p := TertiaryPick(key, pool, t.used).value;
    assert p.role == RoleTertiary by {
      assert z.role !in FallbackRoles;
    }
    if d.uid == p.uid {
      UidIdentifies(pool, d, p);
    }
    if e.uid == p.uid {
      UidIdentifies(pool, e, p);
    }
    assert TwoFree(pool, t.used + {p.uid}, DpsRoles);
    FillTailFull(key, pool, t);
  }

  /** A pass that forms a squad had a free Primary, a free Secondary, a free
      holder of a third-slot role and two free Strip DPS or DPS. */
  lemma LeadStepNeeds(key: Registrant -> RankKey, pool: seq<Registrant>, used: set<int>)
    ensures LeadStep(key, pool, used).squad.Some? ==>
      && OneFree(pool, used, [RolePrimary]) && OneFree(pool, used, [RoleSecondary])
      && OneFree(pool, used, ThirdSlotRoles) && TwoFree(pool, used, DpsRoles)
  {
    var s := LeadStep(key, pool, used);
    LeadStepKeeps(key, pool, used);
    if s.squad.Some? {
      var sq := s.squad.value;
      assert sq[0].member.role in [RolePrimary];
      assert sq[1].member.role in [RoleSecondary];
      assert sq[3].member.uid != sq[4].member.uid;
    }
  }

  /** With unique ids, a free Primary, Secondary and Tertiary Support and two
      free Strip DPS or DPS always make the pass form a squad. */
  lemma LeadStepForms(key: Registrant -> RankKey, pool: seq<Registrant>, used: set<int>)
    ensures && DistinctUids(pool)
            && OneFree(pool, used, [RolePrimary]) && OneFree(pool, used, [RoleSecondary])
            && OneFree(pool, used, [RoleTertiary]) && TwoFree(pool, used, DpsRoles)
            ==> LeadStep(key, pool, used).squad.Some?
  {
    if && DistinctUids(pool)
       && OneFree(pool, used, [RolePrimary]) && OneFree(pool, used, [RoleSecondary])
       && OneFree(pool, used, [RoleTertiary]) && TwoFree(pool, used, DpsRoles)
    {
      var a :| a in pool && a.uid !in used && a.role in [RolePrimary];
      var b :| b in pool && b.uid !in used && b.role in [RoleSecondary];
      var z :| z in pool && z.uid !in used && z.role in [RoleTertiary];
      var d, e :| d in pool && e in pool && d.uid != e.uid && d.uid !in used && e.uid !in used
        && d.role in DpsRoles && e.role in DpsRoles;
      LeadStepWith(key, pool, used, a, b, z, d, e);
    }
  }

  /** Someone free with an allowed role makes the pick succeed. */
  lemma PickUnusedFinds(key: Registrant -> RankKey, pool: seq<Registrant>, used: set<int>, allow: seq<string>, x: Registrant)
    requires x in pool && x.uid !in used && x.role in allow
    ensures PickUnused(key, pool, used, allow).Some?
  {
    PickUnusedSpec(key, pool, used, allow);
  }

  /** `LeadStepForms` for given members holding the five roles. */
  lemma LeadStepWith(key: Registrant -> RankKey, pool: seq<Registrant>, used: set<int>,
                     a: Registrant, b: Registrant, z: Registrant, d: Registrant, e: Registrant)
    requires DistinctUids(pool)
    requires a in pool && a.uid !in used && a.role == RolePrimary
    requires b in pool && b.uid !in used && b.role == RoleSecondary
    requires z in pool && z.uid !in used && z.role == RoleTertiary
    requires d in pool && d.uid !in used && d.role in DpsRoles
    requires e in pool && e.uid !in used && e.role in DpsRoles && d.uid != e.uid
    ensures LeadStep(key, pool, used).squad.Some?
  {
    PickUnusedFinds(key, pool, used, [RolePrimary], a);
    var p := PickUnused(key, pool, used, [RolePrimary]).value;
    OtherRoleOtherUid(pool, b, p);
    PickUnusedFinds(key, pool, used + {p.uid}, [RoleSecondary], b);
    var q := PickUnused(key, pool, used + {p.uid}, [RoleSecondary]).value;
    StillFree(pool, p, q, z, d, e);
    var t2 := Tail([Slot(p.role, p), Slot(q.role, q)], used + {p.uid} + {q.uid});
    FillTailFillsWith(key, pool, t2, z, d, e);
    LeadStepUnfold(key, pool, used);
  }

  /** A pass whose Primary and Secondary picks succeed forms a squad exactly
      when the tail after them fills. */
  lemma LeadStepUnfold(key: Registrant -> RankKey, pool: seq<Registrant>, used: set<int>)
    ensures var prim := PickUnused(key, pool, used, [RolePrimary]);
      prim.Some? ==>
        var p := prim.value;
        var sec := PickUnused(key, pool, used + {p.uid}, [RoleSecondary]);
        sec.Some? ==>
          var q := sec.value;
          var t2 := Tail([Slot(p.role, p), Slot(q.role, q)], used + {p.uid} + {q.uid});
          (LeadStep(key, pool, used).squad.Some? <==> |FillTail(key, pool, t2).slots| == |t2.slots| + 3)
  {
  }

  /** Each member of a squad a pass forms is the best-ranked free member for
      its slot at its turn: the Primary, the Secondary, the third slot's
      member as `ThirdBest` says, and two Strip DPS or DPS. */
  lemma LeadStepBest(key: Registrant -> RankKey, pool: seq<Registrant>, used: set<int>)
    ensures var s := LeadStep(key, pool, used);
      s.squad.Some? ==>
        var sq := s.squad.value;
        && |sq| == SquadSize
        && BestFree(key, pool, used, [RolePrimary], sq[0].member)
        && BestFree(key, pool, used + {sq[0].member.uid}, [RoleSecondary], sq[1].member)
        && ThirdBest(key, pool, used + {sq[0].member.uid} + {sq[1].member.uid}, sq[2].member)
        && BestFree(key, pool, used + {sq[0].member.uid} + {sq[1].member.uid} + {sq[2].member.uid},
                    DpsRoles, sq[3].member)
        && BestFree(key, pool, used + {sq[0].member.uid} + {sq[1].member.uid} + {sq[2].member.uid}
                    + {sq[3].member.uid}, DpsRoles, sq[4].member)
  {
    var prim := PickUnused(key, pool, used, [RolePrimary]);
    if prim.Some? {
      PickUnusedBest(key, pool, used, [RolePrimary]);
      var t1 := Take(Tail([], used), RoleSlot(prim));
      var sec := PickUnused(key, pool, t1.used, [RoleSecondary]);
      if sec.Some? {
        PickUnusedBest(key, pool, t1.used, [RoleSecondary]);
        var t2 := Take(t1, RoleSlot(sec));
        var t := FillTail(key, pool, t2);
        if |t.slots| == SquadSize {
          FillTailBest(key, pool, t2);
          assert t.slots[0] == t2.slots[0] && t.slots[1] == t2.slots[1];
        }
      }
    }
  }

  /** When one pass forms a squad, what each slot holds and why it formed. */
  lemma LeadStepSpec(key: Registrant -> RankKey, pool: seq<Registrant>, used: set<int>)
    ensures PassOk(pool, used, LeadStep(key, pool, used))
    ensures LeadStep(key, pool, used).squad.Some? ==>
      && OneFree(pool, used, [RolePrimary]) && OneFree(pool, used, [RoleSecondary])
      && OneFree(pool, used, ThirdSlotRoles) && TwoFree(pool, used, DpsRoles)
    ensures && DistinctUids(pool)
            && OneFree(pool, used, [RolePrimary]) && OneFree(pool, used, [RoleSecondary])
            && OneFree(pool, used, [RoleTertiary]) && TwoFree(pool, used, DpsRoles)
            ==> LeadStep(key, pool, used).squad.Some?
  {
    LeadStepKeeps(key, pool, used);
    LeadStepNeeds(key, pool, used);
    LeadStepForms(key, pool, used);
  }

  /** A Commander squad that forms had a free Secondary, a free holder of a
      third-slot role and two free Strip DPS or DPS besides the commander. */
  lemma CommanderSquadNeeds(key: Registrant -> RankKey, pool: seq<Registrant>, c: Registrant)
    requires c in pool && c.role == RoleCommander
    ensures CommanderSquad(key, pool, c).squad.Some? ==>
      && OneFree(pool, {c.uid}, [RoleSecondary]) && OneFree(pool, {c.uid}, ThirdSlotRoles)
      && TwoFree(pool, {c.uid}, DpsRoles)
  {
    var s := CommanderSquad(key, pool, c);
    CommanderSquadKeeps(key, pool, c);
    if s.squad.Some? {
      var sq := s.squad.value;
      assert sq[0].member.uid == c.uid;
      assert sq[1].member.uid != c.uid && sq[1].member.role in [RoleSecondary];
      assert sq[2].member.uid != c.uid && sq[3].member.uid != c.uid && sq[4].member.uid != c.uid;
      assert sq[3].member.uid != sq[4].member.uid;
    }
  }

  /** With unique ids, a Secondary, a Tertiary Support and two Strip DPS or
      DPS in the pool always complete the Commander squad. */
  lemma CommanderSquadForms(key: Registrant -> RankKey, pool: seq<Registrant>, c: Registrant)
    requires c in pool && c.role == RoleCommander
    ensures && DistinctUids(pool)
            && OneFree(pool, {}, [RoleSecondary]) && OneFree(pool, {}, [RoleTertiary])
            && TwoFree(pool, {}, DpsRoles)
            ==> CommanderSquad(key, pool, c).squad.Some?
  {
    if && DistinctUids(pool)
       && OneFree(pool, {}, [RoleSecondary]) && OneFree(pool, {}, [RoleTertiary])
       && TwoFree(pool, {}, DpsRoles)
    {
      var b :| b in pool && b.role in [RoleSecondary];
      var z :| z in pool && z.role in [RoleTertiary];
      var d, e :| d in pool && e in pool && d.uid != e.uid && d.role in DpsRoles && e.role in DpsRoles;
      CommanderSquadWith(key, pool, c, b, z, d, e);
    }
  }

  /** `CommanderSquadForms` for given members holding the four roles. */
  lemma CommanderSquadWith(key: Registrant -> RankKey, pool: seq<Registrant>, c: Registrant,
                           b: Registrant, z: Registrant, d: Registrant, e: Registrant)
    requires DistinctUids(pool) && c in pool && c.role == RoleCommander
    requires b in pool && b.role == RoleSecondary
    requires z in pool && z.role == RoleTertiary
    requires d in pool && d.role in DpsRoles
    requires e in pool && e.role in DpsRoles && d.uid != e.uid
    ensures CommanderSquad(key, pool, c).squad.Some?
  {
    var t0 := Tail([Slot(RoleCommander, c)], {c.uid});
    OtherRoleOtherUid(pool, b, c);
    PickUnusedFinds(key, pool, t0.used, [RoleSecondary], b);
    var sec := PickUnused(key, pool, t0.used, [RoleSecondary]);
    var q := sec.value;
    var t1 := Take(t0, RoleSlot(sec));
    assert t1.used == {c.uid} + {q.uid} && |t1.slots| == 2;
    StillFree(pool, c, q, z, d, e);
    FillTailFillsWith(key, pool, t1, z, d, e);
  }

  /** The tail's three candidates are not the two members taken before them,
      whose roles no tail slot accepts. */
  lemma StillFree(pool: seq<Registrant>, p: Registrant, q: Registrant, z: Registrant, d: Registrant, e: Registrant)
    requires DistinctUids(pool) && p in pool && q in pool && z in pool && d in pool && e in pool
    requires p.role !in ThirdSlotRoles && q.role !in ThirdSlotRoles
    requires z.role in ThirdSlotRoles && d.role in ThirdSlotRoles && e.role in ThirdSlotRoles
    ensures z.uid !in {p.uid, q.uid} && d.uid !in {p.uid, q.uid} && e.uid !in {p.uid, q.uid}
  {
    OtherRoleOtherUid(pool, z, p);
    OtherRoleOtherUid(pool, z, q);
    OtherRoleOtherUid(pool, d, p);
    OtherRoleOtherUid(pool, d, q);
    OtherRoleOtherUid(pool, e, p);
    OtherRoleOtherUid(pool, e, q);
  }

  /** With unique ids, pool members with different roles have different ids. */
  lemma OtherRoleOtherUid(pool: seq<Registrant>, x: Registrant, y: Registrant)
    requires DistinctUids(pool) && x in pool && y in pool && x.role != y.role
    ensures x.uid != y.uid
  {
    if x.uid == y.uid {
      UidIdentifies(pool, x, y);
    }
  }

  /** A formed Commander squad holds the commander, then the best-ranked
      free member for each later slot at its turn. */
  lemma CommanderSquadBest(key: Registrant -> RankKey, pool: seq<Registrant>, c: Registrant)
    ensures var s := CommanderSquad(key, pool, c);
      s.squad.Some? ==>
        var sq := s.squad.value;
        && |sq| == SquadSize && sq[0].member == c
        && BestFree(key, pool, {c.uid}, [RoleSecondary], sq[1].member)
        && ThirdBest(key, pool, {c.uid} + {sq[1].member.uid}, sq[2].member)
        && BestFree(key, pool, {c.uid} + {sq[1].member.uid} + {sq[2].member.uid}, DpsRoles, sq[3].member)
        && BestFree(key, pool, {c.uid} + {sq[1].member.uid} + {sq[2].member.uid} + {sq[3].member.uid},
                    DpsRoles, sq[4].member)
  {
    var t0 := Tail([Slot(RoleCommander, c)], {c.uid});
    var sec := PickUnused(key, pool, t0.used, [RoleSecondary]);
    if sec.Some? {
      PickUnusedBest(key, pool, t0.used, [RoleSecondary]);
      var t1 := Take(t0, RoleSlot(sec));
      var t := FillTail(key, pool, t1);
      if |t.slots| == SquadSize {
        FillTailBest(key, pool, t1);
        assert t.slots[0] == t1.slots[0] && t.slots[1] == t1.slots[1];
      }
    }
  }

  /** What the Commander squad holds, when it forms and when it fails. */
  lemma CommanderSquadSpec(key: Registrant -> RankKey, pool: seq<Registrant>, c: Registrant)
    requires c in pool && c.role == RoleCommander
    ensures var r := CommanderSquad(key, pool, c);
      && (r.squad.None? ==> r.used == {c.uid})
      && (r.squad.Some? ==> CommanderShaped(r.squad.value, c) && Fresh(pool, {}, Tail(r.squad.value, r.used)))
    ensures CommanderSquad(key, pool, c).squad.Some? ==>
      && OneFree(pool, {c.uid}, [RoleSecondary]) && OneFree(pool, {c.uid}, ThirdSlotRoles)
      && TwoFree(pool, {c.uid}, DpsRoles)
    ensures && DistinctUids(pool)
            && OneFree(pool, {}, [RoleSecondary]) && OneFree(pool, {}, [RoleTertiary])
            && TwoFree(pool, {}, DpsRoles)
            ==> CommanderSquad(key, pool, c).squad.Some?
  {
    CommanderSquadKeeps(key, pool, c);
    CommanderSquadNeeds(key, pool, c);
    CommanderSquadForms(key, pool, c);
  }

  /** The `while len(squads) < MAX_SQUADS` loop, given the pass it repeats
      and how many squads are already built: the squads it adds while five
      people remain and a pass forms a full squad. */
  function LeadSquads(pass: set<int> -> Step, pool: seq<Registrant>, used: set<int>, built: nat)
    : (r: Progress)
    decreases MaxSquads - built
    ensures built <= MaxSquads ==> built + |r.squads| <= MaxSquads
  {
    if built >= MaxSquads || FreeCount(pool, used) < SquadSize then Progress([], used)
    else
      var step := pass(used);
      if step.squad.None? then Progress([], step.used)
      else if built + 1 >= MaxSquads then Progress([step.squad.value], step.used)
      else
        var rest := LeadSquads(pass, pool, step.used, built + 1);
        Progress([step.squad.value] + rest.squads, rest.used)
  }

  /** A failed pass gives back what it took, whatever was taken before it. */
  ghost predicate PassReleases(pass: set<int> -> Step)
  {
    forall used :: pass(used).squad.None? ==> pass(used).used == used
  }

  /** Every squad a pass forms satisfies `ok`, whatever was taken before it. */
  ghost predicate PassKeeps(pass: set<int> -> Step, ok: Squad -> bool)
  {
    forall used :: pass(used).squad.Some? ==> ok(pass(used).squad.value)
  }

  /** Every squad a pass forms holds free pool members, as `Fresh` says. */
  ghost predicate PassFresh(pass: set<int> -> Step, pool: seq<Registrant>)
  {
    forall used :: pass(used).squad.Some? ==> Fresh(pool, used, Tail(pass(used).squad.value, pass(used).used))
  }

  lemma LeadStepReleases(key: Registrant -> RankKey, pool: seq<Registrant>)
    ensures PassReleases((u: set<int>) => LeadStep(key, pool, u))
  {
    forall used
      ensures PassOk(pool, used, LeadStep(key, pool, used))
    {
      LeadStepKeeps(key, pool, used);
    }
  }

  lemma LeadStepShaped(key: Registrant -> RankKey, pool: seq<Registrant>)
    ensures PassKeeps((u: set<int>) => LeadStep(key, pool, u), (sq: Squad) => LeadShaped(sq))
  {
    forall used
      ensures PassOk(pool, used, LeadStep(key, pool, used))
    {
      LeadStepKeeps(key, pool, used);
    }
  }

  lemma LeadStepFresh(key: Registrant -> RankKey, pool: seq<Registrant>)
    ensures PassFresh((u: set<int>) => LeadStep(key, pool, u), pool)
  {
    forall used
      ensures PassOk(pool, used, LeadStep(key, pool, used))
    {
      LeadStepKeeps(key, pool, used);
    }
  }

  /** Every squad the loop adds satisfies what every pass's squad does. */
  lemma {:induction false} LeadSquadsShaped(pass: set<int> -> Step, pool: seq<Registrant>, used: set<int>, built: nat, ok: Squad -> bool)
    requires PassKeeps(pass, ok)
    decreases MaxSquads - built
    ensures var r := LeadSquads(pass, pool, used, built);
      forall i | 0 <= i < |r.squads| :: ok(r.squads[i])
  {
    var r := LeadSquads(pass, pool, used, built);
    if built < MaxSquads && FreeCount(pool, used) >= SquadSize {
      var step := pass(used);
      if step.squad.Some? {
        var sq := step.squad.value;
        if built + 1 >= MaxSquads {
          assert r.squads == [sq];
        } else {
          var rest := LeadSquads(pass, pool, step.used, built + 1);
          LeadSquadsShaped(pass, pool, step.used, built + 1, ok);
          assert r.squads == [sq] + rest.squads;
          forall i | 0 <= i < |r.squads|
            ensures ok(r.squads[i])
          {
            if i > 0 {
              assert r.squads[i] == rest.squads[i - 1];
            } else {
              assert r.squads[0] == sq;
            }
          }
        }
      }
    }
  }

  /** The loop takes exactly the members of the squads it adds, each once,
      all of them free pool members captioned with their own roles. */
  lemma {:induction false} LeadSquadsFresh(pass: set<int> -> Step, pool: seq<Registrant>, used: set<int>, built: nat)
    requires PassReleases(pass) && PassFresh(pass, pool)
    decreases MaxSquads - built
    ensures var r := LeadSquads(pass, pool, used, built);
      Fresh(pool, used, Tail(Flatten(r.squads), r.used))
  {
    var r := LeadSquads(pass, pool, used, built);
    assert SlotUids([]) == {};
    if built >= MaxSquads || FreeCount(pool, used) < SquadSize {
      assert r == Progress([], used);
    } else {
      var step := pass(used);
      if step.squad.None? {
        assert r == Progress([], used);
      } else {
        var sq := step.squad.value;
        if built + 1 >= MaxSquads {
          assert r == Progress([sq], step.used);
          assert Flatten([sq]) == sq + Flatten([]);
          assert sq + [] == sq;
        } else {
          var rest := LeadSquads(pass, pool, step.used, built + 1);
          LeadSquadsFresh(pass, pool, step.used, built + 1);
          assert r == Progress([sq] + rest.squads, rest.used);
          assert r.squads[1..] == rest.squads;
          assert Flatten(r.squads) == sq + Flatten(rest.squads);
          JoinSlots(pool, used, sq, Flatten(rest.squads));
        }
      }
    }
  }

  /** The loop stops short of the cap only when fewer than five people are
      free or the next pass would not form a squad. */
  lemma {:induction false} LeadSquadsStops(pass: set<int> -> Step, pool: seq<Registrant>, used: set<int>, built: nat)
    requires PassReleases(pass)
    decreases MaxSquads - built
    ensures var r := LeadSquads(pass, pool, used, built);
      built + |r.squads| < MaxSquads ==> FreeCount(pool, r.used) < SquadSize || pass(r.used).squad.None?
  {
    var r := LeadSquads(pass, pool, used, built);
    if built >= MaxSquads {
    } else if FreeCount(pool, used) < SquadSize {
      assert r.used == used;
    } else {
      var step := pass(used);
      if step.squad.None? {
        assert r.used == used;
      } else if built + 1 < MaxSquads {
        var rest := LeadSquads(pass, pool, step.used, built + 1);
        LeadSquadsStops(pass, pool, step.used, built + 1);
        assert r.used == rest.used && |r.squads| == 1 + |rest.squads|;
      }
    }
  }

  /** The squads after a first pass: its squad, if it formed one, then the
      Primary-led loop from what it left taken. */
  function Continue(pass: set<int> -> Step, pool: seq<Registrant>, first: Step): (p: Progress)
    ensures |p.squads| <= MaxSquads
  {
    if first.squad.None? then LeadSquads(pass, pool, first.used, 0)
    else
      var rest := LeadSquads(pass, pool, first.used, 1);
      Progress([first.squad.value] + rest.squads, rest.used)
  }

  /** With every pass keeping `ok`, every squad satisfies `ok`, except that
      the first pass's squad satisfies `head` instead. */
  lemma ContinueShaped(pass: set<int> -> Step, pool: seq<Registrant>, first: Step, ok: Squad -> bool, head: Squad -> bool)
    requires PassKeeps(pass, ok)
    requires first.squad.Some? ==> head(first.squad.value)
    ensures var p := Continue(pass, pool, first);
      forall i | 0 <= i < |p.squads| :: ok(p.squads[i]) || (i == 0 && head(p.squads[0]))
  {
    var p := Continue(pass, pool, first);
    if first.squad.None? {
      var rest := LeadSquads(pass, pool, first.used, 0);
      LeadSquadsShaped(pass, pool, first.used, 0, ok);
    } else {
      var sq := first.squad.value;
      var rest := LeadSquads(pass, pool, first.used, 1);
      LeadSquadsShaped(pass, pool, first.used, 1, ok);
      assert p.squads == [sq] + rest.squads;
      forall i | 0 <= i < |p.squads|
        ensures ok(p.squads[i]) || (i == 0 && head(p.squads[0]))
      {
        if i == 0 {
          assert p.squads[0] == sq;
        } else {
          assert p.squads[i] == rest.squads[i - 1];
        }
      }
    }
  }

  lemma ContinueFresh(pass: set<int> -> Step, pool: seq<Registrant>, first: Step, held: set<int>)
    requires PassReleases(pass) && PassFresh(pass, pool)
    requires first.squad.None? ==> first.used == held
    requires first.squad.Some? ==>
      Fresh(pool, {}, Tail(first.squad.value, first.used)) && held <= SlotUids(first.squad.value)
    ensures var p := Continue(pass, pool, first);
      && Fresh(pool, {}, Tail(Flatten(p.squads), SlotUids(Flatten(p.squads))))
      && p.used == SlotUids(Flatten(p.squads)) + held
  {
    var p := Continue(pass, pool, first);
    if first.squad.None? {
      var rest := LeadSquads(pass, pool, first.used, 0);
      LeadSquadsFresh(pass, pool, first.used, 0);
      assert p.squads == rest.squads;
    } else {
      var sq := first.squad.value;
      var rest := LeadSquads(pass, pool, first.used, 1);
      LeadSquadsFresh(pass, pool, first.used, 1);
      assert p.squads == [sq] + rest.squads;
      assert p.squads[1..] == rest.squads;
      assert Flatten(p.squads) == sq + Flatten(rest.squads);
      JoinSlots(pool, {}, sq, Flatten(rest.squads));
    }
  }

  lemma ContinueStops(pass: set<int> -> Step, pool: seq<Registrant>, first: Step)
    requires PassReleases(pass)
    ensures var p := Continue(pass, pool, first);
      |p.squads| < MaxSquads ==> FreeCount(pool, p.used) < SquadSize || pass(p.used).squad.None?
  {
    LeadSquadsStops(pass, pool, first.used, if first.squad.Some? then 1 else 0);
  }

  /** The commander and the squads, before overflow and reason. */
  function Assemble(key: Registrant -> RankKey, pool: seq<Registrant>): (d: Draft)
    ensures d.commander == PickBest(key, pool, [RoleCommander])
    ensures |d.squads| <= MaxSquads
  {
    var commander := PickBest(key, pool, [RoleCommander]);
    var first := if commander.None? then Step(None, {}) else CommanderSquad(key, pool, commander.value);
    var p := Continue((u: set<int>) => LeadStep(key, pool, u), pool, first);
    Draft(commander, p.squads, p.used)
  }

  /** The uids a draft holds: its squads' members and the commander. */
  function Taken(d: Draft): set<int>
  {
    SlotUids(Flatten(d.squads)) + (if d.commander.Some? then {d.commander.value.uid} else {})
  }

  /** Squad 1 is either the Commander squad or Primary-led, and every later
      squad is Primary-led. */
  lemma AssembleShaped(key: Registrant -> RankKey, pool: seq<Registrant>)
    ensures var d := Assemble(key, pool);
      forall i | 0 <= i < |d.squads| ::
        LeadShaped(d.squads[i]) || (i == 0 && d.commander.Some? && CommanderShaped(d.squads[0], d.commander.value))
  {
    var commander := PickBest(key, pool, [RoleCommander]);
    var first := if commander.None? then Step(None, {}) else CommanderSquad(key, pool, commander.value);
    if commander.Some? {
      CommanderSquadKeeps(key, pool, commander.value);
    }
    LeadStepShaped(key, pool);
    ContinueShaped((u: set<int>) => LeadStep(key, pool, u), pool, first,
      (sq: Squad) => LeadShaped(sq),
      (sq: Squad) => commander.Some? && CommanderShaped(sq, commander.value));
  }

  /** The squads hold distinct pool members captioned with their own roles,
      and nobody but them and the commander is taken. */
  lemma AssembleFresh(key: Registrant -> RankKey, pool: seq<Registrant>)
    ensures var d := Assemble(key, pool);
      && Fresh(pool, {}, Tail(Flatten(d.squads), SlotUids(Flatten(d.squads))))
      && d.used == Taken(d)
  {
    var commander := PickBest(key, pool, [RoleCommander]);
    var first := if commander.None? then Step(None, {}) else CommanderSquad(key, pool, commander.value);
    var held := if commander.None? then {} else {commander.value.uid};
    if commander.Some? {
      var c := commander.value;
      CommanderSquadKeeps(key, pool, c);
      if first.squad.Some? {
        assert c.uid in SlotUids(first.squad.value) by { assert first.squad.value[0].member == c; }
      }
    }
    LeadStepReleases(key, pool);
    LeadStepFresh(key, pool);
    ContinueFresh((u: set<int>) => LeadStep(key, pool, u), pool, first, held);
  }

  /** Assembling stops short of the cap only when fewer than five people are
      free or a further Primary-led pass would not form a squad. */
  lemma AssembleStops(key: Registrant -> RankKey, pool: seq<Registrant>)
    ensures var d := Assemble(key, pool);
      |d.squads| < MaxSquads ==>
        FreeCount(pool, d.used) < SquadSize || LeadStep(key, pool, d.used).squad.None?
  {
    var commander := PickBest(key, pool, [RoleCommander]);
    var first := if commander.None? then Step(None, {}) else CommanderSquad(key, pool, commander.value);
    LeadStepReleases(key, pool);
    ContinueStops((u: set<int>) => LeadStep(key, pool, u), pool, first);
  }

  // ---------------------------------------------------------------------------
  // Five players, one squad

  lemma {:induction false} FreeCountNoneTaken(pool: seq<Registrant>)
    ensures FreeCount(pool, {}) == |pool|
    decreases |pool|
  {
    if |pool| > 0 {
      FreeCountNoneTaken(pool[1..]);
    }
  }

  lemma {:induction false} FreeCountAllTaken(pool: seq<Registrant>, used: set<int>)
    requires forall x :: x in pool ==> x.uid in used
    ensures FreeCount(pool, used) == 0
    decreases |pool|
  {
    if |pool| > 0 {
      assert pool[0] in pool;
      forall x | x in pool[1..]
        ensures x.uid in used
      {
        assert x in pool;
      }
      FreeCountAllTaken(pool[1..], used);
    }
  }

  /** A squad of five distinct members drawn from a pool of one Primary, one
      Secondary, one Tertiary Support and two Strip DPS or DPS takes all of
      them. */
  lemma SquadTakesFive(pool: seq<Registrant>, sq: Squad,
                       a: Registrant, b: Registrant, z: Registrant, d: Registrant, e: Registrant)
    requires forall x :: x in pool ==> x == a || x == b || x == z || x == d || x == e
    requires a.role == RolePrimary && b.role == RoleSecondary && z.role == RoleTertiary
    requires d.role in DpsRoles && e.role in DpsRoles
    requires LeadShaped(sq) && FromPool(pool, {}, sq) && DistinctSlots(sq)
    ensures forall x :: x in pool ==> x.uid in SlotUids(sq)
  {
    var m := seq(5, i requires 0 <= i < 5 => sq[i].member);
    assert m[0] in pool && m[1] in pool && m[2] in pool && m[3] in pool && m[4] in pool;
    assert m[0] == a && m[1] == b;
    assert m[3] == d || m[3] == e;
    assert m[4] == d || m[4] == e;
    assert m[2] == z by {
      assert m[2].uid != m[0].uid && m[2].uid != m[1].uid && m[2].uid != m[3].uid && m[2].uid != m[4].uid;
    }
    assert a.uid in SlotUids(sq) && b.uid in SlotUids(sq) && z.uid in SlotUids(sq);
    assert d.uid in SlotUids(sq) && e.uid in SlotUids(sq) by {
      assert m[3].uid in SlotUids(sq) && m[4].uid in SlotUids(sq);
      assert m[3].uid != m[4].uid;
    }
  }

  /** With no Commander, one Primary, one Secondary, one Tertiary Support and
      two Strip DPS or DPS form exactly one squad that takes all five. */
  lemma FivePlayersOneSquad(key: Registrant -> RankKey, pool: seq<Registrant>,
                            a: Registrant, b: Registrant, z: Registrant, d: Registrant, e: Registrant)
    requires DistinctUids(pool) && multiset(pool) == multiset{a, b, z, d, e}
    requires a.role == RolePrimary && b.role == RoleSecondary && z.role == RoleTertiary
    requires d.role in DpsRoles && e.role in DpsRoles && d.uid != e.uid
    ensures var dr := Assemble(key, pool);
      && dr.commander.None? && |dr.squads| == 1 && LeadShaped(dr.squads[0])
      && forall x :: x in pool ==> x.uid in dr.used
  {
    forall x | x in pool
      ensures x == a || x == b || x == z || x == d || x == e
    {
      assert x in multiset(pool);
    }
    assert a in multiset(pool) && b in multiset(pool) && z in multiset(pool);
    assert d in multiset(pool) && e in multiset(pool);
    assert |pool| == 5 by {
      assert |multiset(pool)| == 5;
    }
    assert PickBest(key, pool, [RoleCommander]).None?;
    FreeCountNoneTaken(pool);
    LeadStepWith(key, pool, {}, a, b, z, d, e);
    LeadStepKeeps(key, pool, {});
    var step := LeadStep(key, pool, {});
    SquadTakesFive(pool, step.squad.value, a, b, z, d, e);
    FreeCountAllTaken(pool, step.used);
    OneSquadThenStuck((u: set<int>) => LeadStep(key, pool, u), pool, {});
  }

  /** A loop whose first pass forms a squad and leaves fewer than five free
      builds that one squad. */
  lemma OneSquadThenStuck(pass: set<int> -> Step, pool: seq<Registrant>, used: set<int>)
    requires FreeCount(pool, used) >= SquadSize && pass(used).squad.Some?
    requires FreeCount(pool, pass(used).used) < SquadSize
    ensures LeadSquads(pass, pool, used, 0) == Progress([pass(used).squad.value], pass(used).used)
  {
    assert LeadSquads(pass, pool, pass(used).used, 1) == Progress([], pass(used).used);
  }
}
