/** Role and tier metadata of a (class, elite specialization) pair: the
    built-in table, the override layer on top of it, and the resolver that
    combines them (bot.py, `get_spec_meta` and the constants it reads). */
module Meta {
  import opened Wrappers
  import opened Seqs
  import opened Roles

  const AllowedTiers: seq<string> := ["S+", "S", "A", "B", "C"]
  /** Lower is better. */
  const TierOrder: map<string, nat> := map["S+" := 0, "S" := 1, "A" := 2, "B" := 3, "C" := 4]
  /** The tier a missing or invalid tier collapses to. */
  const DefaultTier: string := "C"
  /** The rank `TIER_ORDER.get(tier, 4)` gives a tier it does not know. */
  const UnknownTierRank: nat := 4
  /** The role list a spec falls back to when nothing selectable is left. */
  const DefaultRoles: seq<string> := [RoleDps]

  datatype BaseEntry = BaseEntry(roles: seq<string>, tier: string)

  /** An override may set the roles, the tier, both or neither; a field it
      leaves unset falls through to the built-in table. */
  datatype OverrideEntry = OverrideEntry(roles: Option<seq<string>>, tier: Option<string>)

  const EmptyOverride: OverrideEntry := OverrideEntry(None, None)

  datatype SpecKey = SpecKey(klass: string, spec: string)

  /** The override table, keyed by (class, elite spec). */
  type Overrides = map<SpecKey, OverrideEntry>

  /** The two mutable tables the resolver reads: metadata overrides and the
      names of the custom roles (their buckets are not read by the core). */
  datatype Tables = Tables(overrides: Overrides, customRoles: seq<string>)

  datatype SpecMeta = SpecMeta(roles: seq<string>, tier: string)

  /** The built-in table: class -> elite spec -> (roles, tier), in insertion order. */
  const EliteSpecsBase: seq<(string, seq<(string, BaseEntry)>)> := [
    ("Guardian", [
      ("Core", BaseEntry(["DPS"], "C")),
      ("Dragonhunter", BaseEntry(["DPS"], "A")),
      ("Firebrand", BaseEntry(["Primary Support"], "S+")),
      ("Willbender", BaseEntry(["DPS"], "B")),
      ("Luminary", BaseEntry(["Primary Support"], "A"))
    ]),
    ("Warrior", [
      ("Core", BaseEntry(["DPS"], "C")),
      ("Berserker", BaseEntry(["DPS"], "B")),
      ("Spellbreaker", BaseEntry(["DPS"], "S")),
      ("Bladesworn", BaseEntry(["DPS"], "A")),
      ("Paragon", BaseEntry(["Utility"], "C"))
    ]),
    ("Revenant", [
      ("Core", BaseEntry(["DPS"], "C")),
      ("Herald", BaseEntry(["Tertiary Support"], "B")),
      ("Renegade", BaseEntry(["DPS"], "S")),
      ("Vindicator", BaseEntry(["DPS"], "A")),
      ("Conduit", BaseEntry(["Utility"], "C"))
    ]),
    ("Engineer", [
      ("Core", BaseEntry(["DPS"], "C")),
      ("Scrapper", BaseEntry(["Secondary Support"], "S")),
      ("Holosmith", BaseEntry(["DPS"], "S")),
      ("Mechanist", BaseEntry(["DPS"], "S")),
      ("Amalgam", BaseEntry(["DPS"], "B"))
    ]),
    ("Ranger", [
      ("Core", BaseEntry(["DPS"], "C")),
      ("Druid", BaseEntry(["Secondary Support"], "S")),
      ("Soulbeast", BaseEntry(["Tertiary Support"], "B")),
      ("Untamed", BaseEntry(["DPS"], "A")),
      ("Galeshot", BaseEntry(["Utility"], "C"))
    ]),
    ("Thief", [
      ("Core", BaseEntry(["DPS"], "C")),
      ("Daredevil", BaseEntry(["DPS"], "A")),
      ("Deadeye", BaseEntry(["Strip DPS"], "S+")),
      ("Specter", BaseEntry(["Secondary Support"], "S")),
      ("Antiquary", BaseEntry(["Utility"], "C"))
    ]),
    ("Elementalist", [
      ("Core", BaseEntry(["DPS"], "C")),
      ("Tempest", BaseEntry(["Secondary Support"], "S")),
      ("Weaver", BaseEntry(["DPS"], "S+")),
      ("Catalyst", BaseEntry(["Tertiary Support"], "S")),
      ("Evoker", BaseEntry(["Utility"], "C"))
    ]),
    ("Mesmer", [
      ("Core", BaseEntry(["DPS"], "C")),
      ("Chronomancer", BaseEntry(["Primary Support"], "S+")),
      ("Mirage", BaseEntry(["DPS"], "S")),
      ("Virtuoso", BaseEntry(["DPS"], "S")),
      ("Troubadour", BaseEntry(["Utility"], "B"))
    ]),
    ("Necromancer", [
      ("Core", BaseEntry(["DPS"], "C")),
      ("Reaper", BaseEntry(["DPS"], "S")),
      ("Scourge", BaseEntry(["Strip DPS"], "S+")),
      ("Harbinger", BaseEntry(["Tertiary Support"], "S")),
      ("Ritualist", BaseEntry(["Strip DPS"], "S"))
    ])
  ]

  function BaseEntryFor(key: SpecKey): Option<BaseEntry>
  {
    match Lookup(EliteSpecsBase, key.klass)
    case None => None
    case Some(specs) => Lookup(specs, key.spec)
  }

  function OverrideFor(overrides: Overrides, key: SpecKey): Option<OverrideEntry>
  {
    if key in overrides then Some(overrides[key]) else None
  }

  /** The roles a registrant may select: the canonical buckets followed by the
      custom roles that are not canonical. */
  function AllRolesForSelect(customRoles: seq<string>): (r: seq<string>)
    ensures |r| >= |WvwRolesDisplay| && r[..|WvwRolesDisplay|] == WvwRolesDisplay
    ensures forall x :: x in r <==> x in WvwRolesDisplay || x in customRoles
    ensures forall i :: |WvwRolesDisplay| <= i < |r| ==> r[i] !in WvwRolesDisplay
  {
    var extra := Filter((x: string) => x !in WvwRolesDisplay, customRoles);
    assert forall i :: 0 <= i < |extra| ==> extra[i] in extra;
    WvwRolesDisplay + extra
  }

  /** One field of the layered configuration: the override's value if it has
      one, else the built-in value if there is one, else the fixed default. */
  function Layered<V>(over: Option<V>, base: Option<V>, default: V): V
  {
    over.GetOr(base.GetOr(default))
  }

  function LayeredRoles(t: Tables, key: SpecKey): seq<string>
  {
    var ov := OverrideFor(t.overrides, key);
    var base := BaseEntryFor(key);
    Layered(if ov.Some? then ov.value.roles else None,
            if base.Some? then Some(base.value.roles) else None,
            DefaultRoles)
  }

  function LayeredTier(t: Tables, key: SpecKey): string
  {
    var ov := OverrideFor(t.overrides, key);
    var base := BaseEntryFor(key);
    Layered(if ov.Some? then ov.value.tier else None,
            if base.Some? then Some(base.value.tier) else None,
            DefaultTier)
  }

  /** `get_spec_meta`: roles and tier are resolved independently through the
      layers; the roles are then restricted to selectable ones (falling back to
      `["DPS"]`) and an unknown tier collapses to `"C"`. */
  function ResolveSpecMeta(t: Tables, klass: string, spec: string): (m: SpecMeta)
    ensures |m.roles| > 0
    ensures forall r :: r in m.roles ==> r in AllRolesForSelect(t.customRoles)
    ensures m.tier in AllowedTiers
    ensures forall r :: r in LayeredRoles(t, SpecKey(klass, spec)) && r in AllRolesForSelect(t.customRoles)
              ==> r in m.roles
    ensures m.roles == DefaultRoles || forall r :: r in m.roles ==> r in LayeredRoles(t, SpecKey(klass, spec))
    ensures LayeredTier(t, SpecKey(klass, spec)) in AllowedTiers ==> m.tier == LayeredTier(t, SpecKey(klass, spec))
    ensures LayeredTier(t, SpecKey(klass, spec)) !in AllowedTiers ==> m.tier == DefaultTier
  {
    var key := SpecKey(klass, spec);
    var selectable := AllRolesForSelect(t.customRoles);
    var kept := Filter((r: string) => r in selectable, LayeredRoles(t, key));
    var tier := LayeredTier(t, key);
    SpecMeta(if |kept| > 0 then kept else DefaultRoles,
             if tier in AllowedTiers then tier else DefaultTier)
  }

  /** When some layered role is selectable, the resolved roles are the
      selectable layered roles in their layered order, duplicates included:
      each selectable role occurs as often as in the layered list, any other
      role not at all. */
  lemma ResolveKeepsLayeredOrder(t: Tables, klass: string, spec: string)
    ensures var layered, sel := LayeredRoles(t, SpecKey(klass, spec)), AllRolesForSelect(t.customRoles);
      var m := ResolveSpecMeta(t, klass, spec);
      (exists r :: r in layered && r in sel) ==>
        && IsSubseq(m.roles, layered)
        && forall r :: multiset(m.roles)[r] == (if r in sel then multiset(layered)[r] else 0)
  {
    var layered, sel := LayeredRoles(t, SpecKey(klass, spec)), AllRolesForSelect(t.customRoles);
    var f := (r: string) => r in sel;
    FilterNonEmpty(f, layered);
    FilterIsSubseq(f, layered);
    forall r
      ensures multiset(Filter(f, layered))[r] == (if r in sel then multiset(layered)[r] else 0)
    {
      FilterCount(f, layered, r);
    }
  }

  /** Roles and tier are resolved separately: changing only the tier of an
      override never changes the resolved roles, and changing only its roles
      never changes the resolved tier. */
  lemma ResolveFieldsIndependent(t: Tables, key: SpecKey, e: OverrideEntry, tier: Option<string>, roles: Option<seq<string>>)
    ensures ResolveSpecMeta(Tables(t.overrides[key := e.(tier := tier)], t.customRoles), key.klass, key.spec).roles
         == ResolveSpecMeta(Tables(t.overrides[key := e], t.customRoles), key.klass, key.spec).roles
    ensures ResolveSpecMeta(Tables(t.overrides[key := e.(roles := roles)], t.customRoles), key.klass, key.spec).tier
         == ResolveSpecMeta(Tables(t.overrides[key := e], t.customRoles), key.klass, key.spec).tier
  {
    var t1 := Tables(t.overrides[key := e.(tier := tier)], t.customRoles);
    var t2 := Tables(t.overrides[key := e], t.customRoles);
    var t3 := Tables(t.overrides[key := e.(roles := roles)], t.customRoles);
    assert LayeredRoles(t1, key) == LayeredRoles(t2, key);
    assert LayeredTier(t3, key) == LayeredTier(t2, key);
  }

  /** `TIER_ORDER.get(tier, 4)`. */
  function TierRank(tier: string): (n: nat)
    ensures n <= UnknownTierRank
    ensures tier in AllowedTiers ==> n < |AllowedTiers| && AllowedTiers[n] == tier
    ensures tier !in AllowedTiers ==> n == UnknownTierRank
  {
    if tier in TierOrder then TierOrder[tier] else UnknownTierRank
  }

  /** `TIER_ORDER` and `ALLOWED_TIERS` describe the same five tiers, and the
      rank of each is its position in the allowed list. */
  lemma TierTablesAgree()
    ensures forall s :: s in TierOrder <==> s in AllowedTiers
    ensures forall i :: 0 <= i < |AllowedTiers| ==> TierRank(AllowedTiers[i]) == i
  {
  }

  /** A pair's rank in the tier order, as the ranking uses it. */
  function TierRankOf(t: Tables, klass: string, spec: string): (n: nat)
    ensures n < |AllowedTiers| && AllowedTiers[n] == ResolveSpecMeta(t, klass, spec).tier
  {
    TierRank(ResolveSpecMeta(t, klass, spec).tier)
  }
}
