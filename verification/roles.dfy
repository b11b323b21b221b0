/** The canonical WvW role names and the squad cap (bot.py, `WVW_ROLES_DISPLAY`
    and `MAX_SQUADS`). */
module Roles {
  const RoleCommander: string := "Commander"
  const RolePrimary: string := "Primary Support"
  const RoleSecondary: string := "Secondary Support"
  const RoleTertiary: string := "Tertiary Support"
  const RoleDps: string := "DPS"
  const RoleStripDps: string := "Strip DPS"
  const RoleUtility: string := "Utility"

  /** The seven canonical role buckets, in display order. */
  const WvwRolesDisplay: seq<string> :=
    [RoleCommander, RolePrimary, RoleSecondary, RoleTertiary, RoleDps, RoleStripDps, RoleUtility]

  /** At most this many squads are formed (50 players). */
  const MaxSquads: nat := 10
}
