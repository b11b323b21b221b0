# Squad composition of the WvW sign-up bot, in Dafny

This project models the part of the Discord bot that decides who plays what
in a Guild Wars 2 World-vs-World raid. It also proves properties of that
model. All of the modelled code lives in `bot.py`.

- **Spec metadata** (`Meta`). Each elite specialisation has a built-in role
  list and tier (`ELITE_SPECS_BASE`). Staff may set per-spec overrides
  (`meta_overrides`), and custom roles may exist (`custom_roles`).
  `get_spec_meta` resolves one spec's roles and tier through these layers.
  It keeps only selectable roles, falls back to `["DPS"]`, and maps an
  unknown tier to `"C"`.
- **Ranking** (`Registrants`, `Ranking`). `_rank_key` orders registrants by
  resolved tier, then by the most recent update, then by user id.
  `_pick_best` takes the best-ranked candidate whose role is allowed.
- **Role-gap predictor** (`Predictor`). `_role_counts_from_attending` tallies
  the seven role buckets. From those tallies alone, `preview_next_missing_role`
  names the support role that keeps the next squad from forming.
- **Squad builder** (`Allocator`, `Roster`). `build_squads_balanced` works in
  these steps:
  - It picks one global Commander.
  - It tries a Commander squad of Commander, Secondary, a Tertiary or a
    fallback, and two DPS.
  - It then builds Primary-led squads of five, up to `MAX_SQUADS`.
  - Finally it reports the overflow and the reason for it: the cap, a role
    imbalance, or none.
- **Build recommendations** (`Recommend`). `best_specs_for_role` lists the
  best-tier built-in specs for a role, cut to a limit with Python's slice
  semantics.
- **Bulk override import** (`MetaImport`). `_apply_meta_csv_string` checks
  each CSV row: Class and Spec present and known, Tier allowed, every role
  selectable. It merges each valid row into the override table and counts
  it as updated or skipped. Each invalid row is reported with its line number.

Module layout:

- `wrappers.dfy`: `Option`.
- `seqs.dfy`: filters and dict lookups.
- `text.dfy`: Python's `strip`, `split` and `join`.
- `roles.dfy`: role names and the squad cap.
- `meta.dfy`, `rank_key.dfy`, `registrants.dfy`, `predictor.dfy`,
  `allocator.dfy`, `roster.dfy`, `recommend.dfy` and `meta_import.dfy`:
  as listed above.

Modelling decisions:

- **Globals become parameters.** `meta_overrides`, `custom_roles` and
  `wvw_rsvp_data` are explicit values:
  - `Tables` holds the overrides and the custom role names;
  - the registrations are a `seq<Registrant>`.
- **Unique user ids.** The source keeps registrations in a dict keyed by
  user id. Where that matters, lemmas require `DistinctUids`.
- **Flat override table.** The nested override dict is a map from
  (class, spec) to an entry whose roles and tier are each optional. An empty
  inner class dict resolves like a missing one, so nothing observable is lost.
- **Generic helpers.** The squad loop, the row loop and the recommendation
  list take the pass, the row check and the key list as parameters.
  Instantiated with the source's own pass, check and table, they give:
  - `Allocator.Assemble`: steps 1 to 3 of `build_squads_balanced`, the
    commander and the squads. The whole function, with the attending filter,
    the rank sort, the overflow and the reason, is
    `Roster.BuildSquadsBalanced`.
  - `MetaImport.ApplyMetaCsv`: `_apply_meta_csv_string`.
  - `Recommend.BestSpecsForRole`: `best_specs_for_role`.

Where the code and its documented intent differ, the model follows the code:

- With nobody registered, the predictor asks for a Secondary Support, not a
  Primary. For the first squad without a commander, the Primary need is
  `max(0, 1 - 1) = 0` (`Predictor.PreviewEmptyPool`). In fact it names
  Primary Support only when a Commander is registered.
- The third slot's caption is `"Tertiary Support"` for a Tertiary and the
  member's own role otherwise. Either way it is the member's role
  (`Allocator.TertiaryLabel`).
- A Commander squad that comes up short releases everyone but the commander.
  The commander stays taken and is never placed in a later squad.
- A Primary-led pass that comes up short releases all of its members and
  ends the loop.
- The reason's tallies leave out the commander, but its forecast is
  computed over the whole pool, commander included.
- The reason is computed even when nobody overflows. Five players who
  exactly fill one Primary-led squad still get an imbalance naming Secondary
  Support, the shortage for squad 2 (`Roster.FivePlayersNoOverflow`).
- A valid row that changes nothing still creates an empty override entry for
  its spec (`setdefault`).
- Importing the same rows twice always leaves the table as the first import
  left it. The second import updates nothing only when no two valid rows
  name the same spec. Otherwise each such row overwrites the other again and
  is counted as updated (`MetaImport.DuplicateRowsUpdateAgain`).

## Model

| member | source | states |
|---|---|---|
| Meta.AllRolesForSelect | bot.py:124-127 | the canonical roles come first, in order; then each custom role not already canonical; a role is selectable exactly when it is canonical or custom |
| Meta.ResolveSpecMeta | bot.py:222-229 | resolved roles are non-empty and all selectable; every selectable layered role is kept; anything else resolves to `["DPS"]`; the tier is always allowed, is the layered tier when that is allowed and `"C"` otherwise |
| Meta.ResolveKeepsLayeredOrder | bot.py:222-229 | when some layered role is selectable, the resolved roles keep the layered order, and each selectable role occurs as often as in the layered list, any other role not at all |
| Meta.ResolveFieldsIndependent | bot.py:224-228 | roles and tier resolve independently: changing only an override's tier leaves the resolved roles unchanged, and changing only its roles leaves the resolved tier unchanged |
| Meta.TierRank | bot.py:32 | `TIER_ORDER.get(tier, 4)`: an allowed tier's rank is its position in `ALLOWED_TIERS`; any other tier ranks 4 |
| Meta.TierTablesAgree | bot.py:32-33 | `TIER_ORDER` and `ALLOWED_TIERS` name the same five tiers, each ranked by its list position |
| Meta.TierRankOf | bot.py:435-437 | `_tier_order_for` is the position of the spec's resolved tier in the allowed list, so it is below 5 (`"C"` ranks 4) |
| Ranking.RankKeyOf | bot.py:439-445 | the key is (rank of the resolved tier, negated update time, user id) |
| Ranking.RankByOrder | bot.py:435-445 | one registrant sorts no later than another exactly when its tier ranks better, or the tiers tie and it was updated more recently, or both tie and its id is not larger; equal ids give equal keys |
| Ranking.RankKeysDistinct | bot.py:439-445 | registrants with different ids never tie: exactly one ranks before the other |
| Registrants.KeyLeIsTotalOrder | bot.py:442-445 | comparing key tuples is reflexive, total, antisymmetric and transitive |
| Registrants.PickBest | bot.py:447-452 | no pick exactly when no candidate has an allowed role; otherwise the pick is a candidate with an allowed role, ranked no worse than any other such candidate |
| Registrants.PickBestUnique | bot.py:447-452 | with unique ids, any best-ranked allowed candidate is the pick |
| Registrants.SortIsSorted | bot.py:506 | the sorted pool is ordered by the key |
| Registrants.SortIsPermutation | bot.py:506 | sorting only reorders: same multiset of registrants |
| Registrants.SortKeepsDistinct | bot.py:506 | sorting keeps user ids unique |
| Registrants.FilterKeepsDistinct | bot.py:505 | a filtered list keeps user ids unique |
| Registrants.FilterKeepsSorted | bot.py:596 | a filtered list keeps the key order |
| Predictor.RoleCountsAreBucketCounts | bot.py:419-433 | each bucket of the loop's tally equals the number of registrants holding that role |
| Predictor.RoleCountsPermutation | bot.py:419-433 | the tallies depend only on who is in the pool, not on its order |
| Predictor.RoleCountsIgnoreOtherRoles | bot.py:430-432 | roles outside the seven buckets do not change any tally |
| Predictor.CountsWithoutCommander | bot.py:599 | with unique ids, leaving the commander out lowers only the Commander tally, by one |
| Predictor.PreviewFromCounts | bot.py:463-495 | names Primary, Secondary or Tertiary Support, or nothing; nothing once the capacity reaches the cap; a named role is short for the next squad; Primary only with a Commander; nothing below the cap means all three supports suffice |
| Predictor.PreviewIsFirstShortage | bot.py:463-495 | the branchy forecast equals a reference rule: the first of Primary (needing n-1), Secondary and Tertiary (needing n) that is short for the next squad n |
| Predictor.PreviewNextMissingRole | bot.py:454-495 | on a pool: a named role is a support role held by fewer registrants than the next squad needs, and Primary is named only when a Commander is registered |
| Predictor.PreviewEmptyPool | bot.py:478-491 | with nobody registered the forecast is Secondary Support |
| Predictor.FivePlayersForecast | bot.py:463-495 | a pool of one Primary, one Secondary, one Tertiary and two Strip DPS or DPS forecasts Secondary Support: its counts allow one squad, and squad 2 needs two Secondaries |
| Predictor.PreviewFirstSquadNeverPrimary | bot.py:478-491 | when the next squad is the first, the forecast never names Primary Support |
| Predictor.PreviewPermutation | bot.py:454-495 | the forecast depends only on who is in the pool |
| Allocator.Remaining | bot.py:517-518 | `remaining()` holds exactly the pool members whose id is not taken |
| Allocator.FreeCountIsRemaining | bot.py:553-555 | the free count used by the loop guard is `len(remaining())` |
| Allocator.PickUnused | bot.py:447-452 | a pick is a free pool member with an allowed role |
| Allocator.PickUnusedIsPickBest | bot.py:447-452 | picking while skipping taken members equals `_pick_best(remaining(), allow)` |
| Allocator.PickUnusedSpec | bot.py:447-452 | the pick fails exactly when no free member has an allowed role; otherwise it ranks no worse than any free allowed member |
| Allocator.PickUnusedBest | bot.py:447-452 | the pick fails exactly when nobody free holds an allowed role; otherwise it is a free pool member with an allowed role, ranked no worse than any other |
| Allocator.TertiaryPick | bot.py:568 | the third-slot pick is a free pool member holding Tertiary, Strip DPS, DPS or Utility |
| Allocator.TertiaryPickSpec | bot.py:568 | a fallback fills the slot only when no Tertiary Support is free; the slot stays empty exactly when nobody with one of the four roles is free |
| Allocator.TertiaryPickBest | bot.py:568 | the pick fails exactly when nobody free holds one of the four roles; otherwise it is the best free Tertiary, or, when none is free, the best free Strip DPS, DPS or Utility |
| Allocator.TertiaryLabel | bot.py:582 | the third slot's caption is the member's own role |
| Allocator.TertiarySlot | bot.py:582 | the third slot is captioned like every other slot, with the member's role |
| Allocator.Take | bot.py:568-579 | appending a pick extends the squad by exactly that slot, leaving earlier slots unchanged |
| Allocator.FillTail | bot.py:568-584 | the tail adds up to three slots after the existing ones, leaving those unchanged |
| Allocator.FillTailFresh | bot.py:568-584 | tail members are distinct, free pool members captioned with their roles, and exactly their ids become taken |
| Allocator.FillTailShape | bot.py:568-584 | a full tail is a Tertiary or fallback followed by two Strip DPS or DPS |
| Allocator.FillTailFull | bot.py:568-584 | the tail fills all three slots exactly when the third-slot pick succeeds and two more Strip DPS or DPS with different ids are free besides it |
| Allocator.FillTailBest | bot.py:568-577 | in a full tail the third slot is the third-slot pick's best, and each DPS slot is the best-ranked Strip DPS or DPS still free after the slots before it |
| Allocator.FillTailFillsWith | bot.py:568-584 | with unique ids, a free Tertiary and two free Strip DPS or DPS are enough for a full tail |
| Allocator.ReleaseAll | bot.py:586-591 | releasing every slot of a short squad restores the ids taken before it |
| Allocator.CommanderSquadSpec | bot.py:523-549 | a failed Commander squad leaves only the commander taken; a formed one is commander, Secondary and a full tail of distinct free pool members; it forms only when a Secondary, a third-slot role and two Strip DPS or DPS are free besides the commander; with unique ids, a free Secondary, a free Tertiary and two free Strip DPS or DPS make it form |
| Allocator.CommanderSquadNeeds | bot.py:523-549 | a formed Commander squad means a Secondary, someone with a third-slot role and two Strip DPS or DPS were free besides the commander |
| Allocator.CommanderSquadForms | bot.py:523-549 | with unique ids, a free Secondary, a free Tertiary and two free Strip DPS or DPS make the Commander squad form |
| Allocator.CommanderSquadBest | bot.py:523-546 | a formed Commander squad has five slots: the commander, then the best free Secondary, the third-slot pick, and the two best free Strip DPS or DPS, each chosen after the slots before it were taken |
| Allocator.ShapedSlotsAreNotCommander | bot.py:557-584 | a Primary-led squad has no Commander; a Commander squad has one only in its first slot |
| Allocator.LeadStepSpec | bot.py:552-591 | one pass of the loop either gives back every id it took, or forms a Primary, Secondary and full-tail squad of distinct free pool members; it forms only when a Primary, a Secondary, a third-slot role and two Strip DPS or DPS are free; with unique ids, a free Primary, Secondary, Tertiary and two free Strip DPS or DPS make it form |
| Allocator.LeadStepNeeds | bot.py:557-591 | a formed squad means a Primary, a Secondary, someone with a third-slot role and two Strip DPS or DPS were free |
| Allocator.LeadStepForms | bot.py:557-591 | with unique ids, a free Primary, Secondary, Tertiary and two free Strip DPS or DPS make the pass form a squad |
| Allocator.LeadStepBest | bot.py:557-587 | a formed squad has five slots: the best free Primary, then the best free Secondary, the third-slot pick, and the two best free Strip DPS or DPS, each chosen after the slots before it were taken |
| Allocator.LeadSquads | bot.py:552-594 | the loop never builds past `MAX_SQUADS` |
| Allocator.LeadSquadsShaped | bot.py:552-594 | every squad the loop adds has the shape each pass guarantees |
| Allocator.LeadSquadsFresh | bot.py:552-594 | the loop takes exactly its squads' members, each once, all free pool members |
| Allocator.LeadSquadsStops | bot.py:552-594 | the loop stops short of the cap only when fewer than five are free or the next pass fails |
| Allocator.Continue | bot.py:523-594 | the first squad and the loop's squads together never exceed `MAX_SQUADS` |
| Allocator.ContinueShaped | bot.py:523-594 | every squad after the first has the pass shape; the first has the pass shape or the Commander-squad shape |
| Allocator.ContinueFresh | bot.py:523-594 | all squad members are distinct pool members; the taken ids are theirs plus the commander's |
| Allocator.ContinueStops | bot.py:552-594 | after the Commander squad, building stops short of the cap only when fewer than five are free or a pass fails |
| Allocator.Assemble | bot.py:509-594 | the commander is the best-ranked Commander in the pool, and there are at most `MAX_SQUADS` squads |
| Allocator.AssembleShaped | bot.py:523-594 | squad 1 is the Commander squad or Primary-led; every later squad is Primary-led |
| Allocator.AssembleFresh | bot.py:509-594 | squads hold distinct pool members captioned with their roles, and only they and the commander are taken |
| Allocator.AssembleStops | bot.py:552-594 | with fewer than `MAX_SQUADS` squads, either fewer than five are free or one more pass would fail |
| Allocator.FivePlayersOneSquad | bot.py:505-594 | with unique ids, a pool of exactly a Primary, a Secondary, a Tertiary and two Strip DPS or DPS gives no commander and one Primary-led squad that takes everyone |
| Roster.AttendingPool | bot.py:505-506 | the pool is ordered by `_rank_key` |
| Roster.AttendingPoolSpec | bot.py:505-506 | the pool holds exactly the attending registrants with a role, each once, with ids kept unique |
| Roster.Overflow | bot.py:596 | a registrant overflows exactly when it is in the pool, its id is not taken, and it is not the commander |
| Roster.Explain | bot.py:599-608 | the reason is "cap" exactly when `MAX_SQUADS` squads exist and someone overflows; otherwise "imbalance" exactly when the forecast names a role, with the matching message; otherwise "none" with an empty message |
| Roster.BuildFromPool | bot.py:504-610 | the commander is `_pick_best` over the pool; at most `MAX_SQUADS` squads; overflow members are pool members other than the commander |
| Roster.BuildSquadsBalanced | bot.py:497-610 | at most `MAX_SQUADS` squads, and the commander holds the Commander role |
| Roster.OverflowSpec | bot.py:596 | a registrant overflows exactly when attending, in no squad, and not the commander |
| Roster.OverflowOrdered | bot.py:596 | the overflow keeps the pool's order and unique ids |
| Roster.SquadsSpec | bot.py:509-594 | every squad has five members in its shape; all members are distinct pool members captioned with their own roles |
| Roster.StopsOnlyWhenStuck | bot.py:552-596 | below the cap, either fewer than five people overflow or one more pass would fail |
| Roster.ReasonCounts | bot.py:599 | the reason's tallies are the pool's, with one Commander fewer when there is a commander |
| Roster.ImbalanceNamesShortRole | bot.py:604-608 | an imbalance names a support role the pool is short of for the next squad, and Primary only when a Commander is registered |
| Roster.CommanderOnlyLeadsFirstSquad | bot.py:509-594 | the only Commander in any squad is the commander, in the first slot of squad 1 |
| Roster.PoolPartition | bot.py:505-596 | with unique ids, a registrant is in the pool exactly when it is the commander, a squad member or overflow; an overflow member is neither the commander nor in a squad (the commander itself may also lead squad 1) |
| Roster.CommanderIsBest | bot.py:505-515 | there is no commander exactly when no attending registrant chose Commander; otherwise the commander is the best-ranked attending Commander |
| Roster.SquadMembersAttend | bot.py:505-594 | squad members are attending registrants, none appearing twice |
| Roster.OverflowMembers | bot.py:596 | the overflow is every attending non-commander registrant in no squad, best-ranked first, each once |
| Roster.ReasonOverRecords | bot.py:599-608 | over the registrations: an imbalance is the forecast over all attending registrants, and the tallies leave out only the commander |
| Roster.NoOverflowWhenAllTaken | bot.py:596 | when every pool member's id is taken, nobody overflows |
| Roster.FivePlayersNoOverflow | bot.py:497-610 | with unique ids, a pool of exactly a Primary, a Secondary, a Tertiary and two Strip DPS or DPS gives one Primary-led squad, no commander and no overflow, yet the reason is an imbalance naming Secondary Support |
| Recommend.TableKeys | bot.py:234-235 | the visited pairs are exactly the table's (class, spec) pairs |
| Recommend.TableKeysAt | bot.py:234-235 | class `i`'s pairs occupy the positions from the count of all earlier classes' pairs on, in the class's spec order |
| Recommend.TableKeysOrder | bot.py:234-235 | spec `j` of class `i` is visited before spec `l` of class `k` whenever `i < k`, or `i == k` and `j < l` |
| Recommend.CandidatesSpec | bot.py:233-238 | a candidate is exactly a visited pair whose resolved roles include the role, with its tier rank |
| Recommend.SortByRank | bot.py:239 | sorting keeps the length and exactly the same candidates |
| Recommend.SortByRankSpec | bot.py:239 | the sort is ordered by rank and stable: each rank's candidates keep their order |
| Recommend.SliceTo | bot.py:241 | Python's `s[:limit]`: a non-negative limit keeps the first `min(limit, len)` entries, a negative one drops that many from the end |
| Recommend.SortedPrefix | bot.py:239-241 | the cut keeps `min(limit, len)` candidates in rank order, and nothing left out ranks better than anything kept |
| Recommend.TopCandidatesSpec | bot.py:232-241 | the reported candidates are matching pairs in rank order, as many as the limit allows, and no matching pair left out ranks better |
| Recommend.TopKeepsTableOrder | bot.py:239-241 | among equal tiers the reported pairs are the first of that tier in table order |
| Recommend.RecommendationsSpec | bot.py:240-243 | the i-th line is `"klass - spec"` of the i-th reported candidate, which matches the role; at most `limit` lines |
| Recommend.BestSpecsForRoleSpec | bot.py:231-243 | over the built-in table, line i is `"klass - spec"` of the i-th reported candidate, a built-in pair whose resolved roles include the role; at most `limit` lines |
| Text.Strip | bot.py:1439-1442 | the stripped cell is no longer than the cell, and is empty or neither starts nor ends with whitespace |
| Text.StripIsSlice | bot.py:1439-1442 | `strip()` keeps one contiguous slice and removes only whitespace on either side |
| Text.StripIdempotent | bot.py:1457 | stripping twice is stripping once |
| Text.Split | bot.py:1457 | a split has at least one piece and no piece contains the separator |
| Text.JoinSplit | bot.py:1457 | joining the pieces of a split gives back the string |
| Text.SplitJoin | bot.py:1457 | splitting a join of separator-free pieces gives back the pieces |
| MetaImport.ParseRoles | bot.py:1457 | the parsed roles are absent exactly when the cell is empty; otherwise a name is a parsed role exactly when it is the non-empty strip of some `\|`-separated piece of the cell; every parsed role is non-empty and stripped |
| MetaImport.StrippedPartsMembers | bot.py:1457 | the kept pieces are exactly the non-empty strips of the input pieces |
| MetaImport.StrippedPartsAppend | bot.py:1457 | the kept pieces keep the input order: those of a concatenation are the first part's, then the second's |
| MetaImport.ParseJoinedRoles | bot.py:1457 | a cell joined from separator-free pieces parses as those pieces, stripped and with empty ones dropped, in their order |
| MetaImport.RolesRoundTrip | bot.py:1421 | a roles cell written by the export as `"\|".join(roles)` imports as the same roles, given clean role names |
| MetaImport.CheckRow | bot.py:1439-1463 | each outcome holds exactly when its check is the first to fail: missing Class/Spec when either stripped cell is empty; unknown pair when both are present and the pair is not built in; invalid tier when the pair is known and a non-empty tier is not allowed (the error carries that tier); invalid roles when the earlier checks pass and some parsed role is not selectable (the error lists exactly those roles); accepted when every check passes. An accepted row names the stripped pair, sets the stripped tier exactly when the cell is non-empty, and sets exactly the parsed roles of the cell when there is at least one |
| MetaImport.Merge | bot.py:1466-1475 | the entry always exists afterwards; other entries are unchanged; the merge reports no change exactly when every requested field already held the value |
| MetaImport.ApplyRows | bot.py:1438-1480 | every row is counted once, as updated or as skipped; there are no more errors than skipped rows |
| MetaImport.ApplyMetaCsv | bot.py:1425-1483 | updated plus skipped equals the number of data rows |
| MetaImport.RejectedRowsChangeNothing | bot.py:1444-1463 | the table equals the valid rows' changes merged in order; errors plus valid rows equal all rows |
| MetaImport.ErrorsSpec | bot.py:1444-1463 | one error per rejected row, naming its line (from 2) and problem, in line order |
| MetaImport.ApplyChangesIsLastWriter | bot.py:1466-1475 | merging is last-writer-wins per field: the keys are the old ones plus every named pair, and each field holds its last written value or the old one |
| MetaImport.ApplyChangesIdempotent | bot.py:1466-1475 | merging the same changes again leaves the table unchanged |
| MetaImport.ImportIdempotent | bot.py:1438-1480 | importing the same rows again leaves the table as the first import left it |
| MetaImport.SettledRowsSkip | bot.py:1466-1480 | if the table already holds every valid row's change, nothing changes and no row counts as updated |
| MetaImport.SecondImportUpdatesNothing | bot.py:1438-1480 | when no two valid rows name the same pair, a second import updates nothing |
| MetaImport.DuplicateRowsUpdateAgain | bot.py:1466-1480 | two valid rows setting different tiers for one pair are both counted as updated on a second import |
| MetaImport.ApplyMetaCsvTwice | bot.py:1425-1483 | re-running the import on its own result keeps the table; with distinct pairs it updates nothing |

## Left out

- Discord interaction is not modelled: slash commands, views, DMs, prompts and their cooldown.
- File persistence is not modelled: the JSON files, `save_meta_overrides`, and reading the CSV attachment.
- The CSV reader itself is not modelled. Rows arrive already split into Class, Spec, Tier and Roles cells, with a missing cell as `""`. Quoting, dialects and the header line are left out, except that data rows are numbered from 2.
- MetaImport.ErrorsSpec: errors are structured (line number plus problem) instead of the Swedish message strings. The strings only format these fields.
- Ranking.RankKeyOf: `updated_at` is an already parsed whole epoch second. `parse_iso`, fractional seconds and the `now_utc_iso()` default for a missing timestamp are the clock's business.
- `role_to_bucket` and the bucket values of `custom_roles` are left out. The modelled core uses only the custom role names.
- Squad templates and the legacy sign-up lists are left out, as are the roster embeds that display an allocation.
- Text.StripIsSlice: `strip()` whitespace is Python's `str.isspace()` on single code points, written out as ranges. No Unicode database is consulted.
- Recommend.BestSpecsForRole: the `limit` parameter's default of 2 is only the constant `DefaultLimit`. There are no optional arguments.
- MetaImport.SecondImportUpdatesNothing: requires that no two valid rows name the same (class, spec). With such duplicates the second import still counts rows as updated, because each duplicate overwrites the other again (`MetaImport.DuplicateRowsUpdateAgain`). The table itself is unchanged either way (`MetaImport.ImportIdempotent`).
- Allocator.FillTail: its own contract says only that the tail adds up to three slots after the existing ones. Which members fill it and when it is full are stated by `Allocator.FillTailBest`, `Allocator.FillTailFull`, `Allocator.FillTailShape` and `Allocator.FillTailFresh`.
- Allocator.LeadStepForms: the sufficient condition asks for a free Tertiary Support. When only fallbacks are free, whether the pass forms depends on which fallback ranks best, because a Strip DPS or DPS fallback uses up one of the two DPS. The exact condition, in terms of the third-slot pick, is `Allocator.FillTailFull`.
- Allocator.CommanderSquadForms: the same holds for the Commander squad.
- Recommend.TableKeys: its own contract states only which pairs are visited. The visiting order is stated by `Recommend.TableKeysAt` and `Recommend.TableKeysOrder`.
- Ranking.RankBy: it only builds the sort key. Its meaning is stated by `Ranking.RankByOrder` and `Ranking.RankKeysDistinct`.
