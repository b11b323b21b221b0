/** Candidate ranking (bot.py, `_tier_order_for` and `_rank_key`): the key
    every allocation decision orders registrants by. */
module Ranking {
  import opened Meta
  import opened Registrants

  /** `_rank_key`: better tier first, then the most recently updated, then the
      smaller user id. */
  function RankKeyOf(t: Tables, x: Registrant): (k: RankKey)
    ensures k.uid == x.uid
    ensures k.freshness == -x.updatedAt
    ensures 0 <= k.tier < |AllowedTiers| && AllowedTiers[k.tier] == ResolveSpecMeta(t, x.klass, x.spec).tier
  {
    RankKey(TierRankOf(t, x.klass, x.spec), 0 - x.updatedAt, x.uid)
  }

  /** `_rank_key` as a function value, the key every allocation decision sorts by. */
  function RankBy(t: Tables): (key: Registrant -> RankKey)
    ensures forall x :: key(x) == RankKeyOf(t, x)
  {
    (x: Registrant) => RankKeyOf(t, x)
  }

  /** Under `RankBy`, `x` ranks no worse than `y` exactly when its resolved
      tier is better, or the tiers are equal and `x` was updated more
      recently, or both are equal and `x` has the smaller or the same id. */
  lemma RankByOrder(t: Tables, x: Registrant, y: Registrant)
    ensures KeysById(RankBy(t))
    ensures var tx, ty := TierRankOf(t, x.klass, x.spec), TierRankOf(t, y.klass, y.spec);
      KeyLe(RankBy(t)(x), RankBy(t)(y)) <==>
        || tx < ty
        || (tx == ty && x.updatedAt > y.updatedAt)
        || (tx == ty && x.updatedAt == y.updatedAt && x.uid <= y.uid)
  {
  }

  /** Registrants with different ids never tie, so the order is strict. */
  lemma RankKeysDistinct(t: Tables, x: Registrant, y: Registrant)
    requires x.uid != y.uid
    ensures RankKeyOf(t, x) != RankKeyOf(t, y)
    ensures KeyLe(RankKeyOf(t, x), RankKeyOf(t, y)) != KeyLe(RankKeyOf(t, y), RankKeyOf(t, x))
  {
  }

}
