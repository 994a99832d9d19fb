/** Rank tiers and `Rank.get_by_mmr`: the tier with the greatest `min_rating`
    not above the rating (`find_first(where min_rating <= rating,
    order min_rating desc)`), or none. */
module Ranks {
  import opened Wrappers

  datatype Rank = Rank(id: int, name: string, minRating: int)

  /** The tier a rating resolves to. Among tiers sharing the winning
      `minRating` the earliest in the store is taken. */
  function GetByMmr(ranks: seq<Rank>, rating: int): (r: Option<Rank>)
    ensures r.Some? ==> r.value in ranks && r.value.minRating <= rating
    ensures r.Some? ==> forall t :: t in ranks && t.minRating <= rating ==> t.minRating <= r.value.minRating
    ensures r.None? <==> forall t :: t in ranks ==> rating < t.minRating
  {
    if ranks == [] then None
    else
      var rest := GetByMmr(ranks[1..], rating);
      var head := ranks[0];
      assert ranks == [head] + ranks[1..];
      if rating < head.minRating then rest
      else if rest.Some? && head.minRating < rest.value.minRating then rest
      else Some(head)
  }

  /** Raising the rating never resolves to a lower tier, nor loses a tier. */
  lemma GetByMmrMonotone(ranks: seq<Rank>, lo: int, hi: int)
    requires lo <= hi
    ensures GetByMmr(ranks, lo).Some? ==> GetByMmr(ranks, hi).Some?
    ensures GetByMmr(ranks, lo).Some? ==> GetByMmr(ranks, lo).value.minRating <= GetByMmr(ranks, hi).value.minRating
  {
    var a := GetByMmr(ranks, lo);
    if a.Some? {
      assert a.value in ranks && a.value.minRating <= hi;
    }
  }

  /** The three-tier example: 999 is Low, 1000 is Mid, 2500 is High, -1 is unranked. */
  lemma ThreeTierExample()
    ensures var tiers := [Rank(1, "Low", 0), Rank(2, "Mid", 1000), Rank(3, "High", 2000)];
      && GetByMmr(tiers, 999) == Some(tiers[0])
      && GetByMmr(tiers, 1000) == Some(tiers[1])
      && GetByMmr(tiers, 2500) == Some(tiers[2])
      && GetByMmr(tiers, -1) == None
  {
  }
}
