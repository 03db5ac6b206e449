/** Lanes, stream tiers and the configuration tables keyed by lane. */
module Lanes {
  import opened Wrappers

  /** The lanes `config/queues.yaml` knows, and any other text in the `lane` column. */
  datatype Lane =
    | Search | Http | Browser | Media | Extract | Enrich | Document | Index
    | Other(name: string)

  datatype Tier = High | Normal | Bulk | Repair

  /** A stream name: the lane's prefix and a tier. */
  datatype Stream = Stream(lane: Lane, tier: Tier)

  predicate IsFetchLane(lane: Lane) {
    lane.Search? || lane.Http? || lane.Browser? || lane.Media?
  }

  /** The configured tiers of a lane, in order; none for a lane without streams. */
  function TiersOf(lane: Lane): seq<Tier> {
    match lane
    case Search | Http | Extract => [High, Normal, Bulk]
    case Browser => [High, Normal, Repair]
    case Media | Enrich | Document | Index => [Normal]
    case Other(_) => []
  }

  function TierFor(tiers: seq<Tier>, priority: int): Tier
    requires tiers != []
  {
    if |tiers| == 1 then tiers[0]
    else
      var wanted := if priority == 0 || priority == 1 then High else if priority == 3 then Bulk else Normal;
      var tier := if wanted == Bulk && Bulk !in tiers && Repair in tiers then Repair else wanted;
      if tier in tiers then tier else if Normal in tiers then Normal else tiers[0]
  }

  /** The stream of a task; `None` where the source raises ValueError for an unknown lane. */
  function StreamFor(lane: Lane, priority: int): Option<Stream> {
    var tiers := TiersOf(lane);
    if tiers == [] then None else Some(Stream(lane, TierFor(tiers, priority)))
  }

  /** Which tier each priority resolves to; priority 3 of the browser lane goes to repair, as it has no bulk tier. */
  lemma StreamForExact(lane: Lane, priority: int)
    ensures StreamFor(lane, priority).None? <==> lane.Other?
    ensures StreamFor(lane, priority).Some? ==>
              var s := StreamFor(lane, priority).value;
              && s.lane == lane && s.tier in TiersOf(lane)
              && (s.tier.High? <==> (priority == 0 || priority == 1)
                                    && (lane.Search? || lane.Http? || lane.Extract? || lane.Browser?))
              && (s.tier.Bulk? <==> priority == 3 && (lane.Search? || lane.Http? || lane.Extract?))
              && (s.tier.Repair? <==> priority == 3 && lane.Browser?)
  {
  }
}
