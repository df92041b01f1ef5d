/** The resolver's fixed score tiers, in hundredths (the source writes 1.00f ... 0.30f). */
module Scores {

  /** Which candidate pool a match was found in: the users of the current
      channel, or all users of the main guild. */
  datatype Pool = Channel | Guild

  /** The name-based strategies that come in case-sensitive / case-insensitive pairs. */
  datatype Tier =
    | TagTier      // `name#tag`
    | WholeTier    // the whole username or nickname
    | PrefixTier   // a prefix of the username or nickname

  const MentionScore: int := 100
  const IdScore: int := 90

  /** The score a name strategy awards, given the pool and whether the letter
      case of the token also matched exactly. */
  function TierScore(t: Tier, p: Pool, exactCase: bool): int
  {
    match (t, p, exactCase)
    case (TagTier, Channel, true) => 85
    case (TagTier, Channel, false) => 75
    case (TagTier, Guild, true) => 80
    case (TagTier, Guild, false) => 70
    case (WholeTier, Channel, true) => 65
    case (WholeTier, Channel, false) => 55
    case (WholeTier, Guild, true) => 60
    case (WholeTier, Guild, false) => 50
    case (PrefixTier, Channel, true) => 45
    case (PrefixTier, Channel, false) => 35
    case (PrefixTier, Guild, true) => 40
    case (PrefixTier, Guild, false) => 30
  }

  /** The shape of the tier table: an exact-case match is worth 0.10 more than a
      case-insensitive one, a channel match 0.05 more than a guild match, each
      tier sits strictly below the one before it, and the mention and id
      scores sit above all of them. */
  lemma TierTableShape(t: Tier, p: Pool, exactCase: bool)
    ensures TierScore(t, p, true) == TierScore(t, p, false) + 10
    ensures TierScore(t, Channel, exactCase) == TierScore(t, Guild, exactCase) + 5
    ensures 30 <= TierScore(t, p, exactCase) <= 85 < IdScore < MentionScore
    ensures TierScore(PrefixTier, p, exactCase) <= 45 < 50 <= TierScore(WholeTier, p, exactCase)
    ensures TierScore(WholeTier, p, exactCase) <= 65 < 70 <= TierScore(TagTier, p, exactCase)
  {
  }
}
