/** The matching strategies of `MainGuildUserTypeReader<T>.ReadAsync`, each
    turned into the `AddResult` calls it makes, in the order the source makes them. */
module Strategies {
  import opened Wrappers
  import opened Text
  import opened Parsing
  import opened Users
  import opened Scores
  import opened Aggregation

  /** By mention (1.00): one call when the token is a mention, with the guild
      member of that id, or null when the guild pool has none. */
  function MentionHits(token: string, guild: seq<User>): (r: seq<Hit>)
    ensures |r| <= 1
    ensures ParseMention(token).None? ==> r == []
    ensures forall h :: h in r ==> h.score == MentionScore
    ensures forall h :: h in r && h.user.Some? ==>
              h.user.value in guild && ParseMention(token) == Some(h.user.value.id)
    ensures forall u :: u in guild && ParseMention(token) == Some(u.id) ==>
              |r| == 1 && Proposes(r[0], u.id)
  {
    match ParseMention(token)
    case None => []
    case Some(id) => [Hit(FindById(guild, id), MentionScore)]
  }

  /** By id (0.90): one call when the whole token is a decimal `ulong`, with the
      guild member of that id, or null when the guild pool has none. */
  function IdHits(token: string, guild: seq<User>): (r: seq<Hit>)
    ensures |r| <= 1
    ensures ParseULong(token).None? ==> r == []
    ensures forall h :: h in r ==> h.score == IdScore
    ensures forall h :: h in r && h.user.Some? ==>
              h.user.value in guild && ParseULong(token) == Some(h.user.value.id)
    ensures forall u :: u in guild && ParseULong(token) == Some(u.id) ==>
              |r| == 1 && Proposes(r[0], u.id)
  {
    match ParseULong(token)
    case None => []
    case Some(id) => [Hit(FindById(guild, id), IdScore)]
  }

  /** `token[i]` is the last `#` of the token. */
  predicate IsLastHash(token: string, i: int)
  {
    0 <= i < |token| && token[i] == '#' && forall j :: i < j < |token| ==> token[j] != '#'
  }

  /** The token split at its LAST `#` into a name and a tag, when the text after
      that `#` reads as a `ushort`. */
  function SplitTag(token: string): (r: Option<(string, nat)>)
    ensures '#' !in token ==> r.None?
    ensures forall i :: IsLastHash(token, i) ==>
              (r.Some? <==> ParseUShort(token[i + 1..]).Some?)
    ensures forall i :: IsLastHash(token, i) && r.Some? ==>
              r.value.0 == token[..i] && Some(r.value.1) == ParseUShort(token[i + 1..])
    ensures r.Some? ==> r.value.1 <= UShortMax
  {
    match LastIndexOf(token, '#')
    case None =>
      assert forall k :: !IsLastHash(token, k);
      None
    case Some(i) =>
      var name, rest := token[..i], token[i + 1..];
      assert forall k :: IsLastHash(token, k) ==> k == i && token[k + 1..] == rest && token[..k] == name;
      match ParseUShort(rest)
      case None => None
      case Some(tag) => Some((name, tag))
  }

  /** In `name#digits` the `#` after the name is the last one. */
  lemma JoinedHashIsLast(name: string, d: string)
    requires AllDigits(d)
    ensures IsLastHash(name + "#" + d, |name|)
    ensures (name + "#" + d)[|name| + 1..] == d && (name + "#" + d)[..|name|] == name
  {
    var token := name + "#" + d;
    assert forall j :: |name| < j < |token| ==> token[j] == d[j - |name| - 1];
  }

  /** Splitting at a known last `#` whose tail parses. */
  lemma SplitTagAt(token: string, i: nat, name: string, tag: nat)
    requires IsLastHash(token, i) && token[..i] == name
    requires ParseUShort(token[i + 1..]) == Some(tag)
    ensures SplitTag(token) == Some((name, tag))
  {
  }

  /** Joining any name and an in-range tag with `#` splits back into the same
      pair, whether the tag is written plainly or zero-padded as Discord writes
      it (`Bob#0001`); the name may itself contain `#`, because the split is at
      the last one. */
  lemma SplitTagOfJoin(name: string, z: string, tag: nat)
    requires AllZeros(z)
    requires tag <= UShortMax
    ensures SplitTag(name + "#" + z + ToDecimal(tag)) == Some((name, tag))
  {
    var t := ToDecimal(tag);
    var d := z + t;
    PaddedDecimal(z, tag);
    AppendAssociates(name + "#", z, t);
    JoinedHashIsLast(name, d);
    ParseUShortOfPadded(z, tag);
    SplitTagAt(name + "#" + d, |name|, name, tag);
  }

  /** The score of a `name#tag` match: the exact-case tier when the found user's
      name equals the name byte for byte (a null user is scored as a
      case-insensitive match, and then ignored by `AddResult`). */
  function TagScore(found: Option<User>, name: string, p: Pool): int
  {
    TierScore(TagTier, p, found.Some? && found.value.username == name)
  }

  /** By username and tag (0.70-0.85): when the token splits, exactly one call
      per pool, channel first, each with the FIRST user of that pool whose tag
      matches and whose name matches ignoring case. */
  function TagHits(token: string, channel: seq<User>, guild: seq<User>): (r: seq<Hit>)
    ensures SplitTag(token).None? ==> r == []
    ensures SplitTag(token).Some? ==> |r| == 2
    ensures SplitTag(token).Some? ==>
              var (name, tag) := SplitTag(token).value;
              && r[0] == Hit(FirstTagMatch(channel, name, tag), TagScore(r[0].user, name, Channel))
              && r[1] == Hit(FirstTagMatch(guild, name, tag), TagScore(r[1].user, name, Guild))
  {
    match SplitTag(token)
    case None => []
    case Some((name, tag)) =>
      var c := FirstTagMatch(channel, name, tag);
      var g := FirstTagMatch(guild, name, tag);
      [Hit(c, TagScore(c, name, Channel)), Hit(g, TagScore(g, name, Guild))]
  }

  /** The two name comparisons: the whole name, or a prefix of it. */
  datatype Comparison = Equals | StartsWith

  function TierOf(c: Comparison): Tier
  {
    match c
    case Equals => WholeTier
    case StartsWith => PrefixTier
  }

  /** The `Where` filter of a name strategy: the field is present and matches
      the token ignoring case. A null nickname never matches. */
  predicate NameMatches(u: User, f: Field, c: Comparison, token: string)
  {
    match FieldOf(u, f)
    case None => false
    case Some(v) =>
      match c
      case Equals => EqualsIgnoreCase(token, v)
      case StartsWith => StartsWithIgnoreCase(v, token)
  }

  /** The score test of a name strategy: the same comparison, case-sensitive. */
  predicate ExactCase(u: User, f: Field, c: Comparison, token: string)
  {
    match FieldOf(u, f)
    case None => false
    case Some(v) =>
      match c
      case Equals => v == token
      case StartsWith => token <= v
  }

  /** A case-sensitive match is a case-insensitive match as well. */
  lemma ExactCaseMatches(u: User, f: Field, c: Comparison, token: string)
    requires ExactCase(u, f, c, token)
    ensures NameMatches(u, f, c, token)
  {
    if c == StartsWith {
      PrefixImpliesStartsWithIgnoreCase(FieldOf(u, f).value, token);
    }
  }

  function NameScore(u: User, f: Field, c: Comparison, p: Pool, token: string): int
  {
    TierScore(TierOf(c), p, ExactCase(u, f, c, token))
  }

  /** One name strategy over one pool: a call for every user of the pool that
      passes the filter, in pool order, and for no other user. */
  function Scan(token: string, pool: seq<User>, f: Field, c: Comparison, p: Pool): (r: seq<Hit>)
    ensures |r| <= |pool|
    ensures forall h :: h in r ==> (h.user.Some? && h.user.value in pool
              && NameMatches(h.user.value, f, c, token)
              && h.score == NameScore(h.user.value, f, c, p, token))
    ensures forall u :: u in pool && NameMatches(u, f, c, token) ==>
              Hit(Some(u), NameScore(u, f, c, p, token)) in r
  {
    if |pool| == 0 then []
    else
      var rest := Scan(token, pool[1..], f, c, p);
      assert forall u :: u in pool ==> u == pool[0] || u in pool[1..];
      if NameMatches(pool[0], f, c, token)
      then [Hit(Some(pool[0]), NameScore(pool[0], f, c, p, token))] + rest
      else rest
  }

  /** One name strategy over both pools: the channel users first, then the guild users. */
  function NameHits(token: string, channel: seq<User>, guild: seq<User>, f: Field, c: Comparison): seq<Hit>
  {
    Scan(token, channel, f, c, Channel) + Scan(token, guild, f, c, Guild)
  }

  /** The calls of the two prefix strategies. */
  function PrefixHits(token: string, channel: seq<User>, guild: seq<User>): seq<Hit>
  {
    NameHits(token, channel, guild, Username, StartsWith)
    + NameHits(token, channel, guild, Nickname, StartsWith)
  }

  /** The calls after the mention strategy: id, name and tag, username,
      nickname, username prefix, nickname prefix. */
  function LaterHits(token: string, channel: seq<User>, guild: seq<User>): seq<Hit>
  {
    IdHits(token, guild) + TagHits(token, channel, guild)
    + NameHits(token, channel, guild, Username, Equals)
    + NameHits(token, channel, guild, Nickname, Equals)
    + PrefixHits(token, channel, guild)
  }

  /** Every `AddResult` call of one `ReadAsync`, in source order. */
  function AllHits(token: string, channel: seq<User>, guild: seq<User>): seq<Hit>
  {
    MentionHits(token, guild) + LaterHits(token, channel, guild)
  }

  /** The calls that do not come from a prefix strategy. */
  function NonPrefixHits(token: string, channel: seq<User>, guild: seq<User>): seq<Hit>
  {
    MentionHits(token, guild) + IdHits(token, guild) + TagHits(token, channel, guild)
    + NameHits(token, channel, guild, Username, Equals)
    + NameHits(token, channel, guild, Nickname, Equals)
  }

  /** The calls are exactly those of the prefix strategies and those of the others. */
  lemma AllHitsPartition(token: string, channel: seq<User>, guild: seq<User>)
    ensures forall h :: h in AllHits(token, channel, guild) <==>
              h in NonPrefixHits(token, channel, guild) || h in PrefixHits(token, channel, guild)
  {
  }

  /** Scores of one name strategy: 0.50-0.65 for whole names, 0.30-0.45 for prefixes. */
  lemma NameHitsBounds(token: string, channel: seq<User>, guild: seq<User>, f: Field, c: Comparison)
    ensures forall h :: h in NameHits(token, channel, guild, f, c) ==>
              (c == Equals ==> 50 <= h.score <= 65) && (c == StartsWith ==> 30 <= h.score <= 45)
  {
    forall t: Tier, p: Pool, e: bool {
      TierTableShape(t, p, e);
    }
    var a, b := Scan(token, channel, f, c, Channel), Scan(token, guild, f, c, Guild);
    assert forall h :: h in a + b ==> h in a || h in b;
  }

  /** Scores of the `name#tag` strategy: 0.70-0.85. */
  lemma TagHitsBounds(token: string, channel: seq<User>, guild: seq<User>)
    ensures forall h :: h in TagHits(token, channel, guild) ==> 70 <= h.score <= 85
  {
    forall t: Tier, p: Pool, e: bool {
      TierTableShape(t, p, e);
    }
  }

  /** Every score handed to `AddResult` lies between 0.30 and 1.00. */
  lemma HitScoreRange(token: string, channel: seq<User>, guild: seq<User>)
    ensures forall h :: h in AllHits(token, channel, guild) ==> 30 <= h.score <= MentionScore
  {
    NameHitsBounds(token, channel, guild, Username, Equals);
    NameHitsBounds(token, channel, guild, Nickname, Equals);
    NameHitsBounds(token, channel, guild, Username, StartsWith);
    NameHitsBounds(token, channel, guild, Nickname, StartsWith);
    TagHitsBounds(token, channel, guild);
  }

  /** Only the mention call scores 1.00: every later call scores at most 0.90. */
  lemma LaterScoresBelowMention(token: string, channel: seq<User>, guild: seq<User>)
    ensures forall h :: h in LaterHits(token, channel, guild) ==> h.score <= IdScore
  {
    NameHitsBounds(token, channel, guild, Username, Equals);
    NameHitsBounds(token, channel, guild, Nickname, Equals);
    NameHitsBounds(token, channel, guild, Username, StartsWith);
    NameHitsBounds(token, channel, guild, Nickname, StartsWith);
    TagHitsBounds(token, channel, guild);
  }

  /** Every whole-name call scores at least 0.50, every prefix call at most 0.45. */
  lemma WholeNameAbovePrefix(token: string, channel: seq<User>, guild: seq<User>)
    ensures forall h :: h in PrefixHits(token, channel, guild) ==> h.score <= 45
    ensures forall h :: h in NameHits(token, channel, guild, Username, Equals) ==> 50 <= h.score
    ensures forall h :: h in NameHits(token, channel, guild, Nickname, Equals) ==> 50 <= h.score
  {
    NameHitsBounds(token, channel, guild, Username, Equals);
    NameHitsBounds(token, channel, guild, Nickname, Equals);
    NameHitsBounds(token, channel, guild, Username, StartsWith);
    NameHitsBounds(token, channel, guild, Nickname, StartsWith);
  }

  /** The nickname strategies only ever offer users that have a nickname: a
      member whose nickname is null is skipped, never matched. */
  lemma NicknameHitsHaveNicknames(token: string, channel: seq<User>, guild: seq<User>, c: Comparison)
    ensures forall h :: h in NameHits(token, channel, guild, Nickname, c) ==>
              h.user.Some? && h.user.value.nickname.Some?
  {
    var a, b := Scan(token, channel, Nickname, c, Channel), Scan(token, guild, Nickname, c, Guild);
    assert forall h :: h in a + b ==> h in a || h in b;
  }
}
