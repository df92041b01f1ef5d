/** `MainGuildUserTypeReader<T>.ReadAsync`: run every strategy, merge the calls
    into the results dictionary, and return the whole top-scoring bracket, or
    the "User not found." error when nothing matched. */
module Resolver {
  import opened Wrappers
  import opened Parsing
  import opened Users
  import opened Scores
  import opened Aggregation
  import opened Strategies

  /** The one `CommandError` the resolver reports. */
  datatype CommandError = ObjectNotFound

  /** `TypeReaderResult`: the successful values, or an error and its reason. */
  datatype ReadResult = FromSuccess(values: set<Candidate>) | FromError(error: CommandError, reason: string)

  const NotFoundReason: string := "User not found."

  /** No entry of the dictionary scores more than the entry under `id`. */
  ghost predicate IsTop(m: ResultMap, id: nat)
  {
    id in m && forall k :: k in m ==> m[k].score <= m[id].score
  }

  /** The entries whose score is the dictionary's maximum score. */
  ghost function TopBracket(m: ResultMap): set<Candidate>
  {
    set id | id in m && IsTop(m, id) :: m[id]
  }

  /** A non-empty dictionary has an entry of maximum score. */
  lemma {:induction false} TopExists(m: ResultMap)
    requires m != map[]
    ensures exists id :: IsTop(m, id)
    decreases |m|
  {
    var k :| k in m;
    var rest := m - {k};
    assert rest.Keys == m.Keys - {k};
    assert forall i :: i in m ==> i == k || i in rest;
    if rest == map[] {
      assert IsTop(m, k);
    } else {
      assert |rest| < |m|;
      TopExists(rest);
      var j :| IsTop(rest, j);
      if m[k].score <= m[j].score {
        assert IsTop(m, j);
      } else {
        assert IsTop(m, k);
      }
    }
  }

  /** The bracket of a non-empty dictionary is non-empty; its members are
      entries of the dictionary that all share one score, no entry scores
      more, and every entry with that score belongs to it. */
  lemma TopBracketIsTies(m: ResultMap)
    ensures m != map[] ==> TopBracket(m) != {}
    ensures forall c :: c in TopBracket(m) ==>
              c in m.Values && forall k :: k in m ==> m[k].score <= c.score
    ensures forall c, d :: c in TopBracket(m) && d in TopBracket(m) ==> c.score == d.score
    ensures forall c, k :: c in TopBracket(m) && k in m && m[k].score == c.score ==>
              m[k] in TopBracket(m)
  {
    if m != map[] {
      TopExists(m);
      var id :| IsTop(m, id);
      assert m[id] in TopBracket(m);
    }
  }

  /** The specified outcome: "User not found." for an empty dictionary,
      otherwise the top bracket. */
  ghost function Outcome(m: ResultMap): ReadResult
  {
    if m == map[] then FromError(ObjectNotFound, NotFoundReason) else FromSuccess(TopBracket(m))
  }

  /** The group of entries with the highest score, found in one pass over the
      dictionary, followed by the success/error choice. */
  method SelectTopBracket(results: ResultMap) returns (r: ReadResult)
    ensures results == map[] ==> r == FromError(ObjectNotFound, NotFoundReason)
    ensures results != map[] ==> r == FromSuccess(TopBracket(results))
  {
    var todo := results.Keys;
    var found := false;
    var top := 0;
    var bracket: set<Candidate> := {};
    while todo != {}
      invariant todo <= results.Keys
      invariant found <==> todo != results.Keys
      invariant forall k :: k in results && k !in todo ==> results[k].score <= top
      invariant found ==> exists k :: k in results && k !in todo && results[k].score == top
      invariant bracket == set k | k in results && k !in todo && results[k].score == top :: results[k]
      decreases todo
    {
      var k :| k in todo;
      var c := results[k];
      ghost var done := results.Keys - todo;
      if !found || top < c.score {
        assert forall j :: j in done ==> results[j].score < c.score;
        top := c.score;
        bracket := {c};
      } else if c.score == top {
        bracket := bracket + {c};
      }
      found := true;
      todo := todo - {k};
    }
    if found {
      forall id | id in results
        ensures IsTop(results, id) <==> results[id].score == top
      {
      }
      r := FromSuccess(bracket);
    } else {
      r := FromError(ObjectNotFound, NotFoundReason);
    }
  }

  /** The reader's result for a token and the two pools, as specified. */
  ghost function Resolve(token: string, channel: seq<User>, guild: seq<User>): ReadResult
  {
    Outcome(Aggregate(AllHits(token, channel, guild)))
  }

  /** `ReadAsync` over the channel and guild pools. It succeeds exactly when some
      strategy offered a (non-null) user, and then returns every candidate tied
      at the best score; otherwise it fails with `ObjectNotFound`. */
  method ReadAsync(token: string, channel: seq<User>, guild: seq<User>) returns (r: ReadResult)
    ensures r == Resolve(token, channel, guild)
    ensures r.FromSuccess? <==> exists h :: h in AllHits(token, channel, guild) && h.user.Some?
    ensures r.FromError? ==> r == FromError(ObjectNotFound, NotFoundReason)
    ensures r.FromSuccess? ==> r.values != {}
  {
    var hits := AllHits(token, channel, guild);
    var results := Aggregate(hits);
    r := SelectTopBracket(results);
    if h :| h in hits && h.user.Some? {
      assert h.user.value.id in results;
    }
    TopBracketIsTies(results);
  }

  /** A first call that offers a user with a score no later call reaches
      decides the result alone: that user at that score. */
  lemma LeaderWins(lead: Hit, rest: seq<Hit>)
    requires lead.user.Some?
    requires forall h :: h in rest ==> h.score < lead.score
    ensures Outcome(Aggregate([lead] + rest)) == FromSuccess({Candidate(lead.user.value, lead.score)})
  {
    var hits := [lead] + rest;
    var id := lead.user.value.id;
    var m := Aggregate(hits);
    assert hits[0] == lead && lead in hits;
    forall k | k in m && k != id
      ensures m[k].score < lead.score
    {
      var h := Hit(Some(m[k].user), m[k].score);
      assert h in hits && h != lead;
    }
    AggregateKeepsFirstBest(hits, id);
    var i :| IsFirstBest(hits, id, i) && m[id] == Candidate(hits[i].user.value, hits[i].score);
    assert i == 0;
    assert IsTop(m, id);
    assert TopBracket(m) == {Candidate(lead.user.value, lead.score)};
  }

  /** A mention of a guild member makes the first call, at 1.00, with that member. */
  lemma MentionLeads(token: string, channel: seq<User>, guild: seq<User>, u: User)
    requires u in guild && ParseMention(token) == Some(u.id)
    ensures FindById(guild, u.id).Some?
    ensures AllHits(token, channel, guild)
              == [Hit(FindById(guild, u.id), MentionScore)] + LaterHits(token, channel, guild)
    ensures forall h :: h in LaterHits(token, channel, guild) ==> h.score < MentionScore
  {
    LaterScoresBelowMention(token, channel, guild);
  }

  /** A mention of a guild member decides the result alone: that member, at 1.00,
      and nobody else, whatever the other strategies find. */
  lemma MentionWins(token: string, channel: seq<User>, guild: seq<User>, u: User)
    requires u in guild && ParseMention(token) == Some(u.id)
    ensures Resolve(token, channel, guild) == FromSuccess({Candidate(FindById(guild, u.id).value, MentionScore)})
  {
    MentionLeads(token, channel, guild, u);
    LeaderWins(Hit(FindById(guild, u.id), MentionScore), LaterHits(token, channel, guild));
  }

  /** The calls of the four name strategies: username, nickname, and the two prefixes. */
  function WordHits(token: string, channel: seq<User>, guild: seq<User>): seq<Hit>
  {
    NameHits(token, channel, guild, Username, Equals)
    + NameHits(token, channel, guild, Nickname, Equals)
    + PrefixHits(token, channel, guild)
  }

  /** A bare id is neither a mention nor a `name#tag`: only the id strategy
      among the first three makes a call. */
  lemma BareIdCalls(token: string, channel: seq<User>, guild: seq<User>, id: nat)
    requires ParseULong(token) == Some(id)
    ensures MentionHits(token, guild) == [] && TagHits(token, channel, guild) == []
    ensures IdHits(token, guild) == [Hit(FindById(guild, id), IdScore)]
  {
    assert IsDigit(token[0]);
    assert forall i :: 0 <= i < |token| ==> token[i] != '#';
  }

  /** Every name call scores below the id call. */
  lemma WordHitsBelowId(token: string, channel: seq<User>, guild: seq<User>)
    ensures forall h :: h in WordHits(token, channel, guild) ==> h.score < IdScore
  {
    NameHitsBounds(token, channel, guild, Username, Equals);
    NameHitsBounds(token, channel, guild, Nickname, Equals);
    WholeNameAbovePrefix(token, channel, guild);
  }

  /** Dropping two empty strategies from the order of calls. */
  lemma WithoutEmptyCalls(mention: seq<Hit>, id: seq<Hit>, tag: seq<Hit>,
                           usernames: seq<Hit>, nicknames: seq<Hit>, prefixes: seq<Hit>)
    requires mention == [] && tag == []
    ensures mention + (id + tag + usernames + nicknames + prefixes) == id + (usernames + nicknames + prefixes)
  {
  }

  /** A bare id of a guild member makes the first call, at 0.90, and every later
      call is a name call scoring less. */
  lemma IdLeads(token: string, channel: seq<User>, guild: seq<User>, u: User)
    requires u in guild && ParseULong(token) == Some(u.id)
    ensures FindById(guild, u.id).Some?
    ensures AllHits(token, channel, guild)
              == [Hit(FindById(guild, u.id), IdScore)] + WordHits(token, channel, guild)
    ensures forall h :: h in WordHits(token, channel, guild) ==> h.score < IdScore
  {
    BareIdCalls(token, channel, guild, u.id);
    WordHitsBelowId(token, channel, guild);
    WithoutEmptyCalls(MentionHits(token, guild), IdHits(token, guild), TagHits(token, channel, guild),
                      NameHits(token, channel, guild, Username, Equals),
                      NameHits(token, channel, guild, Nickname, Equals), PrefixHits(token, channel, guild));
  }

  /** A bare id of a guild member decides the result alone: that member, at 0.90,
      and nobody else, whatever the name strategies find. */
  lemma IdWins(token: string, channel: seq<User>, guild: seq<User>, u: User)
    requires u in guild && ParseULong(token) == Some(u.id)
    ensures Resolve(token, channel, guild) == FromSuccess({Candidate(FindById(guild, u.id).value, IdScore)})
  {
    IdLeads(token, channel, guild, u);
    LeaderWins(Hit(FindById(guild, u.id), IdScore), WordHits(token, channel, guild));
  }

  /** A user of either pool whose username or nickname equals the token ignoring
      case guarantees success, and every returned candidate scores at least 0.50. */
  lemma WholeNameMatchFloor(token: string, channel: seq<User>, guild: seq<User>, u: User, f: Field)
    requires u in channel || u in guild
    requires NameMatches(u, f, Equals, token)
    ensures Resolve(token, channel, guild).FromSuccess?
    ensures forall c :: c in Resolve(token, channel, guild).values ==> c.score >= 50
  {
    var hits := AllHits(token, channel, guild);
    var m := Aggregate(hits);
    WholeNameAbovePrefix(token, channel, guild);
    var p := if u in channel then Channel else Guild;
    var h := Hit(Some(u), NameScore(u, f, Equals, p, token));
    if u in channel {
      assert h in Scan(token, channel, f, Equals, Channel);
    } else {
      assert h in Scan(token, guild, f, Equals, Guild);
    }
    assert h in NameHits(token, channel, guild, f, Equals);
    assert h in LaterHits(token, channel, guild);
    assert h in hits;
    assert u.id in m && m[u.id].score >= 50;
    TopBracketIsTies(m);
  }

  /** A user matched only by the prefix strategies ends at 0.45 or below. */
  lemma PrefixOnlyCeiling(token: string, channel: seq<User>, guild: seq<User>, id: nat)
    ensures id in Aggregate(AllHits(token, channel, guild))
            && (forall h :: h in NonPrefixHits(token, channel, guild) ==> !Proposes(h, id))
            ==> Aggregate(AllHits(token, channel, guild))[id].score <= 45
  {
    var m := Aggregate(AllHits(token, channel, guild));
    if id in m && forall h :: h in NonPrefixHits(token, channel, guild) ==> !Proposes(h, id) {
      AllHitsPartition(token, channel, guild);
      WholeNameAbovePrefix(token, channel, guild);
      var h := Hit(Some(m[id].user), m[id].score);
      assert Proposes(h, id);
      assert h in PrefixHits(token, channel, guild);
    }
  }

  /** Hence a whole-name match anywhere keeps every prefix-only user out of the result. */
  lemma WholeNameExcludesPrefixOnly(token: string, channel: seq<User>, guild: seq<User>, u: User, f: Field, id: nat)
    requires u in channel || u in guild
    requires NameMatches(u, f, Equals, token)
    requires forall h :: h in NonPrefixHits(token, channel, guild) ==> !Proposes(h, id)
    ensures Resolve(token, channel, guild).FromSuccess?
    ensures forall c :: c in Resolve(token, channel, guild).values ==> c.user.id != id
  {
    var m := Aggregate(AllHits(token, channel, guild));
    WholeNameMatchFloor(token, channel, guild, u, f);
    forall c | c in Resolve(token, channel, guild).values
      ensures c.user.id != id
    {
      if c.user.id == id {
        assert id in m && m[id] == c;
        PrefixOnlyCeiling(token, channel, guild, id);
      }
    }
  }

  /** With both pools empty the id lookups and the tag lookups find nobody,
      and the name strategies make no call. */
  lemma EmptyPoolCalls(token: string)
    ensures forall h :: h in MentionHits(token, []) ==> h.user.None?
    ensures forall h :: h in IdHits(token, []) ==> h.user.None?
    ensures forall h :: h in TagHits(token, [], []) ==> h.user.None?
    ensures NameHits(token, [], [], Username, Equals) == []
    ensures NameHits(token, [], [], Nickname, Equals) == []
    ensures PrefixHits(token, [], []) == []
  {
  }

  /** Strategies offering nobody make calls offering nobody. */
  lemma NobodyOffered(mention: seq<Hit>, id: seq<Hit>, tag: seq<Hit>,
                      usernames: seq<Hit>, nicknames: seq<Hit>, prefixes: seq<Hit>)
    requires forall h :: h in mention ==> h.user.None?
    requires forall h :: h in id ==> h.user.None?
    requires forall h :: h in tag ==> h.user.None?
    requires usernames == [] && nicknames == [] && prefixes == []
    ensures forall h :: h in mention + (id + tag + usernames + nicknames + prefixes) ==> h.user.None?
  {
    assert mention + (id + tag + usernames + nicknames + prefixes) == mention + (id + tag);
  }

  /** With both pools empty nothing can match, whatever the token. */
  lemma EmptyPoolsNotFound(token: string)
    ensures Resolve(token, [], []) == FromError(ObjectNotFound, NotFoundReason)
  {
    EmptyPoolCalls(token);
    NobodyOffered(MentionHits(token, []), IdHits(token, []), TagHits(token, [], []),
                  NameHits(token, [], [], Username, Equals),
                  NameHits(token, [], [], Nickname, Equals), PrefixHits(token, [], []));
    NoUserNoEntries(AllHits(token, [], []));
  }
}
