/** Worked examples of the resolver on small concrete pools: a `name#tag`
    match that beats a weaker match of the same user, a bare id, an ambiguous
    prefix, and a token nothing matches. Each lemma fixes the token and the
    pools in its precondition and states the exact result. */
module Scenarios {
  import opened Wrappers
  import opened Text
  import opened Parsing
  import opened Users
  import opened Scores
  import opened Aggregation
  import opened Strategies
  import opened Resolver

  const Bob: User := User(7, "Bob", 4521, None)
  /** The same member as the guild pool spells it, in lower case. */
  const BobLower: User := User(7, "bob", 4521, None)
  const Carol: User := User(111, "Carol", 1, None)
  const Alicia: User := User(1, "Alicia", 1, None)
  const Alina: User := User(2, "Alina", 2, None)

  /** A one-user pool yields no call of a name strategy the user fails. */
  lemma ScanMiss(token: string, pool: seq<User>, f: Field, c: Comparison, p: Pool)
    requires |pool| <= 1
    requires forall u :: u in pool ==> !NameMatches(u, f, c, token)
    ensures Scan(token, pool, f, c, p) == []
  {
    if |pool| == 1 {
      assert pool[0] in pool && pool[1..] == [];
    }
  }

  /** No name strategy makes a call when every user of both pools (at most one
      each) fails every name comparison. */
  lemma NoNameHits(token: string, channel: seq<User>, guild: seq<User>)
    requires |channel| <= 1 && |guild| <= 1
    requires forall u, f, c :: (u in channel || u in guild) ==> !NameMatches(u, f, c, token)
    ensures NameHits(token, channel, guild, Username, Equals) == []
    ensures NameHits(token, channel, guild, Nickname, Equals) == []
    ensures PrefixHits(token, channel, guild) == []
  {
    ScanMiss(token, channel, Username, Equals, Channel);
    ScanMiss(token, guild, Username, Equals, Guild);
    ScanMiss(token, channel, Nickname, Equals, Channel);
    ScanMiss(token, guild, Nickname, Equals, Guild);
    ScanMiss(token, channel, Username, StartsWith, Channel);
    ScanMiss(token, guild, Username, StartsWith, Guild);
    ScanMiss(token, channel, Nickname, StartsWith, Channel);
    ScanMiss(token, guild, Nickname, StartsWith, Guild);
  }

  /** A dictionary with a single entry has that entry as its whole top bracket. */
  lemma TopBracketOfOne(id: nat, c: Candidate)
    ensures TopBracket(map[id := c]) == {c}
  {
    assert IsTop(map[id := c], id);
  }

  /** Two entries with the same score are tied: the bracket holds both. */
  lemma TopBracketOfTie(i: nat, a: Candidate, j: nat, b: Candidate)
    requires i != j && a.score == b.score
    ensures TopBracket(map[i := a, j := b]) == {a, b}
  {
    var m := map[i := a, j := b];
    assert IsTop(m, i) && IsTop(m, j);
  }

  /** The dictionary after a single call that offers a user. */
  lemma AggregateOne(u: User, score: int)
    ensures Aggregate([Hit(Some(u), score)]) == map[u.id := Candidate(u, score)]
  {
    assert [Hit(Some(u), score)][..0] == [];
  }

  /** The dictionary after two calls is the second merged into the first. */
  lemma AggregateTwo(a: Hit, b: Hit)
    ensures Aggregate([a, b]) == AddResult(AddResult(map[], a), b)
  {
    assert [a, b][..1] == [a] && [a][..0] == [];
  }

  /** Every call of one resolution, given the calls of each strategy. */
  lemma AllHitsAre(token: string, channel: seq<User>, guild: seq<User>,
                   mention: seq<Hit>, id: seq<Hit>, tag: seq<Hit>,
                   usernames: seq<Hit>, nicknames: seq<Hit>, prefixes: seq<Hit>)
    requires MentionHits(token, guild) == mention && IdHits(token, guild) == id
    requires TagHits(token, channel, guild) == tag
    requires NameHits(token, channel, guild, Username, Equals) == usernames
    requires NameHits(token, channel, guild, Nickname, Equals) == nicknames
    requires PrefixHits(token, channel, guild) == prefixes
    ensures AllHits(token, channel, guild) == mention + (id + tag + usernames + nicknames + prefixes)
  {
  }

  lemma TagDigitsValue()
    ensures DigitsValue("4521") == 4521
  {
    assert "4521"[..3] == "452" && "452"[..2] == "45" && "45"[..1] == "4" && "4"[..0] == "";
  }

  lemma TagParses()
    ensures ParseUShort("4521") == Some(4521)
  {
    TagDigitsValue();
    assert TrimLeadingWhite("4521") == "4521";
    assert TrimTrailingWhite("4521") == "4521";
  }

  /** `Bob#4521` parses as the name `Bob` with tag 4521, and as nothing else. */
  lemma BobTagParses()
    ensures SplitTag("Bob#4521") == Some(("Bob", 4521))
    ensures ParseMention("Bob#4521") == None && ParseULong("Bob#4521") == None
  {
    var token := "Bob#4521";
    assert IsLastHash(token, 3);
    assert token[4..] == "4521" && token[..3] == "Bob";
    TagParses();
    assert !IsDigit(token[0]);
  }

  /** `111` parses as the id 111 only. */
  lemma DigitsParse()
    ensures ParseMention("111") == None && ParseULong("111") == Some(111) && SplitTag("111") == None
  {
    assert "111"[..2] == "11" && "11"[..1] == "1" && "1"[..0] == "";
    assert DigitsValue("111") == 111;
  }

  /** A token of letters parses as neither a mention, an id nor a tag. */
  lemma WordParses(token: string)
    requires |token| > 0 && 'a' <= token[0] <= 'z' && '#' !in token
    ensures ParseMention(token) == None && ParseULong(token) == None && SplitTag(token) == None
  {
    assert !IsDigit(token[0]);
  }

  lemma BobMissesTag()
    ensures forall f, c :: !NameMatches(Bob, f, c, "Bob#4521")
  {
  }

  lemma BobMissesWord()
    ensures forall f, c :: !NameMatches(Bob, f, c, "zzz")
  {
    assert Fold("zzz")[0] != Fold("Bob")[0];
  }

  lemma BobLowerMissesTag()
    ensures forall f, c :: !NameMatches(BobLower, f, c, "Bob#4521")
  {
  }

  /** `bob` matches the name `Bob` ignoring case, but not exactly. */
  lemma BobLowerMatchesTag()
    ensures FirstTagMatch([BobLower], "Bob", 4521) == Some(BobLower)
    ensures TagScore(Some(BobLower), "Bob", Guild) == 70
  {
    EqualsIgnoreCaseCharwise("Bob", "bob");
    assert "Bob" != "bob";
  }

  /** Bob in the channel, bob in the guild: an exact-case tag call from the
      channel, then a case-insensitive one from the guild. */
  lemma BobTagHits()
    ensures TagHits("Bob#4521", [Bob], [BobLower]) == [Hit(Some(Bob), 85), Hit(Some(BobLower), 70)]
  {
    BobTagParses();
    BobLowerMatchesTag();
    assert FirstTagMatch([Bob], "Bob", 4521) == Some(Bob);
  }

  /** The lower guild score does not replace the channel entry. */
  lemma TagAggregate()
    ensures Aggregate([Hit(Some(Bob), 85), Hit(Some(BobLower), 70)]) == map[7 := Candidate(Bob, 85)]
  {
    var first := Hit(Some(Bob), 85);
    AggregateTwo(first, Hit(Some(BobLower), 70));
    assert AddResult(map[], first) == map[7 := Candidate(Bob, 85)];
  }

  lemma CarolFacts()
    ensures forall f, c :: !NameMatches(Carol, f, c, "111")
    ensures FindById([Carol], 111) == Some(Carol)
  {
    assert Fold("111")[0] != Fold("Carol")[0];
  }

  lemma AliFacts()
    ensures NameMatches(Alicia, Username, StartsWith, "ali") && !ExactCase(Alicia, Username, StartsWith, "ali")
    ensures NameMatches(Alina, Username, StartsWith, "ali") && !ExactCase(Alina, Username, StartsWith, "ali")
    ensures forall f :: !NameMatches(Alicia, f, Equals, "ali") && !NameMatches(Alina, f, Equals, "ali")
    ensures forall c :: !NameMatches(Alicia, Nickname, c, "ali") && !NameMatches(Alina, Nickname, c, "ali")
  {
    assert Fold("ali") == "ALI";
    assert Fold("Alicia")[..3] == "ALI" && Fold("Alina")[..3] == "ALI";
    assert "ali"[0] != "Alicia"[0];
  }

  /** The calls of each strategy for `Bob#4521` with Bob in the channel and bob in the guild. */
  lemma TagScenarioCalls(token: string, channel: seq<User>, guild: seq<User>)
    requires token == "Bob#4521" && channel == [Bob] && guild == [BobLower]
    ensures MentionHits(token, guild) == [] && IdHits(token, guild) == []
    ensures TagHits(token, channel, guild) == [Hit(Some(Bob), 85), Hit(Some(BobLower), 70)]
    ensures NameHits(token, channel, guild, Username, Equals) == []
    ensures NameHits(token, channel, guild, Nickname, Equals) == []
    ensures PrefixHits(token, channel, guild) == []
  {
    BobTagParses();
    BobTagHits();
    TagScenarioNameCalls(token, channel, guild);
  }

  /** No name strategy calls for `Bob#4521` with Bob in the channel and bob in the guild. */
  lemma TagScenarioNameCalls(token: string, channel: seq<User>, guild: seq<User>)
    requires token == "Bob#4521" && channel == [Bob] && guild == [BobLower]
    ensures NameHits(token, channel, guild, Username, Equals) == []
    ensures NameHits(token, channel, guild, Nickname, Equals) == []
    ensures PrefixHits(token, channel, guild) == []
  {
    BobMissesTag();
    BobLowerMissesTag();
    NoNameHits(token, channel, guild);
  }

  /** `Bob#4521` with Bob in the channel and the same member spelt `bob` in the
      guild: the channel's exact-case tag match (0.85) beats the guild's
      case-insensitive one (0.70), and Bob alone is returned at 0.85. */
  lemma TagScenario(token: string, channel: seq<User>, guild: seq<User>)
    requires token == "Bob#4521" && channel == [Bob] && guild == [BobLower]
    ensures Resolve(token, channel, guild) == FromSuccess({Candidate(Bob, 85)})
  {
    var m := map[7 := Candidate(Bob, 85)];
    TagScenarioAllHits(token, channel, guild);
    TagAggregate();
    assert Aggregate(AllHits(token, channel, guild)) == m;
    TopBracketOfOne(7, Candidate(Bob, 85));
    assert 7 in m;
  }

  /** All calls for `Bob#4521`: the two tag calls and nothing else. */
  lemma TagScenarioAllHits(token: string, channel: seq<User>, guild: seq<User>)
    requires token == "Bob#4521" && channel == [Bob] && guild == [BobLower]
    ensures AllHits(token, channel, guild) == [Hit(Some(Bob), 85), Hit(Some(BobLower), 70)]
  {
    TagScenarioCalls(token, channel, guild);
    OnlyTagCalls(token, channel, guild, [Hit(Some(Bob), 85), Hit(Some(BobLower), 70)]);
  }

  /** When only the `name#tag` strategy calls, its calls are all the calls. */
  lemma OnlyTagCalls(token: string, channel: seq<User>, guild: seq<User>, tag: seq<Hit>)
    requires MentionHits(token, guild) == [] && IdHits(token, guild) == []
    requires TagHits(token, channel, guild) == tag
    requires NameHits(token, channel, guild, Username, Equals) == []
    requires NameHits(token, channel, guild, Nickname, Equals) == []
    requires PrefixHits(token, channel, guild) == []
    ensures AllHits(token, channel, guild) == tag
  {
    AllHitsAre(token, channel, guild, [], [], tag, [], [], []);
    EmptyAround(tag);
  }

  lemma EmptyAround(s: seq<Hit>)
    ensures [] + ([] + s + [] + [] + []) == s
  {
  }

  /** The calls of each strategy for `111` with Carol in the guild pool only. */
  lemma IdScenarioCalls(token: string, channel: seq<User>, guild: seq<User>)
    requires token == "111" && channel == [] && guild == [Carol]
    ensures MentionHits(token, guild) == [] && IdHits(token, guild) == [Hit(Some(Carol), IdScore)]
    ensures TagHits(token, channel, guild) == []
    ensures NameHits(token, channel, guild, Username, Equals) == []
    ensures NameHits(token, channel, guild, Nickname, Equals) == []
    ensures PrefixHits(token, channel, guild) == []
  {
    DigitsParse();
    CarolFacts();
    NoNameHits(token, channel, guild);
  }

  /** Bare digits naming a guild member resolve to that member at 0.90. */
  lemma IdScenario(token: string, channel: seq<User>, guild: seq<User>)
    requires token == "111" && channel == [] && guild == [Carol]
    ensures Resolve(token, channel, guild) == FromSuccess({Candidate(Carol, 90)})
  {
    var id, e := [Hit(Some(Carol), IdScore)], [];
    assert e + (id + e + e + e + e) == id;
    IdScenarioCalls(token, channel, guild);
    AllHitsAre(token, channel, guild, e, id, e, e, e, e);
    AggregateOne(Carol, IdScore);
    TopBracketOfOne(111, Candidate(Carol, IdScore));
  }

  /** Alicia and Alina are both found by the username-prefix scan, at 0.35. */
  lemma AliPrefixScan(token: string, channel: seq<User>)
    requires token == "ali" && channel == [Alicia, Alina]
    ensures Scan(token, channel, Username, StartsWith, Channel) == [Hit(Some(Alicia), 35), Hit(Some(Alina), 35)]
  {
    AliFacts();
    assert channel[1..] == [Alina] && channel[1..][1..] == [];
  }

  /** Alicia and Alina are missed by every other name scan. */
  lemma AliOtherScans(token: string, channel: seq<User>, f: Field, c: Comparison)
    requires token == "ali" && channel == [Alicia, Alina]
    requires c == Equals || f == Nickname
    ensures Scan(token, channel, f, c, Channel) == []
  {
    AliFacts();
    assert channel[1..] == [Alina] && channel[1..][1..] == [];
  }

  /** The calls of each strategy for `ali` with Alicia and Alina in the channel. */
  lemma AmbiguousScenarioCalls(token: string, channel: seq<User>, guild: seq<User>)
    requires token == "ali" && channel == [Alicia, Alina] && guild == []
    ensures MentionHits(token, guild) == [] && IdHits(token, guild) == []
    ensures TagHits(token, channel, guild) == []
    ensures NameHits(token, channel, guild, Username, Equals) == []
    ensures NameHits(token, channel, guild, Nickname, Equals) == []
    ensures PrefixHits(token, channel, guild) == [Hit(Some(Alicia), 35), Hit(Some(Alina), 35)]
  {
    WordParses(token);
    AliPrefixScan(token, channel);
    AliOtherScans(token, channel, Username, Equals);
    AliOtherScans(token, channel, Nickname, Equals);
    AliOtherScans(token, channel, Nickname, StartsWith);
  }

  /** Two users at the same score both get an entry. */
  lemma AmbiguousAggregate()
    ensures Aggregate([Hit(Some(Alicia), 35), Hit(Some(Alina), 35)])
              == map[1 := Candidate(Alicia, 35), 2 := Candidate(Alina, 35)]
  {
    var first := Hit(Some(Alicia), 35);
    AggregateTwo(first, Hit(Some(Alina), 35));
    assert AddResult(map[], first) == map[1 := Candidate(Alicia, 35)];
  }

  /** `ali` against a channel holding Alicia and Alina: both are case-insensitive
      prefix matches at 0.35, so both are returned and the result is ambiguous. */
  lemma AmbiguousScenario(token: string, channel: seq<User>, guild: seq<User>)
    requires token == "ali" && channel == [Alicia, Alina] && guild == []
    ensures Resolve(token, channel, guild) == FromSuccess({Candidate(Alicia, 35), Candidate(Alina, 35)})
  {
    var both, e := [Hit(Some(Alicia), 35), Hit(Some(Alina), 35)], [];
    assert e + (e + e + e + e + both) == both;
    AmbiguousScenarioCalls(token, channel, guild);
    AllHitsAre(token, channel, guild, e, e, e, e, e, both);
    AmbiguousAggregate();
    TopBracketOfTie(1, Candidate(Alicia, 35), 2, Candidate(Alina, 35));
  }

  /** A token nobody's id, mention, name or nickname matches is not found. */
  lemma NotFoundScenario(token: string, pool: seq<User>)
    requires token == "zzz" && pool == [Bob]
    ensures Resolve(token, pool, pool) == FromError(ObjectNotFound, NotFoundReason)
  {
    var e: seq<Hit> := [];
    assert e + (e + e + e + e + e) == [];
    WordParses(token);
    BobMissesWord();
    NoNameHits(token, pool, pool);
    AllHitsAre(token, pool, pool, e, e, e, e, e, e);
  }
}
