# GregBot user resolver and COVID aggregates, in Dafny

This project models two parts of the GregBot Discord bot.

**The user type reader** (`MainGuildUserTypeReader<T>.ReadAsync`) turns a command
argument into guild members. It runs seven matching strategies in a fixed order:

1. mention;
2. bare id;
3. `name#tag`;
4. username;
5. nickname;
6. username prefix;
7. nickname prefix.

Each strategy hands candidates to `AddResult`, together with a fixed score from 0.30
to 1.00. The strategies look in two pools, the users of the current channel and the
users of the main guild. A channel match scores 0.05 more than a guild match, and a
match whose letter case is also exact scores 0.10 more. `AddResult` keeps the best
score per user id, and replaces an entry only on a strictly greater score. The
reader returns every candidate tied at the best score. When nothing was offered, it
returns `ObjectNotFound` with "User not found.".

**The statistics table** (`CoronaData` / `CoronaEntry`) is a dictionary of per-region
case counts keyed by region name. It has the derived totals `Cases`, `Deaths`,
`Recovered`, `Serious`, `Active` and `Mild`, and the region counts `RegionsActive`
and `RegionsRecovered`.

Modules, in dependency order:

- `Wrappers`: the `Option` and `Result` types.
- `Text`: the `OrdinalIgnoreCase` case fold, prefix, and `LastIndexOf`.
- `Parsing`: the three number parsers.
  - `ulong.TryParse` with `NumberStyles.None` reads the bare id.
  - `ushort.TryParse` with the default `NumberStyles.Integer` reads the tag: optional white space, an optional sign, then digits.
  - `MentionUtils.TryParseUser` reads `<@id>` and `<@!id>`.
- `Users`: the member record, the id lookup and the first-`name#tag`-match lookup.
- `Scores`: the score table, in integer hundredths (`1.00f` is 100).
- `Aggregation`: `AddResult` and the fold of all calls into the results dictionary.
- `Strategies`: each strategy as the sequence of `AddResult` calls it makes, in source order.
- `Resolver`: top-bracket selection, `ReadAsync`, and the ranking guarantees.
- `Scenarios`: worked examples on small concrete pools.
- `Corona`: the statistics table.

Scores are whole hundredths. The source only compares its float literals with each
other, so no rounding is involved. The success value is modelled as a set of
candidates. Whether the result is "resolved" or "ambiguous" is the size of that set.
The reader itself never breaks a tie: it returns every tied candidate as a success.

## Model

| member | source | states |
|---|---|---|
| Text.EqualsIgnoreCaseCharwise | ForumCrawler/Helpers/MainGuildUserTypeReader.cs:62-65 | two names are equal ignoring case exactly when they have the same length and agree at every position once each character is folded |
| Text.EqualsIgnoreCaseIsEquivalence | ForumCrawler/Helpers/MainGuildUserTypeReader.cs:62-65 | equality ignoring case is reflexive, symmetric and transitive; folding twice is folding once, and a name equals its fold ignoring case |
| Text.PrefixImpliesStartsWithIgnoreCase | ForumCrawler/Helpers/MainGuildUserTypeReader.cs:92-95 | an exact-case prefix is also a case-insensitive prefix |
| Text.StartsWithIgnoreCaseBySlice | ForumCrawler/Helpers/MainGuildUserTypeReader.cs:93 | a case-insensitive prefix match is the same as a case-insensitive equality with the leading slice of the same length |
| Text.LastIndexOf | ForumCrawler/Helpers/MainGuildUserTypeReader.cs:42-43 | no result exactly when the character is absent; otherwise a position holding it, with no occurrence after it |
| Parsing.ParseULong | ForumCrawler/Helpers/MainGuildUserTypeReader.cs:35 | a string is accepted exactly when it is a non-empty run of digits whose value fits in 64 bits, and the result is that value |
| Parsing.LeadingZerosKeepValue | ForumCrawler/Helpers/MainGuildUserTypeReader.cs:35 | zeros in front of a digit string leave its value unchanged |
| Parsing.ParseULongOfDecimal | ForumCrawler/Helpers/MainGuildUserTypeReader.cs:35 | every 64-bit id written in decimal, with or without leading zeros, parses back to itself; anything larger is refused |
| Parsing.ParseUShort | ForumCrawler/Helpers/MainGuildUserTypeReader.cs:46 | an accepted tag lies in the `ushort` range, 0 to 65535; which strings it accepts, and with which value, is stated by the two lemmas that follow |
| Parsing.ParseUShortOnlyIntegerStyle | ForumCrawler/Helpers/MainGuildUserTypeReader.cs:46 | every string the tag parser accepts is white space, an optional `+` or `-`, a non-empty run of digits and white space again, and the result is the value of those digits |
| Parsing.NonNumeralTagsRefused | ForumCrawler/Helpers/MainGuildUserTypeReader.cs:46 | the tags `abc` (no digit) and `12x` (digits followed by a letter) are refused, so `Bob#abc` does not split |
| Parsing.ParseUShortOfIntegerStyle | ForumCrawler/Helpers/MainGuildUserTypeReader.cs:46 | a tag written with any surrounding white space, an optional sign and any leading zeros parses back to itself exactly when it is at most 65535 and not negative unless it is zero; otherwise it is refused |
| Parsing.ParseUShortOfPadded | ForumCrawler/Helpers/MainGuildUserTypeReader.cs:46 | a bare tag in range, zero-padded as Discord writes it (`0001`), parses back to itself |
| Parsing.ParseMention | ForumCrawler/Helpers/MainGuildUserTypeReader.cs:28 | an accepted mention is enclosed in `<@` and `>`, and its id is the value of the digits between `<@` (or `<@!`) and `>`, which fits in 64 bits |
| Parsing.ParseMentionOfId | ForumCrawler/Helpers/MainGuildUserTypeReader.cs:28 | both mention spellings of an id, `<@id>` and `<@!id>`, with or without leading zeros, parse back to that id when it fits in 64 bits and are refused otherwise |
| Users.FindById | ForumCrawler/Helpers/MainGuildUserTypeReader.cs:30 | the guild lookup gives a member of the guild pool with the asked id, or nothing when the guild pool has no member with that id |
| Users.FirstTagMatch | ForumCrawler/Helpers/MainGuildUserTypeReader.cs:48-55 | no result exactly when no pool member has the tag and the name ignoring case; otherwise the first such member in pool order |
| Scores.TierTableShape | ForumCrawler/Helpers/MainGuildUserTypeReader.cs:51-117 | exact case is worth 0.10 more than case-insensitive, channel 0.05 more than guild; the tiers are ordered tag > whole name > prefix, all between 0.30 and 0.85, and below id and mention |
| Aggregation.AddResult | ForumCrawler/Helpers/MainGuildUserTypeReader.cs:131-137 | a null user changes nothing; otherwise that user's id ends with the larger of the old and new score; an equal or lower score keeps the old entry; no score is ever lowered; every other id is untouched |
| Aggregation.AddResultExtends | ForumCrawler/Helpers/MainGuildUserTypeReader.cs:131-137 | one more call keeps the dictionary a summary of every call made so far |
| Aggregation.Aggregate | ForumCrawler/Helpers/MainGuildUserTypeReader.cs:21 | after all calls, each offered user's id is present with at least every score offered for it, and every entry is one that some call offered |
| Aggregation.SummariesAgree | ForumCrawler/Helpers/MainGuildUserTypeReader.cs:131-137 | two dictionaries built from the same offered (user, score) pairs hold the same ids with the same scores |
| Aggregation.AggregateKeepsFirstBest | ForumCrawler/Helpers/MainGuildUserTypeReader.cs:133 | the candidate stored for an id comes from the first call that reached that id's best score; later ties do not replace it |
| Aggregation.LastIsFirstBest | ForumCrawler/Helpers/MainGuildUserTypeReader.cs:133 | a call that strictly beats the stored entry is the first call with the best score so far |
| Aggregation.FirstBestExtends | ForumCrawler/Helpers/MainGuildUserTypeReader.cs:133 | a later call that scores no more leaves the first best call in place |
| Aggregation.ScoresIgnoreOrder | ForumCrawler/Helpers/MainGuildUserTypeReader.cs:27-137 | making the same calls in any order gives the same ids with the same scores |
| Aggregation.ScoresSplit | ForumCrawler/Helpers/MainGuildUserTypeReader.cs:131-137 | building two runs of calls separately and taking the per-id maximum gives the same scores as one run over both |
| Strategies.MentionHits | ForumCrawler/Helpers/MainGuildUserTypeReader.cs:27-32 | a mention makes one call at 1.00, with the guild member of that id when there is one; a non-mention makes none |
| Strategies.IdHits | ForumCrawler/Helpers/MainGuildUserTypeReader.cs:34-39 | a token that reads as a 64-bit decimal makes one call at 0.90, with the guild member of that id when there is one; any other token makes none |
| Strategies.SplitTag | ForumCrawler/Helpers/MainGuildUserTypeReader.cs:42-46 | the token splits only if it contains `#` and the text after the LAST `#` reads as a `ushort`; the name is everything before that `#` |
| Strategies.SplitTagOfJoin | ForumCrawler/Helpers/MainGuildUserTypeReader.cs:42-46 | joining any name and an in-range tag with `#`, zero-padded or not (`Bob#0001`), splits back into that name and tag, even when the name itself contains `#` |
| Strategies.TagHits | ForumCrawler/Helpers/MainGuildUserTypeReader.cs:41-57 | when the token splits, there is exactly one call per pool, channel first, each with the first tag match of that pool; otherwise there are no calls |
| Strategies.ExactCaseMatches | ForumCrawler/Helpers/MainGuildUserTypeReader.cs:60-118 | the case-sensitive score test of a name strategy only succeeds for users its case-insensitive filter admits |
| Strategies.Scan | ForumCrawler/Helpers/MainGuildUserTypeReader.cs:62-72 | a name strategy calls for every pool user that passes its filter, and only for those, each at the score its exact-case test earns |
| Strategies.NameHitsBounds | ForumCrawler/Helpers/MainGuildUserTypeReader.cs:60-118 | whole-name calls score 0.50 to 0.65; prefix calls score 0.30 to 0.45 |
| Strategies.TagHitsBounds | ForumCrawler/Helpers/MainGuildUserTypeReader.cs:51-56 | `name#tag` calls score 0.70 to 0.85 |
| Strategies.HitScoreRange | ForumCrawler/Helpers/MainGuildUserTypeReader.cs:27-119 | every score handed to `AddResult` lies between 0.30 and 1.00 |
| Strategies.LaterScoresBelowMention | ForumCrawler/Helpers/MainGuildUserTypeReader.cs:34-119 | every call after the mention strategy scores at most 0.90 |
| Strategies.WholeNameAbovePrefix | ForumCrawler/Helpers/MainGuildUserTypeReader.cs:60-118 | every whole-name call scores at least 0.50 and every prefix call at most 0.45 |
| Strategies.NicknameHitsHaveNicknames | ForumCrawler/Helpers/MainGuildUserTypeReader.cs:75-118 | the nickname strategies never offer a user whose nickname is null |
| Resolver.TopExists | ForumCrawler/Helpers/MainGuildUserTypeReader.cs:121 | a non-empty dictionary has an entry of maximum score |
| Resolver.TopBracketIsTies | ForumCrawler/Helpers/MainGuildUserTypeReader.cs:121 | the top group of a non-empty dictionary is non-empty; its members share the maximum score; it holds every entry with that score |
| Resolver.SelectTopBracket | ForumCrawler/Helpers/MainGuildUserTypeReader.cs:121-128 | an empty dictionary gives `ObjectNotFound` with "User not found."; otherwise success with exactly the entries at the maximum score |
| Resolver.ReadAsync | ForumCrawler/Helpers/MainGuildUserTypeReader.cs:18-129 | success exactly when some strategy offered a non-null user, with a non-empty set of tied best candidates; otherwise the not-found error |
| Resolver.LeaderWins | ForumCrawler/Helpers/MainGuildUserTypeReader.cs:121-137 | a first call that no later call matches in score decides the result alone |
| Resolver.MentionLeads | ForumCrawler/Helpers/MainGuildUserTypeReader.cs:27-39 | a mention of a guild member makes the first call, at 1.00, and every later call scores less |
| Resolver.MentionWins | ForumCrawler/Helpers/MainGuildUserTypeReader.cs:27-32 | a mention of a guild member returns that member alone, at 1.00, whatever else matches |
| Resolver.IdLeads | ForumCrawler/Helpers/MainGuildUserTypeReader.cs:34-39 | a bare id of a guild member makes the first call, at 0.90; no mention or `name#tag` call is made, and every later call scores less |
| Resolver.IdWins | ForumCrawler/Helpers/MainGuildUserTypeReader.cs:34-39 | a bare id of a guild member returns that member alone, at 0.90, whatever names it also matches |
| Resolver.WholeNameMatchFloor | ForumCrawler/Helpers/MainGuildUserTypeReader.cs:60-88 | if some pool user's username or nickname equals the token ignoring case, the read succeeds and every returned candidate scores at least 0.50 |
| Resolver.PrefixOnlyCeiling | ForumCrawler/Helpers/MainGuildUserTypeReader.cs:90-119 | a user found only by the prefix strategies ends at 0.45 or below |
| Resolver.WholeNameExcludesPrefixOnly | ForumCrawler/Helpers/MainGuildUserTypeReader.cs:60-125 | when some user matches a whole name, no user found only by prefix is returned |
| Resolver.EmptyPoolsNotFound | ForumCrawler/Helpers/MainGuildUserTypeReader.cs:121-128 | with both pools empty, every token gives the not-found error |
| Scenarios.TagAggregate | ForumCrawler/Helpers/MainGuildUserTypeReader.cs:131-137 | a later case-insensitive tag call at 0.70 for the same id does not replace the channel's exact-case entry at 0.85 |
| Scenarios.TagScenario | ForumCrawler/Helpers/MainGuildUserTypeReader.cs:41-57 | `Bob#4521` with Bob in the channel and the same member spelt `bob` in the guild (the 0.70 branch) returns Bob alone at 0.85, the channel's exact-case tag match |
| Scenarios.IdScenario | ForumCrawler/Helpers/MainGuildUserTypeReader.cs:34-39 | `111` with member 111 only in the guild pool returns that member at 0.90 |
| Scenarios.AmbiguousScenario | ForumCrawler/Helpers/MainGuildUserTypeReader.cs:90-125 | `ali` with Alicia and Alina in the channel returns both, tied at 0.35 |
| Scenarios.NotFoundScenario | ForumCrawler/Helpers/MainGuildUserTypeReader.cs:121-128 | `zzz` against a pool it matches nowhere gives the not-found error |
| Corona.TotalRemove | ForumCrawler/Behaviors/CoronaWatcher.cs:28-35 | a total is one region's value plus the total of the rest, whichever region is taken out |
| Corona.TotalInsert | ForumCrawler/Behaviors/CoronaWatcher.cs:28-35 | a region under a new name adds exactly its own value to a total |
| Corona.SumInOrderIsTotal | ForumCrawler/Behaviors/CoronaWatcher.cs:31-35 | summing the values in any enumeration order that visits each key once gives the total |
| Corona.ActiveTotalIsLinear | ForumCrawler/Behaviors/CoronaWatcher.cs:31-57 | the aggregate `Active` equals aggregate `Cases` minus `Deaths` minus `Recovered` |
| Corona.MildIsUnaccountedCases | ForumCrawler/Behaviors/CoronaWatcher.cs:31-36 | `Mild` equals `Cases - Deaths - Recovered - Serious` over the whole table |
| Corona.RegionsActive | ForumCrawler/Behaviors/CoronaWatcher.cs:38 | the count of regions with cases still active never exceeds the number of regions |
| Corona.RegionsRecovered | ForumCrawler/Behaviors/CoronaWatcher.cs:39 | the count of regions with no active case never exceeds the number of regions |
| Corona.RegionCountsPartition | ForumCrawler/Behaviors/CoronaWatcher.cs:38-39 | the two counts plus the regions with negative `Active` make up all regions, so the counts never exceed the number of regions together |
| Corona.AddEntry | ForumCrawler/Behaviors/CoronaWatcher.cs:244 | adding a region under a name already present fails and changes nothing; under a new name it keeps every old region, raises every total by exactly the new region's value, and raises the matching region count by one |
| Corona.AddEntryTotals | ForumCrawler/Behaviors/CoronaWatcher.cs:28-39 | a region added under a new name raises every total by exactly its own value and the count of its standing by one |
| Corona.RegionsInsert | ForumCrawler/Behaviors/CoronaWatcher.cs:38-39 | a new region joins exactly the region set of its own standing |
| Corona.EmptyTableIsZero | ForumCrawler/Behaviors/CoronaWatcher.cs:28-39 | a table with no regions has every total, `Mild` and both region counts at zero |

## Left out

- Pool fetching (`GetGuildAsync`, `GetUsersAsync`, `Flatten`, `CacheMode.CacheOnly`) is I/O against Discord's cache. Both pools are parameters. The channel pool is taken to enumerate the same users in the same order each time it is read.
- `MentionUtils.TryParseUser` is Discord.Net code that is not part of this model. Its syntax, `<@digits>` or `<@!digits>` with the digits read as a 64-bit id, is assumed from Discord.Net.
- The `as T` cast is not modelled: every pool user is taken to be a `T`, so the cast never yields null. The `as IGuildUser` cast on channel users becomes an absent nickname.
- `Text.Fold` folds only ASCII letters. Full Unicode ordinal case folding is not modelled.
- Text: a string is a sequence of Dafny characters (Unicode scalar values), not of UTF-16 code units, so lone surrogates and names measured in code units are not representable.
- `Strategies.ExactCase` uses the ordinal prefix for the score test. The source's one-argument `StartsWith(string)` is culture-sensitive, and culture data is not visible.
- `Parsing.ParseUShort` does not model culture-specific sign symbols or trailing NUL characters, which .NET also accepts.
- Parsing.ParseULong: does not accept the trailing NUL characters that .NET's `ulong.TryParse` also accepts, so a bare id or a mention body ending in NULs is refused here.
- `Resolver.ReadAsync` returns the tied candidates as a set. The order of the source's `ImmutableArray` is not modelled, and nor is the `TypeReaderResult` wrapper beyond success, error kind and reason.
- Scores are integer hundredths. The float type of the source only matters for its comparisons, and the model's comparisons are the same.
- `Corona.TotalOf`: totals are unbounded integers. In the source, LINQ's `Sum` over `int` throws `OverflowException` beyond the 32-bit range.
- `Corona.Mild`: an unbounded integer. In the source, `Active - Serious` wraps around on 32-bit overflow.
- `Corona.Active`: an unbounded integer. In the source, `Cases - Deaths - Recovered` wraps around on 32-bit overflow.
- `CaseHistory` and `LastUpdated` are not modelled: they carry no integer property and no invariant. The entry type is kept as a field of each region.
- `DeathRate`, the growth factor and the change-string helpers are floating-point arithmetic and formatting.
- `CoronaWatcher.Bind`, `GetData`, `GetArchiveData` and `ParseDouble` are a timer loop, Discord message editing, and HTML scraping over HTTP.
- `CountryList` and the country emoji lookup depend on .NET culture and region data.
- The Entity Framework migration `202005102158383_InertiaRevamp` is a declarative schema change with no logic.
