/** The `results` dictionary of the resolver and its only writer, `AddResult`:
    a merge that keeps, per user id, the best score proposed so far. */
module Aggregation {
  import opened Wrappers
  import opened Users

  /** `TypeReaderValue`: a candidate user and the score it was found with. */
  datatype Candidate = Candidate(user: User, score: int)

  /** `Dictionary<ulong, TypeReaderValue>`, keyed by user id. */
  type ResultMap = map<nat, Candidate>

  /** One `AddResult(results, user, score)` call of the resolver. `user` is
      `None` where the source passes `null`: a failed id lookup or an empty
      `FirstOrDefault`. */
  datatype Hit = Hit(user: Option<User>, score: int)

  function Max(a: int, b: int): int
  {
    if a < b then b else a
  }

  /** Every entry is stored under the id of the user it holds. */
  ghost predicate WellKeyed(m: ResultMap)
  {
    forall id :: id in m ==> m[id].user.id == id
  }

  /** The hit offers a user with this id. */
  predicate Proposes(h: Hit, id: nat)
  {
    h.user.Some? && h.user.value.id == id
  }

  /** `AddResult`: a null user changes nothing; otherwise the entry for the
      user's id ends with the larger of its old score and the new one, an equal
      score keeps the entry already there, and every other id is untouched. */
  function AddResult(m: ResultMap, h: Hit): (r: ResultMap)
    ensures h.user.None? ==> r == m
    ensures h.user.Some? ==> r.Keys == m.Keys + {h.user.value.id}
    ensures h.user.Some? && h.user.value.id in m ==>
              r[h.user.value.id].score == Max(m[h.user.value.id].score, h.score)
    ensures h.user.Some? && h.user.value.id in m && h.score <= m[h.user.value.id].score ==>
              r[h.user.value.id] == m[h.user.value.id]
    ensures h.user.Some? && (h.user.value.id !in m || m[h.user.value.id].score < h.score) ==>
              r[h.user.value.id] == Candidate(h.user.value, h.score)
    ensures forall id :: id in m ==> id in r && m[id].score <= r[id].score
    ensures forall id :: id in m && !Proposes(h, id) ==> r[id] == m[id]
    ensures WellKeyed(m) ==> WellKeyed(r)
  {
    match h.user
    case None => m
    case Some(u) =>
      if u.id !in m || m[u.id].score < h.score then m[u.id := Candidate(u, h.score)] else m
  }

  /** `m` is what the hits add up to: every user a hit offers is present under
      its id with at least the hit's score, and every entry is one that some
      hit offered (so its score is the maximum proposed for its id, and no id
      is present that no hit proposed). */
  ghost predicate Summarizes(m: ResultMap, hits: seq<Hit>)
  {
    && WellKeyed(m)
    && (forall h :: h in hits && h.user.Some? ==>
          h.user.value.id in m && h.score <= m[h.user.value.id].score)
    && (forall id :: id in m ==> Hit(Some(m[id].user), m[id].score) in hits)
  }

  /** One more `AddResult` call extends the summary by one hit. */
  lemma AddResultExtends(m: ResultMap, hits: seq<Hit>, h: Hit)
    requires Summarizes(m, hits)
    ensures Summarizes(AddResult(m, h), hits + [h])
  {
    var hits' := hits + [h];
    var r := AddResult(m, h);
    assert forall g :: g in hits' <==> g in hits || g == h;
    forall id | id in r
      ensures Hit(Some(r[id].user), r[id].score) in hits'
    {
      if Proposes(h, id) && r[id] == Candidate(h.user.value, h.score) {
        assert Hit(Some(r[id].user), r[id].score) == h;
      } else {
        assert r[id] == m[id];
      }
    }
  }

  /** Two summaries of hits offering the same (user, score) pairs agree on
      which ids are present and on every score. */
  lemma SummariesAgree(m1: ResultMap, a: seq<Hit>, m2: ResultMap, b: seq<Hit>)
    requires Summarizes(m1, a) && Summarizes(m2, b)
    requires forall h :: h in a <==> h in b
    ensures m1.Keys == m2.Keys
    ensures forall id :: id in m1 ==> m1[id].score == m2[id].score
  {
    forall id | id in m1
      ensures id in m2 && m1[id].score <= m2[id].score
    {
      assert Hit(Some(m1[id].user), m1[id].score) in b;
    }
    forall id | id in m2
      ensures id in m1 && m2[id].score <= m1[id].score
    {
      assert Hit(Some(m2[id].user), m2[id].score) in a;
    }
  }

  /** The dictionary after every `AddResult` call of `hits`, in order, starting
      empty: per id, the best score any hit proposed for it. */
  function Aggregate(hits: seq<Hit>): (m: ResultMap)
    ensures Summarizes(m, hits)
  {
    if |hits| == 0 then map[]
    else
      var p := hits[..|hits| - 1];
      var m := AddResult(Aggregate(p), hits[|hits| - 1]);
      AddResultExtends(Aggregate(p), p, hits[|hits| - 1]);
      assert p + [hits[|hits| - 1]] == hits;
      m
  }

  /** Calls that offer no user leave the dictionary empty. */
  lemma NoUserNoEntries(hits: seq<Hit>)
    requires forall h :: h in hits ==> h.user.None?
    ensures Aggregate(hits) == map[]
  {
    var m := Aggregate(hits);
    assert m.Keys == {};
  }

  /** `hits[i]` is the first hit that proposes `id` with its best score. */
  ghost predicate IsFirstBest(hits: seq<Hit>, id: nat, i: int)
  {
    && 0 <= i < |hits|
    && Proposes(hits[i], id)
    && (forall j :: 0 <= j < |hits| && Proposes(hits[j], id) ==> hits[j].score <= hits[i].score)
    && (forall j :: 0 <= j < i && Proposes(hits[j], id) ==> hits[j].score < hits[i].score)
  }

  /** A summary's entry bounds the score of every call that proposes its id. */
  lemma SummaryBoundsIndex(m: ResultMap, hits: seq<Hit>, id: nat, j: int)
    requires Summarizes(m, hits)
    requires 0 <= j < |hits| && Proposes(hits[j], id)
    ensures id in m && hits[j].score <= m[id].score
  {
    assert hits[j] in hits;
  }

  /** Because `AddResult` replaces an entry only on a strictly greater score,
      the user stored for an id is the one from the FIRST hit that reached the
      id's best score; later ties do not displace it. */
  lemma {:induction false} AggregateKeepsFirstBest(hits: seq<Hit>, id: nat)
    requires id in Aggregate(hits)
    ensures exists i :: IsFirstBest(hits, id, i)
              && Aggregate(hits)[id] == Candidate(hits[i].user.value, hits[i].score)
  {
    var n := |hits|;
    assert n > 0;
    var p, last := hits[..n - 1], hits[n - 1];
    var m, m' := Aggregate(hits), Aggregate(p);
    assert m == AddResult(m', last);
    if Proposes(last, id) && (id !in m' || m'[id].score < last.score) {
      LastIsFirstBest(hits, id);
    } else {
      assert id in m' && m[id] == m'[id];
      AggregateKeepsFirstBest(p, id);
      var i :| IsFirstBest(p, id, i) && m'[id] == Candidate(p[i].user.value, p[i].score);
      FirstBestExtends(p, hits, id, i);
    }
  }

  /** A last call that beats every entry before it is the first best call. */
  lemma LastIsFirstBest(hits: seq<Hit>, id: nat)
    requires |hits| > 0 && Proposes(hits[|hits| - 1], id)
    requires var m' := Aggregate(hits[..|hits| - 1]);
             id !in m' || m'[id].score < hits[|hits| - 1].score
    ensures IsFirstBest(hits, id, |hits| - 1)
  {
    var n := |hits|;
    var p := hits[..n - 1];
    forall j | 0 <= j < n - 1 && Proposes(hits[j], id)
      ensures hits[j].score < hits[n - 1].score
    {
      assert hits[j] == p[j];
      SummaryBoundsIndex(Aggregate(p), p, id, j);
    }
  }

  /** A first best call stays first best when a later call proposes no more. */
  lemma FirstBestExtends(p: seq<Hit>, hits: seq<Hit>, id: nat, i: int)
    requires |hits| == |p| + 1 && p == hits[..|p|]
    requires IsFirstBest(p, id, i)
    requires Proposes(hits[|p|], id) ==> hits[|p|].score <= p[i].score
    ensures IsFirstBest(hits, id, i)
  {
    assert hits[i] == p[i];
    forall j | 0 <= j < |hits| && Proposes(hits[j], id)
      ensures hits[j].score <= hits[i].score
    {
      if j < |p| {
        assert hits[j] == p[j];
      }
    }
    forall j | 0 <= j < i && Proposes(hits[j], id)
      ensures hits[j].score < hits[i].score
    {
      assert hits[j] == p[j];
    }
  }

  /** Reordering the calls (for example the strategies, or the two pools) does
      not change which ids are found or the score any of them ends with. */
  lemma ScoresIgnoreOrder(a: seq<Hit>, b: seq<Hit>)
    requires multiset(a) == multiset(b)
    ensures Aggregate(a).Keys == Aggregate(b).Keys
    ensures forall id :: id in Aggregate(a) ==> Aggregate(a)[id].score == Aggregate(b)[id].score
  {
    assert forall h :: h in a <==> h in multiset(a);
    assert forall h :: h in b <==> h in multiset(b);
    SummariesAgree(Aggregate(a), a, Aggregate(b), b);
  }

  /** A summary bounds every hit of a part of the summarised calls. */
  lemma SummaryBoundsPart(m: ResultMap, hits: seq<Hit>, part: seq<Hit>, id: nat)
    requires Summarizes(m, hits)
    requires forall h :: h in part ==> h in hits
    requires id in Aggregate(part)
    ensures id in m && Aggregate(part)[id].score <= m[id].score
  {
    var mp := Aggregate(part);
    var h := Hit(Some(mp[id].user), mp[id].score);
    assert h in part;
    assert h in hits;
  }

  /** Every entry of the fold over two runs comes from one of the runs, and is
      bounded by that run's own entry. */
  lemma EntryFromPart(a: seq<Hit>, b: seq<Hit>, id: nat)
    requires id in Aggregate(a + b)
    ensures || (id in Aggregate(a) && Aggregate(a + b)[id].score <= Aggregate(a)[id].score)
            || (id in Aggregate(b) && Aggregate(a + b)[id].score <= Aggregate(b)[id].score)
  {
    var m := Aggregate(a + b);
    var h := Hit(Some(m[id].user), m[id].score);
    assert h in a + b;
    assert h in a || h in b;
  }

  /** Folding two runs of calls separately and max-merging the results entry by
      entry gives the same scores as one fold over both runs: the max-merge is
      the combine step a parallel aggregation would use. */
  lemma ScoresSplit(a: seq<Hit>, b: seq<Hit>, id: nat)
    ensures id in Aggregate(a + b) <==> id in Aggregate(a) || id in Aggregate(b)
    ensures id in Aggregate(a) && id in Aggregate(b) ==>
              Aggregate(a + b)[id].score == Max(Aggregate(a)[id].score, Aggregate(b)[id].score)
    ensures id in Aggregate(a) && id !in Aggregate(b) ==>
              Aggregate(a + b)[id].score == Aggregate(a)[id].score
    ensures id !in Aggregate(a) && id in Aggregate(b) ==>
              Aggregate(a + b)[id].score == Aggregate(b)[id].score
  {
    var m := Aggregate(a + b);
    assert forall h :: h in a ==> h in a + b;
    assert forall h :: h in b ==> h in a + b;
    if id in Aggregate(a) {
      SummaryBoundsPart(m, a + b, a, id);
    }
    if id in Aggregate(b) {
      SummaryBoundsPart(m, a + b, b, id);
    }
    if id in m {
      EntryFromPart(a, b, id);
    }
  }
}
