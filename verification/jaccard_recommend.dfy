/** `recommendByJaccardFromPosts` and the part of
    `getJaccardRecommendationsForUser` that runs after the posts are
    fetched: score each candidate post against the query, drop the
    non-positive scores, sort by score and keep the first `k`. */
module JaccardRecommend {
  import opened Wrappers
  import opened JsonValue
  import opened Seqs
  import opened Tags
  import opened Similarity
  import opened Query
  import opened StableSort

  /** The default `k` and `limit`. */
  const DefaultLimit: int := 20

  /** One recommended post with its facet scores. `targetUserId` and
      `targetPostId` repeat `userId` and `postId` for the API layer. */
  datatype RecommendResult = RecommendResult(
    postId: string,
    userId: string,
    score: real,
    skillScore: real,
    interestScore: real,
    availableScore: real,
    personalityScore: real,
    experienceScore: real,
    commonSkills: seq<string>,
    commonInterests: seq<string>,
    targetUserId: string,
    targetPostId: string)

  /** The sort key. */
  function ScoreOf(r: RecommendResult): real {
    r.score
  }

  /** Some facet of the candidate shares a token with the query. */
  predicate SharesAToken(q: FacetQuery, p: PostRow) {
    || TagSet(q.skills) * TagSet(p.skills) != {}
    || TagSet(q.interests) * TagSet(p.interests) != {}
    || TagSet(q.available) * TagSet(p.available) != {}
    || TagSet(q.personality) * TagSet(p.personality) != {}
    || TagSet(q.experience) * TagSet(p.experience) != {}
  }

  /** The weighted score `0.4·skills + 0.3·interests + 0.1·(available +
      personality + experience)`: at most 1 since the weights sum to 1. */
  function Score(q: FacetQuery, p: PostRow): (r: real)
    ensures 0.0 <= r <= 1.0
  {
    0.4 * Jaccard(q.skills, p.skills)
    + 0.3 * Jaccard(q.interests, p.interests)
    + 0.1 * Jaccard(q.available, p.available)
    + 0.1 * Jaccard(q.personality, p.personality)
    + 0.1 * Jaccard(q.experience, p.experience)
  }

  /** The score is positive exactly when some facet shares a token. */
  lemma ScorePositive(q: FacetQuery, p: PostRow)
    ensures Score(q, p) > 0.0 <==> SharesAToken(q, p)
  {
    JaccardZero(q.skills, p.skills);
    JaccardZero(q.interests, p.interests);
    JaccardZero(q.available, p.available);
    JaccardZero(q.personality, p.personality);
    JaccardZero(q.experience, p.experience);
  }

  /** The result record pushed for a candidate. */
  function ResultFor(q: FacetQuery, p: PostRow): (r: RecommendResult)
    ensures r.postId == r.targetPostId == p.id
    ensures r.userId == r.targetUserId == p.userId
    ensures r.score == Score(q, p)
  {
    RecommendResult(
      p.id, p.userId, Score(q, p),
      Jaccard(q.skills, p.skills),
      Jaccard(q.interests, p.interests),
      Jaccard(q.available, p.available),
      Jaccard(q.personality, p.personality),
      Jaccard(q.experience, p.experience),
      IntersectionSet(q.skills, p.skills),
      IntersectionSet(q.interests, p.interests),
      p.userId, p.id)
  }

  /** A candidate is kept when it is not the requester's post and scores above 0. */
  predicate Kept(q: FacetQuery, meId: string, p: PostRow) {
    p.id != meId && Score(q, p) > 0.0
  }

  /** The loop of `recommendByJaccardFromPosts`: the results in candidate order. */
  function Scored(q: FacetQuery, meId: string, candidates: seq<PostRow>): seq<RecommendResult> {
    FilterMap(candidates, (p: PostRow) => Kept(q, meId, p), (p: PostRow) => ResultFor(q, p))
  }

  /** A result is produced exactly for each kept candidate. */
  lemma ScoredMembers(q: FacetQuery, meId: string, candidates: seq<PostRow>, r: RecommendResult)
    ensures r in Scored(q, meId, candidates) <==>
              exists i :: 0 <= i < |candidates| && Kept(q, meId, candidates[i]) && r == ResultFor(q, candidates[i])
  {
    FilterMapMembers(candidates, (p: PostRow) => Kept(q, meId, p), (p: PostRow) => ResultFor(q, p), r);
  }

  /** Every result is for another post, scores in (0, 1], and repeats its
      ids in the `target` fields. */
  predicate GoodResult(r: RecommendResult, meId: string) {
    && r.postId != meId
    && 0.0 < r.score <= 1.0
    && r.targetPostId == r.postId
    && r.targetUserId == r.userId
  }

  /** All results of the loop are good. */
  lemma ScoredGood(q: FacetQuery, meId: string, candidates: seq<PostRow>)
    ensures forall r :: r in Scored(q, meId, candidates) ==> GoodResult(r, meId)
  {
    forall r | r in Scored(q, meId, candidates) ensures GoodResult(r, meId) {
      ScoredMembers(q, meId, candidates, r);
    }
  }

  /** `recommendByJaccardFromPosts(mePost, candidates, k, filters)`: the
      first `k` of the kept results by decreasing score (`slice` counts a
      negative `k` from the end). */
  function Recommend(me: PostRow, candidates: seq<PostRow>, k: int, filters: Option<Filters>): (r: seq<RecommendResult>)
    ensures SortedDesc(r, ScoreOf)
    ensures var n := |Scored(ResolveQuery(me, filters), me.id, candidates)|;
            && (k >= 0 ==> |r| == if k < n then k else n)
            && (k < 0 ==> |r| == if n + k > 0 then n + k else 0)
    ensures forall i :: 0 <= i < |r| ==> GoodResult(r[i], me.id)
    ensures multiset(r) <= multiset(Scored(ResolveQuery(me, filters), me.id, candidates))
  {
    var all := Scored(ResolveQuery(me, filters), me.id, candidates);
    var sorted := SortDesc(all, ScoreOf);
    var r := SliceTo(sorted, k);
    PrefixFacts(sorted, |r|, ScoreOf);
    ScoredGood(ResolveQuery(me, filters), me.id, candidates);
    forall i | 0 <= i < |r| ensures GoodResult(r[i], me.id) {
      assert r[i] in multiset(all);
    }
    r
  }

  /** Top k: a kept result that was cut off scores no higher than any
      result that was returned. */
  lemma RecommendKeepsTheBest(me: PostRow, candidates: seq<PostRow>, k: int, filters: Option<Filters>)
    ensures var all := Scored(ResolveQuery(me, filters), me.id, candidates);
            var r := Recommend(me, candidates, k, filters);
            forall x, y :: x in r && y in multiset(all) - multiset(r) ==> x.score >= y.score
  {
    var all := Scored(ResolveQuery(me, filters), me.id, candidates);
    var sorted := SortDesc(all, ScoreOf);
    var r := Recommend(me, candidates, k, filters);
    assert r == sorted[..|r|];
    PrefixFacts(sorted, |r|, ScoreOf);
    forall x, y | x in r && y in multiset(all) - multiset(r) ensures x.score >= y.score {
      assert y in multiset(sorted[|r|..]);
    }
  }

  /** With room for every kept candidate, nothing is cut off. */
  lemma RecommendAll(me: PostRow, candidates: seq<PostRow>, k: int, filters: Option<Filters>)
    requires k >= |Scored(ResolveQuery(me, filters), me.id, candidates)|
    ensures multiset(Recommend(me, candidates, k, filters))
         == multiset(Scored(ResolveQuery(me, filters), me.id, candidates))
  {
    var all := Scored(ResolveQuery(me, filters), me.id, candidates);
    var sorted := SortDesc(all, ScoreOf);
    assert Recommend(me, candidates, k, filters) == sorted[..|sorted|];
    assert sorted[..|sorted|] == sorted;
  }

  /** Ties keep candidate order: for every score, the returned results
      with that score are a prefix of the kept candidates with that score,
      in the same order. */
  lemma RecommendStable(me: PostRow, candidates: seq<PostRow>, k: int, filters: Option<Filters>, v: real)
    ensures KeyFilter(Recommend(me, candidates, k, filters), ScoreOf, v)
         <= KeyFilter(Scored(ResolveQuery(me, filters), me.id, candidates), ScoreOf, v)
  {
    var all := Scored(ResolveQuery(me, filters), me.id, candidates);
    var sorted := SortDesc(all, ScoreOf);
    var r := Recommend(me, candidates, k, filters);
    assert sorted == r + sorted[|r|..];
    KeyFilterAppend(r, sorted[|r|..], ScoreOf, v);
    SortStable(all, ScoreOf, v);
  }

  /** A candidate whose every facet repeats the query, with at least one
      token in each, scores exactly 1. */
  lemma IdenticalScoresOne(q: FacetQuery, p: PostRow)
    requires p.skills == q.skills && p.interests == q.interests && p.available == q.available
    requires p.personality == q.personality && p.experience == q.experience
    requires TagSet(q.skills) != {} && TagSet(q.interests) != {} && TagSet(q.available) != {}
    requires TagSet(q.personality) != {} && TagSet(q.experience) != {}
    ensures Score(q, p) == 1.0
  {
    JaccardSelf(q.skills);
    JaccardSelf(q.interests);
    JaccardSelf(q.available);
    JaccardSelf(q.personality);
    JaccardSelf(q.experience);
  }

  /** The post-fetch part of `getJaccardRecommendationsForUser`: the
      requester's post is their first in the (newest-first) list, and the
      candidates are the posts with another id. The output is the top
      `limit` of the kept candidates: exactly `limit` of them when there
      are that many, no kept candidate cut off outscores a returned one,
      and ties keep candidate order. */
  function ForUser(posts: seq<PostRow>, userId: string, limit: int, filters: Option<Filters>): (r: seq<RecommendResult>)
    ensures FirstPostOf(posts, userId).None? ==> r == []
    ensures FirstPostOf(posts, userId).Some? ==>
              var me := FirstPostOf(posts, userId).value;
              var all := Scored(ResolveQuery(me, filters), me.id, OtherPosts(posts, me.id));
              && (forall i :: 0 <= i < |r| ==> GoodResult(r[i], me.id))
              && multiset(r) <= multiset(all)
              && (limit >= 0 ==> |r| == if limit < |all| then limit else |all|)
              && (forall x, y :: x in r && y in multiset(all) - multiset(r) ==> x.score >= y.score)
              && (forall v :: KeyFilter(r, ScoreOf, v) <= KeyFilter(all, ScoreOf, v))
    ensures limit >= 0 ==> |r| <= limit
    ensures SortedDesc(r, ScoreOf)
  {
    match FirstPostOf(posts, userId)
    case None => []
    case Some(me) =>
      var candidates := OtherPosts(posts, me.id);
      RecommendKeepsTheBest(me, candidates, limit, filters);
      assert forall v :: KeyFilter(Recommend(me, candidates, limit, filters), ScoreOf, v)
                      <= KeyFilter(Scored(ResolveQuery(me, filters), me.id, candidates), ScoreOf, v) by {
        forall v ensures KeyFilter(Recommend(me, candidates, limit, filters), ScoreOf, v)
                      <= KeyFilter(Scored(ResolveQuery(me, filters), me.id, candidates), ScoreOf, v) {
          RecommendStable(me, candidates, limit, filters, v);
        }
      }
      Recommend(me, candidates, limit, filters)
  }

  /** The candidates of `getJaccardRecommendationsForUser`: every post
      whose id differs from the requester's post. */
  function OtherPosts(posts: seq<PostRow>, meId: string): seq<PostRow> {
    FilterMap(posts, (p: PostRow) => p.id != meId, (p: PostRow) => p)
  }

  /** With room for every candidate, each kept candidate's result is returned. */
  lemma RecommendReturnsKept(me: PostRow, candidates: seq<PostRow>, limit: int, filters: Option<Filters>, p: PostRow)
    requires p in candidates && Kept(ResolveQuery(me, filters), me.id, p)
    requires limit >= |candidates|
    ensures ResultFor(ResolveQuery(me, filters), p) in Recommend(me, candidates, limit, filters)
  {
    var q := ResolveQuery(me, filters);
    ScoredMembers(q, me.id, candidates, ResultFor(q, p));
    RecommendAll(me, candidates, limit, filters);
    assert ResultFor(q, p) in multiset(Recommend(me, candidates, limit, filters));
  }

  /** The candidates hold every post with another id. */
  lemma OtherPostsHas(posts: seq<PostRow>, meId: string, p: PostRow)
    requires p in posts && p.id != meId
    ensures p in OtherPosts(posts, meId) && |OtherPosts(posts, meId)| <= |posts|
  {
    FilterMapMembers(posts, (p: PostRow) => p.id != meId, (p: PostRow) => p, p);
  }

  /** As written, only the requester's first post is left out: another
      post by the same user that shares a token is recommended back to
      them when the limit leaves room. */
  lemma OwnOtherPostRecommended(posts: seq<PostRow>, userId: string, limit: int, filters: Option<Filters>, p: PostRow)
    requires FirstPostOf(posts, userId).Some?
    requires p in posts && p.userId == userId && p.id != FirstPostOf(posts, userId).value.id
    requires SharesAToken(ResolveQuery(FirstPostOf(posts, userId).value, filters), p)
    requires limit >= |posts|
    ensures exists x :: x in ForUser(posts, userId, limit, filters) && x.userId == userId
  {
    var me := FirstPostOf(posts, userId).value;
    var q := ResolveQuery(me, filters);
    OtherPostsHas(posts, me.id, p);
    ScorePositive(q, p);
    RecommendReturnsKept(me, OtherPosts(posts, me.id), limit, filters, p);
    assert ResultFor(q, p) in ForUser(posts, userId, limit, filters);
  }

  /** Two posts by user `u` with the same skills: `u`'s second post is
      recommended to `u`. */
  lemma OwnOtherPostExample()
    ensures var skills := Arr([Str("React"), Str("Python")]);
            var posts := [PostRow("1", "u", skills, Null, Null, Null, Null),
                          PostRow("2", "u", skills, Null, Null, Null, Null)];
            exists x :: x in ForUser(posts, "u", DefaultLimit, None) && x.userId == "u"
  {
    var skills := Arr([Str("React"), Str("Python")]);
    var posts := [PostRow("1", "u", skills, Null, Null, Null, Null),
                  PostRow("2", "u", skills, Null, Null, Null, Null)];
    assert FirstPostOf(posts, "u") == Some(posts[0]);
    ArrayExample();
    assert "React" in TagSet(skills);
    OwnOtherPostRecommended(posts, "u", DefaultLimit, None, posts[1]);
  }

  /** The requester's own posts, all of them, are left out of the candidates. */
  function OtherUsersPosts(posts: seq<PostRow>, userId: string): seq<PostRow> {
    FilterMap(posts, (p: PostRow) => p.userId != userId, (p: PostRow) => p)
  }

  /** `getJaccardRecommendationsForUser` with the requester excluded as a
      user, as the ANN pipeline does: no result is one of the requester's
      own posts. */
  function ForUserExcludingSelf(posts: seq<PostRow>, userId: string, limit: int, filters: Option<Filters>): (r: seq<RecommendResult>)
    ensures FirstPostOf(posts, userId).None? ==> r == []
    ensures forall i :: 0 <= i < |r| ==> r[i].userId != userId
    ensures FirstPostOf(posts, userId).Some? ==>
              var me := FirstPostOf(posts, userId).value;
              var all := Scored(ResolveQuery(me, filters), me.id, OtherUsersPosts(posts, userId));
              && multiset(r) <= multiset(all)
              && (limit >= 0 ==> |r| == if limit < |all| then limit else |all|)
    ensures limit >= 0 ==> |r| <= limit
    ensures SortedDesc(r, ScoreOf)
  {
    match FirstPostOf(posts, userId)
    case None => []
    case Some(me) =>
      var candidates := OtherUsersPosts(posts, userId);
      var r := Recommend(me, candidates, limit, filters);
      var q := ResolveQuery(me, filters);
      assert forall i :: 0 <= i < |r| ==> r[i].userId != userId by {
        forall i | 0 <= i < |r| ensures r[i].userId != userId {
          assert r[i] in multiset(Scored(q, me.id, candidates));
          ScoredMembers(q, me.id, candidates, r[i]);
          var j :| 0 <= j < |candidates| && Kept(q, me.id, candidates[j]) && r[i] == ResultFor(q, candidates[j]);
          FilterMapMembers(posts, (p: PostRow) => p.userId != userId, (p: PostRow) => p, candidates[j]);
        }
      }
      r
  }

  /** The corrected candidates hold every post by another user. */
  lemma OtherUsersPostsHas(posts: seq<PostRow>, userId: string, p: PostRow)
    requires p in posts && p.userId != userId
    ensures p in OtherUsersPosts(posts, userId) && |OtherUsersPosts(posts, userId)| <= |posts|
  {
    FilterMapMembers(posts, (p: PostRow) => p.userId != userId, (p: PostRow) => p, p);
  }

  /** The corrected pipeline still recommends other users: a post by
      someone else (with its own id, as post ids are unique) that shares a
      token with the requester's post comes back when the limit leaves room. */
  lemma ExcludingSelfReturnsOthers(posts: seq<PostRow>, userId: string, limit: int, filters: Option<Filters>, p: PostRow)
    requires FirstPostOf(posts, userId).Some?
    requires p in posts && p.userId != userId && p.id != FirstPostOf(posts, userId).value.id
    requires SharesAToken(ResolveQuery(FirstPostOf(posts, userId).value, filters), p)
    requires limit >= |posts|
    ensures ResultFor(ResolveQuery(FirstPostOf(posts, userId).value, filters), p)
            in ForUserExcludingSelf(posts, userId, limit, filters)
  {
    var me := FirstPostOf(posts, userId).value;
    var q := ResolveQuery(me, filters);
    var candidates := OtherUsersPosts(posts, userId);
    OtherUsersPostsHas(posts, userId, p);
    ScorePositive(q, p);
    RecommendReturnsKept(me, candidates, limit, filters, p);
    assert ForUserExcludingSelf(posts, userId, limit, filters) == Recommend(me, candidates, limit, filters);
  }
}
