/** The part of `getAnnRecommendationsForUser` that runs after the three
    tables are fetched: pick each user's representative post, count the
    requester's interactions, score every other user that has a post with
    the network, sort by score and keep the first `limit`. */
module AnnRecommend {
  import opened Wrappers
  import opened Seqs
  import opened Query
  import opened StableSort
  import opened Ann
  import opened AnnFeatures

  /** The default `limit`. */
  const DefaultLimit: int := 20

  /** One recommended user. */
  datatype AnnResult = AnnResult(
    targetUserId: string,
    targetPostId: string,
    annScore: real,
    features: seq<real>,
    featureNames: seq<string>)

  /** The sort key. */
  function AnnScoreOf(r: AnnResult): real {
    r.annScore
  }

  /** The first post of `posts[..n + 1]` by `u` is the first of
      `posts[..n]`, or else `posts[n]` when it is by `u`. */
  lemma FirstPostOfExtend(posts: seq<PostRow>, n: nat, u: string)
    requires n < |posts|
    ensures FirstPostOf(posts[..n + 1], u)
         == if FirstPostOf(posts[..n], u).Some? then FirstPostOf(posts[..n], u)
            else if posts[n].userId == u then Some(posts[n])
            else None
  {
    var a, b := posts[..n], posts[..n + 1];
    assert forall i :: 0 <= i < n ==> b[i] == a[i];
    assert b[n] == posts[n];
  }

  /** The `postByUser` loop: a map from each author to their first post. */
  method RepresentativePosts(posts: seq<PostRow>) returns (m: map<string, PostRow>)
    ensures forall u :: u in m <==> FirstPostOf(posts, u).Some?
    ensures forall u :: u in m ==> FirstPostOf(posts, u) == Some(m[u])
  {
    m := map[];
    var i := 0;
    while i < |posts|
      invariant 0 <= i <= |posts|
      invariant forall u :: u in m <==> FirstPostOf(posts[..i], u).Some?
      invariant forall u :: u in m ==> FirstPostOf(posts[..i], u) == Some(m[u])
    {
      var p := posts[i];
      forall u ensures FirstPostOf(posts[..i + 1], u)
                    == if FirstPostOf(posts[..i], u).Some? then FirstPostOf(posts[..i], u)
                       else if posts[i].userId == u then Some(posts[i]) else None
      {
        FirstPostOfExtend(posts, i, u);
      }
      if p.userId !in m {
        m := m[p.userId := p];
      }
      i := i + 1;
    }
    assert posts[..i] == posts;
  }

  /** `profiles.find(p => p.id === userId)`. */
  function FirstProfileOf(profiles: seq<ProfileRow>, id: string): (r: Option<ProfileRow>)
    ensures r.None? <==> forall i :: 0 <= i < |profiles| ==> profiles[i].id != id
    ensures r.Some? ==> exists i :: 0 <= i < |profiles| && profiles[i] == r.value
                                    && forall j :: 0 <= j < i ==> profiles[j].id != id
    ensures r.Some? ==> r.value.id == id
  {
    if |profiles| == 0 then None
    else if profiles[0].id == id then Some(profiles[0])
    else
      var rest := FirstProfileOf(profiles[1..], id);
      if rest.Some? then
        var i :| 0 <= i < |profiles[1..]| && profiles[1..][i] == rest.value
                 && forall j :: 0 <= j < i ==> profiles[1..][j].id != id;
        assert profiles[i + 1] == rest.value;
        assert forall j :: 1 <= j < i + 1 ==> profiles[j] == profiles[1..][j - 1];
        rest
      else rest
  }

  /** The interaction rows the requester made (the `from_user_id` filter
      of the query). */
  function FromUser(interactions: seq<InteractionRow>, userId: string): seq<InteractionRow> {
    FilterMap(interactions, (r: InteractionRow) => r.fromUserId == userId, (r: InteractionRow) => r)
  }

  /** A profile the loop scores: another user who has a post. */
  predicate Eligible(userId: string, posts: seq<PostRow>, c: ProfileRow) {
    c.id != userId && FirstPostOf(posts, c.id).Some?
  }

  /** One pass of the scoring loop for the candidate profile `c`: skip it,
      throw the network's size error, or push its result. */
  function Candidate(
    userId: string, w: AnnWeights, filters: Option<Filters>,
    meProfile: Option<ProfileRow>, mePost: PostRow, posts: seq<PostRow>,
    stats: map<string, Stat>, exp: PositiveFn, c: ProfileRow): (r: Option<Result<AnnResult, SizeMismatch>>)
    ensures r.None? <==> !Eligible(userId, posts, c)
    ensures r.Some? && r.value.Failure? <==> Eligible(userId, posts, c) && w.inputSize != FeatureCount
    ensures r.Some? && r.value.Failure? ==> r.value.error == SizeMismatch(w.inputSize, FeatureCount)
    ensures r.Some? && r.value.Success? ==>
              var y := r.value.value;
              && y.targetUserId == c.id
              && y.targetPostId == FirstPostOf(posts, c.id).value.id
              && 0.0 <= y.annScore <= 1.0
              && |y.features| == FeatureCount
              && y.featureNames == FeatureNames
  {
    if c.id == userId then None
    else
      match FirstPostOf(posts, c.id)
      case None => None
      case Some(candPost) =>
        var features := FeatureVector(meProfile, mePost, Some(c), candPost, Lookup(stats, c.id), filters);
        match Predict(features, w, exp)
        case Failure(e) => Some(Failure(e))
        case Success(score) => Some(Success(AnnResult(c.id, candPost.id, score, features, FeatureNames)))
  }

  /** The scoring loop over all profiles, in profile order. */
  function ScoreAll(
    userId: string, w: AnnWeights, filters: Option<Filters>, profiles: seq<ProfileRow>,
    mePost: PostRow, posts: seq<PostRow>, stats: map<string, Stat>, exp: PositiveFn): Result<seq<AnnResult>, SizeMismatch>
  {
    var meProfile := FirstProfileOf(profiles, userId);
    Collect(profiles, (c: ProfileRow) => Candidate(userId, w, filters, meProfile, mePost, posts, stats, exp, c))
  }

  /** `getAnnRecommendationsForUser(userId, weights, limit, filters)` on the
      fetched tables: nothing without a post by the requester, the size
      error when the network does not take nine inputs and some user is
      scored, and otherwise the scored users by decreasing score, cut to
      `limit`. */
  function AnnForUser(
    userId: string, w: AnnWeights, limit: int, filters: Option<Filters>,
    profiles: seq<ProfileRow>, posts: seq<PostRow>, interactions: seq<InteractionRow>,
    exp: PositiveFn): (r: Result<seq<AnnResult>, SizeMismatch>)
    ensures r.Success? ==> SortedDesc(r.value, AnnScoreOf)
    ensures r.Success? && limit >= 0 ==> |r.value| <= limit
  {
    if |posts| == 0 then Success([])
    else
      match FirstPostOf(posts, userId)
      case None => Success([])
      case Some(mePost) =>
        var stats := Stats(FromUser(interactions, userId));
        match ScoreAll(userId, w, filters, profiles, mePost, posts, stats, exp)
        case Failure(e) => Failure(e)
        case Success(results) => Success(SliceTo(SortDesc(results, AnnScoreOf), limit))
  }

  /** Some profile is scored. */
  predicate AnyEligible(userId: string, posts: seq<PostRow>, profiles: seq<ProfileRow>) {
    exists i :: 0 <= i < |profiles| && Eligible(userId, posts, profiles[i])
  }

  /** The loop throws exactly when some profile is scored and the network
      does not take nine inputs. */
  lemma ScoreAllFailure(
    userId: string, w: AnnWeights, filters: Option<Filters>, profiles: seq<ProfileRow>,
    mePost: PostRow, posts: seq<PostRow>, stats: map<string, Stat>, exp: PositiveFn)
    ensures var r := ScoreAll(userId, w, filters, profiles, mePost, posts, stats, exp);
            && (r.Failure? <==> AnyEligible(userId, posts, profiles) && w.inputSize != FeatureCount)
            && (r.Failure? ==> r.error == SizeMismatch(w.inputSize, FeatureCount))
  {
    var meProfile := FirstProfileOf(profiles, userId);
    var step := (c: ProfileRow) => Candidate(userId, w, filters, meProfile, mePost, posts, stats, exp, c);
    CollectFailure(profiles, step);
  }

  /** A user's result is scored with their first post, never for the
      requester, and with a probability and nine features. */
  predicate GoodAnnResult(y: AnnResult, userId: string, posts: seq<PostRow>, profiles: seq<ProfileRow>) {
    && y.targetUserId != userId
    && (exists i :: 0 <= i < |profiles| && profiles[i].id == y.targetUserId)
    && FirstPostOf(posts, y.targetUserId).Some?
    && y.targetPostId == FirstPostOf(posts, y.targetUserId).value.id
    && 0.0 <= y.annScore <= 1.0
    && |y.features| == FeatureCount
    && y.featureNames == FeatureNames
  }

  /** Every result of a completed loop is good. */
  lemma ScoreAllGood(
    userId: string, w: AnnWeights, filters: Option<Filters>, profiles: seq<ProfileRow>,
    mePost: PostRow, posts: seq<PostRow>, stats: map<string, Stat>, exp: PositiveFn)
    requires ScoreAll(userId, w, filters, profiles, mePost, posts, stats, exp).Success?
    ensures forall y :: y in ScoreAll(userId, w, filters, profiles, mePost, posts, stats, exp).value
                        ==> GoodAnnResult(y, userId, posts, profiles)
  {
    var meProfile := FirstProfileOf(profiles, userId);
    var step := (c: ProfileRow) => Candidate(userId, w, filters, meProfile, mePost, posts, stats, exp, c);
    forall y | y in Collect(profiles, step).value ensures GoodAnnResult(y, userId, posts, profiles) {
      CollectMembers(profiles, step, y);
      var i :| 0 <= i < |profiles| && step(profiles[i]) == Some(Success(y));
    }
  }

  /** A completed loop holds a result for every other user with a post. */
  lemma ScoreAllCovers(
    userId: string, w: AnnWeights, filters: Option<Filters>, profiles: seq<ProfileRow>,
    mePost: PostRow, posts: seq<PostRow>, stats: map<string, Stat>, exp: PositiveFn, i: nat)
    requires i < |profiles| && Eligible(userId, posts, profiles[i])
    requires ScoreAll(userId, w, filters, profiles, mePost, posts, stats, exp).Success?
    ensures exists y :: y in ScoreAll(userId, w, filters, profiles, mePost, posts, stats, exp).value
                        && y.targetUserId == profiles[i].id
  {
    var meProfile := FirstProfileOf(profiles, userId);
    var step := (c: ProfileRow) => Candidate(userId, w, filters, meProfile, mePost, posts, stats, exp, c);
    CollectFailure(profiles, step);
    var y := step(profiles[i]).value.value;
    CollectMembers(profiles, step, y);
  }

  /** The outcome of the whole pipeline: an empty list without a post by
      the requester; the size error exactly when some other user with a
      post is to be scored and the network does not take nine inputs;
      otherwise good results only. */
  lemma AnnForUserOutcome(
    userId: string, w: AnnWeights, limit: int, filters: Option<Filters>,
    profiles: seq<ProfileRow>, posts: seq<PostRow>, interactions: seq<InteractionRow>, exp: PositiveFn)
    ensures var r := AnnForUser(userId, w, limit, filters, profiles, posts, interactions, exp);
            && (FirstPostOf(posts, userId).None? ==> r == Success([]))
            && (r.Failure? <==> FirstPostOf(posts, userId).Some? && AnyEligible(userId, posts, profiles)
                                && w.inputSize != FeatureCount)
            && (r.Failure? ==> r.error == SizeMismatch(w.inputSize, FeatureCount))
            && (r.Success? ==> forall y :: y in r.value ==> GoodAnnResult(y, userId, posts, profiles))
  {
    var r := AnnForUser(userId, w, limit, filters, profiles, posts, interactions, exp);
    if |posts| == 0 {
      assert FirstPostOf(posts, userId).None?;
    }
    if FirstPostOf(posts, userId).Some? {
      var mePost := FirstPostOf(posts, userId).value;
      var stats := Stats(FromUser(interactions, userId));
      var all := ScoreAll(userId, w, filters, profiles, mePost, posts, stats, exp);
      ScoreAllFailure(userId, w, filters, profiles, mePost, posts, stats, exp);
      if all.Success? {
        ScoreAllGood(userId, w, filters, profiles, mePost, posts, stats, exp);
        var sorted := SortDesc(all.value, AnnScoreOf);
        PrefixFacts(sorted, |r.value|, AnnScoreOf);
        forall y | y in r.value ensures GoodAnnResult(y, userId, posts, profiles) {
          assert y in multiset(sorted);
        }
      }
    }
  }

  /** The pipeline once the loop has completed: `slice(0, limit)` keeps
      exactly `limit` users when there are that many, all of them when
      there are fewer, and with room for all loses none. */
  lemma AnnForUserRanks(
    userId: string, w: AnnWeights, limit: int, filters: Option<Filters>,
    profiles: seq<ProfileRow>, posts: seq<PostRow>, interactions: seq<InteractionRow>,
    exp: PositiveFn, mePost: PostRow)
    requires FirstPostOf(posts, userId) == Some(mePost)
    requires ScoreAll(userId, w, filters, profiles, mePost, posts,
                      Stats(FromUser(interactions, userId)), exp).Success?
    ensures var all := ScoreAll(userId, w, filters, profiles, mePost, posts,
                                Stats(FromUser(interactions, userId)), exp).value;
            var r := AnnForUser(userId, w, limit, filters, profiles, posts, interactions, exp);
            && r.Success?
            && (limit >= 0 ==> |r.value| == if limit < |all| then limit else |all|)
            && (limit >= |all| ==> multiset(r.value) == multiset(all))
  {
    var all := ScoreAll(userId, w, filters, profiles, mePost, posts,
                        Stats(FromUser(interactions, userId)), exp).value;
    var sorted := SortDesc(all, AnnScoreOf);
    assert |posts| > 0;
    assert AnnForUser(userId, w, limit, filters, profiles, posts, interactions, exp).value == SliceTo(sorted, limit);
    if limit >= |all| {
      assert SliceTo(sorted, limit) == sorted;
    }
  }

  /** Top `limit`, with ties in profile order: a scored user that was cut
      off scores no higher than any user that was returned, and among
      equal scores the returned users come first in profile order. */
  lemma AnnKeepsTheBest(
    userId: string, w: AnnWeights, limit: int, filters: Option<Filters>,
    profiles: seq<ProfileRow>, posts: seq<PostRow>, interactions: seq<InteractionRow>,
    exp: PositiveFn, mePost: PostRow, v: real)
    requires FirstPostOf(posts, userId) == Some(mePost)
    requires ScoreAll(userId, w, filters, profiles, mePost, posts,
                      Stats(FromUser(interactions, userId)), exp).Success?
    ensures var all := ScoreAll(userId, w, filters, profiles, mePost, posts,
                                Stats(FromUser(interactions, userId)), exp).value;
            var r := AnnForUser(userId, w, limit, filters, profiles, posts, interactions, exp);
            && r.Success?
            && multiset(r.value) <= multiset(all)
            && (forall x, y :: x in r.value && y in multiset(all) - multiset(r.value) ==> x.annScore >= y.annScore)
            && KeyFilter(r.value, AnnScoreOf, v) <= KeyFilter(all, AnnScoreOf, v)
  {
    assert |posts| > 0;
    TopFacts(ScoreAll(userId, w, filters, profiles, mePost, posts,
                      Stats(FromUser(interactions, userId)), exp).value, AnnScoreOf, limit, v);
  }
}
