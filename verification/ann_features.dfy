/** The inputs of the ANN recommender: per-user interaction counts
    (`buildInteractionStats`), their score (`interactionScore`), `clamp01`,
    and the nine-entry feature vector of one candidate
    (`buildFeatureVector`). */
module AnnFeatures {
  import opened Wrappers
  import opened JsonValue
  import opened Similarity
  import opened Query

  /** A row of the `interactions` table. */
  datatype InteractionRow = InteractionRow(
    fromUserId: string,
    toUserId: string,
    action: string,
    createdAt: string,
    meta: Json)

  /** How often the requester viewed, chatted with and joined a team with one user. */
  datatype Stat = Stat(views: nat, chats: nat, teams: nat)

  /** A row of the `profiles` table; `null` columns are `None`. */
  datatype ProfileRow = ProfileRow(id: string, department: Option<string>, year: Option<int>)

  /** One counter bumped by an action; other actions leave all three alone. */
  function Bump(s: Stat, action: string): Stat {
    if action == "view" then s.(views := s.views + 1)
    else if action == "chat" then s.(chats := s.chats + 1)
    else if action == "team_join" then s.(teams := s.teams + 1)
    else s
  }

  /** The map built by `buildInteractionStats` after the given rows: a row
      creates its target's entry if needed, then bumps one counter. */
  function Stats(rows: seq<InteractionRow>): map<string, Stat> {
    if |rows| == 0 then map[]
    else
      var m := Stats(rows[..|rows| - 1]);
      var row := rows[|rows| - 1];
      var s := if row.toUserId in m then m[row.toUserId] else Stat(0, 0, 0);
      m[row.toUserId := Bump(s, row.action)]
  }

  /** The number of rows aimed at `u` with the given action. */
  function CountAction(rows: seq<InteractionRow>, u: string, action: string): nat {
    if |rows| == 0 then 0
    else
      var row := rows[|rows| - 1];
      CountAction(rows[..|rows| - 1], u, action)
      + (if row.toUserId == u && row.action == action then 1 else 0)
  }

  /** The number of rows aimed at `u`, whatever their action. */
  function CountTo(rows: seq<InteractionRow>, u: string): nat {
    if |rows| == 0 then 0
    else CountTo(rows[..|rows| - 1], u) + (if rows[|rows| - 1].toUserId == u then 1 else 0)
  }

  /** Some row is aimed at `u`. */
  predicate Targeted(rows: seq<InteractionRow>, u: string) {
    exists i :: 0 <= i < |rows| && rows[i].toUserId == u
  }

  /** The map has an entry for exactly the users some row is aimed at (even
      when every such row has an unknown action), and each entry counts that
      user's `view`, `chat` and `team_join` rows. */
  lemma {:induction false} StatsCounts(rows: seq<InteractionRow>, u: string)
    ensures u in Stats(rows) <==> Targeted(rows, u)
    ensures u in Stats(rows) ==>
              Stats(rows)[u] == Stat(CountAction(rows, u, "view"),
                                     CountAction(rows, u, "chat"),
                                     CountAction(rows, u, "team_join"))
    ensures u !in Stats(rows) ==>
              CountAction(rows, u, "view") == CountAction(rows, u, "chat")
              == CountAction(rows, u, "team_join") == 0
  {
    if |rows| > 0 {
      var init := rows[..|rows| - 1];
      var row := rows[|rows| - 1];
      StatsCounts(init, u);
      if Targeted(init, u) {
        var i :| 0 <= i < |init| && init[i].toUserId == u;
        assert rows[i] == init[i];
      }
      if Targeted(rows, u) && row.toUserId != u {
        var i :| 0 <= i < |rows| && rows[i].toUserId == u;
        assert init[i] == rows[i];
      }
    }
  }

  /** The three counters together never exceed the rows aimed at the user. */
  lemma {:induction false} CountsBounded(rows: seq<InteractionRow>, u: string)
    ensures CountAction(rows, u, "view") + CountAction(rows, u, "chat")
            + CountAction(rows, u, "team_join") <= CountTo(rows, u) <= |rows|
  {
    if |rows| > 0 {
      CountsBounded(rows[..|rows| - 1], u);
    }
  }

  /** The loop of `buildInteractionStats`. */
  method BuildInteractionStats(rows: seq<InteractionRow>) returns (m: map<string, Stat>)
    ensures m == Stats(rows)
    ensures forall u :: u in m <==> Targeted(rows, u)
    ensures forall u :: u in m ==>
              m[u] == Stat(CountAction(rows, u, "view"),
                           CountAction(rows, u, "chat"),
                           CountAction(rows, u, "team_join"))
  {
    m := map[];
    var i := 0;
    while i < |rows|
      invariant 0 <= i <= |rows|
      invariant m == Stats(rows[..i])
    {
      var row := rows[i];
      var s := if row.toUserId in m then m[row.toUserId] else Stat(0, 0, 0);
      m := m[row.toUserId := Bump(s, row.action)];
      assert rows[..i + 1][..i] == rows[..i];
      i := i + 1;
    }
    assert rows[..i] == rows;
    forall u | true
      ensures u in m <==> Targeted(rows, u)
      ensures u in m ==>
                m[u] == Stat(CountAction(rows, u, "view"),
                             CountAction(rows, u, "chat"),
                             CountAction(rows, u, "team_join"))
    {
      StatsCounts(rows, u);
    }
  }

  /** `interStats.get(id)`. */
  function Lookup(m: map<string, Stat>, u: string): (r: Option<Stat>)
    ensures r.Some? <==> u in m
    ensures r.Some? ==> r.value == m[u]
  {
    if u in m then Some(m[u]) else None
  }

  /** The weighted interaction count `0.1·views + 0.4·chats + 0.7·teams`. */
  function Raw(s: Stat): real {
    0.1 * s.views as real + 0.4 * s.chats as real + 0.7 * s.teams as real
  }

  /** The two interaction features. */
  datatype InteractionFeatures = InteractionFeatures(score: real, hasInteraction: real)

  /** `interactionScore(stat)`: the weighted count divided by 10 and clamped
      into [0,1], and 1 when the weighted count is positive. No stats means
      no interaction. */
  function InteractionScore(stat: Option<Stat>): (r: InteractionFeatures)
    ensures 0.0 <= r.score <= 1.0
    ensures r.hasInteraction == 0.0 || r.hasInteraction == 1.0
    ensures r.hasInteraction == 1.0 <==> stat.Some? && stat.value.views + stat.value.chats + stat.value.teams > 0
    ensures r.score > 0.0 <==> r.hasInteraction == 1.0
  {
    match stat
    case None => InteractionFeatures(0.0, 0.0)
    case Some(s) =>
      var raw := Raw(s);
      var score := Max(0.0, MinReal(1.0, raw / 10.0));
      InteractionFeatures(score, if raw > 0.0 then 1.0 else 0.0)
  }

  function Max(a: real, b: real): real {
    if a > b then a else b
  }

  function MinReal(a: real, b: real): real {
    if a < b then a else b
  }

  /** The score grows linearly with the weighted count up to 10 and stays
      at 1 from there. */
  lemma InteractionSaturation(s: Stat)
    ensures Raw(s) >= 10.0 ==> InteractionScore(Some(s)).score == 1.0
    ensures Raw(s) < 10.0 ==> InteractionScore(Some(s)).score == Raw(s) / 10.0
  {
  }

  /** More interactions of every kind never lower the score. */
  lemma InteractionMonotone(s: Stat, t: Stat)
    requires s.views <= t.views && s.chats <= t.chats && s.teams <= t.teams
    ensures InteractionScore(Some(s)).score <= InteractionScore(Some(t)).score
  {
    assert Raw(s) <= Raw(t);
  }

  /** `clamp01(x)`: the nearest value in [0,1]. */
  function Clamp01(x: real): (r: real)
    ensures 0.0 <= r <= 1.0
    ensures 0.0 <= x <= 1.0 ==> r == x
    ensures x < 0.0 ==> r == 0.0
    ensures x > 1.0 ==> r == 1.0
  {
    if x < 0.0 then 0.0 else if x > 1.0 then 1.0 else x
  }

  /** Clamping twice is clamping once, and clamping keeps order. */
  lemma Clamp01Facts(x: real, y: real)
    ensures Clamp01(Clamp01(x)) == Clamp01(x)
    ensures x <= y ==> Clamp01(x) <= Clamp01(y)
  {
  }

  /** A department string that is present and not empty (`?.department` truthy). */
  predicate HasDepartment(p: Option<ProfileRow>) {
    p.Some? && p.value.department.Some? && p.value.department.value != ""
  }

  /** The `same_department` feature: 1 exactly when both departments are
      known and equal. */
  function SameDepartment(me: Option<ProfileRow>, cand: Option<ProfileRow>): (r: real)
    ensures r == 0.0 || r == 1.0
    ensures r == 1.0 <==>
              HasDepartment(me) && HasDepartment(cand)
              && me.value.department == cand.value.department
  {
    if HasDepartment(me) && HasDepartment(cand) then
      if me.value.department.value == cand.value.department.value then 1.0 else 0.0
    else 0.0
  }

  lemma SameDepartmentSymmetric(me: Option<ProfileRow>, cand: Option<ProfileRow>)
    ensures SameDepartment(me, cand) == SameDepartment(cand, me)
  {
  }

  function Abs(x: int): nat {
    if x < 0 then -x else x
  }

  function Year(p: Option<ProfileRow>): Option<int> {
    if p.Some? then p.value.year else None
  }

  /** The year similarity before the preferred-range penalty: 0.5 without
      both years, otherwise 1 minus a quarter per year of difference, down
      to 0 at four years. */
  function YearBase(me: Option<int>, cand: Option<int>): (r: real)
    ensures 0.0 <= r <= 1.0
  {
    if me.Some? && cand.Some? then
      var d := Abs(me.value - cand.value);
      1.0 - (if d < 4 then d else 4) as real / 4.0
    else 0.5
  }

  /** Closer years are never less similar: the base similarity does not
      increase with the distance between the years. */
  lemma YearBaseCloser(a: int, b: int, c: int)
    requires Abs(a - b) <= Abs(a - c)
    ensures YearBase(Some(a), Some(b)) >= YearBase(Some(a), Some(c))
  {
  }

  /** A preferred-year bound the candidate's year violates: below the minimum. */
  predicate BelowMin(cand: Option<int>, filters: Option<Filters>) {
    cand.Some? && filters.Some? && filters.value.preferredYearMin.Some?
    && cand.value < filters.value.preferredYearMin.value
  }

  /** Above the maximum. */
  predicate AboveMax(cand: Option<int>, filters: Option<Filters>) {
    cand.Some? && filters.Some? && filters.value.preferredYearMax.Some?
    && cand.value > filters.value.preferredYearMax.value
  }

  /** The year similarity with its penalties, before the final clamp. */
  function YearPenalised(me: Option<int>, cand: Option<int>, filters: Option<Filters>): real {
    var base := YearBase(me, cand);
    var low := if BelowMin(cand, filters) then base * 0.6 else base;
    if AboveMax(cand, filters) then low * 0.6 else low
  }

  /** The `year_similarity` feature. */
  function YearSimilarity(me: Option<int>, cand: Option<int>, filters: Option<Filters>): (r: real)
    ensures 0.0 <= r <= 1.0
  {
    Clamp01(YearPenalised(me, cand, filters))
  }

  /** The final clamp never changes the value: the base lies in [0,1] and
      each penalty multiplies it by 0.6. The value is the base scaled by
      0.6 per violated bound. */
  lemma YearClampRedundant(me: Option<int>, cand: Option<int>, filters: Option<Filters>)
    ensures YearSimilarity(me, cand, filters) == YearPenalised(me, cand, filters)
    ensures YearSimilarity(me, cand, filters)
            == YearBase(me, cand)
               * (if BelowMin(cand, filters) then 0.6 else 1.0)
               * (if AboveMax(cand, filters) then 0.6 else 1.0)
  {
    var base := YearBase(me, cand);
    assert 0.0 <= base * 0.6 <= base;
    assert 0.0 <= base * 0.6 * 0.6 <= base;
  }

  /** Equal years inside the preferred range are fully similar; years four
      or more apart, or a missing year, follow the fixed values. */
  lemma YearSimilarityValues(me: Option<int>, cand: Option<int>, filters: Option<Filters>)
    ensures (me.Some? && cand == me && !BelowMin(cand, filters) && !AboveMax(cand, filters))
              ==> YearSimilarity(me, cand, filters) == 1.0
    ensures (me.Some? && cand.Some? && Abs(me.value - cand.value) >= 4)
              ==> YearSimilarity(me, cand, filters) == 0.0
    ensures ((me.None? || cand.None?) && !BelowMin(cand, filters) && !AboveMax(cand, filters))
              ==> YearSimilarity(me, cand, filters) == 0.5
  {
    YearClampRedundant(me, cand, filters);
  }

  /** Without a known candidate year no penalty applies, whatever the range. */
  lemma NoCandidateYearNoPenalty(me: Option<int>, filters: Option<Filters>)
    ensures YearSimilarity(me, None, filters) == 0.5
  {
  }

  /** Without filters the year feature does not depend on which side is the requester. */
  lemma YearSimilaritySymmetric(a: Option<int>, b: Option<int>)
    ensures YearSimilarity(a, b, None) == YearSimilarity(b, a, None)
  {
    if a.Some? && b.Some? {
      assert Abs(a.value - b.value) == Abs(b.value - a.value);
    }
  }

  /** `ANN_FEATURE_NAMES`. */
  const FeatureNames: seq<string> := [
    "jaccard_skills", "jaccard_interests", "jaccard_available",
    "jaccard_personality", "jaccard_experience", "same_department",
    "year_similarity", "interaction_score", "has_past_interaction"]

  /** The number of features, which a compatible network's `inputSize` must equal. */
  const FeatureCount: nat := 9

  /** The five facet similarities of a query against a candidate's post. */
  datatype FacetScores = FacetScores(
    skills: real, interests: real, available: real, personality: real, experience: real)
  {
    /** All five lie in [0,1]. */
    predicate Bounded() {
      && 0.0 <= skills <= 1.0 && 0.0 <= interests <= 1.0 && 0.0 <= available <= 1.0
      && 0.0 <= personality <= 1.0 && 0.0 <= experience <= 1.0
    }

    /** The five as a sequence, in feature order. */
    function ToSeq(): (r: seq<real>)
      ensures |r| == 5
      ensures Bounded() ==> forall i :: 0 <= i < 5 ==> 0.0 <= r[i] <= 1.0
    {
      [skills, interests, available, personality, experience]
    }
  }

  /** The facet similarities, each passed through `clamp01`. */
  function Similarities(q: FacetQuery, p: PostRow): (r: FacetScores)
    ensures r.Bounded()
  {
    FacetScores(
      Clamp01(Jaccard(q.skills, p.skills)), Clamp01(Jaccard(q.interests, p.interests)),
      Clamp01(Jaccard(q.available, p.available)), Clamp01(Jaccard(q.personality, p.personality)),
      Clamp01(Jaccard(q.experience, p.experience)))
  }

  /** The clamps change nothing: the entries are the similarities themselves. */
  lemma SimilaritiesUnclamped(q: FacetQuery, p: PostRow)
    ensures Similarities(q, p)
            == FacetScores(Jaccard(q.skills, p.skills), Jaccard(q.interests, p.interests),
                           Jaccard(q.available, p.available), Jaccard(q.personality, p.personality),
                           Jaccard(q.experience, p.experience))
  {
  }

  /** The four features after the similarities: department, year and the
      two interaction features. */
  function OtherFeatures(
    meProfile: Option<ProfileRow>, candProfile: Option<ProfileRow>,
    stat: Option<Stat>, filters: Option<Filters>): (r: seq<real>)
    ensures |r| == 4
    ensures forall i :: 0 <= i < 4 ==> 0.0 <= r[i] <= 1.0
    ensures r[0] == SameDepartment(meProfile, candProfile)
    ensures r[1] == YearSimilarity(Year(meProfile), Year(candProfile), filters)
    ensures r[2] == InteractionScore(stat).score
    ensures r[3] == InteractionScore(stat).hasInteraction
  {
    var inter := InteractionScore(stat);
    [ SameDepartment(meProfile, candProfile),
      YearSimilarity(Year(meProfile), Year(candProfile), filters),
      inter.score,
      inter.hasInteraction ]
  }

  /** `buildFeatureVector`: five facet similarities of the query
      (overrides first, then the requester's post) against the candidate's
      post, then department, year and interaction features. */
  function FeatureVector(
    meProfile: Option<ProfileRow>, mePost: PostRow,
    candProfile: Option<ProfileRow>, candPost: PostRow,
    stat: Option<Stat>, filters: Option<Filters>): (r: seq<real>)
    ensures |r| == FeatureCount
    ensures forall i :: 0 <= i < |r| ==> 0.0 <= r[i] <= 1.0
  {
    Concat(Similarities(ResolveQuery(mePost, filters), candPost).ToSeq(),
           OtherFeatures(meProfile, candProfile, stat, filters))
  }

  /** Two sequences of values in [0,1] joined together. */
  function Concat(a: seq<real>, b: seq<real>): (r: seq<real>)
    requires forall i :: 0 <= i < |a| ==> 0.0 <= a[i] <= 1.0
    requires forall i :: 0 <= i < |b| ==> 0.0 <= b[i] <= 1.0
    ensures |r| == |a| + |b| && r[..|a|] == a && r[|a|..] == b
    ensures forall i :: 0 <= i < |r| ==> 0.0 <= r[i] <= 1.0
  {
    assert forall i :: |a| <= i < |a| + |b| ==> (a + b)[i] == b[i - |a|];
    a + b
  }

  /** The features in the order of `FeatureNames`: the first five are the
      facet similarities of the query the Jaccard recommender builds; the
      sixth is 1 exactly for a shared known department; the seventh is the
      year similarity of the two profiles under the filters' year range;
      the eighth is the interaction score; the last is 1 exactly when some
      view, chat or team join with the candidate was recorded. */
  lemma FeatureVectorFacts(
    meProfile: Option<ProfileRow>, mePost: PostRow,
    candProfile: Option<ProfileRow>, candPost: PostRow,
    stat: Option<Stat>, filters: Option<Filters>)
    ensures var r := FeatureVector(meProfile, mePost, candProfile, candPost, stat, filters);
            && r[..5] == Similarities(ResolveQuery(mePost, filters), candPost).ToSeq()
            && (r[5] == 1.0 <==> HasDepartment(meProfile) && HasDepartment(candProfile)
                                 && meProfile.value.department == candProfile.value.department)
            && r[6] == YearSimilarity(Year(meProfile), Year(candProfile), filters)
            && r[7] == InteractionScore(stat).score
            && (r[8] == 1.0 <==> stat.Some? && stat.value.views + stat.value.chats + stat.value.teams > 0)
  {
    var r := FeatureVector(meProfile, mePost, candProfile, candPost, stat, filters);
    var others := OtherFeatures(meProfile, candProfile, stat, filters);
    assert r[5..] == others;
    assert r[5] == others[0] && r[6] == others[1] && r[7] == others[2] && r[8] == others[3];
  }
}
