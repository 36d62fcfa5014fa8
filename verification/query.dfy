/** The rows both recommenders read and the rule that turns the
    requester's post and the optional filter overrides into the five
    facet values candidates are compared against. */
module Query {
  import opened Wrappers
  import opened JsonValue
  import JsText

  /** A row of the `posts` table; a SQL `null` facet is `Null`. */
  datatype PostRow = PostRow(
    id: string,
    userId: string,
    skills: Json,
    interests: Json,
    available: Json,
    personality: Json,
    experience: Json)

  /** The overrides typed into the recommendation form. `desiredRole` is
      carried but no computation reads it. */
  datatype Filters = Filters(
    skills: string,
    interests: string,
    availability: string,
    desiredRole: string,
    experienceLevel: string,
    preferredYearMin: Option<int>,
    preferredYearMax: Option<int>)

  /** The five facet values a candidate's post is compared with. */
  datatype FacetQuery = FacetQuery(
    skills: Json,
    interests: Json,
    available: Json,
    personality: Json,
    experience: Json)

  /** A filter text overrides only when filters were given and the text is
      not blank (`f && f.trim().length > 0`; the empty string is falsy and
      blank anyway). */
  predicate Overrides(text: Option<string>) {
    text.Some? && JsText.Trim(text.value) != ""
  }

  /** The facet value: the override text as a JSON string when it
      overrides, and the requester's own post value otherwise. */
  function Pick(text: Option<string>, own: Json): (r: Json)
    ensures Overrides(text) ==> r == Str(text.value)
    ensures !Overrides(text) ==> r == own
  {
    if Overrides(text) then Str(text.value) else own
  }

  /** Projects one text field out of optional filters. */
  function Field(filters: Option<Filters>, get: Filters -> string): Option<string> {
    match filters
    case None => None
    case Some(f) => Some(get(f))
  }

  /** The query values of both recommenders: skills, interests,
      availability and experience may be overridden; personality never is. */
  function ResolveQuery(me: PostRow, filters: Option<Filters>): (q: FacetQuery)
    ensures q.personality == me.personality
    ensures filters.None? ==>
              q == FacetQuery(me.skills, me.interests, me.available, me.personality, me.experience)
    ensures filters.Some? ==>
              && q.skills == (if JsText.Trim(filters.value.skills) != "" then Str(filters.value.skills) else me.skills)
              && q.interests == (if JsText.Trim(filters.value.interests) != "" then Str(filters.value.interests) else me.interests)
              && q.available == (if JsText.Trim(filters.value.availability) != "" then Str(filters.value.availability) else me.available)
              && q.experience == (if JsText.Trim(filters.value.experienceLevel) != "" then Str(filters.value.experienceLevel) else me.experience)
  {
    FacetQuery(
      Pick(Field(filters, (f: Filters) => f.skills), me.skills),
      Pick(Field(filters, (f: Filters) => f.interests), me.interests),
      Pick(Field(filters, (f: Filters) => f.availability), me.available),
      me.personality,
      Pick(Field(filters, (f: Filters) => f.experienceLevel), me.experience))
  }

  /** Filters whose four texts are blank change nothing: the query is the
      requester's own post. */
  lemma BlankFiltersChangeNothing(me: PostRow, f: Filters)
    requires JsText.Trim(f.skills) == "" && JsText.Trim(f.interests) == ""
    requires JsText.Trim(f.availability) == "" && JsText.Trim(f.experienceLevel) == ""
    ensures ResolveQuery(me, Some(f)) == ResolveQuery(me, None)
  {
  }

  /** Only the post's personality reaches the query when all four
      overridable facets are overridden. */
  lemma FullOverrideIgnoresPost(me: PostRow, other: PostRow, f: Filters)
    requires JsText.Trim(f.skills) != "" && JsText.Trim(f.interests) != ""
    requires JsText.Trim(f.availability) != "" && JsText.Trim(f.experienceLevel) != ""
    requires me.personality == other.personality
    ensures ResolveQuery(me, Some(f)) == ResolveQuery(other, Some(f))
  {
  }

  /** The position of the user's first post (`posts.find`, and the first
      `postByUser.set` of the ANN pipeline), if they have one. */
  function FirstIndexOf(posts: seq<PostRow>, userId: string): (r: Option<nat>)
    ensures r.None? ==> forall i :: 0 <= i < |posts| ==> posts[i].userId != userId
    ensures r.Some? ==> r.value < |posts| && posts[r.value].userId == userId
    ensures r.Some? ==> forall j :: 0 <= j < r.value ==> posts[j].userId != userId
  {
    if |posts| == 0 then None
    else if posts[0].userId == userId then Some(0)
    else
      match FirstIndexOf(posts[1..], userId)
      case None => None
      case Some(i) => Some(i + 1)
  }

  /** The user's first post in list order: no earlier post is theirs. */
  function FirstPostOf(posts: seq<PostRow>, userId: string): (r: Option<PostRow>)
    ensures r.None? <==> forall i :: 0 <= i < |posts| ==> posts[i].userId != userId
    ensures r.Some? ==> r.value in posts && r.value.userId == userId
    ensures r.Some? ==> exists i :: 0 <= i < |posts| && posts[i] == r.value
                                    && forall j :: 0 <= j < i ==> posts[j].userId != userId
  {
    match FirstIndexOf(posts, userId)
    case None => None
    case Some(i) => Some(posts[i])
  }
}
