/** The display and filter helpers of the feed list: `normalizeEnum`, the
    four code extractors, `normalizeCategoryCode` and the predicate the
    list is filtered with. Label tables are maps from code to label. */
module FeedList {
  import opened Wrappers
  import opened JsonValue
  import opened Seqs
  import JsText
  import Tags

  /** An optional label table (`labels?: Record<string, string>`). */
  type Labels = Option<map<string, string>>

  const CategoryLabels: map<string, string> :=
    map["club" := "동아리", "capstone" := "캡스톤", "contest" := "공모전", "project" := "프로젝트"]

  const PositionLabels: map<string, string> :=
    map["frontend" := "프론트엔드", "backend" := "백엔드", "fullstack" := "풀스택",
        "mobile" := "모바일", "ai" := "AI/ML", "design" := "디자인", "pm" := "기획/PM"]

  const ExperienceLabels: map<string, string> :=
    map["beginner" := "초급", "intermediate" := "중급", "advanced" := "고급"]

  const AvailabilityLabels: map<string, string> :=
    map["weekday_evening" := "주중 저녁 위주", "weekend" := "주말 위주", "flexible" := "상관없음 / 유동적"]

  const PersonalityLabels: map<string, string> :=
    map["quiet_steady" := "차분하지만 꾸준한 스타일", "proactive_leader" := "적극적으로 리딩하는 스타일",
        "humorous" := "유머러스하고 분위기 메이커", "detail_oriented" := "꼼꼼하고 디테일을 중시"]

  /** The label shown when nothing is known. */
  const Unspecified: string := "미지정"

  /** `labels && labels[code]`: the label of a code when the table has a
      non-empty one. */
  function LabelOf(labels: Labels, code: string): (r: Option<string>)
    ensures r.Some? <==> labels.Some? && code in labels.value && labels.value[code] != ""
    ensures r.Some? ==> r.value == labels.value[code]
  {
    if labels.Some? && code in labels.value && labels.value[code] != "" then Some(labels.value[code])
    else None
  }

  /** A code shown through the table: its label, or the code itself. */
  function Display(labels: Labels, code: string): string {
    LabelOf(labels, code).GetOr(code)
  }

  /** `normalizeEnum(raw, labels, fallback)`: a readable text for any value. */
  function NormalizeEnum(raw: Json, labels: Labels, fallback: string): (r: string)
    decreases raw
  {
    match raw
    case Undefined => fallback
    case Null => fallback
    case Str(s) => Display(labels, s)
    case Arr(items) =>
      var parts := Tags.NonEmpty(seq(|items|, i requires 0 <= i < |items| => NormalizeEnum(items[i], labels, "")));
      if |parts| > 0 then JsText.Join(parts, ", ") else fallback
    case Obj(fields) =>
      if Get(fields, "label").Some? && Get(fields, "label").value.Str? then
        Get(fields, "label").value.str
      else if Get(fields, "value").Some? && Get(fields, "value").value.Str? then
        Display(labels, Get(fields, "value").value.str)
      else if FirstString(fields).Some? && FirstString(fields).value != "" then
        FirstString(fields).value
      else
        Stringify(raw).value
    case _ => ToJsString(raw)
  }

  /** A list of non-empty strings passes unchanged. */
  lemma {:induction false} NonEmptyKeeps(xs: seq<string>)
    requires forall i :: 0 <= i < |xs| ==> xs[i] != ""
    ensures Tags.NonEmpty(xs) == xs
  {
    if |xs| > 0 {
      NonEmptyKeeps(xs[1..]);
      assert xs == [xs[0]] + xs[1..];
    }
  }

  /** Missing values show the fallback; strings show their label when the
      table has one and themselves otherwise. */
  lemma NormalizeScalars(raw: Json, labels: Labels, fallback: string)
    ensures (raw.Null? || raw.Undefined?) ==> NormalizeEnum(raw, labels, fallback) == fallback
    ensures raw.Str? && LabelOf(labels, raw.str).Some? ==>
              NormalizeEnum(raw, labels, fallback) == labels.value[raw.str]
    ensures raw.Str? && LabelOf(labels, raw.str).None? ==>
              NormalizeEnum(raw, labels, fallback) == raw.str
    ensures raw.Bool? || raw.Num? ==> NormalizeEnum(raw, labels, fallback) == ToJsString(raw)
  {
  }

  /** An array shows the non-empty texts of its elements joined by ", ",
      and the fallback when no element has one. */
  lemma NormalizeArray(items: seq<Json>, labels: Labels, fallback: string)
    ensures var texts := seq(|items|, i requires 0 <= i < |items| => NormalizeEnum(items[i], labels, ""));
            && (Tags.NonEmpty(texts) == [] ==> NormalizeEnum(Arr(items), labels, fallback) == fallback)
            && (Tags.NonEmpty(texts) != [] ==>
                  NormalizeEnum(Arr(items), labels, fallback) == JsText.Join(Tags.NonEmpty(texts), ", "))
  {
  }

  /** An array of codes without labels, none empty, shows them joined by ", ". */
  lemma NormalizeCodeArray(xs: seq<string>, labels: Labels, fallback: string)
    requires |xs| > 0
    requires forall i :: 0 <= i < |xs| ==> xs[i] != "" && LabelOf(labels, xs[i]).None?
    ensures NormalizeEnum(Arr(Strs(xs)), labels, fallback) == JsText.Join(xs, ", ")
  {
    var items := Strs(xs);
    var texts := seq(|items|, i requires 0 <= i < |items| => NormalizeEnum(items[i], labels, ""));
    assert texts == xs;
    NonEmptyKeeps(xs);
  }

  /** An object with a string `label` shows that label. */
  lemma ObjectLabel(fields: seq<Field>, labels: Labels, fallback: string, l: string)
    requires Get(fields, "label") == Some(Str(l))
    ensures NormalizeEnum(Obj(fields), labels, fallback) == l
  {
  }

  /** Without a string `label`, a string `value` shows through the table. */
  lemma ObjectValue(fields: seq<Field>, labels: Labels, fallback: string, v: string)
    requires Get(fields, "label").None? || !Get(fields, "label").value.Str?
    requires Get(fields, "value") == Some(Str(v))
    ensures NormalizeEnum(Obj(fields), labels, fallback) == Display(labels, v)
  {
  }

  /** An object without any string field shows its JSON text. */
  lemma ObjectJsonText(fields: seq<Field>, labels: Labels, fallback: string)
    requires FirstString(fields).None?
    ensures NormalizeEnum(Obj(fields), labels, fallback) == Stringify(Obj(fields)).value
  {
    NoStringField(fields, "label");
    NoStringField(fields, "value");
  }

  /** An object without string fields has no string under any key. */
  lemma NoStringField(fields: seq<Field>, key: string)
    requires FirstString(fields).None?
    ensures Get(fields, key).None? || !Get(fields, key).value.Str?
  {
    if Get(fields, key).Some? {
      var i :| 0 <= i < |fields| && fields[i] == Field(key, Get(fields, key).value);
    }
  }

  /** `get*Code(raw)`: the code of a value, if any. A string is its own
      code; an object's code is its `value`, or else its entry under the
      helper's second key (`level`, `type` or `style`; none for position),
      rendered with `String()`. Falsy values and anything else have none. */
  function CodeOf(raw: Json, second: Option<string>): (r: Option<string>)
    ensures !Truthy(raw) ==> r.None?
    ensures raw.Str? && raw.str != "" ==> r == Some(raw.str)
    ensures raw.Arr? || raw.Bool? || raw.Num? ==> r.None?
  {
    if !Truthy(raw) then None
    else
      match raw
      case Str(s) => Some(s)
      case Obj(fields) =>
        if Get(fields, "value").Some? then Some(ToJsString(Get(fields, "value").value))
        else if second.Some? && Get(fields, second.value).Some? then
          Some(ToJsString(Get(fields, second.value).value))
        else None
      case _ => None
  }

  /** `getPositionCode`. */
  function PositionCode(raw: Json): Option<string> {
    CodeOf(raw, None)
  }

  /** `getExperienceCode`. */
  function ExperienceCode(raw: Json): Option<string> {
    CodeOf(raw, Some("level"))
  }

  /** `getAvailabilityCode`. */
  function AvailabilityCode(raw: Json): Option<string> {
    CodeOf(raw, Some("type"))
  }

  /** `getPersonalityCode`. */
  function PersonalityCode(raw: Json): Option<string> {
    CodeOf(raw, Some("style"))
  }

  /** `value` wins over the second key, and the second key is used only
      when `value` is absent. */
  lemma CodeOfObject(fields: seq<Field>, second: string)
    ensures forall v :: Get(fields, "value") == Some(v) ==>
              CodeOf(Obj(fields), Some(second)) == Some(ToJsString(v))
    ensures forall v :: Get(fields, "value").None? && Get(fields, second) == Some(v) ==>
              CodeOf(Obj(fields), Some(second)) == Some(ToJsString(v))
    ensures Get(fields, "value").None? && Get(fields, second).None? ==>
              CodeOf(Obj(fields), Some(second)).None?
  {
  }

  /** The position code ignores every key but `value`: an object with only
      `level`, `type` or `style` has no position code. */
  lemma PositionOnlyValue(fields: seq<Field>)
    requires Get(fields, "value").None?
    ensures PositionCode(Obj(fields)).None?
  {
  }

  /** A code is a fixed point: the code of a (non-empty) code is itself. */
  lemma CodeIdempotent(raw: Json, second: Option<string>)
    requires CodeOf(raw, second).Some? && CodeOf(raw, second).value != ""
    ensures CodeOf(Str(CodeOf(raw, second).value), second) == CodeOf(raw, second)
  {
  }

  /** Showing an object through its code agrees with showing the object:
      for an object whose `value` is a string and that has no string
      `label`, the card's `normalizeEnum(get*Code(x))` and
      `normalizeEnum(x)` give the same text. */
  lemma DisplayThroughCode(fields: seq<Field>, second: Option<string>, labels: Labels, fallback: string, v: string)
    requires Get(fields, "value") == Some(Str(v))
    requires Get(fields, "label").None? || !Get(fields, "label").value.Str?
    ensures CodeOf(Obj(fields), second) == Some(v)
    ensures NormalizeEnum(Str(v), labels, fallback) == NormalizeEnum(Obj(fields), labels, fallback)
  {
  }

  /** The card's text for a code: `normalizeEnum(code, labels, '미지정')`,
      with a missing code passed as `null`. */
  function CodeLabel(code: Option<string>, labels: map<string, string>): (r: string)
    ensures code.None? ==> r == Unspecified
    ensures code.Some? && code.value in labels && labels[code.value] != "" ==> r == labels[code.value]
    ensures code.Some? && (code.value !in labels || labels[code.value] == "") ==> r == code.value
  {
    NormalizeEnum(if code.Some? then Str(code.value) else Null, Some(labels), Unspecified)
  }

  /** A card shows the table's label for a known code, whichever of the
      accepted shapes carries it: the bare string, or an object's `value`. */
  lemma KnownCodeLabel(code: string, second: Option<string>, labels: map<string, string>, fields: seq<Field>)
    requires code != "" && code in labels && labels[code] != ""
    requires Get(fields, "value") == Some(Str(code))
    ensures CodeLabel(CodeOf(Str(code), second), labels) == labels[code]
    ensures CodeLabel(CodeOf(Obj(fields), second), labels) == labels[code]
  {
  }

  /** `normalizeCategoryCode(raw)`: Korean and English names of a category
      map onto its English code, a missing or empty name onto `all`, and
      any other text is kept. */
  function NormalizeCategoryCode(raw: Option<string>): (r: string)
    ensures raw.None? || raw.value == "" ==> r == "all"
    ensures r != ""
  {
    if raw.None? || raw.value == "" then "all"
    else
      match raw.value
      case "all" => "all"
      case "전체" => "all"
      case "club" => "club"
      case "동아리" => "club"
      case "capstone" => "capstone"
      case "캡스톤" => "capstone"
      case "contest" => "contest"
      case "공모전" => "contest"
      case "project" => "project"
      case "프로젝트" => "project"
      case other => other
  }

  /** The codes the function produces for known names. */
  predicate IsCategoryCode(s: string) {
    s == "all" || s == "club" || s == "capstone" || s == "contest" || s == "project"
  }

  /** Each code maps to itself and its Korean name maps to it too; the
      function is idempotent; unknown names pass through. */
  lemma CategorySynonyms()
    ensures NormalizeCategoryCode(Some("전체")) == NormalizeCategoryCode(Some("all")) == "all"
    ensures NormalizeCategoryCode(Some("동아리")) == NormalizeCategoryCode(Some("club")) == "club"
    ensures NormalizeCategoryCode(Some("캡스톤")) == NormalizeCategoryCode(Some("capstone")) == "capstone"
    ensures NormalizeCategoryCode(Some("공모전")) == NormalizeCategoryCode(Some("contest")) == "contest"
    ensures NormalizeCategoryCode(Some("프로젝트")) == NormalizeCategoryCode(Some("project")) == "project"
  {
  }

  /** The category label table names a category for every code but `all`,
      and the label normalises back to the code. */
  lemma CategoryLabelsRoundTrip(code: string)
    requires code in CategoryLabels
    ensures NormalizeCategoryCode(Some(CategoryLabels[code])) == code
  {
  }

  lemma CategoryIdempotent(raw: Option<string>)
    ensures NormalizeCategoryCode(Some(NormalizeCategoryCode(raw))) == NormalizeCategoryCode(raw)
  {
  }

  /** A name that is none of the ten known names is kept as it is. */
  lemma CategoryPassThrough(s: string)
    requires s != "" && !IsCategoryCode(s)
    requires s != "전체" && s != "동아리" && s != "캡스톤" && s != "공모전" && s != "프로젝트"
    ensures NormalizeCategoryCode(Some(s)) == s
  {
  }

  /** A card of the feed. Fields the filter never reads are left out; a
      missing or `null` prop is `None`, `Undefined` or `Null`. `skills` is
      `None` when the prop is not an array, and its entries may be `null`. */
  datatype Profile = Profile(
    id: string,
    title: Option<string>,
    description: Option<string>,
    category: Json,
    interests: Json,
    position: Json,
    experience: Json,
    skills: Option<seq<Option<string>>>)

  /** `a ?? b`. */
  function Nullish(a: Json, b: Json): Json {
    if a.Null? || a.Undefined? then b else a
  }

  /** `v?.key`: the property of an object, `undefined` for anything else. */
  function Prop(v: Json, key: string): Json {
    if v.Obj? then Get(v.fields, key).GetOr(Undefined) else Undefined
  }

  /** `normalizeCategoryCode` applied to the card's category value: a
      falsy value is `all`, a string is normalised, and any other value
      (which the switch does not match) comes back unchanged. */
  function CategoryValue(v: Json): Json {
    if !Truthy(v) then Str("all")
    else if v.Str? then Str(NormalizeCategoryCode(Some(v.str)))
    else v
  }

  /** The card's category: `profile.category ?? profile.interests?.category ?? null`. */
  function ProfileCategory(p: Profile): Json {
    CategoryValue(Nullish(p.category, Nullish(Prop(p.interests, "category"), Null)))
  }

  /** The search part of the filter: every text lower-cased, and an empty
      search matches everything. */
  predicate MatchesSearch(p: Profile, searchTerm: string) {
    var search := JsText.ToLower(searchTerm);
    || search == ""
    || JsText.Includes(JsText.ToLower(p.title.GetOr("")), search)
    || JsText.Includes(JsText.ToLower(p.description.GetOr("")), search)
    || (p.skills.Some? &&
        exists i :: 0 <= i < |p.skills.value| && JsText.Includes(JsText.ToLower(p.skills.value[i].GetOr("")), search))
  }

  /** The predicate of `profiles.filter`: category, search, position and
      experience must all match. */
  predicate Matches(p: Profile, activeCategory: string, searchTerm: string,
                    positionFilter: string, experienceFilter: string) {
    var activeCat := NormalizeCategoryCode(Some(activeCategory));
    var posCode := PositionCode(Nullish(p.position, Prop(p.interests, "position"))).GetOr("all");
    var expCode := ExperienceCode(p.experience).GetOr("all");
    && (activeCat == "all" || ProfileCategory(p) == Str(activeCat))
    && MatchesSearch(p, searchTerm)
    && (positionFilter == "all" || posCode == positionFilter)
    && (experienceFilter == "all" || expCode == experienceFilter)
  }

  /** `filteredProfiles`: a card is kept exactly when it is in the input
      and passes all four tests. */
  function FilterProfiles(profiles: seq<Profile>, activeCategory: string, searchTerm: string,
                          positionFilter: string, experienceFilter: string): (r: seq<Profile>)
    ensures forall p :: p in r <==> p in profiles && Matches(p, activeCategory, searchTerm, positionFilter, experienceFilter)
  {
    var keep := (p: Profile) => Matches(p, activeCategory, searchTerm, positionFilter, experienceFilter);
    var same := (p: Profile) => p;
    assert forall p :: p in FilterMap(profiles, keep, same) <==> p in profiles && keep(p) by {
      forall p ensures p in FilterMap(profiles, keep, same) <==> p in profiles && keep(p) {
        FilterMapMembers(profiles, keep, same, p);
        if p in profiles && keep(p) {
          var i :| 0 <= i < |profiles| && profiles[i] == p;
          assert keep(profiles[i]) && p == same(profiles[i]);
        }
      }
    }
    FilterMap(profiles, keep, same)
  }

  /** The filtered list keeps the matching cards and only those, in their
      original order. */
  lemma {:induction false} FilterSubsequence(profiles: seq<Profile>, activeCategory: string, searchTerm: string,
                                             positionFilter: string, experienceFilter: string)
    ensures IsSubsequence(FilterProfiles(profiles, activeCategory, searchTerm, positionFilter, experienceFilter), profiles)
  {
    if |profiles| > 0 {
      var t := profiles[1..];
      FilterSubsequence(t, activeCategory, searchTerm, positionFilter, experienceFilter);
      var rest := FilterProfiles(t, activeCategory, searchTerm, positionFilter, experienceFilter);
      var r := FilterProfiles(profiles, activeCategory, searchTerm, positionFilter, experienceFilter);
      if Matches(profiles[0], activeCategory, searchTerm, positionFilter, experienceFilter) {
        assert r == [profiles[0]] + rest;
        assert r[1..] == rest;
      } else {
        assert r == rest;
        SubsequenceCons(rest, profiles);
      }
    }
  }

  /** With every filter at its default, nothing is filtered out. */
  lemma {:induction false} DefaultsKeepAll(profiles: seq<Profile>, activeCategory: string)
    requires NormalizeCategoryCode(Some(activeCategory)) == "all"
    ensures FilterProfiles(profiles, activeCategory, "", "all", "all") == profiles
  {
    if |profiles| > 0 {
      DefaultsKeepAll(profiles[1..], activeCategory);
      assert profiles == [profiles[0]] + profiles[1..];
    }
  }

  /** The search ignores the case of ASCII letters in the search text. */
  lemma SearchCaseInsensitive(p: Profile, searchTerm: string)
    ensures MatchesSearch(p, searchTerm) <==> MatchesSearch(p, JsText.ToLower(searchTerm))
  {
    JsText.ToLowerIdempotent(searchTerm);
  }

  /** A card whose lower-cased title holds the lower-cased search text is
      found, whatever the other filters say about search. */
  lemma TitleFound(p: Profile, searchTerm: string)
    requires p.title.Some? && JsText.Includes(JsText.ToLower(p.title.value), JsText.ToLower(searchTerm))
    ensures MatchesSearch(p, searchTerm)
  {
  }

  /** Picking a category by its Korean name filters exactly like picking it
      by its code. */
  lemma CategoryNameOrCode(p: Profile, searchTerm: string, positionFilter: string, experienceFilter: string)
    ensures Matches(p, "동아리", searchTerm, positionFilter, experienceFilter)
        <==> Matches(p, "club", searchTerm, positionFilter, experienceFilter)
  {
  }

  /** A position filter other than `all` keeps only cards whose position
      code is that filter; an object position counts through its `value`. */
  lemma PositionFilterExact(p: Profile, activeCategory: string, searchTerm: string,
                            positionFilter: string, experienceFilter: string)
    requires positionFilter != "all"
    requires Matches(p, activeCategory, searchTerm, positionFilter, experienceFilter)
    ensures PositionCode(Nullish(p.position, Prop(p.interests, "position"))) == Some(positionFilter)
  {
  }
}
