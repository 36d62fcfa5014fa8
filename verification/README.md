# Teammate recommendation and feed filtering, in Dafny

A model of the scoring core of a student team-matching web app, with
proofs about it. It covers three parts:

- **The Jaccard recommender** (`frontend/src/lib/jaccardRecommend.ts`).
  Every tag-like post field becomes a tag set (`toTagSet`). The field may
  be an array, a JSON-array text, a comma-separated text or an object
  whose keys are the tags. Each candidate post is then scored by a
  weighted sum of five facet Jaccard similarities (skills 0.4, interests
  0.3, availability, personality and experience 0.1 each). The query side
  of each facet is either the requester's own post or a non-blank filter
  override. Posts scoring 0 are dropped; the rest are sorted by score,
  highest first, and the first `k` are kept.
- **The ANN recommender** (`frontend/src/lib/annRecommend.ts`).
  - For every other user with a post, it builds nine features: five
    clamped facet similarities, same department, year similarity with the
    preferred-year penalty, interaction score and has-interaction.
  - It runs a one-hidden-layer perceptron over them (`dense`, `relu`,
    `dot`, `sigmoid`).
  - It ranks the candidates by that score.
  - A feature vector of the wrong size is an error (`annPredictScore`
    throws).
- **The feed list** (`frontend/src/components/FeedList.tsx`).
  - `normalizeEnum` turns any value into display text.
  - The four `get*Code` helpers extract a filter code.
  - `normalizeCategoryCode` maps Korean and English category names to one
    code.
  - A predicate filters the cards by category, search text, position and
    experience.

Values of unknown shape are the `Json` datatype (`JsonValue`). It has an
explicit `Undefined`; numbers carry their literal text. `JSON.parse` is a
recursive-descent parser (`JsonParse`), and `JSON.stringify` and `String()`
are functions over `Json`. JavaScript numbers are exact reals, and
`Math.exp` is a parameter known only to be positive. `Array.prototype.sort`
is a stable insertion sort into non-increasing key order (`StableSort`), as
ECMAScript requires `sort` to be stable. `slice(0, k)` keeps the JavaScript
meaning of a negative `k`.

Modules, in dependency order:

| module | file | models |
|---|---|---|
| `Wrappers` | wrappers.dfy | `Option` and `Result` |
| `Seqs` | seqs.dfy | subsequences, filter-and-map loops, the early-exit loop `Collect` |
| `JsText` | js_text.dfy | `trim`, `split`, `join`, `toLowerCase`, `includes` |
| `JsonValue` | json.dfy | JSON values, property lookup, `String()`, `JSON.stringify` |
| `JsonParse` | json_parse.dfy | `JSON.parse`, and the round trip of string arrays |
| `Tags` | tags.dfy | `toTagSet` |
| `Similarity` | jaccard.dfy | `jaccard`, `intersectionSet` |
| `Query` | query.dfy | the filter overrides, the requester's post |
| `StableSort` | stable_sort.dfy | `sort` with `(a, b) => key(b) - key(a)`, and `slice(0, k)` |
| `JaccardRecommend` | jaccard_recommend.dfy | `recommendByJaccardFromPosts`, `getJaccardRecommendationsForUser` after the fetch |
| `Scenarios` | scenarios.dfy | worked similarity examples, stated for any tokens of the right shape |
| `Ann` | ann.dfy | `dense`, `relu`, `dot`, `sigmoid`, `annPredictScore` |
| `AnnFeatures` | ann_features.dfy | `buildInteractionStats`, `interactionScore`, `clamp01`, `buildFeatureVector` |
| `AnnRecommend` | ann_recommend.dfy | `getAnnRecommendationsForUser` after the fetches |
| `FeedList` | feed_list.dfy | `normalizeEnum`, the code helpers, `normalizeCategoryCode`, the feed filter |

## Model

| member | source | states |
|---|---|---|
| JsText.TrimRemovesOnlySpace | frontend/src/lib/jaccardRecommend.ts:67 | `trim` returns a contiguous slice of its input and removes only white space before and after it |
| JsText.TrimIdempotent | frontend/src/lib/jaccardRecommend.ts:87 | trimming an already trimmed token changes nothing, so the second `trim` in `toTagSet` is harmless |
| JsText.Split | frontend/src/lib/jaccardRecommend.ts:75 | `split(',')` yields at least one piece, none containing a comma, and joining the pieces with ',' gives back the text |
| JsText.SplitJoin | frontend/src/lib/jaccardRecommend.ts:75 | splitting comma-joined pieces that contain no comma gives back exactly those pieces |
| JsText.ToLower | frontend/src/components/FeedList.tsx:227-230 | lower-casing keeps the length and maps every character separately |
| JsText.ToLowerIdempotent | frontend/src/components/FeedList.tsx:227-237 | lower-casing twice is lower-casing once |
| JsonValue.Get | frontend/src/components/FeedList.tsx:114-118 | `key in obj` holds exactly when some field has that key, and the value read is that field's value |
| JsonValue.FirstString | frontend/src/components/FeedList.tsx:124-126 | the first field whose value is a string: none iff no field holds a string, otherwise an earlier field never holds one |
| JsonValue.Stringify | frontend/src/components/FeedList.tsx:128 | `JSON.stringify` gives text for every value except `undefined` |
| JsonParse.ParseArrayText | frontend/src/lib/jaccardRecommend.ts:70-73 | `JSON.parse` of the JSON text of an array of strings gives back that array |
| JsonParse.ArrayStartsWithBracket | frontend/src/lib/jaccardRecommend.ts:71-72 | text that parses to an array starts with `[` once leading white space is skipped |
| Tags.TagListProperties | frontend/src/lib/jaccardRecommend.ts:57-90 | tags are duplicate-free, trimmed and non-empty, and are the tokens of the raw list; missing values and scalars have none, and neither does blank text |
| Tags.ObjectTags | frontend/src/lib/jaccardRecommend.ts:80-82 | an object's tags are the trimmed non-empty keys |
| Tags.ArrayTagSet | frontend/src/lib/jaccardRecommend.ts:62-64 | an array of strings has as tags its trimmed non-empty elements |
| Tags.ArrayTextTags | frontend/src/lib/jaccardRecommend.ts:70-73 | the JSON text of a string array has the same tags, in the same order, as the array itself |
| Tags.DelimitedTags | frontend/src/lib/jaccardRecommend.ts:74-79 | non-blank text that is not a JSON array has as tags the trimmed pieces between commas |
| Tags.CommaTextTags | frontend/src/lib/jaccardRecommend.ts:74-78 | comma-joined pieces have the same tags as the array of those pieces |
| Tags.CanonicalOfTrimmed | frontend/src/lib/jaccardRecommend.ts:85-89 | trimming the raw list first does not change the tags |
| Tags.ArrayExample | frontend/src/lib/jaccardRecommend.ts:63 | the array `["React", "Python"]` has the tags `React` and `Python`, in that order |
| Similarity.CommonOrder | frontend/src/lib/jaccardRecommend.ts:97-99 | the common tags keep the order of the first set and have no duplicates |
| Similarity.CountCommonIsCard | frontend/src/lib/jaccardRecommend.ts:111-114 | the counting loop counts exactly the size of the set intersection |
| Similarity.Jaccard | frontend/src/lib/jaccardRecommend.ts:105-120 | the similarity lies in [0, 1] |
| Similarity.JaccardRatio | frontend/src/lib/jaccardRecommend.ts:105-120 | the similarity is the size of the intersection over the size of the union, and 0 when both sets are empty |
| Similarity.JaccardZero | frontend/src/lib/jaccardRecommend.ts:105-120 | the similarity is 0 exactly when the tag sets are disjoint |
| Similarity.JaccardSymmetric | frontend/src/lib/jaccardRecommend.ts:105-120 | the similarity does not depend on argument order |
| Similarity.JaccardSelf | frontend/src/lib/jaccardRecommend.ts:105-120 | a non-empty tag set is fully similar to itself |
| Similarity.JaccardBothEmpty | frontend/src/lib/jaccardRecommend.ts:109 | two empty tag sets have similarity 0 |
| Similarity.IntersectionSet | frontend/src/lib/jaccardRecommend.ts:92-101 | the common tags have no duplicates |
| Similarity.IntersectionContents | frontend/src/lib/jaccardRecommend.ts:92-101 | the common tags are exactly the tags in both sets, in the first set's order |
| Similarity.IntersectionSize | frontend/src/lib/jaccardRecommend.ts:92-114 | `intersectionSet` has as many entries as `jaccard` counts in the numerator |
| Query.ResolveQuery | frontend/src/lib/jaccardRecommend.ts:136-156 | each facet with an override uses the override text when it is not blank after trimming, otherwise the own post value; personality always comes from the own post |
| Query.BlankFiltersChangeNothing | frontend/src/lib/jaccardRecommend.ts:136-156 | filters whose four texts are all blank give the same query as no filters |
| Query.FullOverrideIgnoresPost | frontend/src/lib/jaccardRecommend.ts:136-156 | with all four overrides set, only the personality of the own post matters |
| Query.FirstPostOf | frontend/src/lib/jaccardRecommend.ts:220 | `find` by user: none iff the user has no post, otherwise the user's post at a position before which no post is the user's, that is, the first one |
| Query.FirstIndexOf | frontend/src/lib/jaccardRecommend.ts:220 | the index found belongs to the user and no earlier post does |
| JaccardRecommend.Score | frontend/src/lib/jaccardRecommend.ts:161-173 | the weighted score lies in [0, 1] |
| JaccardRecommend.ScorePositive | frontend/src/lib/jaccardRecommend.ts:168-175 | the score is positive exactly when some facet shares a tag, so `score <= 0` drops exactly the posts that share nothing |
| JaccardRecommend.IdenticalScoresOne | frontend/src/lib/jaccardRecommend.ts:161-173 | a post equal to the query on all five non-empty facets scores 1, the weights summing to 1 |
| JaccardRecommend.ResultFor | frontend/src/lib/jaccardRecommend.ts:180-194 | the result carries the post and user id twice (plain and `target*`) and the computed score |
| JaccardRecommend.ScoredMembers | frontend/src/lib/jaccardRecommend.ts:158-195 | the loop's results are exactly the results of the candidates that are not the own post and score above 0 |
| JaccardRecommend.ScoredGood | frontend/src/lib/jaccardRecommend.ts:158-195 | every pushed result has a positive score of at most 1, is not the own post, and has consistent aliases |
| JaccardRecommend.Recommend | frontend/src/lib/jaccardRecommend.ts:124-198 | the output is sorted by score, highest first, every result comes from the loop and is good, and `slice(0, k)` keeps exactly `min(k, n)` of the `n` kept results for `k >= 0` and `max(n + k, 0)` for a negative `k` |
| JaccardRecommend.RecommendKeepsTheBest | frontend/src/lib/jaccardRecommend.ts:197 | no result cut by `slice` scores higher than a kept one |
| JaccardRecommend.RecommendAll | frontend/src/lib/jaccardRecommend.ts:197 | with `k` at least the number of scored posts, nothing is lost |
| JaccardRecommend.RecommendStable | frontend/src/lib/jaccardRecommend.ts:197 | results with equal scores stay in candidate order |
| JaccardRecommend.RecommendReturnsKept | frontend/src/lib/jaccardRecommend.ts:158-197 | with a large enough limit, every candidate that is kept appears in the output |
| JaccardRecommend.ForUser | frontend/src/lib/jaccardRecommend.ts:202-227 | no post by the user gives no results; otherwise the output is the top `limit` of the candidates with another id than the user's first post: every result good and from the loop, exactly `min(limit, n)` of them, none cut off scoring higher than one returned, ties in candidate order, sorted by score |
| JaccardRecommend.OtherPostsHas | frontend/src/lib/jaccardRecommend.ts:223 | the candidate filter keeps every post whose id differs from the own post |
| JaccardRecommend.OwnOtherPostRecommended | frontend/src/lib/jaccardRecommend.ts:220-226 | a second post by the requester that shares a tag with the query is recommended back to the requester |
| JaccardRecommend.OwnOtherPostExample | frontend/src/lib/jaccardRecommend.ts:220-226 | two posts by user `u` with skills `["React", "Python"]`: a result for `u` is returned to `u` |
| JaccardRecommend.ForUserExcludingSelf | frontend/src/lib/jaccardRecommend.ts:220-226 | with all of the requester's posts left out, no result belongs to the requester; the output is drawn from the other users' kept posts, holds exactly `min(limit, n)` of them, and is sorted |
| JaccardRecommend.ExcludingSelfReturnsOthers | frontend/src/lib/jaccardRecommend.ts:220-226 | in the corrected pipeline, another user's post that shares a token with the requester's post is still returned when the limit leaves room |
| Scenarios.TwoOfThree | frontend/src/lib/jaccardRecommend.ts:105-120 | `[x, y]` against `[x, y, z]` of distinct tokens scores 2/3 |
| Scenarios.NoneShared | frontend/src/lib/jaccardRecommend.ts:105-120 | `[x, y]` against a fourth token scores 0 |
| Scenarios.CommaPairTags | frontend/src/lib/jaccardRecommend.ts:74-79 | the text `"x, y"` has the tags x and y |
| Scenarios.OverridePrecedence | frontend/src/lib/jaccardRecommend.ts:136-139 | the skills override `"x, y"` replaces the own `[r]`: against `[x]` it scores 1/2, where the own skills score 0 |
| Ann.Dense | frontend/src/lib/annRecommend.ts:55-84 | one output per weight row, equal to the matching bias (0 past the end of `b`) plus `dot(row, input)`: reading missing inputs as 0 adds nothing beyond the shorter of the two |
| Ann.DenseLoop | frontend/src/lib/annRecommend.ts:55-67 | the nested loops compute `dense` |
| Ann.DotLoop | frontend/src/lib/annRecommend.ts:79-84 | the loop computes the inner product over the shorter length |
| Ann.DotSymmetric | frontend/src/lib/annRecommend.ts:79-84 | the inner product does not depend on argument order |
| Ann.Relu | frontend/src/lib/annRecommend.ts:69-71 | same length, every entry non-negative, each entry kept or zeroed |
| Ann.ReluFacts | frontend/src/lib/annRecommend.ts:69-71 | an entry is kept iff it is non-negative, is positive iff it was positive, and `relu` is idempotent |
| Ann.Sigmoid | frontend/src/lib/annRecommend.ts:73-77 | the output lies in [0, 1]; it is 0 iff the input is below -30 and 1 iff above 30 |
| Ann.SigmoidMonotone | frontend/src/lib/annRecommend.ts:73-77 | `sigmoid` never decreases |
| Ann.SigmoidZero | frontend/src/lib/annRecommend.ts:76 | `sigmoid(0)` is one half |
| Ann.Predict | frontend/src/lib/annRecommend.ts:99-109 | an input of the wrong length fails with the expected and actual sizes, and only then; otherwise the score lies in [0, 1] |
| Ann.PredictIgnoresHiddenSize | frontend/src/lib/annRecommend.ts:44-52 | `hiddenSize` has no effect on the score |
| Ann.SilencedNetwork | frontend/src/lib/annRecommend.ts:105-108 | non-positive output weights and an output bias below -30 give score 0 on every input |
| AnnFeatures.BuildInteractionStats | frontend/src/lib/annRecommend.ts:118-146 | a user has an entry iff some row targets them, and the entry counts that user's `view`, `chat` and `team_join` rows |
| AnnFeatures.StatsCounts | frontend/src/lib/annRecommend.ts:118-146 | the fold over the rows has the same keys and counts as the loop, and users without an entry have zero counts |
| AnnFeatures.CountsBounded | frontend/src/lib/annRecommend.ts:130-143 | other actions are not counted: the three counts add up to at most the rows that target the user |
| AnnFeatures.InteractionScore | frontend/src/lib/annRecommend.ts:148-162 | the score lies in [0, 1], the flag is 0 or 1, the flag is 1 iff some interaction was counted, and the score is positive iff the flag is 1 |
| AnnFeatures.InteractionSaturation | frontend/src/lib/annRecommend.ts:154-159 | the weighted count divided by 10, saturating at 1 |
| AnnFeatures.InteractionMonotone | frontend/src/lib/annRecommend.ts:154-159 | more interactions never lower the score |
| AnnFeatures.Clamp01 | frontend/src/lib/annRecommend.ts:164-168 | the result lies in [0, 1], is the input inside that range and the nearer end outside it |
| AnnFeatures.Clamp01Facts | frontend/src/lib/annRecommend.ts:164-168 | clamping is idempotent and monotone |
| AnnFeatures.SameDepartment | frontend/src/lib/annRecommend.ts:223-226 | 1 iff both profiles name a department and they are equal, otherwise 0 |
| AnnFeatures.SameDepartmentSymmetric | frontend/src/lib/annRecommend.ts:223-226 | the feature does not depend on which profile is the requester's |
| AnnFeatures.YearSimilarity | frontend/src/lib/annRecommend.ts:228-250 | the year feature lies in [0, 1] |
| AnnFeatures.YearClampRedundant | frontend/src/lib/annRecommend.ts:236-250 | the final clamp never changes the value: it is the base similarity times 0.6 per violated bound |
| AnnFeatures.YearBaseCloser | frontend/src/lib/annRecommend.ts:228-233 | with both years present, a candidate whose year is closer to the requester's never has a lower base similarity |
| AnnFeatures.YearSimilarityValues | frontend/src/lib/annRecommend.ts:228-250 | equal years within the range give 1, years 4 or more apart give 0, and a missing year within the range gives 0.5 |
| AnnFeatures.NoCandidateYearNoPenalty | frontend/src/lib/annRecommend.ts:236 | a candidate without a year gets 0.5 whatever the preferred range |
| AnnFeatures.YearSimilaritySymmetric | frontend/src/lib/annRecommend.ts:228-233 | without a preferred range the feature does not depend on which year is the requester's |
| AnnFeatures.Similarities | frontend/src/lib/annRecommend.ts:209-221 | the five clamped facet similarities each lie in [0, 1] |
| AnnFeatures.SimilaritiesUnclamped | frontend/src/lib/annRecommend.ts:209-221 | the clamp never changes a similarity: the features are the Jaccard similarities of the resolved query |
| AnnFeatures.FeatureVector | frontend/src/lib/annRecommend.ts:256-266 | nine features, each in [0, 1] (what each position holds is stated by FeatureVectorFacts) |
| AnnFeatures.FeatureVectorFacts | frontend/src/lib/annRecommend.ts:256-266 | the features in `ANN_FEATURE_NAMES` order: five facet similarities of the resolved query, then 1 iff same department, the year similarity under the filters' year range, the interaction score, and 1 iff any interaction |
| AnnRecommend.RepresentativePosts | frontend/src/lib/annRecommend.ts:296-301 | the map has a user iff the user has a post, and holds that user's first post |
| AnnRecommend.FirstPostOfExtend | frontend/src/lib/annRecommend.ts:297-300 | one more post changes a user's first post only if the user had none |
| AnnRecommend.FirstProfileOf | frontend/src/lib/annRecommend.ts:303 | `find` by id: none iff no profile has that id, otherwise the first with it |
| AnnRecommend.Candidate | frontend/src/lib/annRecommend.ts:323-348 | skipped iff the profile is the requester's or has no post; fails iff the network's input size is not 9; otherwise a result for that user and their first post with a score in [0, 1] and nine named features |
| AnnRecommend.ScoreAllFailure | frontend/src/lib/annRecommend.ts:321-349 | the loop throws iff some candidate is eligible and the input size is not 9, with that error |
| AnnRecommend.ScoreAllGood | frontend/src/lib/annRecommend.ts:321-349 | every result of a completed loop is for an eligible user, with that user's first post and a score in [0, 1] |
| AnnRecommend.ScoreAllCovers | frontend/src/lib/annRecommend.ts:323-349 | a completed loop holds a result for every other user with a post |
| AnnRecommend.AnnForUser | frontend/src/lib/annRecommend.ts:271-354 | the results are sorted by score, highest first, and within the limit |
| AnnRecommend.AnnForUserOutcome | frontend/src/lib/annRecommend.ts:293-349 | no own post gives no results; the call fails iff there is an own post, an eligible candidate and a wrong input size; every result is good |
| AnnRecommend.AnnForUserRanks | frontend/src/lib/annRecommend.ts:351-353 | once the loop completes, the call succeeds with exactly `min(limit, n)` of the `n` scored users for `limit >= 0`, and with all of them when `limit >= n` |
| AnnRecommend.AnnKeepsTheBest | frontend/src/lib/annRecommend.ts:351-353 | results come from the loop, nothing cut scores higher than a kept result, and equal scores keep loop order |
| FeedList.LabelOf | frontend/src/components/FeedList.tsx:100-101 | a label is used iff the table is given and has a non-empty label for the code |
| FeedList.NormalizeScalars | frontend/src/components/FeedList.tsx:97-104 | `null` and `undefined` show the fallback; a string shows its label if any, else itself; booleans and numbers show `String()` |
| FeedList.NormalizeArray | frontend/src/components/FeedList.tsx:106-111 | an array shows its elements' non-empty texts joined by ", ", or the fallback when there are none |
| FeedList.NormalizeCodeArray | frontend/src/components/FeedList.tsx:106-111 | an array of unlabelled non-empty codes shows exactly those codes joined by ", " |
| FeedList.ObjectLabel | frontend/src/components/FeedList.tsx:114-116 | an object with a string `label` shows that label |
| FeedList.ObjectValue | frontend/src/components/FeedList.tsx:117-123 | without a string `label`, a string `value` shows through the label table |
| FeedList.ObjectJsonText | frontend/src/components/FeedList.tsx:124-128 | an object without string fields shows its JSON text |
| FeedList.CodeOf | frontend/src/components/FeedList.tsx:135-172 | falsy values, arrays, booleans and numbers have no code; a non-empty string is its own code |
| FeedList.CodeOfObject | frontend/src/components/FeedList.tsx:144-172 | an object's `value` wins over the helper's second key, which is used only when `value` is absent |
| FeedList.PositionOnlyValue | frontend/src/components/FeedList.tsx:135-142 | the position helper reads no key but `value` |
| FeedList.CodeIdempotent | frontend/src/components/FeedList.tsx:135-172 | the code of a non-empty code is itself |
| FeedList.DisplayThroughCode | frontend/src/components/FeedList.tsx:113-172 | for an object with a string `value` and no string `label`, its code is that value and the text shown via the code equals the text shown for the object |
| FeedList.CodeLabel | frontend/src/components/FeedList.tsx:337-353 | a card shows the placeholder for a missing code, the table's label for a labelled code, and the code itself otherwise |
| FeedList.KnownCodeLabel | frontend/src/components/FeedList.tsx:337-353 | a known code shows its label whether it arrives as a string or as an object's `value` |
| FeedList.NormalizeCategoryCode | frontend/src/components/FeedList.tsx:175-202 | missing or empty names become `all`, and the result is never empty |
| FeedList.CategorySynonyms | frontend/src/components/FeedList.tsx:178-197 | each Korean name maps to the same code as its English name |
| FeedList.CategoryLabelsRoundTrip | frontend/src/components/FeedList.tsx:55-60 | the label of a category code normalises back to that code |
| FeedList.CategoryIdempotent | frontend/src/components/FeedList.tsx:175-202 | normalising twice is normalising once |
| FeedList.CategoryPassThrough | frontend/src/components/FeedList.tsx:199-200 | a name outside the ten known names is kept as it is |
| FeedList.FilterProfiles | frontend/src/components/FeedList.tsx:215-252 | a card is kept iff it is in the input and passes the category, search, position and experience tests |
| FeedList.FilterSubsequence | frontend/src/components/FeedList.tsx:215 | the filtered list keeps the input order |
| FeedList.DefaultsKeepAll | frontend/src/components/FeedList.tsx:210-252 | with the category `all`, an empty search and both filters `all`, every card is kept |
| FeedList.SearchCaseInsensitive | frontend/src/components/FeedList.tsx:227-238 | the search ignores the case of the search text |
| FeedList.TitleFound | frontend/src/components/FeedList.tsx:232-234 | a card whose lower-cased title contains the lower-cased search text matches the search |
| FeedList.CategoryNameOrCode | frontend/src/components/FeedList.tsx:216-225 | choosing the category `동아리` filters exactly as choosing `club` |
| FeedList.PositionFilterExact | frontend/src/components/FeedList.tsx:219-241 | a position filter other than `all` keeps only cards whose position code is that filter |

## Left out

- The database fetches are parameters: the sequences of posts, profiles and interactions the Supabase queries return. The thrown fetch errors, the ordering of the post query and the React component are left out: they are I/O and rendering (`jaccardRecommend.ts:209-217`, `annRecommend.ts:279-318`, `FeedList.tsx:254` on).
- `Math.exp` is a parameter of the ANN functions, a function known only to be positive, since its values are not expressible with exact reals.
- JavaScript numbers are exact reals. Floating-point rounding is not modelled. `String(n)` of a number is the number's literal text, not the canonical JavaScript rendering.
- Years are integers; the source's `number` could be fractional.
- `trim` uses the ECMAScript white-space set, but `toLowerCase` lowers only ASCII letters.
- `JSON.parse` rejects `\u` escapes that form a lone surrogate, which JavaScript accepts.
- `desiredRole` of the filters is carried but, as in the source, never read.
- `labels[raw]` and `'key' in raw` on keys inherited from `Object.prototype` (such as `constructor`) are not modelled: objects have only their own fields.
- Feed cards: only the fields the filter reads are modelled. A non-string entry in `skills`, which would make `(skill ?? '').toLowerCase()` throw, is not modelled; entries are strings or `null`.
- Ann.SigmoidMonotone: assumes `exp(-y) <= exp(-x)` for the two inputs instead of `Math.exp` being increasing, because `exp` is a parameter.
- AnnRecommend.AnnForUser: its own contract states only the ordering and the limit. What the results are is stated by AnnForUserOutcome, AnnForUserRanks and AnnKeepsTheBest.
- `toTagSet` of a number or a boolean is the empty set. The code reaches none of its branches for those values, although a single-element set could be expected of a scalar; the model follows the code.

## Findings

| source | as written | input that shows it | evidently intended | confidence | as-written member | corrected member |
|---|---|---|---|---|---|---|
| frontend/src/lib/jaccardRecommend.ts:220-226 | The candidates leave out only the requester's first post (`p.id !== mePost.id`), so the requester's other posts are scored and returned to them. | User `u` with two posts, both with skills `["React", "Python"]`: the second post is recommended to `u`. | Leave out every post by the requester, as the ANN ranking does by user id (`annRecommend.ts:324`). | medium; not executed | JaccardRecommend.OwnOtherPostExample | JaccardRecommend.ForUserExcludingSelf |
