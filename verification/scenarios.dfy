/** Worked scenarios for the Jaccard recommender, stated for any tokens of
    the right shape: the facet similarities of a small requester/candidate
    pool (`["React","TS"]` against `["React","TS","Figma"]` and
    `["Python"]`) and the precedence of a filter override (`"Python, SQL"`)
    over the requester's own post (`["React"]`). */
module Scenarios {
  import opened Wrappers
  import opened JsonValue
  import opened Seqs
  import opened Tags
  import opened Similarity
  import opened Query
  import JsText

  /** A token as it is typed in a tag list: non-blank, trimmed, no comma. */
  predicate IsToken(x: string) {
    x != "" && JsText.IsTrimmed(x) && ',' !in x
  }

  /** An array of plain tokens yields exactly those tokens. */
  lemma PlainArrayTags(xs: seq<string>)
    requires forall i :: 0 <= i < |xs| ==> IsToken(xs[i])
    ensures TagSet(Arr(Strs(xs))) == Elems(xs)
  {
    ArrayTagSet(xs);
    PlainTokens(xs);
  }

  /** An array of plain tokens whose elements are `e` yields `e`. */
  lemma PlainArrayTagsAre(xs: seq<string>, e: set<string>)
    requires forall i :: 0 <= i < |xs| ==> IsToken(xs[i])
    requires Elems(xs) == e
    ensures TagSet(Arr(Strs(xs))) == e
  {
    PlainArrayTags(xs);
  }

  /** Tag sets `{x, y}` and `{x, y, z}` of distinct tokens: two of three shared. */
  lemma TwoOfThreeSets(a: Json, b: Json, x: string, y: string, z: string)
    requires TagSet(a) == {x, y} && TagSet(b) == {x, y, z}
    requires x != y && y != z && x != z
    ensures Jaccard(a, b) == 2.0 / 3.0
  {
    JaccardRatio(a, b);
    SetRatioTwoOfThree(TagSet(a), TagSet(b), x, y, z);
  }

  /** The ratio of `{x, y}` to `{x, y, z}`. */
  lemma SetRatioTwoOfThree(a: set<string>, b: set<string>, x: string, y: string, z: string)
    requires a == {x, y} && b == {x, y, z}
    requires x != y && y != z && x != z
    ensures a + b != {} && |a * b| as real / |a + b| as real == 2.0 / 3.0
  {
    assert a * b == {x, y};
    assert a + b == {x, y, z};
  }

  /** `[x, y]` against `[x, y, z]` for distinct tokens: two of three shared. */
  lemma TwoOfThree(x: string, y: string, z: string)
    requires IsToken(x) && IsToken(y) && IsToken(z)
    requires x != y && y != z && x != z
    ensures Jaccard(Arr(Strs([x, y])), Arr(Strs([x, y, z]))) == 2.0 / 3.0
  {
    PairTags(x, y);
    TripleTags(x, y, z);
    TwoOfThreeSets(Arr(Strs([x, y])), Arr(Strs([x, y, z])), x, y, z);
  }

  /** `[x, y]` yields x and y. */
  lemma PairTags(x: string, y: string)
    requires IsToken(x) && IsToken(y)
    ensures TagSet(Arr(Strs([x, y]))) == {x, y}
  {
    ElemsOfTwo(x, y);
    PlainArrayTagsAre([x, y], {x, y});
  }

  /** `[x, y, z]` yields x, y and z. */
  lemma TripleTags(x: string, y: string, z: string)
    requires IsToken(x) && IsToken(y) && IsToken(z)
    ensures TagSet(Arr(Strs([x, y, z]))) == {x, y, z}
  {
    ElemsOfThree(x, y, z);
    PlainArrayTagsAre([x, y, z], {x, y, z});
  }

  /** The elements of `[x, y]`. */
  lemma ElemsOfTwo(x: string, y: string)
    ensures Elems([x, y]) == {x, y}
  {
    var s := [x, y];
    assert s[0] == x && s[1] == y;
  }

  /** The elements of `[x, y, z]`. */
  lemma ElemsOfThree(x: string, y: string, z: string)
    ensures Elems([x, y, z]) == {x, y, z}
  {
    var s := [x, y, z];
    assert s[0] == x && s[1] == y && s[2] == z;
  }

  /** `[x]` yields x. */
  lemma SingleTag(x: string)
    requires IsToken(x)
    ensures TagSet(Arr(Strs([x]))) == {x}
  {
    assert Elems([x]) == {x};
    PlainArrayTagsAre([x], {x});
  }

  /** `[x, y]` against `[w]` for a fourth token: nothing shared. */
  lemma NoneShared(x: string, y: string, w: string)
    requires IsToken(x) && IsToken(y) && IsToken(w)
    requires w != x && w != y
    ensures Jaccard(Arr(Strs([x, y])), Arr(Strs([w]))) == 0.0
  {
    PairTags(x, y);
    SingleTag(w);
    JaccardZero(Arr(Strs([x, y])), Arr(Strs([w])));
  }

  /** A space in front of a trimmed token is trimmed away. */
  lemma TrimLeadingSpace(y: string)
    requires y != "" && JsText.IsTrimmed(y)
    ensures JsText.Trim(" " + y) == y
  {
    var p := " " + y;
    assert p[1..] == y;
    assert JsText.LeadingSpaces(y) == 0;
    assert JsText.LeadingSpaces(p) == 1;
    JsText.TrimOfTrimmed(y);
  }

  /** The text `x + ", " + y` is the comma-join of `x` and `" " + y`, and is trimmed. */
  lemma CommaPair(x: string, y: string)
    requires IsToken(x) && IsToken(y) && x[0] != '['
    ensures JsText.Join([x, " " + y], ",") == x + ", " + y
    ensures forall i :: 0 <= i < 2 ==> ',' !in [x, " " + y][i]
    ensures JsText.IsTrimmed(x + ", " + y) && (x + ", " + y)[0] != '['
  {
    var xs := [x, " " + y];
    assert xs[1..] == [" " + y];
    assert JsText.Join(xs, ",") == x + "," + (" " + y);
    assert x + "," + (" " + y) == x + ", " + y;
    var t := x + ", " + y;
    assert t[0] == x[0] && t[|t| - 1] == y[|y| - 1];
  }

  /** Comma-separated text `"x, y"` yields the tokens x and y. */
  lemma CommaPairTags(x: string, y: string)
    requires IsToken(x) && IsToken(y) && x[0] != '['
    ensures TagSet(Str(x + ", " + y)) == {x, y}
  {
    CommaPairList(x, y);
    CommaPairTokens(x, y);
  }

  /** `"x, y"` gives the tag list of the array `[x, " " + y]`. */
  lemma CommaPairList(x: string, y: string)
    requires IsToken(x) && IsToken(y) && x[0] != '['
    ensures TagSet(Str(x + ", " + y)) == Tokens([x, " " + y])
  {
    var xs := [x, " " + y];
    CommaPair(x, y);
    CommaTextTags(xs);
    ArrayTagSet(xs);
  }

  /** The tokens of `x` and `" " + y` are x and y. */
  lemma CommaPairTokens(x: string, y: string)
    requires IsToken(x) && IsToken(y)
    ensures Tokens([x, " " + y]) == {x, y}
  {
    TrimLeadingSpace(y);
    JsText.TrimOfTrimmed(x);
  }

  /** Tag sets `{x, y}` and `{x}`: one of two shared. */
  lemma OneOfTwoSets(a: Json, b: Json, x: string, y: string)
    requires TagSet(a) == {x, y} && TagSet(b) == {x} && x != y
    ensures Jaccard(a, b) == 1.0 / 2.0
  {
    JaccardRatio(a, b);
    SetRatioOneOfTwo(TagSet(a), TagSet(b), x, y);
  }

  /** The ratio of `{x}` to `{x, y}`. */
  lemma SetRatioOneOfTwo(a: set<string>, b: set<string>, x: string, y: string)
    requires a == {x, y} && b == {x} && x != y
    ensures a + b != {} && |a * b| as real / |a + b| as real == 1.0 / 2.0
  {
    assert a * b == {x};
    assert a + b == {x, y};
  }

  /** A non-blank skills override replaces the requester's own skills:
      against a candidate with the single skill `x`, the override
      `"x, y"` scores 1/2 where the requester's own `[r]` would score 0. */
  lemma OverridePrecedence(me: PostRow, f: Filters, x: string, y: string, r: string)
    requires IsToken(x) && IsToken(y) && IsToken(r) && x[0] != '['
    requires x != y && r != x
    requires me.skills == Arr(Strs([r])) && f.skills == x + ", " + y
    ensures ResolveQuery(me, Some(f)).skills == Str(x + ", " + y)
    ensures Jaccard(ResolveQuery(me, Some(f)).skills, Arr(Strs([x]))) == 1.0 / 2.0
    ensures Jaccard(ResolveQuery(me, None).skills, Arr(Strs([x]))) == 0.0
  {
    var text := x + ", " + y;
    CommaPair(x, y);
    JsText.TrimOfTrimmed(text);
    CommaPairTags(x, y);
    SingleTag(x);
    SingleTag(r);
    OneOfTwoSets(Str(text), Arr(Strs([x])), x, y);
    JaccardZero(Arr(Strs([r])), Arr(Strs([x])));
  }
}
