/** `jaccard` and `intersectionSet`: similarity and common tokens of two
    facet values, both computed over their `toTagSet` lists. */
module Similarity {
  import opened Seqs
  import opened JsonValue
  import opened Tags

  /** The elements of `a` that `b` also holds, in `a`'s order: the loop of
      `intersectionSet`. */
  function Common(a: seq<string>, b: seq<string>): (r: seq<string>)
    ensures Elems(r) == Elems(a) * Elems(b)
  {
    if |a| == 0 then []
    else
      var rest := Common(a[1..], b);
      assert Elems(a) == {a[0]} + Elems(a[1..]);
      if a[0] in b then
        assert Elems([a[0]] + rest) == {a[0]} + Elems(rest);
        [a[0]] + rest
      else rest
  }

  /** `Common` keeps `a`'s order and, on a duplicate-free `a`, repeats nothing. */
  lemma {:induction false} CommonOrder(a: seq<string>, b: seq<string>)
    ensures IsSubsequence(Common(a, b), a)
    ensures NoDups(a) ==> NoDups(Common(a, b))
  {
    if |a| > 0 {
      CommonOrder(a[1..], b);
      var rest := Common(a[1..], b);
      if a[0] in b {
        assert Common(a, b)[1..] == rest;
        if NoDups(a) {
          assert NoDups(a[1..]);
          assert a[0] !in Elems(a[1..]);
          forall j | 0 < j < |Common(a, b)| ensures Common(a, b)[0] != Common(a, b)[j] {
            assert Common(a, b)[j] in Elems(rest);
          }
        }
      } else {
        SubsequenceCons(rest, a);
        if NoDups(a) {
          assert NoDups(a[1..]);
        }
      }
    }
  }

  /** The `inter` counter of `jaccard`: how many elements of `a` are in `b`. */
  function CountCommon(a: seq<string>, b: seq<string>): nat {
    if |a| == 0 then 0
    else (if a[0] in b then 1 else 0) + CountCommon(a[1..], b)
  }

  /** On a duplicate-free `a`, the counter is the size of the intersection,
      and it equals the length of the `intersectionSet` list. */
  lemma {:induction false} CountCommonIsCard(a: seq<string>, b: seq<string>)
    requires NoDups(a)
    ensures CountCommon(a, b) == |Common(a, b)| == |Elems(a) * Elems(b)|
  {
    if |a| > 0 {
      assert NoDups(a[1..]);
      CountCommonIsCard(a[1..], b);
    }
    CommonOrder(a, b);
    NoDupsCard(Common(a, b));
  }

  /** `jaccard` on the two tag lists. */
  function JaccardOf(a: seq<string>, b: seq<string>): real {
    if |a| == 0 && |b| == 0 then 0.0
    else
      var inter := CountCommon(a, b);
      var unionSize := |Elems(a) + Elems(b)|;
      if unionSize == 0 then 0.0 else inter as real / unionSize as real
  }

  /** For duplicate-free lists, `JaccardOf` is |A∩B|/|A∪B| over their
      element sets, and 0 when both are empty. */
  lemma JaccardOfRatio(a: seq<string>, b: seq<string>)
    requires NoDups(a)
    ensures Elems(a) + Elems(b) == {} ==> JaccardOf(a, b) == 0.0
    ensures Elems(a) + Elems(b) != {} ==>
              JaccardOf(a, b) == |Elems(a) * Elems(b)| as real / |Elems(a) + Elems(b)| as real
  {
    CountCommonIsCard(a, b);
    if |a| == 0 && |b| == 0 {
      assert Elems(a) + Elems(b) == {};
    } else if |a| > 0 {
      assert a[0] in Elems(a) + Elems(b);
    } else {
      assert b[0] in Elems(a) + Elems(b);
    }
  }

  /** On a duplicate-free `a`, `JaccardOf` lies in [0,1] and is 0 exactly
      when the lists share nothing. */
  lemma JaccardOfBounds(a: seq<string>, b: seq<string>)
    requires NoDups(a)
    ensures 0.0 <= JaccardOf(a, b) <= 1.0
    ensures JaccardOf(a, b) == 0.0 <==> Elems(a) * Elems(b) == {}
  {
    JaccardOfRatio(a, b);
    var inter := Elems(a) * Elems(b);
    var union := Elems(a) + Elems(b);
    assert |inter| <= |union| by {
      assert union == inter + (union - inter);
    }
    if inter != {} {
      var x :| x in inter;
      assert x in union;
    }
    if union != {} {
      RatioBounds(|inter|, |union|);
    }
  }

  /** A count divided by a larger positive count lies in [0,1], and is 0
      only for a zero count. */
  lemma RatioBounds(p: nat, q: nat)
    requires 0 < q && p <= q
    ensures 0.0 <= p as real / q as real <= 1.0
    ensures p as real / q as real == 0.0 <==> p == 0
  {
    var r := p as real / q as real;
    assert r * q as real == p as real;
  }

  /** `jaccard(a, b)`: the share of tokens the two facet values have in
      common, from 0 to 1. */
  function Jaccard(a: Json, b: Json): (r: real)
    ensures 0.0 <= r <= 1.0
  {
    TagListProperties(a);
    JaccardOfBounds(TagList(a), TagList(b));
    JaccardOf(TagList(a), TagList(b))
  }

  /** `jaccard` is 0 exactly when the two tag sets are disjoint (which
      includes both being empty). */
  lemma JaccardZero(a: Json, b: Json)
    ensures Jaccard(a, b) == 0.0 <==> TagSet(a) * TagSet(b) == {}
  {
    TagListProperties(a);
    JaccardOfBounds(TagList(a), TagList(b));
  }

  /** `jaccard` is |A∩B|/|A∪B| for the tag sets A and B, and 0 when both are empty. */
  lemma JaccardRatio(a: Json, b: Json)
    ensures TagSet(a) + TagSet(b) == {} ==> Jaccard(a, b) == 0.0
    ensures TagSet(a) + TagSet(b) != {} ==>
              Jaccard(a, b) == |TagSet(a) * TagSet(b)| as real / |TagSet(a) + TagSet(b)| as real
  {
    TagListProperties(a);
    JaccardOfRatio(TagList(a), TagList(b));
  }

  /** `jaccard` does not depend on the order of its arguments. */
  lemma JaccardSymmetric(a: Json, b: Json)
    ensures Jaccard(a, b) == Jaccard(b, a)
  {
    JaccardRatio(a, b);
    JaccardRatio(b, a);
    assert TagSet(a) * TagSet(b) == TagSet(b) * TagSet(a);
    assert TagSet(a) + TagSet(b) == TagSet(b) + TagSet(a);
  }

  /** A facet value with at least one token is fully similar to itself. */
  lemma JaccardSelf(a: Json)
    requires TagSet(a) != {}
    ensures Jaccard(a, a) == 1.0
  {
    JaccardRatio(a, a);
    SelfRatio(TagSet(a));
  }

  /** A non-empty set shares all its elements with itself. */
  lemma SelfRatio(s: set<string>)
    requires s != {}
    ensures |s * s| as real / |s + s| as real == 1.0
  {
    assert s * s == s && s + s == s;
    var n := |s| as real;
    assert n > 0.0;
  }

  /** Two facet values without tokens have similarity 0. */
  lemma JaccardBothEmpty(a: Json, b: Json)
    requires TagSet(a) == {} && TagSet(b) == {}
    ensures Jaccard(a, b) == 0.0
  {
    JaccardRatio(a, b);
  }

  /** `intersectionSet(a, b)`: the tokens of `a` that `b` also has, in
      `a`'s insertion order. */
  function IntersectionSet(a: Json, b: Json): (r: seq<string>)
    ensures NoDups(r)
  {
    TagListProperties(a);
    CommonOrder(TagList(a), TagList(b));
    Common(TagList(a), TagList(b))
  }

  /** `intersectionSet` holds exactly the common tokens, in `a`'s order. */
  lemma IntersectionContents(a: Json, b: Json)
    ensures Elems(IntersectionSet(a, b)) == TagSet(a) * TagSet(b)
    ensures IsSubsequence(IntersectionSet(a, b), TagList(a))
  {
    CommonOrder(TagList(a), TagList(b));
  }

  /** The length of `intersectionSet` is the `inter` count of `jaccard`,
      which is the size of the intersection. */
  lemma IntersectionSize(a: Json, b: Json)
    ensures |IntersectionSet(a, b)| == CountCommon(TagList(a), TagList(b)) == |TagSet(a) * TagSet(b)|
  {
    TagListProperties(a);
    CountCommonIsCard(TagList(a), TagList(b));
  }
}
