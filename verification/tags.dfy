/** `toTagSet`: a facet value of any shape becomes a set of trimmed,
    non-empty tokens. The JavaScript `Set` keeps insertion order, so the set
    is modelled as a duplicate-free sequence in first-occurrence order. */
module Tags {
  import opened Wrappers
  import opened JsonValue
  import opened Seqs
  import JsText
  import JsonParse

  /** `items.map(v => String(v))`. */
  function StringsOf(items: seq<Json>): (r: seq<string>)
    ensures |r| == |items|
    ensures forall i :: 0 <= i < |items| ==> r[i] == ToJsString(items[i])
  {
    seq(|items|, i requires 0 <= i < |items| => ToJsString(items[i]))
  }

  /** `xs.map(x => x.trim())`. */
  function TrimAll(xs: seq<string>): (r: seq<string>)
    ensures |r| == |xs|
    ensures forall i :: 0 <= i < |xs| ==> r[i] == JsText.Trim(xs[i])
  {
    seq(|xs|, i requires 0 <= i < |xs| => JsText.Trim(xs[i]))
  }

  /** `xs.filter(Boolean)` on strings: the non-empty ones, in order. */
  function NonEmpty(xs: seq<string>): (r: seq<string>)
    ensures forall i :: 0 <= i < |r| ==> r[i] != ""
    ensures Elems(r) == Elems(xs) - {""}
  {
    if |xs| == 0 then []
    else
      var rest := NonEmpty(xs[1..]);
      assert Elems(xs) == {xs[0]} + Elems(xs[1..]);
      if xs[0] == "" then rest
      else
        assert Elems([xs[0]] + rest) == {xs[0]} + Elems(rest);
        [xs[0]] + rest
  }

  /** `new Set(xs)` in insertion order: the first occurrence of each element. */
  function Dedup(xs: seq<string>): (r: seq<string>)
    ensures NoDups(r)
    ensures Elems(r) == Elems(xs)
  {
    if |xs| == 0 then []
    else
      var d := Dedup(xs[..|xs| - 1]);
      var x := xs[|xs| - 1];
      assert Elems(xs) == Elems(xs[..|xs| - 1]) + {x};
      if x in d then d else d + [x]
  }

  /** The tokens of a trimmed, non-blank string: the `String` of each
      element when it parses as a JSON array, and otherwise its trimmed
      comma-separated pieces. */
  function TextTokens(str: string): seq<string> {
    match JsonParse.ParseJson(str)
    case Some(Arr(items)) => StringsOf(items)
    case _ => TrimAll(JsText.Split(str, ','))
  }

  /** The list `toTagSet` collects before the final trim-and-filter. */
  function RawTokens(src: Json): seq<string> {
    match src
    case Arr(items) => StringsOf(items)
    case Str(s) =>
      var str := JsText.Trim(s);
      if str == "" then [] else TextTokens(str)
    case Obj(fields) => Keys(fields)
    case _ => []
  }

  /** The tokens a list of raw strings contributes: each trimmed, blanks dropped. */
  function Tokens(xs: seq<string>): set<string> {
    set x | x in xs && JsText.Trim(x) != "" :: JsText.Trim(x)
  }

  /** The final step of `toTagSet`: trim every raw token, drop the blank
      ones and keep the first occurrence of each. */
  function Canonical(raw: seq<string>): seq<string> {
    Dedup(NonEmpty(TrimAll(raw)))
  }

  /** The canonical list repeats nothing, holds only trimmed non-blank
      tokens, and holds exactly the tokens of the raw list. */
  lemma CanonicalProperties(raw: seq<string>)
    ensures NoDups(Canonical(raw))
    ensures forall i :: 0 <= i < |Canonical(raw)| ==> Canonical(raw)[i] != "" && JsText.IsTrimmed(Canonical(raw)[i])
    ensures Elems(Canonical(raw)) == Tokens(raw)
  {
    var trimmed := TrimAll(raw);
    assert Elems(trimmed) - {""} == Tokens(raw) by {
      forall t | t in Tokens(raw) ensures t in Elems(trimmed) {
        var x :| x in raw && JsText.Trim(x) != "" && JsText.Trim(x) == t;
        var i :| 0 <= i < |raw| && raw[i] == x;
        assert trimmed[i] == t;
      }
    }
    var r := Canonical(raw);
    forall i | 0 <= i < |r| ensures r[i] != "" && JsText.IsTrimmed(r[i]) {
      assert r[i] in Elems(r);
      var k :| 0 <= k < |trimmed| && trimmed[k] == r[i];
    }
  }

  /** `toTagSet(src)` in insertion order. */
  function TagList(src: Json): seq<string> {
    Canonical(RawTokens(src))
  }

  /** No token of `toTagSet` is empty or untrimmed and none repeats; `null`,
      `undefined`, numbers, booleans and blank strings give no tokens, and
      otherwise the tokens are exactly the trimmed, non-blank raw tokens of
      the input's shape. */
  lemma TagListProperties(src: Json)
    ensures NoDups(TagList(src))
    ensures forall i :: 0 <= i < |TagList(src)| ==> TagList(src)[i] != "" && JsText.IsTrimmed(TagList(src)[i])
    ensures TagSet(src) == Tokens(RawTokens(src))
    ensures src.Undefined? || src.Null? || src.Bool? || src.Num? ==> TagList(src) == []
    ensures src.Str? && JsText.Trim(src.str) == "" ==> TagList(src) == []
  {
    CanonicalProperties(RawTokens(src));
    if RawTokens(src) == [] {
      assert Tokens([]) == {};
    }
  }

  /** The tag set of a facet value. */
  function TagSet(src: Json): set<string> {
    Elems(TagList(src))
  }

  /** An object yields exactly its trimmed, non-blank keys. */
  lemma ObjectTags(fields: seq<Field>)
    ensures TagSet(Obj(fields)) == Tokens(Keys(fields))
  {
    TagListProperties(Obj(fields));
  }

  /** Trimming raw tokens before they are trimmed again changes no token. */
  lemma TokensOfTrimmed(xs: seq<string>)
    ensures Tokens(TrimAll(xs)) == Tokens(xs)
  {
    forall x | x in xs ensures JsText.Trim(JsText.Trim(x)) == JsText.Trim(x) {
      JsText.TrimIdempotent(x);
    }
    forall t | t in Tokens(xs) ensures t in Tokens(TrimAll(xs)) {
      var x :| x in xs && JsText.Trim(x) != "" && JsText.Trim(x) == t;
      var i :| 0 <= i < |xs| && xs[i] == x;
      assert TrimAll(xs)[i] == JsText.Trim(x);
    }
  }

  /** A non-blank string that is not a JSON array literal is split on commas
      and each piece trimmed. */
  lemma DelimitedTags(s: string)
    requires JsText.Trim(s) != ""
    requires !(JsonParse.ParseJson(JsText.Trim(s)).Some? && JsonParse.ParseJson(JsText.Trim(s)).value.Arr?)
    ensures TagSet(Str(s)) == Tokens(JsText.Split(JsText.Trim(s), ','))
  {
    var pieces := JsText.Split(JsText.Trim(s), ',');
    TextTokensOfDelimited(JsText.Trim(s));
    assert RawTokens(Str(s)) == TrimAll(pieces);
    TokensOfTrimmed(pieces);
    TagListProperties(Str(s));
  }

  /** A trimmed, non-blank string contributes its text tokens. */
  lemma RawTokensOfText(text: string)
    requires text != "" && JsText.Trim(text) == text
    ensures RawTokens(Str(text)) == TextTokens(text)
  {
  }

  /** Text that parses as a JSON array contributes the `String` of each element. */
  lemma TextTokensOfArray(text: string, items: seq<Json>)
    requires JsonParse.ParseJson(text) == Some(Arr(items))
    ensures TextTokens(text) == StringsOf(items)
  {
  }

  /** Text that is not a JSON array contributes its trimmed comma-separated pieces. */
  lemma TextTokensOfDelimited(text: string)
    requires !(JsonParse.ParseJson(text).Some? && JsonParse.ParseJson(text).value.Arr?)
    ensures TextTokens(text) == TrimAll(JsText.Split(text, ','))
  {
  }

  /** The `JSON.stringify` text of a string array contributes the array's
      strings as raw tokens. */
  lemma ArrayTextRaw(xs: seq<string>)
    ensures RawTokens(Str(JsonParse.ArrayText(xs))) == StringsOf(Strs(xs))
  {
    var text := JsonParse.ArrayText(xs);
    ArrayTextTrimmed(xs);
    RawTokensOfText(text);
    JsonParse.ParseArrayText(xs);
    TextTokensOfArray(text, Strs(xs));
  }

  /** The `JSON.stringify` text of an array is non-blank and trimmed: it
      runs from `[` to `]`. */
  lemma ArrayTextTrimmed(xs: seq<string>)
    ensures JsonParse.ArrayText(xs) != "" && JsText.Trim(JsonParse.ArrayText(xs)) == JsonParse.ArrayText(xs)
  {
    JsonParse.ArrayTextShape(xs);
    BracketedTrimmed(JsText.Join(JsonParse.Quoted(xs), ","));
  }

  /** Text in square brackets is its own trim. */
  lemma BracketedTrimmed(body: string)
    ensures JsText.Trim("[" + body + "]") == "[" + body + "]"
  {
    var text := "[" + body + "]";
    assert text[0] == '[' && text[|text| - 1] == ']';
    JsText.TrimOfTrimmed(text);
  }

  /** The array and its `JSON.stringify` text give the same tags in the same order. */
  lemma ArrayTextTags(xs: seq<string>)
    ensures TagList(Str(JsonParse.ArrayText(xs))) == TagList(Arr(Strs(xs)))
  {
    ArrayTextRaw(xs);
  }

  /** Trimming every raw token twice is trimming it once. */
  lemma TrimAllTwice(xs: seq<string>)
    ensures TrimAll(TrimAll(xs)) == TrimAll(xs)
  {
    forall i | 0 <= i < |xs| ensures TrimAll(TrimAll(xs))[i] == TrimAll(xs)[i] {
      JsText.TrimIdempotent(xs[i]);
    }
  }

  /** Trimming raw tokens in advance does not change the tag list. */
  lemma CanonicalOfTrimmed(xs: seq<string>)
    ensures Canonical(TrimAll(xs)) == Canonical(xs)
  {
    TrimAllTwice(xs);
  }

  /** The raw tokens of comma-separated text are its trimmed pieces. */
  lemma CommaRawTokens(xs: seq<string>)
    requires |xs| >= 1
    requires forall i :: 0 <= i < |xs| ==> ',' !in xs[i]
    requires JsText.Join(xs, ",") != "" && JsText.IsTrimmed(JsText.Join(xs, ","))
    requires JsText.Join(xs, ",")[0] != '['
    ensures RawTokens(Str(JsText.Join(xs, ","))) == TrimAll(xs)
  {
    var str := JsText.Join(xs, ",");
    JsText.TrimOfTrimmed(str);
    NotAnArray(str);
    RawTokensOfText(str);
    TextTokensOfDelimited(str);
    JsText.SplitJoin(xs, ',');
  }

  /** Comma-separated text gives the same tags, in the same order, as the
      array of its pieces, provided the text is trimmed, cannot be read as a
      JSON array, and no piece holds a comma. */
  lemma CommaTextTags(xs: seq<string>)
    requires |xs| >= 1
    requires forall i :: 0 <= i < |xs| ==> ',' !in xs[i]
    requires JsText.Join(xs, ",") != "" && JsText.IsTrimmed(JsText.Join(xs, ","))
    requires JsText.Join(xs, ",")[0] != '['
    ensures TagList(Str(JsText.Join(xs, ","))) == TagList(Arr(Strs(xs)))
  {
    CommaRawTokens(xs);
    CanonicalOfTrimmed(xs);
    StringsOfStrs(xs);
  }

  /** `String` gives back each string of a string array. */
  lemma StringsOfStrs(xs: seq<string>)
    ensures StringsOf(Strs(xs)) == xs
  {
  }

  /** An array of strings yields the trimmed, non-blank strings. */
  lemma ArrayTagSet(xs: seq<string>)
    ensures TagSet(Arr(Strs(xs))) == Tokens(xs)
  {
    TagListProperties(Arr(Strs(xs)));
    StringsOfStrs(xs);
  }

  /** Strings that are already trimmed and non-blank are their own tokens. */
  lemma PlainTokens(xs: seq<string>)
    requires forall i :: 0 <= i < |xs| ==> xs[i] != "" && JsText.IsTrimmed(xs[i])
    ensures Tokens(xs) == Elems(xs)
  {
    forall x | x in xs ensures JsText.Trim(x) == x {
      JsText.TrimOfTrimmed(x);
    }
  }

  /** Trimmed text that does not start with `[` is not a JSON array. */
  lemma NotAnArray(str: string)
    requires str != [] && JsText.IsTrimmed(str) && str[0] != '['
    ensures !(JsonParse.ParseJson(str).Some? && JsonParse.ParseJson(str).value.Arr?)
  {
    JsonParse.SpaceIsNotJsonStart(str[0]);
    JsonParse.SkipNoSpace(str);
    if JsonParse.ParseJson(str).Some? && JsonParse.ParseJson(str).value.Arr? {
      JsonParse.ArrayStartsWithBracket(str);
    }
  }

  /** The canonical tags of `React` and `Python`. */
  lemma ReactPython()
    ensures Canonical(["React", "Python"]) == ["React", "Python"]
  {
    var xs := ["React", "Python"];
    TwoTrimmed();
    assert TrimAll(xs) == xs;
    assert xs[1..] == ["Python"];
    assert NonEmpty(["Python"]) == ["Python"] + NonEmpty([]);
    assert NonEmpty(xs) == ["React"] + NonEmpty(["Python"]);
    assert xs[..1] == ["React"];
    assert Dedup(["React"]) == ["React"];
    assert "Python" != "React" by { assert "Python"[0] != "React"[0]; }
    assert Dedup(xs) == Dedup(["React"]) + ["Python"];
  }

  /** `React` and `Python` carry no surrounding whitespace. */
  lemma TwoTrimmed()
    ensures JsText.Trim("React") == "React" && JsText.Trim("Python") == "Python"
  {
    JsText.TrimOfTrimmed("React");
    JsText.TrimOfTrimmed("Python");
  }

  /** An array of strings: `["React", "Python"]`. */
  lemma ArrayExample()
    ensures TagList(Arr([Str("React"), Str("Python")])) == ["React", "Python"]
  {
    assert StringsOf([Str("React"), Str("Python")]) == ["React", "Python"];
    ReactPython();
  }
}
