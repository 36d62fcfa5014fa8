/** `JSON.parse` as a recursive-descent parser over the ECMA-404 grammar.
    Each parser takes the remaining input and returns the parsed value with
    the input left after it; every successful step consumes input. */
module JsonParse {
  import opened Wrappers
  import opened JsonValue
  import Seqs
  import JsText

  datatype Parsed<T> = Parsed(value: T, rest: string)

  /** Insignificant whitespace between JSON tokens. */
  predicate IsJsonSpace(c: char) {
    c == ' ' || c == '\t' || c == '\n' || c == '\r'
  }

  function SkipSpace(s: string): (r: string)
    ensures |r| <= |s| && r == s[|s| - |r|..]
    ensures r == [] || !IsJsonSpace(r[0])
  {
    if s != [] && IsJsonSpace(s[0]) then SkipSpace(s[1..]) else s
  }

  /** Number of leading decimal digits. */
  function Digits(s: string): (n: nat)
    ensures n <= |s|
    ensures forall k :: 0 <= k < n ==> IsDigit(s[k])
    ensures n < |s| ==> !IsDigit(s[n])
  {
    if s != [] && IsDigit(s[0]) then 1 + Digits(s[1..]) else 0
  }

  function HexValue(c: char): Option<nat> {
    if '0' <= c <= '9' then Some(c as int - '0' as int)
    else if 'a' <= c <= 'f' then Some(c as int - 'a' as int + 10)
    else if 'A' <= c <= 'F' then Some(c as int - 'A' as int + 10)
    else None
  }

  /** The code unit named by the four hex digits at the start of `s`. */
  function Hex4(s: string): (r: Option<nat>)
    ensures r.Some? ==> r.value < 0x1_0000
  {
    if |s| < 4 then None
    else match (HexValue(s[0]), HexValue(s[1]), HexValue(s[2]), HexValue(s[3]))
      case (Some(a), Some(b), Some(c), Some(d)) =>
        assert a < 16 && b < 16 && c < 16 && d < 16;
        Some(((a * 16 + b) * 16 + c) * 16 + d)
      case _ => None
  }

  predicate IsHighSurrogate(n: int) { 0xD800 <= n <= 0xDBFF }
  predicate IsLowSurrogate(n: int) { 0xDC00 <= n <= 0xDFFF }

  /** The body of a `\u` escape starting at `s` (just after the `u`): a
      non-surrogate code unit, or a high surrogate followed by a `\u` low
      surrogate, which together name one character. A lone surrogate has no
      `char` and is refused. */
  function UnicodeEscape(s: string): (r: Option<Parsed<char>>)
    ensures r.Some? ==> |r.value.rest| < |s|
  {
    match Hex4(s)
    case None => None
    case Some(n) =>
      if IsLowSurrogate(n) then None
      else if !IsHighSurrogate(n) then Some(Parsed(n as char, s[4..]))
      else if |s| < 6 || s[4] != '\\' || s[5] != 'u' then None
      else match Hex4(s[6..])
        case Some(m) =>
          if IsLowSurrogate(m) then
            Some(Parsed((0x1_0000 + (n - 0xD800) * 0x400 + (m - 0xDC00)) as char, s[10..]))
          else None
        case None => None
  }

  /** The character a one-letter escape `\c` stands for. */
  function SimpleEscape(c: char): Option<char> {
    if c == '"' then Some('"')
    else if c == '\\' then Some('\\')
    else if c == '/' then Some('/')
    else if c == 'b' then Some('\U{0008}')
    else if c == 'f' then Some('\U{000C}')
    else if c == 'n' then Some('\n')
    else if c == 'r' then Some('\r')
    else if c == 't' then Some('\t')
    else None
  }

  /** The characters of a string literal after its opening quote, appended to
      `acc`, up to and including the closing quote. */
  function StringBody(s: string, acc: string): (r: Option<Parsed<string>>)
    ensures r.Some? ==> |r.value.rest| < |s|
    decreases |s|
  {
    if s == [] then None
    else if s[0] == '"' then Some(Parsed(acc, s[1..]))
    else if s[0] == '\\' then
      if |s| < 2 then None
      else if s[1] == 'u' then
        match UnicodeEscape(s[2..])
        case Some(Parsed(c, rest)) => StringBody(rest, acc + [c])
        case None => None
      else
        match SimpleEscape(s[1])
        case Some(c) => StringBody(s[2..], acc + [c])
        case None => None
    else if s[0] < ' ' then None
    else StringBody(s[1..], acc + [s[0]])
  }

  /** Length of the number literal at the start of `s`, if there is one:
      `-`? (`0` | [1-9][0-9]*) (`.` [0-9]+)? ([eE] [+-]? [0-9]+)?. */
  function NumberLength(s: string): (r: Option<nat>)
    ensures r.Some? ==> 0 < r.value <= |s|
  {
    var i := if s != [] && s[0] == '-' then 1 else 0;
    if i >= |s| || !IsDigit(s[i]) then None
    else
      var j := if s[i] == '0' then i + 1 else i + 1 + Digits(s[i + 1..]);
      var fracOk := !(j < |s| && s[j] == '.') || Digits(s[j + 1..]) > 0;
      if !fracOk then None
      else
        var k := if j < |s| && s[j] == '.' then j + 1 + Digits(s[j + 1..]) else j;
        if k < |s| && (s[k] == 'e' || s[k] == 'E') then
          var e := if k + 1 < |s| && (s[k + 1] == '+' || s[k + 1] == '-') then k + 2 else k + 1;
          if e <= |s| && Digits(s[e..]) > 0 then Some(e + Digits(s[e..])) else None
        else Some(k)
  }

  /** A literal keyword (`null`, `true`, `false`) at the start of `s`. */
  function Keyword(s: string, word: string, v: Json): (r: Option<Parsed<Json>>)
    requires |word| > 0
    ensures r.Some? ==> |r.value.rest| < |s|
  {
    if |s| >= |word| && s[..|word|] == word then Some(Parsed(v, s[|word|..])) else None
  }

  /** One JSON value at the very start of `s` (no leading whitespace). */
  function Value(s: string): (r: Option<Parsed<Json>>)
    ensures r.Some? ==> |r.value.rest| < |s|
    decreases |s|, 0
  {
    if s == [] then None
    else if s[0] == 'n' then Keyword(s, "null", Null)
    else if s[0] == 't' then Keyword(s, "true", Bool(true))
    else if s[0] == 'f' then Keyword(s, "false", Bool(false))
    else if s[0] == '"' then
      match StringBody(s[1..], "")
      case Some(Parsed(str, rest)) => Some(Parsed(Str(str), rest))
      case None => None
    else if s[0] == '[' then Array(s[1..])
    else if s[0] == '{' then Object(s[1..])
    else
      match NumberLength(s)
      case Some(n) => Some(Parsed(Num(s[..n]), s[n..]))
      case None => None
  }

  /** An array after its opening bracket. */
  function Array(s: string): (r: Option<Parsed<Json>>)
    ensures r.Some? ==> |r.value.rest| < |s| && r.value.value.Arr?
    decreases |s|, 2
  {
    var t := SkipSpace(s);
    if t != [] && t[0] == ']' then Some(Parsed(Arr([]), t[1..]))
    else Elements(t, [])
  }

  /** The elements of an array from the next element on, after the elements
      `acc` already read, through the closing bracket. */
  function Elements(s: string, acc: seq<Json>): (r: Option<Parsed<Json>>)
    ensures r.Some? ==> |r.value.rest| < |s| && r.value.value.Arr?
    decreases |s|, 1
  {
    var t := SkipSpace(s);
    match Value(t)
    case None => None
    case Some(Parsed(v, rest)) =>
      var u := SkipSpace(rest);
      if u != [] && u[0] == ',' then Elements(u[1..], acc + [v])
      else if u != [] && u[0] == ']' then Some(Parsed(Arr(acc + [v]), u[1..]))
      else None
  }

  /** An object after its opening brace. */
  function Object(s: string): (r: Option<Parsed<Json>>)
    ensures r.Some? ==> |r.value.rest| < |s| && r.value.value.Obj?
    decreases |s|, 2
  {
    var t := SkipSpace(s);
    if t != [] && t[0] == '}' then Some(Parsed(Obj([]), t[1..]))
    else Members(t, [])
  }

  /** One `"key": value` member at the very start of `s`. */
  function Member(s: string): (r: Option<Parsed<Field>>)
    ensures r.Some? ==> |r.value.rest| < |s|
    decreases |s|, 0
  {
    if s == [] || s[0] != '"' then None
    else
      match StringBody(s[1..], "")
      case None => None
      case Some(Parsed(key, afterKey)) =>
        var u := SkipSpace(afterKey);
        if u == [] || u[0] != ':' then None
        else
          match Value(SkipSpace(u[1..]))
          case None => None
          case Some(Parsed(v, rest)) => Some(Parsed(Field(key, v), rest))
  }

  /** The members of an object from the next member on, after the fields
      `acc` already read, through the closing brace. */
  function Members(s: string, acc: seq<Field>): (r: Option<Parsed<Json>>)
    ensures r.Some? ==> |r.value.rest| < |s| && r.value.value.Obj?
    decreases |s|, 1
  {
    var t := SkipSpace(s);
    match Member(t)
    case None => None
    case Some(Parsed(f, rest)) =>
      var w := SkipSpace(rest);
      if w != [] && w[0] == ',' then Members(w[1..], acc + [f])
      else if w != [] && w[0] == '}' then Some(Parsed(Obj(acc + [f]), w[1..]))
      else None
  }

  /** `JSON.parse(s)`: one value surrounded by optional whitespace, and
      nothing else; `None` where `JSON.parse` throws. */
  function ParseJson(s: string): Option<Json> {
    match Value(SkipSpace(s))
    case Some(Parsed(v, rest)) => if SkipSpace(rest) == [] then Some(v) else None
    case None => None
  }

  /** Input that does not start with whitespace is left alone by `SkipSpace`. */
  lemma SkipNoSpace(s: string)
    requires s != [] && !IsJsonSpace(s[0])
    ensures SkipSpace(s) == s
  {
  }

  /** Each lower-case hex digit reads back as its value. */
  lemma HexDigitValue(d: nat)
    requires d < 16
    ensures HexValue(HexDigits[d]) == Some(d)
  {
    if d < 10 {
      assert HexDigits[d] == ('0' as int + d) as char;
    } else {
      assert HexDigits[d] == ('a' as int + d - 10) as char;
    }
  }

  /** A character written with a one-letter escape is read back. */
  lemma SimpleEscapeReads(c: char, tail: string, acc: string)
    requires c == '"' || c == '\\' || c == '\U{0008}' || c == '\U{000C}' || c == '\n' || c == '\r' || c == '\t'
    ensures StringBody(EscapeChar(c) + tail, acc) == StringBody(tail, acc + [c])
  {
    var s := EscapeChar(c) + tail;
    assert |EscapeChar(c)| == 2 && s[0] == '\\' && SimpleEscape(s[1]) == Some(c);
    assert s[2..] == tail;
  }

  /** A control character written as `\u00XX` is read back. */
  lemma ControlEscapeReads(c: char, tail: string, acc: string)
    requires c < ' ' && !(c == '\U{0008}' || c == '\U{000C}' || c == '\n' || c == '\r' || c == '\t')
    ensures StringBody(EscapeChar(c) + tail, acc) == StringBody(tail, acc + [c])
  {
    var n := c as int;
    HexDigitValue(n / 16);
    HexDigitValue(n % 16);
    var s := EscapeChar(c) + tail;
    var e := s[2..];
    assert s[0] == '\\' && s[1] == 'u';
    assert e == "00" + [HexDigits[n / 16], HexDigits[n % 16]] + tail;
    assert Hex4(e) == Some(n);
    assert UnicodeEscape(e) == Some(Parsed(c, tail)) by {
      assert e[4..] == tail;
    }
  }

  /** Any other character is written and read as itself. */
  lemma PlainCharReads(c: char, tail: string, acc: string)
    requires c >= ' ' && c != '"' && c != '\\'
    ensures StringBody(EscapeChar(c) + tail, acc) == StringBody(tail, acc + [c])
  {
    var s := EscapeChar(c) + tail;
    assert s[0] == c && s[1..] == tail;
  }

  /** One escaped character followed by more input is read back as that character. */
  lemma EscapeCharReads(c: char, tail: string, acc: string)
    ensures StringBody(EscapeChar(c) + tail, acc) == StringBody(tail, acc + [c])
  {
    if c == '"' || c == '\\' || c == '\U{0008}' || c == '\U{000C}' || c == '\n' || c == '\r' || c == '\t' {
      SimpleEscapeReads(c, tail, acc);
    } else if c < ' ' {
      ControlEscapeReads(c, tail, acc);
    } else {
      PlainCharReads(c, tail, acc);
    }
  }

  /** The body of the literal `Quote(s)`, followed by anything, reads back as `s`. */
  lemma {:induction false} StringBodyOfEscaped(s: string, acc: string, more: string)
    ensures StringBody(Escaped(s) + "\"" + more, acc) == Some(Parsed(acc + s, more))
  {
    if s == [] {
      StringBodyEmpty(s, acc, more);
    } else {
      StringBodyOfEscaped(s[1..], acc + [s[0]], more);
      StringBodyStep(s, acc, more);
    }
  }

  /** The base case of `StringBodyOfEscaped`. */
  lemma StringBodyEmpty(s: string, acc: string, more: string)
    requires s == []
    ensures StringBody(Escaped(s) + "\"" + more, acc) == Some(Parsed(acc + s, more))
  {
    assert Escaped(s) + "\"" + more == "\"" + more;
    StringBodyClose(acc, more);
    assert acc + s == acc;
  }

  /** The step of `StringBodyOfEscaped`: reading the first character's escape. */
  lemma StringBodyStep(s: string, acc: string, more: string)
    requires s != []
    requires StringBody(Escaped(s[1..]) + "\"" + more, acc + [s[0]]) == Some(Parsed(acc + [s[0]] + s[1..], more))
    ensures StringBody(Escaped(s) + "\"" + more, acc) == Some(Parsed(acc + s, more))
  {
    var c := s[0];
    var tail := Escaped(s[1..]) + "\"" + more;
    EscapedCons(s, more);
    EscapeCharReads(c, tail, acc);
    Seqs.ConsOnto(acc, s);
  }

  /** The closing quote ends the string body. */
  lemma StringBodyClose(acc: string, more: string)
    ensures StringBody("\"" + more, acc) == Some(Parsed(acc, more))
  {
    assert ("\"" + more)[0] == '"';
    assert ("\"" + more)[1..] == more;
  }

  /** The escaped text of a non-empty string starts with its first character's escape. */
  lemma EscapedCons(s: string, more: string)
    requires s != []
    ensures Escaped(s) + "\"" + more == EscapeChar(s[0]) + (Escaped(s[1..]) + "\"" + more)
  {
  }

  /** A quoted string followed by anything parses as that string value. */
  lemma ValueOfQuoted(x: string, more: string)
    ensures Value(Quote(x) + more) == Some(Parsed(Str(x), more))
  {
    var t := Quote(x) + more;
    assert t[0] == '"';
    assert t[1..] == Escaped(x) + "\"" + more;
    StringBodyOfEscaped(x, "", more);
    assert "" + x == x;
  }

  /** The literals `Quote(x)` of the strings `xs`. */
  function Quoted(xs: seq<string>): (r: seq<string>)
    ensures |r| == |xs|
    ensures forall i :: 0 <= i < |xs| ==> r[i] == Quote(xs[i])
  {
    seq(|xs|, i requires 0 <= i < |xs| => Quote(xs[i]))
  }

  /** The comma-joined literals start with the first literal. */
  lemma JoinQuotedCons(xs: seq<string>)
    requires |xs| >= 1
    ensures JsText.Join(Quoted(xs), ",") ==
      Quote(xs[0]) + (if |xs| == 1 then "" else "," + JsText.Join(Quoted(xs[1..]), ","))
  {
    if |xs| > 1 {
      assert Quoted(xs)[1..] == Quoted(xs[1..]);
    }
  }

  /** After a value, a closing bracket ends the array. */
  lemma ElementsLast(s: string, acc: seq<Json>, v: Json, more: string)
    requires Value(SkipSpace(s)) == Some(Parsed(v, "]" + more))
    ensures Elements(s, acc) == Some(Parsed(Arr(acc + [v]), more))
  {
    var rest := "]" + more;
    SkipNoSpace(rest);
    assert rest[1..] == more;
  }

  /** After a value, a comma continues with the next element. */
  lemma ElementsNext(s: string, acc: seq<Json>, v: Json, tail: string)
    requires Value(SkipSpace(s)) == Some(Parsed(v, "," + tail))
    ensures Elements(s, acc) == Elements(tail, acc + [v])
  {
    var rest := "," + tail;
    SkipNoSpace(rest);
    assert rest[1..] == tail;
  }

  /** The literal text of two or more strings, split after the first literal and its comma. */
  lemma QuotedShape(xs: seq<string>, more: string)
    requires |xs| >= 2
    ensures JsText.Join(Quoted(xs), ",") + "]" + more
      == Quote(xs[0]) + ("," + (JsText.Join(Quoted(xs[1..]), ",") + "]" + more))
  {
    JoinQuotedCons(xs);
    var a := Quote(xs[0]);
    var b := JsText.Join(Quoted(xs[1..]), ",");
    assert JsText.Join(Quoted(xs), ",") == a + ("," + b);
    Seqs.Regroup(a, ",", b, "]", more);
  }

  lemma StrsCons(xs: seq<string>, acc: seq<Json>)
    requires |xs| >= 1
    ensures acc + [Str(xs[0])] + Strs(xs[1..]) == acc + Strs(xs)
  {
    assert Strs(xs) == [Str(xs[0])] + Strs(xs[1..]);
  }

  /** Comma-separated string literals closed by `]` parse as the array tail. */
  lemma {:induction false} ElementsOfQuoted(xs: seq<string>, acc: seq<Json>, more: string)
    requires |xs| >= 1
    ensures Elements(JsText.Join(Quoted(xs), ",") + "]" + more, acc) == Some(Parsed(Arr(acc + Strs(xs)), more))
  {
    var s := JsText.Join(Quoted(xs), ",") + "]" + more;
    var x := xs[0];
    if |xs| == 1 {
      ElementsOfOneQuoted(xs, acc, more);
    } else {
      var tail := JsText.Join(Quoted(xs[1..]), ",") + "]" + more;
      QuotedShape(xs, more);
      QuotedValue(x, "," + tail);
      ElementsNext(s, acc, Str(x), tail);
      ElementsOfQuoted(xs[1..], acc + [Str(x)], more);
      StrsCons(xs, acc);
    }
  }

  /** A single string literal closed by `]` parses as the last element. */
  lemma ElementsOfOneQuoted(xs: seq<string>, acc: seq<Json>, more: string)
    requires |xs| == 1
    ensures Elements(JsText.Join(Quoted(xs), ",") + "]" + more, acc) == Some(Parsed(Arr(acc + Strs(xs)), more))
  {
    var x := xs[0];
    var q := Quote(x);
    JoinQuotedCons(xs);
    assert JsText.Join(Quoted(xs), ",") == q;
    Seqs.AppendAssoc(q, "]", more);
    QuotedValue(x, "]" + more);
    ElementsLast(q + ("]" + more), acc, Str(x), more);
    assert Strs(xs) == [Str(x)];
  }

  /** A quoted string at the start of the input is read as the next value. */
  lemma QuotedValue(x: string, more: string)
    ensures Value(SkipSpace(Quote(x) + more)) == Some(Parsed(Str(x), more))
  {
    assert (Quote(x) + more)[0] == '"';
    SkipNoSpace(Quote(x) + more);
    ValueOfQuoted(x, more);
  }

  /** `JSON.stringify` of an array of strings. */
  function ArrayText(xs: seq<string>): string {
    Stringify(Arr(Strs(xs))).value
  }

  /** The text of an array of strings: the literals, comma-separated, in brackets. */
  lemma ArrayTextShape(xs: seq<string>)
    ensures ArrayText(xs) == "[" + JsText.Join(Quoted(xs), ",") + "]"
  {
    var items := Strs(xs);
    var parts := seq(|items|, i requires 0 <= i < |items| => Stringify(items[i]).GetOr("null"));
    assert parts == Quoted(xs);
  }

  /** The bracketed literals parse as the array of the strings. */
  lemma ArrayOfQuoted(xs: seq<string>)
    ensures Array(JsText.Join(Quoted(xs), ",") + "]") == Some(Parsed(Arr(Strs(xs)), ""))
  {
    var body := JsText.Join(Quoted(xs), ",") + "]";
    if |xs| == 0 {
      assert body == "]";
      assert Strs(xs) == [];
    } else {
      JoinQuotedCons(xs);
      assert body[0] == '"';
      SkipNoSpace(body);
      assert body == JsText.Join(Quoted(xs), ",") + "]" + "";
      ElementsOfQuoted(xs, [], "");
      assert [] + Strs(xs) == Strs(xs);
    }
  }

  /** An opening bracket followed by a complete array body is a JSON text. */
  lemma ParseBracketed(body: string, v: Json)
    requires Array(body) == Some(Parsed(v, ""))
    ensures ParseJson("[" + body) == Some(v)
  {
    var text := "[" + body;
    assert text[0] == '[' && text[1..] == body;
    SkipNoSpace(text);
    ValueOfBracket(text);
    ParseWhole(text, v);
  }

  /** A value that consumes the whole input is the parse result. */
  lemma ParseWhole(s: string, v: Json)
    requires Value(SkipSpace(s)) == Some(Parsed(v, ""))
    ensures ParseJson(s) == Some(v)
  {
  }

  /** A value starting with `[` is an array. */
  lemma ValueOfBracket(s: string)
    requires s != [] && s[0] == '['
    ensures Value(s) == Array(s[1..])
  {
  }

  /** `JSON.parse(JSON.stringify(xs))` gives back the array of strings `xs`. */
  lemma ParseArrayText(xs: seq<string>)
    ensures ParseJson(ArrayText(xs)) == Some(Arr(Strs(xs)))
  {
    var body := JsText.Join(Quoted(xs), ",") + "]";
    ArrayTextShape(xs);
    assert ArrayText(xs) == "[" + body;
    ArrayOfQuoted(xs);
    ParseBracketed(body, Arr(Strs(xs)));
  }

  /** Only input whose first non-blank character is `[` parses as an array. */
  lemma ArrayStartsWithBracket(s: string)
    requires ParseJson(s).Some? && ParseJson(s).value.Arr?
    ensures SkipSpace(s) != [] && SkipSpace(s)[0] == '['
  {
    ValueArrayShape(SkipSpace(s));
  }

  /** A value read as an array started with `[`. */
  lemma ValueArrayShape(t: string)
    requires Value(t).Some? && Value(t).value.value.Arr?
    ensures t != [] && t[0] == '['
  {
  }


  /** A character `trim` keeps is not skipped as JSON whitespace. */
  lemma SpaceIsNotJsonStart(c: char)
    requires !JsText.IsSpace(c)
    ensures !IsJsonSpace(c)
  {
  }
}
