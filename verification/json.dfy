/** The loosely typed values the core consumes: JSON column values from the
    database and the `any`-typed props of the feed list. `Undefined` stands
    for a JavaScript `undefined` (a missing property); a number carries its
    decimal text. An object's fields are listed in the object's own key
    enumeration order, one field per key. */
module JsonValue {
  import opened Wrappers
  import JsText

  datatype Json =
    | Undefined
    | Null
    | Bool(b: bool)
    | Num(text: string)
    | Str(str: string)
    | Arr(items: seq<Json>)
    | Obj(fields: seq<Field>)

  datatype Field = Field(key: string, value: Json)

  /** An array of string values, one per string. */
  function Strs(xs: seq<string>): (r: seq<Json>)
    ensures |r| == |xs|
    ensures forall i :: 0 <= i < |xs| ==> r[i] == Str(xs[i])
  {
    seq(|xs|, i requires 0 <= i < |xs| => Str(xs[i]))
  }

  /** The keys of an object, in enumeration order (`Object.keys`). */
  function Keys(fields: seq<Field>): (r: seq<string>)
    ensures |r| == |fields|
    ensures forall i :: 0 <= i < |fields| ==> r[i] == fields[i].key
  {
    seq(|fields|, i requires 0 <= i < |fields| => fields[i].key)
  }

  /** The value stored under `key` (property access), `None` when the key is absent. */
  function Get(fields: seq<Field>, key: string): (r: Option<Json>)
    ensures r.None? <==> key !in Keys(fields)
    ensures r.Some? ==> exists i :: 0 <= i < |fields| && fields[i] == Field(key, r.value)
  {
    if |fields| == 0 then None
    else if fields[0].key == key then Some(fields[0].value)
    else
      var r := Get(fields[1..], key);
      assert Keys(fields) == [fields[0].key] + Keys(fields[1..]);
      assert r.Some? ==> exists i :: 0 <= i < |fields[1..]| && fields[1..][i] == Field(key, r.value);
      r
  }

  /** The first string-valued field (`Object.values(o).find(v => typeof v === 'string')`). */
  function FirstString(fields: seq<Field>): (r: Option<string>)
    ensures r.None? <==> forall i :: 0 <= i < |fields| ==> !fields[i].value.Str?
    ensures r.Some? ==> exists i ::
              && 0 <= i < |fields| && fields[i].value == Str(r.value)
              && forall k :: 0 <= k < i ==> !fields[k].value.Str?
  {
    if |fields| == 0 then None
    else if fields[0].value.Str? then Some(fields[0].value.str)
    else
      var r := FirstString(fields[1..]);
      if r.Some? then
        var i :| 0 <= i < |fields[1..]| && fields[1..][i].value == Str(r.value)
          && forall k :: 0 <= k < i ==> !fields[1..][k].value.Str?;
        assert fields[i + 1].value == Str(r.value);
        r
      else r
  }

  predicate IsDigit(c: char) {
    '0' <= c <= '9'
  }

  /** Index where the exponent part of a number literal starts (its length if none). */
  function MantissaEnd(text: string): (n: nat)
    ensures n <= |text|
    ensures forall k :: 0 <= k < n ==> text[k] != 'e' && text[k] != 'E'
  {
    if text == [] || text[0] == 'e' || text[0] == 'E' then 0 else 1 + MantissaEnd(text[1..])
  }

  /** A number literal denotes zero when every digit before its exponent is `0`. */
  predicate NumIsZero(text: string) {
    forall k :: 0 <= k < MantissaEnd(text) && IsDigit(text[k]) ==> text[k] == '0'
  }

  /** JavaScript truthiness: `undefined`, `null`, `false`, zero and `""` are falsy. */
  predicate Truthy(v: Json) {
    match v
    case Undefined => false
    case Null => false
    case Bool(b) => b
    case Num(text) => !NumIsZero(text)
    case Str(s) => s != ""
    case Arr(_) => true
    case Obj(_) => true
  }

  /** `String(v)`. An array renders as its elements joined by `,`, with `null`
      and `undefined` elements rendered empty; an object as `[object Object]`. */
  function ToJsString(v: Json): string {
    match v
    case Undefined => "undefined"
    case Null => "null"
    case Bool(b) => if b then "true" else "false"
    case Num(text) => text
    case Str(s) => s
    case Arr(items) =>
      JsText.Join(seq(|items|, i requires 0 <= i < |items| =>
        if items[i].Null? || items[i].Undefined? then "" else ToJsString(items[i])), ",")
    case Obj(_) => "[object Object]"
  }

  const HexDigits: string := "0123456789abcdef"

  /** Escaped form of one character inside a JSON string literal. */
  function EscapeChar(c: char): string {
    if c == '"' then "\\\""
    else if c == '\\' then "\\\\"
    else if c == '\U{0008}' then "\\b"
    else if c == '\U{000C}' then "\\f"
    else if c == '\n' then "\\n"
    else if c == '\r' then "\\r"
    else if c == '\t' then "\\t"
    else if c < ' ' then
      var n := c as int;
      "\\u00" + [HexDigits[n / 16], HexDigits[n % 16]]
    else [c]
  }

  /** A JSON string literal for `s`, as `JSON.stringify` writes it. */
  function Quote(s: string): string {
    "\"" + Escaped(s) + "\""
  }

  function Escaped(s: string): string {
    if s == [] then "" else EscapeChar(s[0]) + Escaped(s[1..])
  }

  /** A character `JSON.stringify` writes as itself. */
  predicate IsPlain(c: char) {
    c >= ' ' && c != '"' && c != '\\'
  }

  /** Text of plain characters needs no escaping. */
  lemma {:induction false} EscapedPlain(s: string)
    requires forall i :: 0 <= i < |s| ==> IsPlain(s[i])
    ensures Escaped(s) == s
  {
    if s != [] {
      EscapedPlain(s[1..]);
      assert [s[0]] + s[1..] == s;
    }
  }

  /** `JSON.stringify(v)`: `None` for `undefined`, which has no JSON text;
      array slots holding `undefined` print as `null` and object fields
      holding `undefined` are skipped. */
  function Stringify(v: Json): (r: Option<string>)
    ensures r.None? <==> v.Undefined?
  {
    match v
    case Undefined => None
    case Null => Some("null")
    case Bool(b) => Some(if b then "true" else "false")
    case Num(text) => Some(text)
    case Str(s) => Some(Quote(s))
    case Arr(items) =>
      Some("[" + JsText.Join(seq(|items|, i requires 0 <= i < |items| =>
        Stringify(items[i]).GetOr("null")), ",") + "]")
    case Obj(fields) =>
      Some("{" + JsText.Join(Members(fields), ",") + "}")
  }

  /** The `"key":value` members of an object, skipping `undefined` values. */
  function Members(fields: seq<Field>): seq<string>
    decreases fields
  {
    if |fields| == 0 then []
    else
      var rest := Members(fields[1..]);
      match Stringify(fields[0].value)
      case None => rest
      case Some(text) => [Quote(fields[0].key) + ":" + text] + rest
  }
}
