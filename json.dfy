/** The values the application passes around: request bodies, stored
    documents and the records the routes answer with, as JavaScript and
    the document store see them. */
module Json {
  import Text

  /** A JavaScript value as it appears in a request body or a stored
      document. `Undefined` is what reading an absent field yields; numbers
      are integral; a `Date` is its millisecond timestamp. */
  datatype Value =
    | Undefined
    | Null
    | Bool(b: bool)
    | Num(n: int)
    | Str(s: string)
    | Date(ms: int)
    | Arr(items: seq<Value>)
    | Obj(fields: map<string, Value>)

  /** A document or a plain object: field name to value. */
  type Doc = map<string, Value>

  /** A form whose fields are all text: a multipart upload or the state of
      an input form. */
  type Form = map<string, string>

  /** A form field, the empty string when absent. */
  function Field(form: Form, k: string): string {
    if k in form then form[k] else ""
  }

  /** `d.k`: the value of field `k`, `Undefined` when absent. */
  function Get(d: Doc, k: string): Value {
    if k in d then d[k] else Undefined
  }

  /** JavaScript truthiness (no NaN among the modelled numbers). */
  predicate Truthy(v: Value) {
    match v
    case Undefined => false
    case Null => false
    case Bool(b) => b
    case Num(n) => n != 0
    case Str(s) => s != ""
    case _ => true
  }

  /** `a || b` */
  function Or(a: Value, b: Value): Value {
    if Truthy(a) then a else b
  }

  /** The string a field holds, `""` when it holds anything else. */
  function StrOf(v: Value): string {
    if v.Str? then v.s else ""
  }

  /** `String(v)`, also what a template literal writes for `v`. A `Date` is
      written as its millisecond count. */
  function ToText(v: Value): string
    decreases v
  {
    match v
    case Undefined => "undefined"
    case Null => "null"
    case Bool(b) => if b then "true" else "false"
    case Num(n) => Text.IntToString(n)
    case Str(s) => s
    case Date(ms) => Text.IntToString(ms)
    case Arr(items) =>
      Text.Join(seq(|items|, i requires 0 <= i < |items| =>
        if items[i].Undefined? || items[i].Null? then "" else ToText(items[i])), ",")
    case Obj(_) => "[object Object]"
  }

  /** How `Array.prototype.join` writes one element: `null` and
      `undefined` become the empty string, anything else `String(v)`. */
  function JoinText(v: Value): string {
    if v.Undefined? || v.Null? then "" else ToText(v)
  }

  /** A string holds no characters of another kind: `String(v)` of a string
      is the string itself, and `join` writes it unchanged too. */
  lemma TextOfString(s: string)
    ensures ToText(Str(s)) == s && JoinText(Str(s)) == s
  {
  }

  /** `{...d, k: v}` */
  function With(d: Doc, k: string, v: Value): (r: Doc)
    ensures r.Keys == d.Keys + {k}
    ensures r[k] == v && forall j | j in d && j != k :: r[j] == d[j]
  {
    d[k := v]
  }

  /** `{...d, ...patch}`: every field of `patch`, and the fields of `d`
      that `patch` does not name. */
  function Merge(d: Doc, patch: Doc): (r: Doc)
    ensures r.Keys == d.Keys + patch.Keys
    ensures forall k | k in patch :: r[k] == patch[k]
    ensures forall k | k in d && k !in patch :: r[k] == d[k]
  {
    d + patch
  }

  /** `const { a, b, ...rest } = d`: `rest` is `d` without the named fields. */
  function Without(d: Doc, names: set<string>): (r: Doc)
    ensures r.Keys == d.Keys - names
    ensures forall k | k in r :: r[k] == d[k]
  {
    d - names
  }

  /** A hexadecimal digit as `JSON.stringify` writes it. */
  function HexDigit(d: int): char
    requires 0 <= d < 16
  {
    if d < 10 then ('0' as int + d) as char else ('a' as int + d - 10) as char
  }

  /** How `JSON.stringify` writes one character inside a string literal:
      the quote and the backslash escaped, the control characters by their
      short escape or as `\u00XX`, every other character as itself. */
  function EscapeChar(c: char): string {
    if c == '"' then "\\\""
    else if c == '\\' then "\\\\"
    else if c == '\U{8}' then "\\b"
    else if c == '\t' then "\\t"
    else if c == '\n' then "\\n"
    else if c == '\U{C}' then "\\f"
    else if c == '\r' then "\\r"
    else if (c as int) < 0x20 then "\\u00" + [HexDigit(c as int / 16), HexDigit(c as int % 16)]
    else [c]
  }

  /** The characters `JSON.stringify` writes unchanged. */
  predicate IsPlain(c: char) {
    c != '"' && c != '\\' && (c as int) >= 0x20
  }

  function Escaped(s: string): string
    decreases |s|
  {
    if |s| == 0 then "" else EscapeChar(s[0]) + Escaped(s[1..])
  }

  /** `JSON.stringify(s)` for a string `s`. */
  function Quote(s: string): (r: string)
    ensures |r| >= 2 && r[0] == '"' && r[|r| - 1] == '"'
  {
    "\"" + Escaped(s) + "\""
  }

  /** A string of plain characters is written between quotes as it is. */
  lemma {:induction false} EscapedPlain(s: string)
    requires forall i | 0 <= i < |s| :: IsPlain(s[i])
    ensures Escaped(s) == s
    decreases |s|
  {
    if |s| > 0 {
      EscapedPlain(s[1..]);
      assert [s[0]] + s[1..] == s;
    }
  }

  /** A plain character is written as itself; any other is written as an
      escape sequence, which starts with a backslash, so no quote or
      control character of the text reaches the literal as it is. */
  lemma EscapeCharShape(c: char)
    ensures IsPlain(c) <==> EscapeChar(c) == [c]
    ensures !IsPlain(c) ==> |EscapeChar(c)| >= 2 && EscapeChar(c)[0] == '\\'
  {
  }
}
