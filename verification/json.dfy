/** JSON values as `JSON.parse` produces them and `JSON.stringify` writes them,
    with the JavaScript lookups the routes apply to them. */
module Json {
  import opened Wrappers
  import Decimal

  /** Numbers are integers here; objects keep their members in insertion order. */
  datatype Json =
    | JNull
    | JBool(b: bool)
    | JNum(n: int)
    | JStr(s: string)
    | JArr(items: seq<Json>)
    | JObj(members: seq<(string, Json)>)

  /** `obj.key` for an own member of an object; `undefined` (None) otherwise.
      As in `JSON.parse`, a repeated key holds its last value. */
  function Get(j: Json, key: string): (v: Option<Json>)
    ensures v.Some? ==> j.JObj? && exists i | 0 <= i < |j.members| :: j.members[i] == (key, v.value)
    ensures j.JObj? && (exists i | 0 <= i < |j.members| :: j.members[i].0 == key) ==> v.Some?
  {
    if !j.JObj? then None else Lookup(j.members, key)
  }

  function Lookup(ms: seq<(string, Json)>, key: string): (v: Option<Json>)
    ensures v.Some? ==> exists i | 0 <= i < |ms| :: ms[i] == (key, v.value)
    ensures (exists i | 0 <= i < |ms| :: ms[i].0 == key) ==> v.Some?
    ensures |ms| > 0 && ms[|ms| - 1].0 == key ==> v == Some(ms[|ms| - 1].1)
  {
    if ms == [] then None
    else if ms[|ms| - 1].0 == key then Some(ms[|ms| - 1].1)
    else
      var v := Lookup(ms[..|ms| - 1], key);
      assert forall i | 0 <= i < |ms| - 1 :: ms[..|ms| - 1][i] == ms[i];
      v
  }

  /** A member appended under another name does not change a lookup. */
  lemma LookupSkip(ms: seq<(string, Json)>, m: (string, Json), key: string)
    requires m.0 != key
    ensures Lookup(ms + [m], key) == Lookup(ms, key)
  {
    assert (ms + [m])[..|ms|] == ms;
  }

  /** A member appended last is the one found under its name. */
  lemma LookupHit(ms: seq<(string, Json)>, m: (string, Json))
    ensures Lookup(ms + [m], m.0) == Some(m.1)
  {
  }

  /** `x?.key`: missing values stay missing. */
  function Member(j: Option<Json>, key: string): Option<Json> {
    if j.None? then None else Get(j.value, key)
  }

  /** `x?.[0]`: the first element of an array, the member named "0" of an
      object, or the first code unit of a string (a one-character string). */
  function First(j: Option<Json>): (v: Option<Json>)
    ensures v.Some? ==> j.Some? && (j.value.JArr? || j.value.JObj? || j.value.JStr?)
  {
    if j.None? then None
    else match j.value
      case JArr(items) => if items == [] then None else Some(items[0])
      case JObj(_) => Get(j.value, "0")
      case JStr(s) => if s == [] then None else Some(JStr(s[..1]))
      case _ => None
  }

  /** JavaScript truthiness of a parsed value; `undefined` is falsy. */
  predicate Truthy(j: Option<Json>) {
    j.Some? &&
    match j.value
    case JNull => false
    case JBool(b) => b
    case JNum(n) => n != 0
    case JStr(s) => s != []
    case _ => true
  }

  // --- JSON.stringify ---------------------------------------------------

  function HexDigit(d: nat): (c: char)
    requires d < 16
  {
    if d < 10 then Decimal.DigitChar(d) else (('a' as int) + d - 10) as char
  }

  /** The escape `JSON.stringify` writes for one character. */
  function Escape(c: char): (e: string)
    ensures |e| >= 1
    ensures c != '"' && c != '\\' && c as int >= 0x20 ==> e == [c]
  {
    if c == '"' then "\\\""
    else if c == '\\' then "\\\\"
    else if c == '\U{8}' then "\\b"
    else if c == '\U{C}' then "\\f"
    else if c == '\n' then "\\n"
    else if c == '\r' then "\\r"
    else if c == '\t' then "\\t"
    else if c as int < 0x20 then "\\u00" + [HexDigit(c as int / 16), HexDigit(c as int % 16)]
    else [c]
  }

  function EscapeAll(s: string): string {
    if s == [] then [] else Escape(s[0]) + EscapeAll(s[1..])
  }

  /** Characters `JSON.stringify` writes as themselves inside a string. */
  predicate Plain(s: string) {
    forall i | 0 <= i < |s| :: s[i] != '"' && s[i] != '\\' && s[i] as int >= 0x20
  }

  /** A string with nothing to escape is written verbatim between quotes. */
  lemma {:induction false} EscapePlain(s: string)
    requires Plain(s)
    ensures EscapeAll(s) == s
  {
    if s != [] {
      assert Plain(s[1..]) by {
        forall i | 0 <= i < |s[1..]| ensures s[1..][i] == s[i + 1] {}
      }
      EscapePlain(s[1..]);
    }
  }

  /** No escape produced contains a bare quote except as `\"`, and none
      contains a control character, so the written text is one line. */
  lemma {:induction false} EscapedHasNoControl(s: string)
    ensures forall i | 0 <= i < |EscapeAll(s)| :: EscapeAll(s)[i] as int >= 0x20
  {
    if s != [] {
      EscapedHasNoControl(s[1..]);
      var e := Escape(s[0]);
      assert forall i | 0 <= i < |e| :: e[i] as int >= 0x20;
      var r := EscapeAll(s[1..]);
      assert EscapeAll(s) == e + r;
      forall i | 0 <= i < |e + r| ensures (e + r)[i] as int >= 0x20 {
        if i < |e| { assert (e + r)[i] == e[i]; } else { assert (e + r)[i] == r[i - |e|]; }
      }
    }
  }

  function Quote(s: string): string {
    "\"" + EscapeAll(s) + "\""
  }

  /** `JSON.stringify(j)`, with no whitespace. */
  function Stringify(j: Json): string
    decreases j, 1
  {
    match j
    case JNull => "null"
    case JBool(b) => if b then "true" else "false"
    case JNum(n) => Decimal.IntString(n)
    case JStr(s) => Quote(s)
    case JArr(items) => "[" + Items(j, items) + "]"
    case JObj(ms) => "{" + Members(j, ms) + "}"
  }

  function Items(parent: Json, items: seq<Json>): string
    requires forall i | 0 <= i < |items| :: items[i] < parent
    decreases parent, 0, |items|
  {
    if items == [] then ""
    else if |items| == 1 then Stringify(items[0])
    else Stringify(items[0]) + "," + Items(parent, items[1..])
  }

  function Members(parent: Json, ms: seq<(string, Json)>): string
    requires forall i | 0 <= i < |ms| :: ms[i].1 < parent
    decreases parent, 0, |ms|
  {
    if ms == [] then ""
    else if |ms| == 1 then Quote(ms[0].0) + ":" + Stringify(ms[0].1)
    else Quote(ms[0].0) + ":" + Stringify(ms[0].1) + "," + Members(parent, ms[1..])
  }
}
