/**
  The JSON text of the signaling messages: what the hand-written recursive parser accepts
  and returns, and the compact printed form, which it inverts.

  Text is a `string` whose characters stand for the program's `char` bytes.
*/
module JsonSpec {
  import opened Bytes

  datatype Field = Field(key: string, value: Json)

  /** A number keeps its spelling; it is converted where it is used. */
  datatype Json =
    | Null
    | Bool(b: bool)
    | Number(text: string)
    | String(s: string)
    | Array(items: seq<Json>)
    | Object(fields: seq<Field>)
  {
    /** The first value under `key`, if this is an object that has one. */
    function Find(key: string): Option<Json> {
      if Object? then FindField(fields, key) else None
    }
  }

  function FindField(fields: seq<Field>, key: string): Option<Json> {
    if fields == [] then None
    else if fields[0].key == key then Some(fields[0].value)
    else FindField(fields[1..], key)
  }

  // ---------------------------------------------------------------------------
  // Scanning. Every function takes the unread input and returns what is left of it.
  // ---------------------------------------------------------------------------

  predicate IsSpace(c: char) {
    c == ' ' || c == '\t' || c == '\n' || c == '\r'
  }

  function SkipWs(s: string): (rest: string)
    ensures |rest| <= |s|
    ensures rest == "" || !IsSpace(rest[0])
  {
    if s != "" && IsSpace(s[0]) then SkipWs(s[1..]) else s
  }

  predicate StartsWith(s: string, c: char) {
    s != "" && s[0] == c
  }

  function HexValue(h: char): Option<nat> {
    if '0' <= h <= '9' then Some(h as int - '0' as int)
    else if 'a' <= h <= 'f' then Some(h as int - 'a' as int + 10)
    else if 'A' <= h <= 'F' then Some(h as int - 'A' as int + 10)
    else None
  }

  /** The value of `\uXXXX`'s four digits. */
  function Hex4(s: string): Option<nat>
    requires |s| >= 4
  {
    match (HexValue(s[0]), HexValue(s[1]), HexValue(s[2]), HexValue(s[3]))
    case (Some(a), Some(b), Some(c), Some(d)) => Some(0x1000 * a + 0x100 * b + 0x10 * c + d)
    case _ => None
  }

  function Byte(n: nat): char
    requires n < 0x100
  {
    n as char
  }

  /** A code point of the basic plane, encoded as UTF-8. */
  function Utf8(cp: nat): string
    requires cp < 0x1_0000
  {
    if cp < 0x80 then [Byte(cp)]
    else if cp < 0x800 then [Byte(0xC0 + cp / 0x40), Byte(0x80 + cp % 0x40)]
    else [Byte(0xE0 + cp / 0x1000), Byte(0x80 + cp / 0x40 % 0x40), Byte(0x80 + cp % 0x40)]
  }

  lemma Hex4Bound(s: string)
    requires |s| >= 4
    ensures Hex4(s).Some? ==> Hex4(s).value < 0x1_0000
  {
  }

  function Unescape(e: char): char {
    match e
    case 'b' => Byte(8)
    case 'f' => Byte(12)
    case 'n' => '\n'
    case 'r' => '\r'
    case 't' => '\t'
    case _ => e
  }

  /** From behind the opening quote: the characters up to the closing one. */
  function ScanString(s: string): (r: Option<(string, string)>)
    ensures r.Some? ==> |r.value.1| < |s|
    decreases |s|
  {
    if s == "" then None
    else if s[0] == '"' then Some(("", s[1..]))
    else if s[0] != '\\' then Prepend([s[0]], ScanString(s[1..]))
    else if |s| < 2 then None
    else if s[1] != 'u' then Prepend([Unescape(s[1])], ScanString(s[2..]))
    else if |s| < 6 || Hex4(s[2..6]).None? then None
    else
      Hex4Bound(s[2..6]);
      Prepend(Utf8(Hex4(s[2..6]).value), ScanString(s[6..]))
  }

  function Prepend(t: string, r: Option<(string, string)>): (q: Option<(string, string)>)
    ensures q.Some? <==> r.Some?
    ensures r.Some? ==> q.value == (t + r.value.0, r.value.1)
  {
    if r.None? then None else Some((t + r.value.0, r.value.1))
  }

  function ParseString(s: string): (r: Option<(string, string)>)
    ensures r.Some? ==> |r.value.1| < |s|
  {
    var t := SkipWs(s);
    if StartsWith(t, '"') then ScanString(t[1..]) else None
  }

  predicate IsDigit(c: char) {
    '0' <= c <= '9'
  }

  /** The length of the leading run of digits. */
  function Digits(s: string): (n: nat)
    ensures n <= |s|
  {
    if s != "" && IsDigit(s[0]) then 1 + Digits(s[1..]) else 0
  }

  function SignLength(s: string): (n: nat)
    ensures n <= |s|
  {
    if s != "" && (s[0] == '-' || s[0] == '+') then 1 else 0
  }

  /** A decimal point and the digits behind it, if the text starts with one. */
  function FractionLength(s: string): (n: nat)
    ensures n <= |s|
  {
    if StartsWith(s, '.') then 1 + Digits(s[1..]) else 0
  }

  function ExponentLength(s: string): (n: nat)
    ensures n <= |s|
  {
    if s != "" && (s[0] == 'e' || s[0] == 'E') then
      var sign := SignLength(s[1..]);
      1 + sign + Digits(s[1..][sign..])
    else 0
  }

  /** The parts of a number: its sign, digits, fraction and exponent, each where the last one ends. */
  function BehindSign(s: string): string {
    s[SignLength(s)..]
  }

  function BehindDigits(s: string): string {
    s[Digits(s)..]
  }

  function BehindFraction(s: string): string {
    s[FractionLength(s)..]
  }

  function NumberLength(s: string): (n: nat)
    ensures n <= |s|
  {
    var afterSign := BehindSign(s);
    var afterDigits := BehindDigits(afterSign);
    SignLength(s) + Digits(afterSign) + FractionLength(afterDigits) + ExponentLength(BehindFraction(afterDigits))
  }

  predicate HasDigit(s: string) {
    Digits(BehindSign(s)) > 0 || FractionLength(BehindDigits(BehindSign(s))) > 1
  }

  function ParseNumber(s: string): (r: Option<(Json, string)>)
    ensures r.Some? ==> |r.value.1| < |s|
  {
    if HasDigit(s) then Some((Number(s[..NumberLength(s)]), s[NumberLength(s)..])) else None
  }

  predicate HasPrefix(s: string, lit: string) {
    |lit| <= |s| && s[..|lit|] == lit
  }

  function ParseLiteral(s: string): (r: Option<(Json, string)>)
    ensures r.Some? ==> |r.value.1| < |s|
  {
    if HasPrefix(s, "true") then Some((Bool(true), s[4..]))
    else if HasPrefix(s, "false") then Some((Bool(false), s[5..]))
    else if HasPrefix(s, "null") then Some((Null, s[4..]))
    else None
  }

  function ParseValue(s: string): (r: Option<(Json, string)>)
    ensures r.Some? ==> |r.value.1| < |s|
    decreases |s|, 0
  {
    var t := SkipWs(s);
    if t == "" then None
    else if t[0] == '"' then
      var r := ScanString(t[1..]);
      if r.None? then None else Some((String(r.value.0), r.value.1))
    else if t[0] == '{' then ParseObject(t[1..])
    else if t[0] == '[' then ParseArray(t[1..])
    else if ParseLiteral(t).Some? then ParseLiteral(t)
    else if t[0] == '-' || IsDigit(t[0]) then ParseNumber(t)
    else None
  }

  /** Behind the opening brace. */
  function ParseObject(s: string): (r: Option<(Json, string)>)
    ensures r.Some? ==> |r.value.1| < |s|
    decreases |s|, 2
  {
    var u := SkipWs(s);
    if StartsWith(u, '}') then Some((Object([]), u[1..]))
    else
      var r := ParseMembers(u);
      if r.None? then None else Some((Object(r.value.0), r.value.1))
  }

  /** Behind the opening bracket. */
  function ParseArray(s: string): (r: Option<(Json, string)>)
    ensures r.Some? ==> |r.value.1| < |s|
    decreases |s|, 2
  {
    var u := SkipWs(s);
    if StartsWith(u, ']') then Some((Array([]), u[1..]))
    else
      var r := ParseItems(u);
      if r.None? then None else Some((Array(r.value.0), r.value.1))
  }

  /** `"key" : value`, and more of them after a comma, up to the closing brace. */
  function ParseMembers(s: string): (r: Option<(seq<Field>, string)>)
    ensures r.Some? ==> |r.value.1| < |s|
    decreases |s|, 1
  {
    var m := ParseMember(s);
    if m.None? then None
    else
      var w := SkipWs(m.value.1);
      if StartsWith(w, ',') then
        var rest := ParseMembers(w[1..]);
        if rest.None? then None else Some(([m.value.0] + rest.value.0, rest.value.1))
      else if StartsWith(w, '}') then Some(([m.value.0], w[1..]))
      else None
  }

  function ParseMember(s: string): (r: Option<(Field, string)>)
    ensures r.Some? ==> |r.value.1| < |s|
    decreases |s|, 0
  {
    var k := ParseString(s);
    if k.None? then None
    else
      var u := SkipWs(k.value.1);
      if !StartsWith(u, ':') then None
      else
        var v := ParseValue(u[1..]);
        if v.None? then None else Some((Field(k.value.0, v.value.0), v.value.1))
  }

  function ParseItems(s: string): (r: Option<(seq<Json>, string)>)
    ensures r.Some? ==> |r.value.1| < |s|
    decreases |s|, 1
  {
    var v := ParseValue(s);
    if v.None? then None
    else
      var w := SkipWs(v.value.1);
      if StartsWith(w, ',') then
        var rest := ParseItems(w[1..]);
        if rest.None? then None else Some(([v.value.0] + rest.value.0, rest.value.1))
      else if StartsWith(w, ']') then Some(([v.value.0], w[1..]))
      else None
  }

  // ---------------------------------------------------------------------------
  // Printing
  // ---------------------------------------------------------------------------

  function HexDigit(n: nat): char
    requires n < 16
  {
    if n < 10 then ('0' as int + n) as char else ('a' as int + n - 10) as char
  }

  function EscapeChar(c: char): string {
    if c == '"' then "\\\""
    else if c == '\\' then "\\\\"
    else if c == Byte(8) then "\\b"
    else if c == Byte(12) then "\\f"
    else if c == '\n' then "\\n"
    else if c == '\r' then "\\r"
    else if c == '\t' then "\\t"
    else if c < ' ' then "\\u00" + [HexDigit(c as int / 16), HexDigit(c as int % 16)]
    else [c]
  }

  function EscapeJson(s: string): string {
    if s == "" then "" else EscapeJson(s[..|s| - 1]) + EscapeChar(s[|s| - 1])
  }

  function Quoted(s: string): string {
    "\"" + EscapeJson(s) + "\""
  }

  function Print(v: Json): string
    decreases v, 1
  {
    match v
    case Null => "null"
    case Bool(b) => if b then "true" else "false"
    case Number(text) => text
    case String(s) => Quoted(s)
    case Array(items) => "[" + PrintItems(items) + "]"
    case Object(fields) => "{" + PrintFields(fields) + "}"
  }

  function PrintItems(items: seq<Json>): string
    decreases items, 0
  {
    if items == [] then ""
    else if |items| == 1 then Print(items[0])
    else Print(items[0]) + "," + PrintItems(items[1..])
  }

  function PrintField(f: Field): string
    decreases f, 0
  {
    Quoted(f.key) + ":" + Print(f.value)
  }

  function PrintFields(fields: seq<Field>): string
    decreases fields, 0
  {
    if fields == [] then ""
    else if |fields| == 1 then PrintField(fields[0])
    else PrintField(fields[0]) + "," + PrintFields(fields[1..])
  }

  /** An optional minus sign and at least one digit. */
  predicate IsInteger(text: string) {
    var sign := if StartsWith(text, '-') then 1 else 0;
    |text| > sign && forall i :: sign <= i < |text| ==> IsDigit(text[i])
  }

  /** Every number in the tree is an integer literal. */
  predicate Integral(v: Json)
    decreases v, 1
  {
    match v
    case Number(text) => IsInteger(text)
    case Array(items) => forall i :: 0 <= i < |items| ==> Integral(items[i])
    case Object(fields) => forall i :: 0 <= i < |fields| ==> Integral(fields[i].value)
    case _ => true
  }
}
