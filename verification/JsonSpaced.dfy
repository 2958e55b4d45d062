/**
  JSON texts as other programs write them: any white space around every token, any spelling of
  the characters in a string, numbers with fraction and exponent (RFC 8259). Reading such a
  text gives back the tree it spells.
*/
module JsonSpaced {
  import opened Bytes
  import opened SeqFacts
  import opened JsonSpec
  import opened JsonRoundTrip

  // ---------------------------------------------------------------------------
  // White space
  // ---------------------------------------------------------------------------

  /** Blanks, tabs, line feeds and carriage returns (section 2 of RFC 8259). */
  predicate White(w: string) {
    forall i :: 0 <= i < |w| ==> w[i] == ' ' || w[i] == '\t' || w[i] == '\n' || w[i] == '\r'
  }

  /** The text is at an end or at the start of a token. */
  predicate AtToken(s: string) {
    s != "" ==> s[0] != ' ' && s[0] != '\t' && s[0] != '\n' && s[0] != '\r'
  }

  lemma {:induction false} SkipWhite(w: string, rest: string)
    requires White(w) && AtToken(rest)
    ensures SkipWs(w + rest) == rest
  {
    if w == "" {
      Unit(rest);
    } else {
      assert (w + rest)[1..] == w[1..] + rest;
      SkipWhite(w[1..], rest);
    }
  }

  // ---------------------------------------------------------------------------
  // Strings
  // ---------------------------------------------------------------------------

  /** A character as it stands, behind a backslash, or as `\u` and four digits. */
  datatype Piece =
    | Plain(c: char)
    | Short(c: char)
    | Code(digits: seq<nat>, upper: seq<bool>)

  predicate Spelled(p: Piece) {
    match p
    case Plain(c) => c != '"' && c != '\\'
    case Short(c) => c != 'u'
    case Code(digits, upper) => |digits| == |upper| == 4 && forall i :: 0 <= i < 4 ==> digits[i] < 16
  }

  const LOWER := "0123456789abcdef"
  const UPPER := "0123456789ABCDEF"

  function DigitText(d: nat, upper: bool): char
    requires d < 16
  {
    if upper then UPPER[d] else LOWER[d]
  }

  function PieceText(p: Piece): string
    requires Spelled(p)
  {
    match p
    case Plain(c) => [c]
    case Short(c) => ['\\', c]
    case Code(d, u) =>
      ['\\', 'u', DigitText(d[0], u[0]), DigitText(d[1], u[1]), DigitText(d[2], u[2]), DigitText(d[3], u[3])]
  }

  /** The control characters behind the letters b, f, n, r and t; any other character stands for itself. */
  function PieceValue(p: Piece): string
    requires Spelled(p)
  {
    match p
    case Plain(c) => [c]
    case Short(c) =>
      if c == 'b' then [8 as char] else if c == 'f' then [12 as char]
      else if c == 'n' then [10 as char] else if c == 'r' then [13 as char]
      else if c == 't' then [9 as char] else [c]
    case Code(d, u) => Utf8(((d[0] * 16 + d[1]) * 16 + d[2]) * 16 + d[3])
  }

  predicate AllSpelled(ps: seq<Piece>) {
    forall i :: 0 <= i < |ps| ==> Spelled(ps[i])
  }

  function Spelling(ps: seq<Piece>): string
    requires AllSpelled(ps)
  {
    if ps == [] then "" else PieceText(ps[0]) + Spelling(ps[1..])
  }

  function Meaning(ps: seq<Piece>): string
    requires AllSpelled(ps)
  {
    if ps == [] then "" else PieceValue(ps[0]) + Meaning(ps[1..])
  }

  lemma DigitIsRead(d: nat, upper: bool)
    requires d < 16
    ensures HexValue(DigitText(d, upper)) == Some(d)
  {
  }

  lemma ScanPiece(p: Piece, tail: string)
    requires Spelled(p)
    ensures ScanString(PieceText(p) + tail) == Prepend(PieceValue(p), ScanString(tail))
  {
    var e := PieceText(p);
    var s := e + tail;
    assert s[|e|..] == tail;
    match p
    case Plain(c) =>
    case Short(c) =>
      assert s[0] == '\\' && s[1] == c;
    case Code(d, u) =>
      ScanCode(d, u, tail);
  }

  lemma ScanCode(d: seq<nat>, u: seq<bool>, tail: string)
    requires Spelled(Code(d, u))
    ensures ScanString(PieceText(Code(d, u)) + tail) == Prepend(PieceValue(Code(d, u)), ScanString(tail))
  {
    hide DigitText, HexValue, Utf8;
    var s := PieceText(Code(d, u)) + tail;
    assert s[2..6] == [DigitText(d[0], u[0]), DigitText(d[1], u[1]), DigitText(d[2], u[2]), DigitText(d[3], u[3])];
    assert s[6..] == tail;
    DigitIsRead(d[0], u[0]);
    DigitIsRead(d[1], u[1]);
    DigitIsRead(d[2], u[2]);
    DigitIsRead(d[3], u[3]);
  }

  lemma {:induction false} ScanSpelled(ps: seq<Piece>, rest: string)
    requires AllSpelled(ps)
    ensures ScanString(Spelling(ps) + ("\"" + rest)) == Some((Meaning(ps), rest))
    decreases |ps|
  {
    var close := "\"" + rest;
    if ps == [] {
      Unit(close);
      DropPrefix("\"", rest);
    } else {
      ScanSpelled(ps[1..], rest);
      Assoc(PieceText(ps[0]), Spelling(ps[1..]), close);
      ScanPiece(ps[0], Spelling(ps[1..]) + close);
    }
  }

  /** One to three bytes, read as UTF-8 (section 3 of RFC 3629); none if there are more than needed. */
  function ReadUtf8(s: string): Option<nat> {
    if |s| == 1 && s[0] < 0x80 as char then Some(s[0] as nat)
    else if |s| == 2 && 0xC2 <= s[0] as int < 0xE0 && IsTail(s[1]) then
      Some((s[0] as nat - 0xC0) * 64 + (s[1] as nat - 0x80))
    else if |s| == 3 && 0xE0 <= s[0] as int < 0xF0 && IsTail(s[1]) && IsTail(s[2])
            && (s[0] as int == 0xE0 ==> s[1] as int >= 0xA0) then
      Some((s[0] as nat - 0xE0) * 4096 + (s[1] as nat - 0x80) * 64 + (s[2] as nat - 0x80))
    else None
  }

  predicate IsTail(c: char) {
    0x80 <= c as int < 0xC0
  }

  /** An escaped code point becomes its UTF-8 bytes, in the shortest form. */
  lemma Utf8IsRead(cp: nat)
    requires cp < 0x1_0000
    ensures ReadUtf8(Utf8(cp)) == Some(cp)
  {
    if cp >= 0x800 {
      assert cp / 0x40 == 0x40 * (cp / 0x1000) + cp / 0x40 % 0x40;
      assert cp == 0x40 * (cp / 0x40) + cp % 0x40;
    }
  }

  // ---------------------------------------------------------------------------
  // Numbers
  // ---------------------------------------------------------------------------

  /** The exponent: its letter, a sign or nothing, and digits. */
  datatype Exponent = Exponent(letter: char, sign: string, digits: string)

  datatype NumberText = NumberText(minus: bool, digits: string, fraction: Option<string>, exponent: Option<Exponent>)

  predicate AllDigits(s: string) {
    forall i :: 0 <= i < |s| ==> '0' <= s[i] <= '9'
  }

  /** Digits before the point, or behind a minus sign at least digits behind it. */
  predicate IsNumber(n: NumberText) {
    && AllDigits(n.digits)
    && (n.digits != "" || (n.minus && n.fraction.Some? && n.fraction.value != ""))
    && (n.fraction.Some? ==> AllDigits(n.fraction.value))
    && (n.exponent.Some? ==>
          && (n.exponent.value.letter == 'e' || n.exponent.value.letter == 'E')
          && IsSign(n.exponent.value.sign) && AllDigits(n.exponent.value.digits))
  }

  function FractionText(f: Option<string>): string {
    if f.None? then "" else "." + f.value
  }

  function ExponentText(e: Option<Exponent>): string {
    if e.None? then "" else [e.value.letter] + e.value.sign + e.value.digits
  }

  function NumberSpelling(n: NumberText): string {
    (if n.minus then "-" else "") + n.digits + FractionText(n.fraction) + ExponentText(n.exponent)
  }

  /** The text cannot continue a number. */
  predicate EndsNumber(rest: string) {
    rest == "" || !(('0' <= rest[0] <= '9') || rest[0] == '.' || rest[0] == 'e' || rest[0] == 'E'
                    || rest[0] == '+' || rest[0] == '-')
  }

  lemma FractionIsRead(f: Option<string>, rest: string)
    requires f.Some? ==> AllDigits(f.value)
    requires rest == "" || (!IsDigit(rest[0]) && rest[0] != '.')
    ensures FractionLength(FractionText(f) + rest) == |FractionText(f)|
    ensures BehindFraction(FractionText(f) + rest) == rest
  {
    if f.Some? {
      Assoc(".", f.value, rest);
      DropPrefix(".", f.value + rest);
      DigitsAll(f.value, rest);
      hide Digits;
    } else {
      Unit(rest);
    }
    DropPrefix(FractionText(f), rest);
  }

  predicate IsSign(sign: string) {
    sign == "" || sign == "+" || sign == "-"
  }

  lemma SignIsRead(sign: string, rest: string)
    requires IsSign(sign) && (rest == "" || (rest[0] != '+' && rest[0] != '-'))
    ensures SignLength(sign + rest) == |sign| && BehindSign(sign + rest) == rest
  {
    DropPrefix(sign, rest);
    Unit(rest);
  }

  lemma ExponentIsRead(e: Option<Exponent>, rest: string)
    requires e.Some? ==> (e.value.letter == 'e' || e.value.letter == 'E') && AllDigits(e.value.digits)
                         && IsSign(e.value.sign)
    requires EndsNumber(rest)
    ensures ExponentLength(ExponentText(e) + rest) == |ExponentText(e)|
  {
    if e.Some? {
      var x := e.value;
      var tail := x.digits + rest;
      ExponentParts(x, rest);
      Cons(x.letter, x.sign + tail);
      hide IsSign, Digits;
      SignIsRead(x.sign, tail);
      DigitsAll(x.digits, rest);
    } else {
      Unit(rest);
    }
  }

  lemma ExponentParts(x: Exponent, rest: string)
    ensures ExponentText(Some(x)) + rest == [x.letter] + (x.sign + (x.digits + rest))
  {
    Assoc([x.letter] + x.sign, x.digits, rest);
    Assoc([x.letter], x.sign, x.digits + rest);
  }

  lemma NumberParts(sign: string, digits: string, fraction: string, exponent: string, rest: string)
    ensures sign + digits + fraction + exponent + rest == sign + (digits + (fraction + (exponent + rest)))
  {
    Assoc(sign + digits + fraction, exponent, rest);
    Assoc(sign + digits, fraction, exponent + rest);
    Assoc(sign, digits, fraction + (exponent + rest));
  }

  lemma NumberMeasured(n: NumberText, rest: string)
    requires IsNumber(n) && EndsNumber(rest)
    ensures NumberLength(NumberSpelling(n) + rest) == |NumberSpelling(n)| && HasDigit(NumberSpelling(n) + rest)
  {
    hide FractionLength, ExponentLength, Digits, SignLength, FractionText, ExponentText, BehindSign, BehindFraction;
    var sign := if n.minus then "-" else "";
    var f, x := FractionText(n.fraction), ExponentText(n.exponent);
    NumberParts(sign, n.digits, f, x, rest);
    NoDigitBehind(n, rest);
    SignIsRead(sign, n.digits + (f + (x + rest)));
    DigitsAll(n.digits, f + (x + rest));
    DropPrefix(n.digits, f + (x + rest));
    FractionIsRead(n.fraction, x + rest);
    ExponentIsRead(n.exponent, rest);
  }

  lemma NoDigitBehind(n: NumberText, rest: string)
    requires IsNumber(n) && EndsNumber(rest)
    ensures
      var s := ExponentText(n.exponent) + rest;
      && (s == "" || (!IsDigit(s[0]) && s[0] != '.'))
      && var u := FractionText(n.fraction) + s;
         && (u == "" || !IsDigit(u[0]))
         && (n.digits == "" ==> u != "" && u[0] != '+' && u[0] != '-')
         && |FractionText(n.fraction)| == (if n.fraction.None? then 0 else 1 + |n.fraction.value|)
  {
  }

  lemma NumberIsRead(n: NumberText, rest: string)
    requires IsNumber(n) && EndsNumber(rest)
    ensures ParseValue(NumberSpelling(n) + rest) == Some((Number(NumberSpelling(n)), rest))
  {
    hide NumberLength, HasDigit, ParseValue, FractionText, ExponentText;
    var s := NumberSpelling(n) + rest;
    NumberMeasured(n, rest);
    assert s[0] == if n.minus then '-' else n.digits[0];
    NumberDispatch(s);
    DropPrefix(NumberSpelling(n), rest);
  }

  // ---------------------------------------------------------------------------
  // Trees with their layout
  // ---------------------------------------------------------------------------

  /** A value with the white space before and behind it. */
  datatype Spaced = Spaced(before: string, core: Core, after: string)

  /** `inner` is what stands between the brackets of an empty list or object. */
  datatype Core =
    | CNull
    | CBool(b: bool)
    | CNumber(n: NumberText)
    | CString(ps: seq<Piece>)
    | CArray(inner: string, items: seq<Spaced>)
    | CObject(inner: string, members: seq<Member>)

  datatype Member = Member(before: string, key: seq<Piece>, between: string, value: Spaced)

  predicate WellSpaced(t: Spaced)
    decreases t, 1
  {
    White(t.before) && White(t.after) && WellFormed(t.core)
  }

  predicate WellFormed(c: Core)
    decreases c, 0
  {
    match c
    case CNumber(n) => IsNumber(n)
    case CString(ps) => AllSpelled(ps)
    case CArray(inner, items) => White(inner) && forall i :: 0 <= i < |items| ==> WellSpaced(items[i])
    case CObject(inner, members) => White(inner) && forall i :: 0 <= i < |members| ==> WellMember(members[i])
    case _ => true
  }

  predicate WellMember(m: Member)
    decreases m, 2
  {
    White(m.before) && AllSpelled(m.key) && White(m.between) && WellSpaced(m.value)
  }

  /** The tree that is spelled. */
  function ValueOf(c: Core): Json
    requires WellFormed(c)
    decreases c, 2
  {
    match c
    case CNull => Null
    case CBool(b) => Bool(b)
    case CNumber(n) => Number(NumberSpelling(n))
    case CString(ps) => String(Meaning(ps))
    case CArray(_, items) => Array(ValuesOf(items))
    case CObject(_, members) => Object(FieldsOf(members))
  }

  function ValuesOf(items: seq<Spaced>): (vs: seq<Json>)
    requires forall i :: 0 <= i < |items| ==> WellSpaced(items[i])
    ensures |vs| == |items|
    decreases items, 0
  {
    if items == [] then []
    else
      assert WellSpaced(items[0]);
      [ValueOf(items[0].core)] + ValuesOf(items[1..])
  }

  function FieldsOf(members: seq<Member>): (fs: seq<Field>)
    requires forall i :: 0 <= i < |members| ==> WellMember(members[i])
    ensures |fs| == |members|
    decreases members, 0
  {
    if members == [] then []
    else
      assert WellMember(members[0]);
      [FieldOf(members[0])] + FieldsOf(members[1..])
  }

  function FieldOf(m: Member): Field
    requires WellMember(m)
    decreases m, 3
  {
    assert WellSpaced(m.value);
    Field(Meaning(m.key), ValueOf(m.value.core))
  }

  function SpacedText(t: Spaced): string
    requires WellSpaced(t)
    decreases t, 3
  {
    t.before + CoreText(t.core) + t.after
  }

  function CoreText(c: Core): string
    requires WellFormed(c)
    decreases c, 2
  {
    match c
    case CNull => "null"
    case CBool(b) => if b then "true" else "false"
    case CNumber(n) => NumberSpelling(n)
    case CString(ps) => "\"" + Spelling(ps) + "\""
    case CArray(inner, items) => "[" + (if items == [] then inner else ItemsText(items)) + "]"
    case CObject(inner, members) => "{" + (if members == [] then inner else MembersText(members)) + "}"
  }

  function ItemsText(items: seq<Spaced>): string
    requires items != [] && forall i :: 0 <= i < |items| ==> WellSpaced(items[i])
    decreases items, 0
  {
    if |items| == 1 then SpacedText(items[0]) else SpacedText(items[0]) + "," + ItemsText(items[1..])
  }

  function MemberText(m: Member): string
    requires WellMember(m)
    decreases m, 4
  {
    m.before + ("\"" + Spelling(m.key) + "\"") + m.between + ":" + SpacedText(m.value)
  }

  function MembersText(members: seq<Member>): string
    requires members != [] && forall i :: 0 <= i < |members| ==> WellMember(members[i])
    decreases members, 0
  {
    if |members| == 1 then MemberText(members[0]) else MemberText(members[0]) + "," + MembersText(members[1..])
  }

  // ---------------------------------------------------------------------------
  // Reading them
  // ---------------------------------------------------------------------------

  /** A token starts with a character that is neither white space nor a closing bracket. */
  lemma CoreStarts(c: Core)
    requires WellFormed(c)
    ensures CoreText(c) != "" && AtToken(CoreText(c)) && CoreText(c)[0] != ']' && CoreText(c)[0] != '}'
  {
    match c
    case CNumber(n) => assert NumberSpelling(n)[0] == if n.minus then '-' else n.digits[0];
    case _ =>
  }

  /** Leading white space makes no difference. */
  lemma SkipBefore(w: string, s: string)
    requires White(w) && AtToken(s)
    ensures ParseValue(w + s) == ParseValue(s) && ParseString(w + s) == ParseString(s)
  {
    hide ScanString, ParseObject, ParseArray, ParseLiteral, ParseNumber;
    SkipWhite(w, s);
    SkipWhite("", s);
    Unit(s);
  }

  /** What may follow a value: white space, and then nothing that continues a number. */
  predicate Behind(rest: string) {
    AtToken(rest) && EndsNumber(rest)
  }

  lemma WhiteEndsNumber(w: string, rest: string)
    requires White(w) && Behind(rest)
    ensures EndsNumber(w + rest)
  {
    if w == "" {
      Unit(rest);
    }
  }

  /** The value is read, and the white space behind it is left. */
  lemma {:induction false} ParseText(t: Spaced, rest: string)
    requires WellSpaced(t) && Behind(rest)
    ensures ParseValue(SpacedText(t) + rest) == Some((ValueOf(t.core), t.after + rest))
    decreases t, 3
  {
    hide CoreText, ValueOf, ParseValue, WellFormed;
    WhiteEndsNumber(t.after, rest);
    ParseCore(t.core, t.after + rest);
    CoreStarts(t.core);
    Assoc(t.before + CoreText(t.core), t.after, rest);
    Assoc(t.before, CoreText(t.core), t.after + rest);
    SkipBefore(t.before, CoreText(t.core) + (t.after + rest));
  }

  lemma {:induction false} ParseCore(c: Core, rest: string)
    requires WellFormed(c) && EndsNumber(rest)
    ensures ParseValue(CoreText(c) + rest) == Some((ValueOf(c), rest))
    decreases c, 2
  {
    match c
    case CNumber(n) => NumberIsRead(n, rest);
    case CString(ps) => StringIsRead(ps, rest);
    case CArray(inner, items) =>
      if items == [] {
        EmptyArray(inner, rest);
      } else {
        ParseItemsText(items, rest);
        ArrayIsRead(items, rest);
      }
    case CObject(inner, members) =>
      if members == [] {
        EmptyObject(inner, rest);
      } else {
        ParseMembersText(members, rest);
        ObjectIsRead(members, rest);
      }
    case _ => KeywordIsRead(c, rest);
  }

  lemma KeywordIsRead(c: Core, rest: string)
    requires c.CNull? || c.CBool?
    ensures ParseValue(CoreText(c) + rest) == Some((ValueOf(c), rest))
  {
    hide ScanString, ParseObject, ParseArray, ParseNumber;
    DropPrefix(CoreText(c), rest);
    SkipWhite("", CoreText(c) + rest);
    Unit(CoreText(c) + rest);
  }

  lemma QuotedParts(ps: seq<Piece>, rest: string)
    requires AllSpelled(ps)
    ensures "\"" + Spelling(ps) + "\"" + rest == "\"" + (Spelling(ps) + ("\"" + rest))
    ensures ("\"" + Spelling(ps) + "\"" + rest)[1..] == Spelling(ps) + ("\"" + rest)
  {
    hide Spelling;
    Assoc("\"" + Spelling(ps), "\"", rest);
    Assoc("\"", Spelling(ps), "\"" + rest);
    DropPrefix("\"", Spelling(ps) + ("\"" + rest));
  }

  lemma StringIsRead(ps: seq<Piece>, rest: string)
    requires AllSpelled(ps)
    ensures ParseValue("\"" + Spelling(ps) + "\"" + rest) == Some((String(Meaning(ps)), rest))
    ensures ParseString("\"" + Spelling(ps) + "\"" + rest) == Some((Meaning(ps), rest))
  {
    hide Spelling, Meaning, ScanString, AllSpelled;
    var s := "\"" + Spelling(ps) + "\"" + rest;
    QuotedParts(ps, rest);
    ScanSpelled(ps, rest);
    SkipWhite("", s);
    Unit(s);
  }

  lemma Brackets(open: string, inner: string, close: string, rest: string)
    requires |open| == |close| == 1 && AtToken(open)
    ensures SkipWs(open + inner + close + rest) == open + inner + close + rest
    ensures (open + inner + close + rest)[1..] == inner + (close + rest)
    ensures (open + inner + close + rest)[0] == open[0]
  {
    Assoc(open + inner, close, rest);
    Assoc(open, inner, close + rest);
    DropPrefix(open, inner + (close + rest));
    SkipWhite("", open + inner + close + rest);
    Unit(open + inner + close + rest);
  }

  lemma EmptyArray(inner: string, rest: string)
    requires White(inner)
    ensures ParseValue("[" + inner + "]" + rest) == Some((Array([]), rest))
  {
    Brackets("[", inner, "]", rest);
    SkipWhite(inner, "]" + rest);
    DropPrefix("]", rest);
  }

  lemma EmptyObject(inner: string, rest: string)
    requires White(inner)
    ensures ParseValue("{" + inner + "}" + rest) == Some((Object([]), rest))
  {
    Brackets("{", inner, "}", rest);
    SkipWhite(inner, "}" + rest);
    DropPrefix("}", rest);
  }

  /** Skipping white space in front of the first item or member does not change how they are read. */
  lemma SkipItems(w: string, s: string)
    requires White(w) && AtToken(s)
    ensures ParseItems(w + s) == ParseItems(s) && ParseMembers(w + s) == ParseMembers(s)
  {
    hide ParseValue, ParseString;
    SkipBefore(w, s);
  }

  lemma FirstItem(items: seq<Spaced>, rest: string) returns (more: string)
    requires items != [] && forall i :: 0 <= i < |items| ==> WellSpaced(items[i])
    ensures WellSpaced(items[0]) && White(items[0].before)
    ensures ItemsText(items) + rest == items[0].before + (CoreText(items[0].core) + more)
  {
    hide CoreText, WellFormed;
    var t := items[0];
    assert WellSpaced(t);
    var tail := if |items| == 1 then "" else "," + ItemsText(items[1..]);
    assert ItemsText(items) == SpacedText(t) + tail;
    more := t.after + (tail + rest);
    ItemPrefix(t.before, CoreText(t.core), t.after, tail, rest);
  }

  lemma ItemPrefix(before: string, core: string, after: string, tail: string, rest: string)
    ensures before + core + after + tail + rest == before + (core + (after + (tail + rest)))
  {
  }

  lemma ItemsStart(items: seq<Spaced>, rest: string)
    requires items != [] && forall i :: 0 <= i < |items| ==> WellSpaced(items[i])
    ensures
      var s := ItemsText(items) + rest;
      SkipWs(s) != "" && SkipWs(s)[0] != ']' && ParseItems(SkipWs(s)) == ParseItems(s)
  {
    hide CoreText, ParseItems, ItemsText;
    var more := FirstItem(items, rest);
    var tail := CoreText(items[0].core) + more;
    CoreStarts(items[0].core);
    SkipWhite(items[0].before, tail);
    SkipItems(items[0].before, tail);
  }

  lemma FirstMember(members: seq<Member>, rest: string) returns (more: string)
    requires members != [] && forall i :: 0 <= i < |members| ==> WellMember(members[i])
    ensures WellMember(members[0]) && White(members[0].before)
    ensures MembersText(members) + rest == members[0].before + ("\"" + more)
  {
    hide SpacedText, Spelling;
    var m := members[0];
    assert WellMember(m);
    var tail := if |members| == 1 then "" else "," + MembersText(members[1..]);
    assert MembersText(members) == MemberText(m) + tail;
    var behind := m.between + ":" + SpacedText(m.value);
    more := Spelling(m.key) + ("\"" + (behind + (tail + rest)));
    Assoc(MemberText(m), tail, rest);
    MemberPrefix(m.before, Spelling(m.key), m.between, SpacedText(m.value), tail + rest);
  }

  lemma MemberPrefix(before: string, key: string, between: string, value: string, rest: string)
    ensures before + ("\"" + key + "\"") + between + ":" + value + rest
         == before + ("\"" + (key + ("\"" + (between + ":" + value + rest))))
  {
  }

  lemma MembersStart(members: seq<Member>, rest: string)
    requires members != [] && forall i :: 0 <= i < |members| ==> WellMember(members[i])
    ensures
      var s := MembersText(members) + rest;
      SkipWs(s) != "" && SkipWs(s)[0] != '}' && ParseMembers(SkipWs(s)) == ParseMembers(s)
  {
    hide MembersText, ParseMembers;
    var more := FirstMember(members, rest);
    SkipWhite(members[0].before, "\"" + more);
    SkipItems(members[0].before, "\"" + more);
  }

  lemma ArrayIsRead(items: seq<Spaced>, rest: string)
    requires items != [] && forall i :: 0 <= i < |items| ==> WellSpaced(items[i])
    requires ParseItems(ItemsText(items) + ("]" + rest)) == Some((ValuesOf(items), rest))
    ensures ParseValue("[" + ItemsText(items) + "]" + rest) == Some((Array(ValuesOf(items)), rest))
  {
    hide ItemsText, ValuesOf, ParseItems;
    Brackets("[", ItemsText(items), "]", rest);
    ItemsStart(items, "]" + rest);
  }

  lemma ObjectIsRead(members: seq<Member>, rest: string)
    requires members != [] && forall i :: 0 <= i < |members| ==> WellMember(members[i])
    requires ParseMembers(MembersText(members) + ("}" + rest)) == Some((FieldsOf(members), rest))
    ensures ParseValue("{" + MembersText(members) + "}" + rest) == Some((Object(FieldsOf(members)), rest))
  {
    hide MembersText, FieldsOf, ParseMembers;
    Brackets("{", MembersText(members), "}", rest);
    MembersStart(members, "}" + rest);
  }

  lemma MoreItems(s: string, v: Json, w: string, more: string)
    requires White(w) && ParseValue(s) == Some((v, w + ("," + more))) && ParseItems(more).Some?
    ensures ParseItems(s) == Some(([v] + ParseItems(more).value.0, ParseItems(more).value.1))
  {
    SkipWhite(w, "," + more);
    DropPrefix(",", more);
  }

  lemma LastItem(s: string, v: Json, w: string, rest: string)
    requires White(w) && ParseValue(s) == Some((v, w + ("]" + rest)))
    ensures ParseItems(s) == Some(([v], rest))
  {
    SkipWhite(w, "]" + rest);
    DropPrefix("]", rest);
  }

  lemma {:induction false} ParseItemsText(items: seq<Spaced>, rest: string)
    requires items != [] && forall i :: 0 <= i < |items| ==> WellSpaced(items[i])
    ensures ParseItems(ItemsText(items) + ("]" + rest)) == Some((ValuesOf(items), rest))
    decreases items, 0
  {
    hide ParseValue, ParseItems, SpacedText, ValueOf;
    var s, t := ItemsText(items) + ("]" + rest), items[0];
    assert WellSpaced(t);
    assert ValuesOf(items) == [ValueOf(t.core)] + ValuesOf(items[1..]);
    if |items| == 1 {
      ParseText(t, "]" + rest);
      LastItem(s, ValueOf(t.core), t.after, rest);
      assert items[1..] == [] && ValuesOf(items[1..]) == [];
      Unit([ValueOf(t.core)]);
    } else {
      var tail := ItemsText(items[1..]);
      var more := tail + ("]" + rest);
      CommaAssoc(SpacedText(t), tail, "]" + rest);
      ParseText(t, "," + more);
      ParseItemsText(items[1..], rest);
      MoreItems(s, ValueOf(t.core), t.after, more);
    }
  }

  lemma {:induction false} ParseMemberText(m: Member, rest: string)
    requires WellMember(m) && Behind(rest)
    ensures ParseMember(MemberText(m) + rest)
         == Some((FieldOf(m), m.value.after + rest))
    decreases m, 4
  {
    hide ParseValue, ParseString, SpacedText, Spelling, Meaning;
    var key := "\"" + Spelling(m.key) + "\"";
    var tail := SpacedText(m.value) + rest;
    MemberParts(m.before, key, m.between, SpacedText(m.value), rest);
    StringIsRead(m.key, m.between + (":" + tail));
    SkipBefore(m.before, key + (m.between + (":" + tail)));
    SkipWhite(m.between, ":" + tail);
    DropPrefix(":", tail);
    ParseText(m.value, rest);
  }

  lemma MemberParts(a: string, b: string, c: string, d: string, rest: string)
    ensures a + b + c + ":" + d + rest == a + (b + (c + (":" + (d + rest))))
  {
    Assoc(a + b + c + ":", d, rest);
    Assoc(a + b + c, ":", d + rest);
    Assoc(a + b, c, ":" + (d + rest));
    Assoc(a, b, c + (":" + (d + rest)));
  }

  lemma MoreMembers(s: string, f: Field, w: string, more: string)
    requires White(w) && ParseMember(s) == Some((f, w + ("," + more))) && ParseMembers(more).Some?
    ensures ParseMembers(s) == Some(([f] + ParseMembers(more).value.0, ParseMembers(more).value.1))
  {
    SkipWhite(w, "," + more);
    DropPrefix(",", more);
  }

  lemma LastMember(s: string, f: Field, w: string, rest: string)
    requires White(w) && ParseMember(s) == Some((f, w + ("}" + rest)))
    ensures ParseMembers(s) == Some(([f], rest))
  {
    SkipWhite(w, "}" + rest);
    DropPrefix("}", rest);
  }

  lemma {:induction false} ParseMembersText(members: seq<Member>, rest: string)
    requires members != [] && forall i :: 0 <= i < |members| ==> WellMember(members[i])
    ensures ParseMembers(MembersText(members) + ("}" + rest)) == Some((FieldsOf(members), rest))
    decreases members, 0
  {
    hide ParseMember, ParseMembers, MemberText, FieldOf;
    var s, m := MembersText(members) + ("}" + rest), members[0];
    assert WellMember(m) && WellSpaced(m.value);
    assert FieldsOf(members) == [FieldOf(m)] + FieldsOf(members[1..]);
    var f := FieldOf(m);
    if |members| == 1 {
      ParseMemberText(m, "}" + rest);
      LastMember(s, f, m.value.after, rest);
      assert members[1..] == [] && FieldsOf(members[1..]) == [];
      Unit([f]);
    } else {
      var tail := MembersText(members[1..]);
      var more := tail + ("}" + rest);
      CommaAssoc(MemberText(m), tail, "}" + rest);
      ParseMemberText(m, "," + more);
      ParseMembersText(members[1..], rest);
      MoreMembers(s, f, m.value.after, more);
    }
  }

  // ---------------------------------------------------------------------------
  // Every tree has such texts
  // ---------------------------------------------------------------------------

  function PieceFor(c: char): Piece {
    if c == '"' || c == '\\' then Short(c) else Plain(c)
  }

  function Pieces(s: string): seq<Piece> {
    if s == "" then [] else [PieceFor(s[0])] + Pieces(s[1..])
  }

  lemma {:induction false} PiecesMean(s: string)
    ensures AllSpelled(Pieces(s)) && Meaning(Pieces(s)) == s
  {
    if s != "" {
      PiecesMean(s[1..]);
      Cons(PieceFor(s[0]), Pieces(s[1..]));
      FirstRest(s);
    }
  }

  function IntegerText(text: string): NumberText {
    if StartsWith(text, '-') then NumberText(true, text[1..], None, None) else NumberText(false, text, None, None)
  }

  lemma IntegerSpelled(text: string)
    requires IsInteger(text)
    ensures IsNumber(IntegerText(text)) && NumberSpelling(IntegerText(text)) == text
  {
    if StartsWith(text, '-') {
      FirstRest(text);
    }
  }

  /** The tree with the white space `w` around every token. */
  function Spread(v: Json, w: string): Spaced
    decreases v, 1
  {
    Spaced(w, match v
              case Null => CNull
              case Bool(b) => CBool(b)
              case Number(text) => CNumber(IntegerText(text))
              case String(s) => CString(Pieces(s))
              case Array(items) => CArray(w, SpreadItems(items, w))
              case Object(fields) => CObject(w, SpreadFields(fields, w)), w)
  }

  function SpreadItems(items: seq<Json>, w: string): (r: seq<Spaced>)
    ensures |r| == |items|
    decreases items, 0
  {
    if items == [] then [] else [Spread(items[0], w)] + SpreadItems(items[1..], w)
  }

  function SpreadFields(fields: seq<Field>, w: string): (r: seq<Member>)
    ensures |r| == |fields|
    decreases fields, 0
  {
    if fields == [] then []
    else [Member(w, Pieces(fields[0].key), w, Spread(fields[0].value, w))] + SpreadFields(fields[1..], w)
  }

  /** Every tree of integer numbers is spelled with any white space around all of its tokens. */
  lemma {:induction false} SpreadSpells(v: Json, w: string)
    requires Integral(v) && White(w)
    ensures WellSpaced(Spread(v, w)) && ValueOf(Spread(v, w).core) == v
    decreases v, 1
  {
    match v
    case Number(text) => IntegerSpelled(text);
    case String(s) => PiecesMean(s);
    case Array(items) => SpreadItemsSpell(items, w);
    case Object(fields) => SpreadFieldsSpell(fields, w);
    case _ =>
  }

  lemma {:induction false} SpreadItemsSpell(items: seq<Json>, w: string)
    requires White(w) && forall i :: 0 <= i < |items| ==> Integral(items[i])
    ensures
      var ts := SpreadItems(items, w);
      (forall i :: 0 <= i < |ts| ==> WellSpaced(ts[i])) && ValuesOf(ts) == items
    decreases items, 0
  {
    hide WellSpaced, Spread;
    if items != [] {
      SpreadSpells(items[0], w);
      SpreadItemsSpell(items[1..], w);
      Cons(Spread(items[0], w), SpreadItems(items[1..], w));
      FirstRest(items);
    }
  }

  lemma {:induction false} SpreadFieldsSpell(fields: seq<Field>, w: string)
    requires White(w) && forall i :: 0 <= i < |fields| ==> Integral(fields[i].value)
    ensures
      var ms := SpreadFields(fields, w);
      (forall i :: 0 <= i < |ms| ==> WellMember(ms[i])) && FieldsOf(ms) == fields
    decreases fields, 0
  {
    hide WellSpaced, Spread, Pieces;
    if fields != [] {
      SpreadSpells(fields[0].value, w);
      PiecesMean(fields[0].key);
      SpreadFieldsSpell(fields[1..], w);
      Cons(Member(w, Pieces(fields[0].key), w, Spread(fields[0].value, w)), SpreadFields(fields[1..], w));
      FirstRest(fields);
    }
  }
}
