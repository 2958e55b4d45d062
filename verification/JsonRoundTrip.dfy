/** Parsing a printed JSON tree gives the tree back, whatever text follows it. */
module JsonRoundTrip {
  import opened Bytes
  import opened JsonSpec
  import opened SeqFacts

  // ---------------------------------------------------------------------------
  // Strings
  // ---------------------------------------------------------------------------

  lemma {:induction false} EscapeConcat(a: string, b: string)
    ensures EscapeJson(a + b) == EscapeJson(a) + EscapeJson(b)
  {
    if b == "" {
      assert a + b == a;
    } else {
      var front, last := b[..|b| - 1], b[|b| - 1];
      EscapeConcat(a, front);
      FrontLast(b);
      Assoc(a, front, [last]);
      Snoc(a + front, last);
      Assoc(EscapeJson(a), EscapeJson(front), EscapeChar(last));
    }
  }

  lemma EscapeOne(c: char)
    ensures EscapeJson([c]) == EscapeChar(c)
  {
    assert EscapeJson([c]) == EscapeJson([c][..0]) + EscapeChar(c);
    assert "" + EscapeChar(c) == EscapeChar(c);
  }

  lemma EscapeFirst(s: string)
    requires s != ""
    ensures EscapeJson(s) == EscapeChar(s[0]) + EscapeJson(s[1..])
  {
    FirstRest(s);
    EscapeConcat([s[0]], s[1..]);
    EscapeOne(s[0]);
  }

  lemma HexDigits(n: nat)
    requires n < 0x20
    ensures Hex4("00" + [HexDigit(n / 16), HexDigit(n % 16)]) == Some(n)
  {
  }

  /** The escape of one character scans back to that character. */
  lemma ScanEscapedChar(c: char, tail: string)
    ensures ScanString(EscapeChar(c) + tail) == Prepend([c], ScanString(tail))
  {
    var e := EscapeChar(c);
    var s := e + tail;
    assert s[|e|..] == tail;
    if |e| == 6 {
      HexDigits(c as int);
      assert s[2..6] == "00" + [HexDigit(c as int / 16), HexDigit(c as int % 16)];
      assert [Byte(c as int)] == [c];
    } else if |e| == 2 {
      assert s[0] == '\\' && Unescape(e[1]) == c;
    }
  }

  /**
    One character as it stands, two for quotation mark, backslash, backspace, form feed, line feed,
    carriage return and tab, six for any other control character.
  */
  lemma EscapeForms(c: char)
    ensures |EscapeChar(c)|
         == if c in {'"', '\\', 8 as char, 12 as char, '\n', '\r', '\t'} then 2 else if c < ' ' then 6 else 1
    ensures |EscapeChar(c)| == 1 ==> EscapeChar(c) == [c]
    ensures |EscapeChar(c)| > 1 ==> EscapeChar(c)[0] == '\\'
  {
  }

  lemma {:induction false} ScanEscaped(s: string, rest: string)
    ensures ScanString(EscapeJson(s) + ("\"" + rest)) == Some((s, rest))
  {
    var close := "\"" + rest;
    if s == "" {
      assert EscapeJson(s) + close == close;
      DropPrefix("\"", rest);
    } else {
      var tail := EscapeJson(s[1..]) + close;
      ScanEscaped(s[1..], rest);
      ScanEscapedChar(s[0], tail);
      EscapeFirst(s);
      Assoc(EscapeChar(s[0]), EscapeJson(s[1..]), close);
      FirstRest(s);
    }
  }

  lemma ParseQuoted(s: string, rest: string)
    ensures StartsWith(Quoted(s) + rest, '"')
    ensures ParseString(Quoted(s) + rest) == Some((s, rest))
  {
    hide ScanString, EscapeJson;
    Assoc("\"" + EscapeJson(s), "\"", rest);
    Assoc("\"", EscapeJson(s), "\"" + rest);
    DropPrefix("\"", EscapeJson(s) + ("\"" + rest));
    ScanEscaped(s, rest);
  }

  // ---------------------------------------------------------------------------
  // Numbers
  // ---------------------------------------------------------------------------

  /** The text cannot continue a number. */
  predicate Stops(rest: string) {
    rest == "" || !(IsDigit(rest[0]) || rest[0] == '.' || rest[0] == 'e' || rest[0] == 'E')
  }

  lemma {:induction false} DigitsAll(a: string, rest: string)
    requires forall i :: 0 <= i < |a| ==> IsDigit(a[i])
    requires rest == "" || !IsDigit(rest[0])
    ensures Digits(a + rest) == |a|
  {
    if a == "" {
      assert a + rest == rest;
    } else {
      assert (a + rest)[1..] == a[1..] + rest;
      DigitsAll(a[1..], rest);
    }
  }

  lemma ParseInteger(text: string, rest: string)
    requires IsInteger(text) && Stops(rest)
    ensures ParseNumber(text + rest) == Some((Number(text), rest))
  {
    var s := text + rest;
    var digits := text[SignLength(text)..];
    assert BehindSign(s) == digits + rest;
    DigitsAll(digits, rest);
    DropPrefix(digits, rest);
    assert BehindDigits(digits + rest) == rest;
    DropPrefix(text, rest);
  }

  // ---------------------------------------------------------------------------
  // Trees
  // ---------------------------------------------------------------------------

  /** A printed value starts with a character the parser dispatches on. */
  lemma PrintStarts(v: Json, rest: string)
    requires Integral(v)
    ensures Print(v) != ""
    ensures var c := (Print(v) + rest)[0]; !IsSpace(c) && c != ']' && c != '}' && c == Print(v)[0]
    ensures SkipWs(Print(v) + rest) == Print(v) + rest
  {
  }

  /**
    Round trip for every tree whose numbers are integer literals: the parser reads the
    tree back and stops where it ends.
  */
  lemma {:induction false} ParsePrint(v: Json, rest: string)
    requires Integral(v) && (v.Number? ==> Stops(rest))
    ensures ParseValue(Print(v) + rest) == Some((v, rest))
    decreases v, 1
  {
    match v
    case Array(items) =>
      if items != [] {
        ParsePrintItems(items, rest);
      }
      ParsePrintArray(items, rest);
    case Object(fields) =>
      if fields != [] {
        ParsePrintFields(fields, rest);
      }
      ParsePrintObject(fields, rest);
    case _ =>
      ParsePrintScalar(v, rest);
  }

  lemma {:induction false} ParsePrintScalar(v: Json, rest: string)
    requires Integral(v) && (v.Number? ==> Stops(rest)) && !v.Array? && !v.Object?
    ensures ParseValue(Print(v) + rest) == Some((v, rest))
  {
    PrintStarts(v, rest);
    DropPrefix(Print(v), rest);
    match v
    case Number(text) => ParseIntegerValue(text, rest);
    case String(str) => ParseQuoted(str, rest);
    case _ =>
  }

  lemma ParseIntegerValue(text: string, rest: string)
    requires IsInteger(text) && Stops(rest)
    ensures ParseValue(text + rest) == Some((Number(text), rest))
  {
    NumberDispatch(text + rest);
    ParseInteger(text, rest);
  }

  lemma NumberDispatch(s: string)
    requires s != "" && (s[0] == '-' || IsDigit(s[0]))
    ensures ParseValue(s) == ParseNumber(s)
  {
    hide ParseNumber, ParseString, ParseLiteral, ParseItems, ParseMembers;
    NotKeyword(s);
  }

  lemma NotKeyword(s: string)
    requires s != "" && s[0] != 't' && s[0] != 'f' && s[0] != 'n'
    ensures ParseLiteral(s) == None
  {
  }

  /** Bracketed text: what the dispatcher sees behind the opening bracket. */
  lemma Opened(open: string, inner: string, close: string, rest: string)
    requires |open| == |close| == 1 && !IsSpace(open[0]) && !IsSpace(close[0])
    ensures open + inner + close + rest == open + (inner + (close + rest))
    ensures (open + inner + close + rest)[1..] == inner + (close + rest)
    ensures SkipWs(open + inner + close + rest) == open + inner + close + rest
    ensures SkipWs(close + rest) == close + rest && (close + rest)[1..] == rest
  {
    Assoc(open + inner, close, rest);
    Assoc(open, inner, close + rest);
    DropPrefix(open, inner + (close + rest));
    DropPrefix(close, rest);
  }

  lemma {:induction false} ParsePrintArray(items: seq<Json>, rest: string)
    requires forall i :: 0 <= i < |items| ==> Integral(items[i])
    requires items != [] ==> ParseItems(PrintItems(items) + ("]" + rest)) == Some((items, rest))
    ensures ParseValue("[" + PrintItems(items) + "]" + rest) == Some((Array(items), rest))
  {
    Opened("[", PrintItems(items), "]", rest);
    if items == [] {
      assert "" + ("]" + rest) == "]" + rest;
    } else {
      ItemsStart(items, "]" + rest);
    }
  }

  lemma {:induction false} ParsePrintObject(fields: seq<Field>, rest: string)
    requires fields != [] ==> ParseMembers(PrintFields(fields) + ("}" + rest)) == Some((fields, rest))
    ensures ParseValue("{" + PrintFields(fields) + "}" + rest) == Some((Object(fields), rest))
  {
    Opened("{", PrintFields(fields), "}", rest);
    if fields == [] {
      assert "" + ("}" + rest) == "}" + rest;
    } else {
      FieldsStart(fields, "}" + rest);
    }
  }

  lemma ItemsStart(items: seq<Json>, rest: string)
    requires items != [] && forall i :: 0 <= i < |items| ==> Integral(items[i])
    ensures SkipWs(PrintItems(items) + rest) == PrintItems(items) + rest
    ensures !StartsWith(PrintItems(items) + rest, ']')
  {
    PrintStarts(items[0], "");
    assert PrintItems(items)[0] == Print(items[0])[0];
  }

  lemma FieldsStart(fields: seq<Field>, rest: string)
    requires fields != []
    ensures SkipWs(PrintFields(fields) + rest) == PrintFields(fields) + rest
    ensures StartsWith(PrintFields(fields) + rest, '"')
  {
    assert PrintField(fields[0])[0] == '"';
    assert PrintFields(fields)[0] == '"';
  }

  lemma ItemsMore(s: string, v: Json, more: string)
    requires ParseValue(s) == Some((v, "," + more)) && ParseItems(more).Some?
    ensures ParseItems(s) == Some(([v] + ParseItems(more).value.0, ParseItems(more).value.1))
  {
    DropPrefix(",", more);
  }

  lemma ItemsLast(s: string, v: Json, rest: string)
    requires ParseValue(s) == Some((v, "]" + rest))
    ensures ParseItems(s) == Some(([v], rest))
  {
    DropPrefix("]", rest);
  }

  lemma {:induction false} ParsePrintItems(items: seq<Json>, rest: string)
    requires items != [] && forall i :: 0 <= i < |items| ==> Integral(items[i])
    ensures ParseItems(PrintItems(items) + ("]" + rest)) == Some((items, rest))
    decreases items, 0
  {
    var s := PrintItems(items) + ("]" + rest);
    if |items| == 1 {
      ParsePrint(items[0], "]" + rest);
      ItemsLast(s, items[0], rest);
      assert items == [items[0]];
    } else {
      var tail := PrintItems(items[1..]);
      var more := tail + ("]" + rest);
      CommaAssoc(Print(items[0]), tail, "]" + rest);
      ParsePrint(items[0], "," + more);
      ParsePrintItems(items[1..], rest);
      ItemsMore(s, items[0], more);
      FirstRest(items);
    }
  }

  lemma CommaAssoc(a: string, b: string, c: string)
    ensures a + "," + b + c == a + ("," + (b + c))
  {
  }

  lemma {:induction false} ParsePrintField(f: Field, rest: string)
    requires Integral(f.value) && Stops(rest)
    ensures ParseMember(PrintField(f) + rest) == Some((f, rest))
    decreases f, 0
  {
    var tail := Print(f.value) + rest;
    var s := Quoted(f.key) + (":" + tail);
    assert PrintField(f) + rest == s by {
      Assoc(Quoted(f.key) + ":", Print(f.value), rest);
      Assoc(Quoted(f.key), ":", tail);
    }
    ParseQuoted(f.key, ":" + tail);
    DropPrefix(":", tail);
    ParsePrint(f.value, rest);
  }

  lemma MembersMore(s: string, f: Field, more: string)
    requires ParseMember(s) == Some((f, "," + more)) && ParseMembers(more).Some?
    ensures ParseMembers(s) == Some(([f] + ParseMembers(more).value.0, ParseMembers(more).value.1))
  {
    DropPrefix(",", more);
  }

  lemma MembersLast(s: string, f: Field, rest: string)
    requires ParseMember(s) == Some((f, "}" + rest))
    ensures ParseMembers(s) == Some(([f], rest))
  {
    DropPrefix("}", rest);
  }

  lemma {:induction false} ParsePrintFields(fields: seq<Field>, rest: string)
    requires fields != [] && forall i :: 0 <= i < |fields| ==> Integral(fields[i].value)
    ensures ParseMembers(PrintFields(fields) + ("}" + rest)) == Some((fields, rest))
    decreases fields, 0
  {
    var s := PrintFields(fields) + ("}" + rest);
    if |fields| == 1 {
      ParsePrintField(fields[0], "}" + rest);
      MembersLast(s, fields[0], rest);
      assert fields == [fields[0]];
    } else {
      var tail := PrintFields(fields[1..]);
      var more := tail + ("}" + rest);
      CommaAssoc(PrintField(fields[0]), tail, "}" + rest);
      ParsePrintField(fields[0], "," + more);
      ParsePrintFields(fields[1..], rest);
      MembersMore(s, fields[0], more);
      FirstRest(fields);
    }
  }
}
