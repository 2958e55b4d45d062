/**
  The language of the JSON reader: everything it accepts is spelled as in JsonSpaced, so with
  the round trip it accepts exactly those texts.
*/
module JsonLanguage {
  import opened Bytes
  import opened SeqFacts
  import opened JsonSpec
  import opened JsonRoundTrip
  import opened JsonSpaced

  lemma {:induction false} SkippedIsWhite(s: string) returns (w: string)
    ensures White(w) && s == w + SkipWs(s)
  {
    if s != "" && IsSpace(s[0]) {
      var v := SkippedIsWhite(s[1..]);
      w := [s[0]] + v;
      FirstRest(s);
      Assoc([s[0]], v, SkipWs(s[1..]));
    } else {
      w := "";
      Unit(s);
    }
  }

  function DigitOf(c: char): nat {
    if '0' <= c <= '9' then c as nat - '0' as nat
    else if 'a' <= c <= 'f' then c as nat - 'a' as nat + 10
    else if 'A' <= c <= 'F' then c as nat - 'A' as nat + 10
    else 0
  }

  lemma DigitWasRead(c: char)
    requires HexValue(c).Some?
    ensures DigitOf(c) < 16 && HexValue(c) == Some(DigitOf(c)) && DigitText(DigitOf(c), c <= 'F') == c
  {
  }

  lemma HexWasRead(h: string)
    requires |h| == 4 && Hex4(h).Some?
    ensures
      var a, b, c, d := DigitOf(h[0]), DigitOf(h[1]), DigitOf(h[2]), DigitOf(h[3]);
      && a < 16 && b < 16 && c < 16 && d < 16
      && h == [DigitText(a, h[0] <= 'F'), DigitText(b, h[1] <= 'F'), DigitText(c, h[2] <= 'F'), DigitText(d, h[3] <= 'F')]
      && Hex4(h).value == ((a * 16 + b) * 16 + c) * 16 + d
  {
    hide HexValue, DigitText, DigitOf;
    DigitWasRead(h[0]);
    DigitWasRead(h[1]);
    DigitWasRead(h[2]);
    DigitWasRead(h[3]);
  }

  lemma CodeSpelled(a: nat, b: nat, c: nat, d: nat, u: bool, v: bool, w: bool, x: bool) returns (p: Piece)
    requires a < 16 && b < 16 && c < 16 && d < 16
    ensures Spelled(p)
    ensures PieceText(p) == ['\\', 'u', DigitText(a, u), DigitText(b, v), DigitText(c, w), DigitText(d, x)]
    ensures PieceValue(p) == Utf8(((a * 16 + b) * 16 + c) * 16 + d)
  {
    hide DigitText, Utf8;
    p := Code([a, b, c, d], [u, v, w, x]);
  }

  lemma CodeWasRead(s: string) returns (p: Piece)
    requires |s| >= 6 && s[0] == '\\' && s[1] == 'u' && Hex4(s[2..6]).Some?
    ensures Spelled(p) && PieceText(p) == s[..6]
    ensures Hex4(s[2..6]).value < 0x1_0000 && PieceValue(p) == Utf8(Hex4(s[2..6]).value)
  {
    hide Hex4, DigitText, DigitOf, Utf8, PieceText, PieceValue, Spelled;
    var h := s[2..6];
    HexWasRead(h);
    p := CodeSpelled(DigitOf(h[0]), DigitOf(h[1]), DigitOf(h[2]), DigitOf(h[3]),
                     h[0] <= 'F', h[1] <= 'F', h[2] <= 'F', h[3] <= 'F');
    SixCharacters(s);
  }

  lemma SixCharacters(s: string)
    requires |s| >= 6
    ensures s[..6] == [s[0], s[1], s[2..6][0], s[2..6][1], s[2..6][2], s[2..6][3]]
  {
  }

  lemma FirstPiece(s: string) returns (p: Piece)
    requires ScanString(s).Some? && s[0] != '"'
    ensures Spelled(p) && 0 < |PieceText(p)| <= |s| && PieceText(p) == s[..|PieceText(p)|]
    ensures ScanString(s) == Prepend(PieceValue(p), ScanString(s[|PieceText(p)|..]))
  {
    if s[0] != '\\' {
      p := Plain(s[0]);
    } else if s[1] != 'u' {
      p := Short(s[1]);
    } else {
      Hex4Bound(s[2..6]);
      p := CodeWasRead(s);
    }
  }

  lemma {:induction false} StringWasRead(s: string) returns (ps: seq<Piece>)
    requires ScanString(s).Some?
    ensures AllSpelled(ps) && Meaning(ps) == ScanString(s).value.0
    ensures s == Spelling(ps) + "\"" + ScanString(s).value.1
    decreases |s|
  {
    if s[0] == '"' {
      ps := [];
      FirstRest(s);
      Unit("\"");
    } else {
      var p := FirstPiece(s);
      var n := |PieceText(p)|;
      var tail := StringWasRead(s[n..]);
      ps := [p] + tail;
      Cons(p, tail);
      SplitAt(s, n);
      Assoc(PieceText(p), Spelling(tail), "\"");
      Assoc(PieceText(p), Spelling(tail) + "\"", ScanString(s[n..]).value.1);
    }
  }

  lemma {:induction false} DigitsWereRead(s: string)
    ensures AllDigits(s[..Digits(s)])
  {
    if s != "" && IsDigit(s[0]) {
      DigitsWereRead(s[1..]);
      assert s[..Digits(s)] == [s[0]] + s[1..][..Digits(s[1..])];
    }
  }

  lemma FractionWasRead(s: string) returns (f: Option<string>)
    ensures f.Some? ==> AllDigits(f.value)
    ensures FractionText(f) == s[..FractionLength(s)]
    ensures FractionLength(s) > 1 ==> f.Some? && f.value != ""
  {
    if StartsWith(s, '.') {
      DigitsWereRead(s[1..]);
      f := Some(s[1..][..Digits(s[1..])]);
    } else {
      f := None;
    }
  }

  lemma ExponentWasRead(s: string) returns (e: Option<Exponent>)
    ensures e.Some? ==> (e.value.letter == 'e' || e.value.letter == 'E') && AllDigits(e.value.digits)
                        && IsSign(e.value.sign)
    ensures ExponentText(e) == s[..ExponentLength(s)]
  {
    if s != "" && (s[0] == 'e' || s[0] == 'E') {
      var u := s[1..];
      var sign := SignLength(u);
      var n := Digits(u[sign..]);
      DigitsWereRead(u[sign..]);
      hide Digits;
      assert u[..sign] == "" || u[..sign] == "+" || u[..sign] == "-";
      e := Some(Exponent(s[0], u[..sign], u[sign..][..n]));
      assert s[..1 + sign + n] == [s[0]] + u[..sign] + u[sign..][..n];
    } else {
      e := None;
    }
  }

  lemma NumberWasRead(s: string) returns (n: NumberText)
    requires s != "" && (s[0] == '-' || IsDigit(s[0])) && HasDigit(s)
    ensures IsNumber(n) && NumberSpelling(n) == s[..NumberLength(s)]
  {
    hide Digits, FractionLength, ExponentLength, FractionText, ExponentText, AllDigits, IsSign, BehindFraction, BehindDigits;
    var u := BehindSign(s);
    var v := BehindDigits(u);
    DigitsWereRead(u);
    var f := FractionWasRead(v);
    var e := ExponentWasRead(BehindFraction(v));
    n := NumberText(s[0] == '-', u[..Digits(u)], f, e);
    NumberCut(s);
    if s[0] != '-' {
      FirstDigit(s);
    }
    SignCut(s);
  }

  lemma SignCut(s: string)
    requires s != "" && (s[0] == '-' || IsDigit(s[0]))
    ensures s[..SignLength(s)] == if s[0] == '-' then "-" else ""
  {
  }

  lemma NumberCut(s: string)
    ensures
      var u := BehindSign(s);
      var v := BehindDigits(u);
      var x := BehindFraction(v);
      s[..NumberLength(s)]
      == s[..SignLength(s)] + u[..Digits(u)] + v[..FractionLength(v)] + x[..ExponentLength(x)]
  {
    hide Digits, FractionLength, ExponentLength, SignLength;
    var u := BehindSign(s);
    var v := BehindDigits(u);
    NumberSlices(s, SignLength(s), Digits(u), FractionLength(v), ExponentLength(BehindFraction(v)));
  }

  lemma FirstDigit(s: string)
    requires s != "" && IsDigit(s[0])
    ensures SignLength(s) == 0 && Digits(BehindSign(s)) > 0
  {
  }

  lemma NumberSlices(s: string, a: nat, b: nat, c: nat, d: nat)
    requires a + b + c + d <= |s|
    ensures s[..a + b + c + d] == s[..a] + s[a..][..b] + s[a..][b..][..c] + s[a..][b..][c..][..d]
  {
  }

  /** The value, with its layout, that was read from the front of a text. */
  ghost predicate Reads(s: string, w: string, c: Core, v: Json, rest: string) {
    White(w) && WellFormed(c) && ValueOf(c) == v && s == w + CoreText(c) + rest
  }

  lemma {:induction false} ValueWasRead(s: string) returns (w: string, c: Core)
    requires ParseValue(s).Some?
    ensures Reads(s, w, c, ParseValue(s).value.0, ParseValue(s).value.1)
    decreases |s|, 3
  {
    w := SkippedIsWhite(s);
    var t := SkipWs(s);
    var rest := ParseValue(s).value.1;
    if t[0] == '{' || t[0] == '[' {
      c := BracketWasRead(t);
    } else {
      c := ScalarWasRead(t);
    }
    assert ParseValue(t) == ParseValue(s) by {
      SkipTwice(s);
    }
    Assoc(w, CoreText(c), rest);
  }

  lemma SkipTwice(s: string)
    ensures SkipWs(SkipWs(s)) == SkipWs(s) && ParseValue(SkipWs(s)) == ParseValue(s)
  {
    hide ScanString, ParseObject, ParseArray, ParseLiteral, ParseNumber;
  }

  lemma ScalarWasRead(t: string) returns (c: Core)
    requires SkipWs(t) == t && ParseValue(t).Some? && t[0] != '{' && t[0] != '['
    ensures WellFormed(c) && ValueOf(c) == ParseValue(t).value.0 && t == CoreText(c) + ParseValue(t).value.1
  {
    hide ParseObject, ParseArray, ScanString;
    if t[0] == '"' {
      var ps := StringWasRead(t[1..]);
      c := CString(ps);
      FirstRest(t);
      Assoc("\"" + Spelling(ps), "\"", ScanString(t[1..]).value.1);
      Assoc("\"", Spelling(ps), "\"" + ScanString(t[1..]).value.1);
      Assoc(Spelling(ps), "\"", ScanString(t[1..]).value.1);
    } else if ParseLiteral(t).Some? {
      c := LiteralWasRead(t);
    } else {
      var n := NumberWasRead(t);
      c := CNumber(n);
      SplitAt(t, NumberLength(t));
    }
  }

  lemma LiteralWasRead(t: string) returns (c: Core)
    requires ParseLiteral(t).Some?
    ensures WellFormed(c) && ValueOf(c) == ParseLiteral(t).value.0 && t == CoreText(c) + ParseLiteral(t).value.1
  {
    if HasPrefix(t, "true") {
      c := CBool(true);
      SplitAt(t, 4);
    } else if HasPrefix(t, "false") {
      c := CBool(false);
      SplitAt(t, 5);
    } else {
      c := CNull;
      SplitAt(t, 4);
    }
  }

  lemma {:induction false} BracketWasRead(t: string) returns (c: Core)
    requires SkipWs(t) == t && ParseValue(t).Some? && (t[0] == '{' || t[0] == '[')
    ensures WellFormed(c) && ValueOf(c) == ParseValue(t).value.0 && t == CoreText(c) + ParseValue(t).value.1
    decreases |t|, 2
  {
    var rest := ParseValue(t).value.1;
    var inner := SkippedIsWhite(t[1..]);
    var u := SkipWs(t[1..]);
    FirstRest(t);
    if t[0] == '[' {
      if StartsWith(u, ']') {
        c := CArray(inner, []);
        FirstRest(u);
      } else {
        var items := ItemsWereRead(u);
        c := LeadingItem(t, inner, items, rest);
      }
    } else if StartsWith(u, '}') {
      c := CObject(inner, []);
      FirstRest(u);
    } else {
      var members := MembersWereRead(u);
      c := LeadingMember(t, inner, members, rest);
    }
  }

  lemma MovedText(inner: string, items: seq<Spaced>)
    requires White(inner) && items != [] && forall i :: 0 <= i < |items| ==> WellSpaced(items[i])
    ensures
      var all := [items[0].(before := inner + items[0].before)] + items[1..];
      && (forall i :: 0 <= i < |all| ==> WellSpaced(all[i]))
      && ItemsText(all) == inner + ItemsText(items) && ValuesOf(all) == ValuesOf(items)
  {
    hide CoreText, WellFormed, ValueOf;
    var first := items[0];
    assert WellSpaced(first);
    var moved := first.(before := inner + first.before);
    assert WellSpaced(moved);
    Cons(moved, items[1..]);
    Assoc(inner, first.before, CoreText(first.core));
    Assoc(inner, first.before + CoreText(first.core), first.after);
    assert SpacedText(moved) == inner + SpacedText(first);
    if |items| > 1 {
      Assoc(inner, SpacedText(first), ",");
      Assoc(inner, SpacedText(first) + ",", ItemsText(items[1..]));
    }
  }

  /** The white space behind the bracket belongs to the first item. */
  lemma LeadingItem(t: string, inner: string, items: seq<Spaced>, rest: string) returns (c: Core)
    requires White(inner) && items != [] && forall i :: 0 <= i < |items| ==> WellSpaced(items[i])
    requires t == "[" + (inner + (ItemsText(items) + ("]" + rest)))
    ensures WellFormed(c) && ValueOf(c) == Array(ValuesOf(items)) && t == CoreText(c) + rest
  {
    hide ItemsText, ValuesOf, WellSpaced;
    MovedText(inner, items);
    var all := [items[0].(before := inner + items[0].before)] + items[1..];
    c := CArray("", all);
    Assoc("[" + ItemsText(all), "]", rest);
    Assoc("[", ItemsText(all), "]" + rest);
    Assoc(inner, ItemsText(items), "]" + rest);
  }

  lemma MovedMember(inner: string, members: seq<Member>)
    requires White(inner) && members != [] && forall i :: 0 <= i < |members| ==> WellMember(members[i])
    ensures
      var all := [members[0].(before := inner + members[0].before)] + members[1..];
      && (forall i :: 0 <= i < |all| ==> WellMember(all[i]))
      && MembersText(all) == inner + MembersText(members) && FieldsOf(all) == FieldsOf(members)
  {
    hide WellSpaced, Spelling, Meaning, SpacedText, ValueOf;
    var first := members[0];
    assert WellMember(first);
    var moved := first.(before := inner + first.before);
    assert WellMember(moved);
    Cons(moved, members[1..]);
    var key := "\"" + Spelling(first.key) + "\"";
    Assoc(inner, first.before, key);
    Assoc(inner, first.before + key, first.between);
    Assoc(inner, first.before + key + first.between, ":");
    Assoc(inner, first.before + key + first.between + ":", SpacedText(first.value));
    assert MemberText(moved) == inner + MemberText(first);
    if |members| > 1 {
      Assoc(inner, MemberText(first), ",");
      Assoc(inner, MemberText(first) + ",", MembersText(members[1..]));
    }
  }

  lemma LeadingMember(t: string, inner: string, members: seq<Member>, rest: string) returns (c: Core)
    requires White(inner) && members != [] && forall i :: 0 <= i < |members| ==> WellMember(members[i])
    requires t == "{" + (inner + (MembersText(members) + ("}" + rest)))
    ensures WellFormed(c) && ValueOf(c) == Object(FieldsOf(members)) && t == CoreText(c) + rest
  {
    hide MembersText, FieldsOf, WellMember;
    MovedMember(inner, members);
    var all := [members[0].(before := inner + members[0].before)] + members[1..];
    c := CObject("", all);
    Assoc("{" + MembersText(all), "}", rest);
    Assoc("{", MembersText(all), "}" + rest);
    Assoc(inner, MembersText(members), "}" + rest);
  }

  /** A value and the white space behind it. */
  lemma ItemWasRead(s: string, w: string, c: Core, v: Json, behind: string) returns (t: Spaced)
    requires Reads(s, w, c, v, behind)
    ensures WellSpaced(t) && ValueOf(t.core) == v && s == SpacedText(t) + SkipWs(behind)
  {
    var after := SkippedIsWhite(behind);
    t := Spaced(w, c, after);
    Assoc(w + CoreText(c), after, SkipWs(behind));
  }

  lemma {:induction false} ItemsWereRead(s: string) returns (items: seq<Spaced>)
    requires ParseItems(s).Some?
    ensures items != [] && forall i :: 0 <= i < |items| ==> WellSpaced(items[i])
    ensures ValuesOf(items) == ParseItems(s).value.0 && s == ItemsText(items) + ("]" + ParseItems(s).value.1)
    decreases |s|, 4
  {
    hide ParseValue, Reads, WellSpaced, SpacedText, ValueOf;
    var v, behind := ParseValue(s).value.0, ParseValue(s).value.1;
    var w, c := ValueWasRead(s);
    var t := ItemWasRead(s, w, c, v, behind);
    var x := SkipWs(behind);
    FirstRest(x);
    if StartsWith(x, ',') {
      var tail := ItemsWereRead(x[1..]);
      items := [t] + tail;
      Cons(t, tail);
      CommaAssoc(SpacedText(t), ItemsText(tail), "]" + ParseItems(s).value.1);
    } else {
      items := [t];
      assert items[1..] == [];
      Unit([v]);
    }
  }

  lemma {:induction false} MemberWasRead(s: string) returns (m: Member)
    requires ParseMember(s).Some?
    ensures WellMember(m) && FieldOf(m) == ParseMember(s).value.0
    ensures s == MemberText(m) + SkipWs(ParseMember(s).value.1)
    decreases |s|, 3
  {
    hide ParseValue, Reads, SpacedText, ValueOf, ScanString, WellSpaced, Spelling, Meaning;
    var before := SkippedIsWhite(s);
    var t := SkipWs(s);
    FirstRest(t);
    var ps := StringWasRead(t[1..]);
    var k := ParseString(s).value.1;
    var between := SkippedIsWhite(k);
    var u := SkipWs(k);
    FirstRest(u);
    var w, c := ValueWasRead(u[1..]);
    var value := ItemWasRead(u[1..], w, c, ParseValue(u[1..]).value.0, ParseValue(u[1..]).value.1);
    m := Member(before, ps, between, value);
    assert WellMember(m);
    var rest := SkipWs(ParseMember(s).value.1);
    KeyParts(Spelling(ps), between, SpacedText(value), rest);
    MemberParts(before, "\"" + Spelling(ps) + "\"", between, SpacedText(value), rest);
  }

  lemma KeyParts(key: string, between: string, value: string, rest: string)
    ensures "\"" + (key + "\"" + (between + (":" + (value + rest))))
         == "\"" + key + "\"" + (between + (":" + (value + rest)))
  {
    Assoc("\"", key, "\"");
    Assoc("\"", key + "\"", between + (":" + (value + rest)));
  }

  lemma {:induction false} MembersWereRead(s: string) returns (members: seq<Member>)
    requires ParseMembers(s).Some?
    ensures members != [] && forall i :: 0 <= i < |members| ==> WellMember(members[i])
    ensures FieldsOf(members) == ParseMembers(s).value.0 && s == MembersText(members) + ("}" + ParseMembers(s).value.1)
    decreases |s|, 4
  {
    hide ParseMember, WellMember, MemberText, FieldOf;
    var f, behind := ParseMember(s).value.0, ParseMember(s).value.1;
    var m := MemberWasRead(s);
    var x := SkipWs(behind);
    FirstRest(x);
    if StartsWith(x, ',') {
      var tail := MembersWereRead(x[1..]);
      members := [m] + tail;
      Cons(m, tail);
      CommaAssoc(MemberText(m), MembersText(tail), "}" + ParseMembers(s).value.1);
    } else {
      members := [m];
      assert members[1..] == [];
      Unit([f]);
    }
  }

  /**
    The reader accepts exactly the texts that begin with a value in this grammar: white space,
    a value, and whatever follows it.
  */
  lemma ReadsExactly(s: string)
    ensures ParseValue(s).Some? ==>
              exists w: string, c: Core :: Reads(s, w, c, ParseValue(s).value.0, ParseValue(s).value.1)
    ensures forall t: Spaced, rest: string :: WellSpaced(t) && Behind(rest) && s == SpacedText(t) + rest ==>
              ParseValue(s) == Some((ValueOf(t.core), t.after + rest))
  {
    hide ParseValue, SpacedText;
    if ParseValue(s).Some? {
      var w, c := ValueWasRead(s);
    }
    forall t: Spaced, rest: string | WellSpaced(t) && Behind(rest) && s == SpacedText(t) + rest
      ensures WellSpaced(t) && ParseValue(s) == Some((ValueOf(t.core), t.after + rest))
    {
      ParseText(t, rest);
    }
  }
}
