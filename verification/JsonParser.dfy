/**
  The recursive parser as the program runs it: an object that moves a cursor over the text
  and raises a flag on failure. Every method is tied to the scanning function of the same
  name applied to the unread text.
*/
module JsonParser {
  import opened Bytes
  import opened SeqFacts
  import opened JsonSpec
  import Spec = JsonSpec

  class Parser {
    const data: string
    var pos: nat
    var failed: bool

    ghost predicate Valid()
      reads this
    {
      pos <= |data|
    }

    constructor (text: string)
      ensures Valid() && !failed && data == text && pos == 0
    {
      data, pos, failed := text, 0, false;
    }

    method SkipWs()
      requires Valid()
      modifies `pos
      ensures Valid() && pos >= old(pos)
      ensures data[pos..] == Spec.SkipWs(data[old(pos)..])
    {
      while pos < |data|
        invariant Valid() && pos >= old(pos)
        invariant Spec.SkipWs(data[pos..]) == Spec.SkipWs(data[old(pos)..])
      {
        var c := data[pos];
        if c == ' ' || c == '\t' || c == '\n' || c == '\r' {
          DropDrop(data, pos, 1);
          pos := pos + 1;
        } else {
          break;
        }
      }
    }

    method Match(c: char) returns (ok: bool)
      requires Valid()
      modifies `pos
      ensures Valid() && pos >= old(pos)
      ensures ok == StartsWith(Spec.SkipWs(data[old(pos)..]), c)
      ensures data[pos..] == if ok then Spec.SkipWs(data[old(pos)..])[1..] else Spec.SkipWs(data[old(pos)..])
    {
      SkipWs();
      if pos < |data| && data[pos] == c {
        DropDrop(data, pos, 1);
        pos := pos + 1;
        return true;
      }
      return false;
    }

    method Expect(c: char)
      requires Valid()
      modifies `pos, `failed
      ensures Valid() && pos >= old(pos)
      ensures failed == (old(failed) || !StartsWith(Spec.SkipWs(data[old(pos)..]), c))
      ensures StartsWith(Spec.SkipWs(data[old(pos)..]), c) ==> data[pos..] == Spec.SkipWs(data[old(pos)..])[1..]
    {
      var ok := Match(c);
      if !ok {
        failed := true;
      }
    }

    /** The four digits of a `\u` escape, one nibble at a time. */
    method ParseHex() returns (ok: bool, cp: nat)
      requires Valid() && pos + 4 <= |data|
      modifies `pos, `failed
      ensures Valid() && pos >= old(pos)
      ensures ok == Hex4(data[old(pos)..][..4]).Some?
      ensures ok ==> cp == Hex4(data[old(pos)..][..4]).value && failed == old(failed)
      ensures ok ==> data[pos..] == data[old(pos)..][4..] && pos == old(pos) + 4
      ensures !ok ==> failed
    {
      ghost var s := data[pos..][..4];
      cp := 0;
      var i := 0;
      while i < 4
        invariant 0 <= i <= 4 && Valid() && pos == old(pos) + i && failed == old(failed)
        invariant forall k :: 0 <= k < i ==> HexValue(s[k]).Some?
        invariant cp == HexPrefix(s, i)
      {
        var h := data[pos];
        assert h == s[i];
        pos := pos + 1;
        var v := HexValue(h);
        if v.None? {
          failed := true;
          return false, 0;
        }
        cp := 0x10 * cp + v.value;
        i := i + 1;
      }
      HexPrefixIsHex4(s);
      DropDrop(data, old(pos), 4);
      ok := true;
    }

    /** Behind a backslash. */
    method ParseEscape() returns (ok: bool, piece: string)
      requires Valid() && pos > 0 && data[pos - 1] == '\\'
      modifies `pos, `failed
      ensures Valid() && pos >= old(pos)
      ensures ok ==> pos > old(pos) && failed == old(failed)
      ensures ok ==> Spec.ScanString(data[old(pos) - 1..]) == Prepend(piece, Spec.ScanString(data[pos..]))
      ensures !ok ==> failed && Spec.ScanString(data[old(pos) - 1..]).None?
    {
      if pos >= |data| {
        failed := true;
        return false, "";
      }
      var e := data[pos];
      ghost var before := data[pos - 1..];
      DropDrop(data, pos - 1, 2);
      pos := pos + 1;
      if e == 'u' {
        ok, piece := ParseUnicode();
        return;
      }
      ScanEscape(before);
      return true, [Unescape(e)];
    }

    /** Behind `\u`. */
    method ParseUnicode() returns (ok: bool, piece: string)
      requires Valid() && pos > 1 && data[pos - 2] == '\\' && data[pos - 1] == 'u'
      modifies `pos, `failed
      ensures Valid() && pos >= old(pos)
      ensures ok ==> failed == old(failed)
      ensures ok ==> Spec.ScanString(data[old(pos) - 2..]) == Prepend(piece, Spec.ScanString(data[pos..]))
      ensures !ok ==> failed && Spec.ScanString(data[old(pos) - 2..]).None?
    {
      piece := "";
      if pos + 4 > |data| {
        failed := true;
        return false, piece;
      }
      ghost var before := data[pos - 2..];
      DropDrop(data, pos - 2, 2);
      ScanUnicode(before);
      var cp;
      ok, cp := ParseHex();
      if ok {
        Hex4Bound(data[old(pos)..][..4]);
        piece := Utf8(cp);
      }
    }

    /** Behind the opening quote. */
    method ScanString() returns (ok: bool, out: string)
      requires Valid()
      modifies `pos, `failed
      ensures Valid() && pos >= old(pos)
      ensures ok == Spec.ScanString(data[old(pos)..]).Some?
      ensures ok ==> Spec.ScanString(data[old(pos)..]) == Some((out, data[pos..])) && failed == old(failed)
      ensures !ok ==> failed
    {
      out := "";
      ghost var body := data[pos..];
      PrependNothing(Spec.ScanString(body));
      while pos < |data|
        invariant Valid() && pos >= old(pos) && failed == old(failed)
        invariant Spec.ScanString(body) == Prepend(out, Spec.ScanString(data[pos..]))
      {
        ghost var before := data[pos..];
        var c := data[pos];
        if c == '"' {
          ScanEnd(body, out, before);
          DropDrop(data, pos, 1);
          pos := pos + 1;
          return true, out;
        }
        var fine, piece := ScanCharacter();
        if !fine {
          return false, out;
        }
        ScanStep(body, out, before, piece, data[pos..]);
        out := out + piece;
      }
      failed := true;
      return false, out;
    }

    /** One character, or one escape, that is not the closing quote. */
    method ScanCharacter() returns (ok: bool, piece: string)
      requires Valid() && pos < |data| && data[pos] != '"'
      modifies `pos, `failed
      ensures Valid()
      ensures ok ==> pos > old(pos) && failed == old(failed)
      ensures ok ==> Spec.ScanString(data[old(pos)..]) == Prepend(piece, Spec.ScanString(data[pos..]))
      ensures !ok ==> failed && pos >= old(pos) && Spec.ScanString(data[old(pos)..]).None?
    {
      var c := data[pos];
      ghost var before := data[pos..];
      DropDrop(data, pos, 1);
      pos := pos + 1;
      if c == '\\' {
        ok, piece := ParseEscape();
      } else {
        ScanPlain(before);
        return true, [c];
      }
    }

    method ParseString() returns (ok: bool, out: string)
      requires Valid()
      modifies `pos, `failed
      ensures Valid() && pos >= old(pos)
      ensures ok == Spec.ParseString(data[old(pos)..]).Some?
      ensures ok ==> Spec.ParseString(data[old(pos)..]) == Some((out, data[pos..])) && failed == old(failed)
      ensures !ok ==> failed
    {
      SkipWs();
      if pos >= |data| || data[pos] != '"' {
        failed := true;
        return false, "";
      }
      DropDrop(data, pos, 1);
      pos := pos + 1;
      ok, out := ScanString();
    }

    method ParseLiteral(literal: string) returns (ok: bool)
      requires Valid()
      modifies `pos
      ensures Valid() && pos >= old(pos)
      ensures ok == HasPrefix(data[old(pos)..], literal)
      ensures data[pos..] == if ok then data[old(pos)..][|literal|..] else data[old(pos)..]
    {
      if pos + |literal| > |data| || data[pos..pos + |literal|] != literal {
        return false;
      }
      DropDrop(data, pos, |literal|);
      pos := pos + |literal|;
      return true;
    }

    method SkipDigits()
      requires Valid()
      modifies `pos
      ensures Valid() && pos == old(pos) + Digits(data[old(pos)..])
      ensures data[pos..] == BehindDigits(data[old(pos)..])
    {
      while pos < |data| && '0' <= data[pos] <= '9'
        invariant Valid() && pos >= old(pos)
        invariant pos + Digits(data[pos..]) == old(pos) + Digits(data[old(pos)..])
      {
        DropDrop(data, pos, 1);
        pos := pos + 1;
      }
    }

    method SkipSign()
      requires Valid()
      modifies `pos
      ensures Valid() && pos == old(pos) + SignLength(data[old(pos)..])
      ensures data[pos..] == BehindSign(data[old(pos)..])
    {
      if pos < |data| && (data[pos] == '-' || data[pos] == '+') {
        pos := pos + 1;
      }
    }

    method SkipFraction() returns (sawDigit: bool)
      requires Valid()
      modifies `pos
      ensures Valid() && pos == old(pos) + FractionLength(data[old(pos)..])
      ensures data[pos..] == BehindFraction(data[old(pos)..])
      ensures sawDigit == (FractionLength(data[old(pos)..]) > 1)
    {
      sawDigit := false;
      if pos < |data| && data[pos] == '.' {
        DropDrop(data, pos, 1);
        pos := pos + 1;
        var from := pos;
        SkipDigits();
        sawDigit := pos > from;
      }
    }

    method SkipExponent()
      requires Valid()
      modifies `pos
      ensures Valid() && pos == old(pos) + ExponentLength(data[old(pos)..])
    {
      if pos < |data| && (data[pos] == 'e' || data[pos] == 'E') {
        DropDrop(data, pos, 1);
        pos := pos + 1;
        ghost var from := pos;
        SkipSign();
        DropDrop(data, from, pos - from);
        SkipDigits();
      }
    }

    /** Move behind the longest number at the cursor. */
    method ScanNumber() returns (sawDigit: bool)
      requires Valid()
      modifies `pos
      ensures Valid() && pos == old(pos) + NumberLength(data[old(pos)..])
      ensures sawDigit == HasDigit(data[old(pos)..])
    {
      SkipSign();
      var from := pos;
      SkipDigits();
      sawDigit := pos > from;
      var inFraction := SkipFraction();
      SkipExponent();
      sawDigit := sawDigit || inFraction;
    }

    method ParseNumber() returns (ok: bool, text: string)
      requires Valid()
      modifies `pos, `failed
      ensures Valid() && pos >= old(pos)
      ensures ok == Spec.ParseNumber(Spec.SkipWs(data[old(pos)..])).Some?
      ensures ok ==>
                Spec.ParseNumber(Spec.SkipWs(data[old(pos)..])) == Some((Number(text), data[pos..]))
                && failed == old(failed)
      ensures !ok ==> failed
    {
      SkipWs();
      ok, text := ParseNumberHere();
    }

    method ParseNumberHere() returns (ok: bool, text: string)
      requires Valid()
      modifies `pos, `failed
      ensures Valid() && pos >= old(pos)
      ensures ok == Spec.ParseNumber(data[old(pos)..]).Some?
      ensures ok ==> Spec.ParseNumber(data[old(pos)..]) == Some((Number(text), data[pos..]))
      ensures if ok then failed == old(failed) else failed
    {
      var start := pos;
      text := "";
      ok := ScanNumber();
      if ok {
        text := data[start..pos];
        NumberAt(data, start, pos - start);
      } else {
        failed := true;
      }
    }

    method ParseValue() returns (ok: bool, out: Json)
      requires Valid() && !failed
      modifies `pos, `failed
      ensures Valid() && pos >= old(pos)
      ensures ok == Spec.ParseValue(data[old(pos)..]).Some?
      ensures ok ==> Spec.ParseValue(data[old(pos)..]) == Some((out, data[pos..])) && !failed
      ensures !ok ==> failed
      decreases |data| - pos, 0
    {
      out := Null;
      SkipWs();
      if failed || pos >= |data| {
        failed := true;
        return false, out;
      }
      ghost var t := data[pos..];
      SkipWsTwice(data[old(pos)..]);
      var c := data[pos];
      if c == '"' {
        var s;
        ok, s := ParseString();
        return ok, String(s);
      }
      if c == '{' {
        DropDrop(data, pos, 1);
        pos := pos + 1;
        ok, out := ParseObject();
        return;
      }
      if c == '[' {
        DropDrop(data, pos, 1);
        pos := pos + 1;
        ok, out := ParseArray();
        return;
      }
      ok, out := ParseKeyword();
      if ok {
        return;
      }
      if c == '-' || '0' <= c <= '9' {
        var text;
        ok, text := ParseNumber();
        return ok, Number(text);
      }
      failed := true;
    }

    method ParseKeyword() returns (ok: bool, out: Json)
      requires Valid()
      modifies `pos
      ensures Valid() && pos >= old(pos)
      ensures ok == Spec.ParseLiteral(data[old(pos)..]).Some?
      ensures ok ==> Spec.ParseLiteral(data[old(pos)..]) == Some((out, data[pos..]))
      ensures !ok ==> data[pos..] == data[old(pos)..]
    {
      ok := ParseLiteral("true");
      if ok {
        return ok, Bool(true);
      }
      ok := ParseLiteral("false");
      if ok {
        return ok, Bool(false);
      }
      ok := ParseLiteral("null");
      out := Null;
    }

    method ParseObject() returns (ok: bool, out: Json)
      requires Valid() && !failed
      modifies `pos, `failed
      ensures Valid() && pos >= old(pos)
      ensures ok == Spec.ParseObject(data[old(pos)..]).Some?
      ensures ok ==> Spec.ParseObject(data[old(pos)..]) == Some((out, data[pos..])) && !failed
      ensures !ok ==> failed
      decreases |data| - pos, 3
    {
      ghost var s := data[pos..];
      SkipWs();
      SkipWsTwice(s);
      var closed := Match('}');
      if closed {
        return true, Object([]);
      }
      var fields;
      ok, fields := ParseMembers();
      out := Object(fields);
    }

    method ParseArray() returns (ok: bool, out: Json)
      requires Valid() && !failed
      modifies `pos, `failed
      ensures Valid() && pos >= old(pos)
      ensures ok == Spec.ParseArray(data[old(pos)..]).Some?
      ensures ok ==> Spec.ParseArray(data[old(pos)..]) == Some((out, data[pos..])) && !failed
      ensures !ok ==> failed
      decreases |data| - pos, 3
    {
      ghost var s := data[pos..];
      SkipWs();
      SkipWsTwice(s);
      var closed := Match(']');
      if closed {
        return true, Array([]);
      }
      var items;
      ok, items := ParseItems();
      out := Array(items);
    }

    method ParseMember() returns (ok: bool, field: Field)
      requires Valid() && !failed
      modifies `pos, `failed
      ensures Valid() && pos >= old(pos)
      ensures ok == Spec.ParseMember(data[old(pos)..]).Some?
      ensures ok ==> Spec.ParseMember(data[old(pos)..]) == Some((field, data[pos..])) && !failed
      ensures !ok ==> failed
      decreases |data| - pos, 1
    {
      var key, v;
      ok, key := ParseString();
      field := Field(key, Null);
      if !ok {
        return;
      }
      ghost var behindKey := data[pos..];
      SkipWs();
      SkipWsTwice(behindKey);
      Expect(':');
      if failed {
        return false, field;
      }
      ok, v := ParseValue();
      return ok, Field(key, v);
    }

    /** The loop over an object's members, behind the opening brace. */
    method ParseMembers() returns (ok: bool, fields: seq<Field>)
      requires Valid() && !failed
      modifies `pos, `failed
      ensures Valid() && pos >= old(pos)
      ensures ok == Spec.ParseMembers(data[old(pos)..]).Some?
      ensures ok ==> Spec.ParseMembers(data[old(pos)..]) == Some((fields, data[pos..])) && !failed
      ensures !ok ==> failed
      decreases |data| - pos, 2
    {
      fields := [];
      ghost var s := data[pos..];
      BehindNothing(Spec.ParseMembers(s));
      while true
        invariant Valid() && pos >= old(pos) && !failed
        invariant Spec.ParseMembers(s) == Behind(fields, Spec.ParseMembers(data[pos..]))
        decreases |data| - pos
      {
        ghost var here := data[pos..];
        var field, sep;
        ok, field := ParseMember();
        if !ok {
          return;
        }
        ghost var after := data[pos..];
        MembersStep(here, field, after);
        fields := fields + [field];
        SkipWs();
        SkipWsTwice(after);
        sep := Match(',');
        if sep {
          BehindTwice(fields[..|fields| - 1], field, Spec.ParseMembers(data[pos..]));
          continue;
        }
        sep := Match('}');
        if sep {
          return true, fields;
        }
        failed := true;
        return false, fields;
      }
    }

    /** The loop over an array's items, behind the opening bracket. */
    method ParseItems() returns (ok: bool, items: seq<Json>)
      requires Valid() && !failed
      modifies `pos, `failed
      ensures Valid() && pos >= old(pos)
      ensures ok == Spec.ParseItems(data[old(pos)..]).Some?
      ensures ok ==> Spec.ParseItems(data[old(pos)..]) == Some((items, data[pos..])) && !failed
      ensures !ok ==> failed
      decreases |data| - pos, 2
    {
      items := [];
      ghost var s := data[pos..];
      BehindNothing(Spec.ParseItems(s));
      while true
        invariant Valid() && pos >= old(pos) && !failed
        invariant Spec.ParseItems(s) == Behind(items, Spec.ParseItems(data[pos..]))
        decreases |data| - pos
      {
        ghost var here := data[pos..];
        var v, sep;
        ok, v := ParseValue();
        if !ok {
          return;
        }
        ghost var after := data[pos..];
        ItemsStep(here, v, after);
        items := items + [v];
        SkipWs();
        SkipWsTwice(after);
        sep := Match(',');
        if sep {
          BehindTwice(items[..|items| - 1], v, Spec.ParseItems(data[pos..]));
          continue;
        }
        sep := Match(']');
        if sep {
          return true, items;
        }
        failed := true;
        return false, items;
      }
    }
  }

  lemma BehindNothing<T>(r: Option<(seq<T>, string)>)
    ensures Behind([], r) == r
  {
    if r.Some? {
      assert [] + r.value.0 == r.value.0;
    }
  }

  lemma BehindTwice<T>(front: seq<T>, x: T, r: Option<(seq<T>, string)>)
    ensures Behind(front, Behind([x], r)) == Behind(front + [x], r)
  {
    if r.Some? {
      Assoc(front, [x], r.value.0);
    }
  }

  lemma MembersStep(here: string, f: Field, after: string)
    requires ParseMember(here) == Some((f, after))
    ensures
      var w := Spec.SkipWs(after);
      Spec.ParseMembers(here) ==
      if StartsWith(w, ',') then Behind([f], Spec.ParseMembers(w[1..]))
      else if StartsWith(w, '}') then Some(([f], w[1..]))
      else None
  {
  }

  lemma ItemsStep(here: string, v: Json, after: string)
    requires ParseValue(here) == Some((v, after))
    ensures
      var w := Spec.SkipWs(after);
      Spec.ParseItems(here) ==
      if StartsWith(w, ',') then Behind([v], Spec.ParseItems(w[1..]))
      else if StartsWith(w, ']') then Some(([v], w[1..]))
      else None
  {
  }

  /** A parsed list with `front` before it. */
  function Behind<T>(front: seq<T>, r: Option<(seq<T>, string)>): Option<(seq<T>, string)> {
    if r.None? then None else Some((front + r.value.0, r.value.1))
  }

  lemma SkipWsTwice(s: string)
    ensures Spec.SkipWs(Spec.SkipWs(s)) == Spec.SkipWs(s)
  {
  }

  function HexPrefix(s: string, n: nat): nat
    requires n <= |s| && forall k :: 0 <= k < n ==> HexValue(s[k]).Some?
  {
    if n == 0 then 0 else 0x10 * HexPrefix(s, n - 1) + HexValue(s[n - 1]).value
  }

  lemma HexPrefixIsHex4(s: string)
    requires |s| == 4 && forall k :: 0 <= k < 4 ==> HexValue(s[k]).Some?
    ensures Hex4(s) == Some(HexPrefix(s, 4))
  {
    assert HexPrefix(s, 2) == 0x10 * HexPrefix(s, 1) + HexValue(s[1]).value;
    assert HexPrefix(s, 1) == HexValue(s[0]).value;
  }

  lemma ScanEnd(body: string, soFar: string, before: string)
    requires Spec.ScanString(body) == Prepend(soFar, Spec.ScanString(before)) && StartsWith(before, '"')
    ensures Spec.ScanString(body) == Some((soFar, before[1..]))
  {
    assert soFar + "" == soFar;
  }

  lemma ScanEscape(before: string)
    requires |before| >= 2 && before[0] == '\\' && before[1] != 'u'
    ensures Spec.ScanString(before) == Prepend([Unescape(before[1])], Spec.ScanString(before[2..]))
  {
  }

  lemma ScanUnicode(before: string)
    requires |before| >= 6 && before[0] == '\\' && before[1] == 'u'
    ensures Hex4(before[2..][..4]).None? ==> Spec.ScanString(before).None?
    ensures Hex4(before[2..][..4]).Some? ==>
              && Hex4(before[2..][..4]).value < 0x1_0000
              && Spec.ScanString(before)
                 == Prepend(Utf8(Hex4(before[2..][..4]).value), Spec.ScanString(before[2..][4..]))
  {
    TakeDrop(before, 2, 4);
    DropDrop(before, 2, 4);
    Hex4Bound(before[2..6]);
  }

  lemma ScanPlain(before: string)
    requires before != "" && before[0] != '"' && before[0] != '\\'
    ensures Spec.ScanString(before) == Prepend([before[0]], ScanString(before[1..]))
  {
  }

  lemma ScanStep(body: string, soFar: string, before: string, piece: string, after: string)
    requires Spec.ScanString(body) == Prepend(soFar, Spec.ScanString(before))
    requires Spec.ScanString(before) == Prepend(piece, Spec.ScanString(after))
    ensures Spec.ScanString(body) == Prepend(soFar + piece, Spec.ScanString(after))
  {
    PrependTwice(soFar, piece, ScanString(after));
  }

  lemma NumberAt(text: string, start: nat, n: nat)
    requires start + n <= |text|
    requires HasDigit(text[start..]) && n == NumberLength(text[start..])
    ensures Spec.ParseNumber(text[start..]) == Some((Number(text[start..start + n]), text[start + n..]))
  {
    TakeDrop(text, start, n);
    DropDrop(text, start, n);
  }

  lemma PrependNothing(r: Option<(string, string)>)
    ensures Prepend("", r) == r
  {
    if r.Some? {
      assert "" + r.value.0 == r.value.0;
    }
  }

  lemma PrependTwice(a: string, b: string, r: Option<(string, string)>)
    ensures Prepend(a, Prepend(b, r)) == Prepend(a + b, r)
  {
    if r.Some? {
      Assoc(a, b, r.value.0);
    }
  }
}
