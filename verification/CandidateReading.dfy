/**
  Exactly what the candidate reader makes of any line: its numbers, its tokens whatever blanks
  lie between them, and which value each field takes.
*/
module CandidateReading {
  import opened Bytes
  import opened SeqFacts
  import opened JsonSpec
  import opened DecimalText
  import opened IceCandidateSpec

  // ---------------------------------------------------------------------------
  // Numbers
  // ---------------------------------------------------------------------------

  predicate AllCSpace(s: string) {
    forall i :: 0 <= i < |s| ==> s[i] in {' ', '\t', '\n', 11 as char, 12 as char, '\r'}
  }

  predicate EndsCString(s: string) {
    s == "" || s[0] == '\0'
  }

  /** White space, a sign or none, digits, and then the end of the C string. */
  ghost predicate Spells(s: string, sign: string, digits: string) {
    && sign in {"", "+", "-"} && digits != "" && AllDigits(digits)
    && exists blanks, rest :: AllCSpace(blanks) && EndsCString(rest) && s == blanks + (sign + digits) + rest
  }

  /** The nearest 32-bit integer. */
  function NearestInt32(sign: string, n: nat): int {
    if sign == "-" then if n >= 2147483648 then -2147483648 else -(n as int)
    else if n >= 2147483648 then 2147483647
    else n
  }

  /** The nearest 32-bit number; a minus sign counts it down from 2^32. */
  function NearestU32(sign: string, n: nat): int {
    if n >= 4294967296 then 4294967295
    else if sign == "-" && n > 0 then 4294967296 - n
    else n
  }

  lemma {:induction false} CStringOf(a: string, rest: string)
    requires (forall i :: 0 <= i < |a| ==> a[i] != '\0') && EndsCString(rest)
    ensures CString(a + rest) == a
  {
    if a == "" {
      Unit(rest);
    } else {
      assert (a + rest)[1..] == a[1..] + rest;
      CStringOf(a[1..], rest);
      FirstRest(a);
    }
  }

  lemma {:induction false} CStringSplits(s: string) returns (rest: string)
    ensures s == CString(s) + rest && EndsCString(rest)
    ensures forall i :: 0 <= i < |CString(s)| ==> CString(s)[i] != '\0'
  {
    if EndsCString(s) {
      rest := s;
    } else {
      rest := CStringSplits(s[1..]);
      FirstRest(s);
    }
  }

  lemma {:induction false} SkipsCSpace(blanks: string, u: string)
    requires AllCSpace(blanks) && u != "" && !IsCSpace(u[0])
    ensures SkipCSpace(blanks + u) == u
  {
    if blanks == "" {
      Unit(u);
    } else {
      assert (blanks + u)[1..] == blanks[1..] + u;
      SkipsCSpace(blanks[1..], u);
    }
  }

  lemma {:induction false} CSpaceSplits(t: string) returns (blanks: string)
    ensures AllCSpace(blanks) && t == blanks + SkipCSpace(t)
    ensures SkipCSpace(t) != "" ==> !IsCSpace(SkipCSpace(t)[0])
  {
    if t != "" && IsCSpace(t[0]) {
      var more := CSpaceSplits(t[1..]);
      blanks := [t[0]] + more;
      FirstRest(t);
    } else {
      blanks := "";
    }
  }

  lemma SignedStarts(sign: string, digits: string)
    requires sign in {"", "+", "-"} && digits != "" && AllDigits(digits)
    ensures
      var u := sign + digits;
      && BehindSign(u) == digits && SignLength(u) == |sign|
      && !IsCSpace(u[0]) && (StartsWith(u, '-') <==> sign == "-")
  {
    DropPrefix(sign, digits);
    assert IsDigit(digits[0]);
  }

  lemma NoNul(blanks: string, sign: string, digits: string)
    requires AllCSpace(blanks) && sign in {"", "+", "-"} && AllDigits(digits)
    ensures var t := blanks + (sign + digits); forall i :: 0 <= i < |t| ==> t[i] != '\0'
  {
  }

  lemma NumberIsRead(s: string, sign: string, digits: string)
    requires Spells(s, sign, digits)
    ensures ParseInt(s) == Some(NearestInt32(sign, DigitsValue(digits)))
    ensures ParseU32(s) == Some(NearestU32(sign, DigitsValue(digits)))
  {
    hide CString, SkipCSpace, Run, DigitsValue, StartsWith, BehindSign, SignLength;
    var blanks, rest :| AllCSpace(blanks) && EndsCString(rest) && s == blanks + (sign + digits) + rest;
    var u := sign + digits;
    NoNul(blanks, sign, digits);
    CStringOf(blanks + u, rest);
    SignedStarts(sign, digits);
    SkipsCSpace(blanks, u);
    WholeRun(digits);
    Reduce32Negative(DigitsValue(digits));
  }

  lemma Reduce32Negative(n: nat)
    ensures 0 < n <= 0xFFFF_FFFF ==> (-(n as int)) % 0x1_0000_0000 == 0x1_0000_0000 - n
  {
  }

  /** A number that is read is spelled so, or the text begins with NUL, which reads as zero. */
  lemma NumberWasSpelled(s: string) returns (sign: string, digits: string)
    requires ParseInt(s).Some? || ParseU32(s).Some?
    ensures s != "" && (s[0] == '\0' || Spells(s, sign, digits))
    ensures s[0] == '\0' ==> ParseInt(s) == Some(0) && ParseU32(s) == Some(0)
  {
    hide DigitsValue, StartsWith;
    sign, digits := "", "";
    if s[0] == '\0' {
      Zero();
    } else {
      var rest := CStringSplits(s);
      var t := CString(s);
      assert t != "";
      var blanks := CSpaceSplits(t);
      var u := SkipCSpace(t);
      sign, digits := SignSplits(u);
      assert t == blanks + (sign + digits);
      assert s == blanks + (sign + digits) + rest;
    }
  }

  lemma SignSplits(u: string) returns (sign: string, digits: string)
    ensures sign in {"", "+", "-"} && |sign| == SignLength(u) && sign + BehindSign(u) == u
    ensures digits == Run(BehindSign(u)) && |digits| <= |BehindSign(u)| && digits <= BehindSign(u)
  {
    sign, digits := u[..SignLength(u)], Run(BehindSign(u));
    SplitAt(u, SignLength(u));
    RunIsPrefix(BehindSign(u));
    assert |sign| == 1 ==> sign == [u[0]];
  }

  lemma Zero()
    ensures NumberEnd("") == 0 && Magnitude("") == 0 && SkipCSpace("") == ""
  {
    var none: string := "";
    assert none[0..] == none && DigitsValue(none) == 0;
  }

  lemma {:induction false} RunIsPrefix(s: string)
    ensures |Run(s)| <= |s| && s[..|Run(s)|] == Run(s)
  {
    if s != "" && IsDigit(s[0]) {
      RunIsPrefix(s[1..]);
      assert s[..|Run(s)|] == [s[0]] + s[1..][..|Run(s[1..])|];
    }
  }

  // ---------------------------------------------------------------------------
  // Tokens
  // ---------------------------------------------------------------------------

  predicate Gap(s: string) {
    forall i :: 0 <= i < |s| ==> s[i] in {' ', '\t'}
  }

  predicate Word(s: string) {
    s != "" && forall i :: 0 <= i < |s| ==> s[i] !in {' ', '\t'}
  }

  /** The tokens with a gap before each and one behind the last. */
  function Spread(gaps: seq<string>, tokens: seq<string>): string
    requires |gaps| == |tokens| + 1
    decreases |tokens|
  {
    if tokens == [] then gaps[0] else gaps[0] + (tokens[0] + Spread(gaps[1..], tokens[1..]))
  }

  /** Only the first and the last gap may be empty. */
  ghost predicate Laid(s: string, gaps: seq<string>, tokens: seq<string>) {
    && |gaps| == |tokens| + 1 && s == Spread(gaps, tokens)
    && (forall i :: 0 <= i < |tokens| ==> Word(tokens[i]))
    && (forall i :: 0 <= i < |gaps| ==> Gap(gaps[i]))
    && (forall i :: 0 < i < |tokens| ==> gaps[i] != "")
  }

  lemma {:induction false} SkipsGap(gap: string, rest: string)
    requires Gap(gap)
    ensures SplitFrom(gap + rest, "") == SplitFrom(rest, "")
  {
    if gap == "" {
      Unit(rest);
    } else {
      assert (gap + rest)[1..] == gap[1..] + rest;
      SkipsGap(gap[1..], rest);
      Unit(SplitFrom(gap[1..] + rest, ""));
    }
  }

  lemma EndsToken(token: string, rest: string)
    requires Word(token) && (rest == "" || Separates(rest[0]))
    ensures SplitFrom(token + rest, "") == [token] + SplitFrom(rest, "")
  {
    SplitToken(token, rest, "");
    Unit(token);
    if rest != "" {
      Unit(SplitFrom(rest[1..], ""));
    }
  }

  lemma {:induction false} TokensAreSplit(s: string, gaps: seq<string>, tokens: seq<string>)
    requires Laid(s, gaps, tokens)
    ensures SplitFrom(s, "") == tokens
    decreases |tokens|
  {
    hide SplitFrom, Word, Gap;
    if tokens == [] {
      SkipsGap(gaps[0], "");
      Unit(gaps[0]);
      NoTokens();
    } else {
      var rest := Spread(gaps[1..], tokens[1..]);
      SkipsGap(gaps[0], tokens[0] + rest);
      GapFirst(rest, gaps[1..], tokens[1..]);
      EndsToken(tokens[0], rest);
      TokensAreSplit(rest, gaps[1..], tokens[1..]);
      FirstRest(tokens);
    }
  }

  lemma NoTokens()
    ensures SplitFrom("", "") == []
  {
  }

  lemma GapFirst(rest: string, gaps: seq<string>, tokens: seq<string>)
    requires |gaps| == |tokens| + 1 && rest == Spread(gaps, tokens) && Gap(gaps[0])
    requires tokens != [] ==> gaps[0] != ""
    ensures rest == "" || Separates(rest[0])
  {
  }

  /** Every text is laid out like this: its tokens are the ones split off. */
  lemma {:induction false} TokensWereLaid(s: string, current: string) returns (gaps: seq<string>)
    requires forall i :: 0 <= i < |current| ==> !Separates(current[i])
    ensures Laid(current + s, gaps, SplitFrom(s, current))
    ensures current != "" ==> gaps[0] == ""
    decreases |s|
  {
    if s == "" {
      Unit(current);
      gaps := if current == "" then [""] else ["", ""];
      LastToken(current);
    } else if Separates(s[0]) {
      var more := TokensWereLaid(s[1..], "");
      Unit(s[1..]);
      gaps := Widened(s, current, more);
    } else {
      var c := s[0];
      Assoc(current, [c], s[1..]);
      FirstRest(s);
      gaps := TokensWereLaid(s[1..], current + [c]);
    }
  }

  lemma LastToken(current: string)
    requires forall i :: 0 <= i < |current| ==> !Separates(current[i])
    ensures Laid(current, if current == "" then [""] else ["", ""], Finish(current))
  {
    if current != "" {
      assert Spread([""], []) == "";
      assert ["", ""][1..] == [""] && [current][1..] == [];
      Unit(current);
    }
  }

  lemma Widened(s: string, current: string, more: seq<string>) returns (gaps: seq<string>)
    requires s != "" && Separates(s[0]) && (forall i :: 0 <= i < |current| ==> !Separates(current[i]))
    requires Laid(s[1..], more, SplitFrom(s[1..], ""))
    ensures Laid(current + s, gaps, SplitFrom(s, current))
    ensures current != "" ==> gaps[0] == ""
  {
    hide Laid, Spread;
    var rest := SplitFrom(s[1..], "");
    FirstRest(s);
    gaps := WiderGap(s[0], s[1..], more, rest);
    if current == "" {
      Unit(s);
      Unit(rest);
    } else {
      LaidCons(current, s, gaps, rest);
      gaps := [""] + gaps;
    }
  }

  lemma WiderGap(c: char, s: string, gaps: seq<string>, tokens: seq<string>) returns (wide: seq<string>)
    requires Separates(c) && Laid(s, gaps, tokens)
    ensures Laid([c] + s, wide, tokens) && wide[0] != ""
  {
    wide := [[c] + gaps[0]] + gaps[1..];
    Cons([c] + gaps[0], gaps[1..]);
    assert forall i :: 0 < i < |gaps| ==> wide[i] == gaps[i];
    if tokens != [] {
      Assoc([c], gaps[0], tokens[0] + Spread(gaps[1..], tokens[1..]));
    }
  }

  lemma LaidCons(token: string, s: string, gaps: seq<string>, tokens: seq<string>)
    requires Word(token) && Laid(s, gaps, tokens) && gaps[0] != ""
    ensures Laid(token + s, [""] + gaps, [token] + tokens)
  {
    var wide, all := [""] + gaps, [token] + tokens;
    Cons("", gaps);
    Cons(token, tokens);
    Unit(token + s);
    assert Spread(wide, all) == "" + (token + Spread(gaps, tokens));
    assert forall i :: 0 < i < |wide| ==> wide[i] == gaps[i - 1];
    assert forall i :: 0 < i < |all| ==> all[i] == tokens[i - 1];
  }

  lemma SplitIff(s: string, tokens: seq<string>)
    ensures SplitFrom(s, "") == tokens <==> exists gaps :: Laid(s, gaps, tokens)
  {
    hide SplitFrom, Laid;
    var found := TokensWereLaid(s, "");
    Unit(s);
    if gaps :| Laid(s, gaps, tokens) {
      TokensAreSplit(s, gaps, tokens);
    }
  }

  // ---------------------------------------------------------------------------
  // Lines
  // ---------------------------------------------------------------------------

  predicate Padding(s: string) {
    forall i :: 0 <= i < |s| ==> s[i] in {' ', '\t', '\r', '\n'}
  }

  /** A line without the padding around it. */
  predicate Bare(s: string) {
    s != "" && s[0] !in {' ', '\t', '\r', '\n'} && s[|s| - 1] !in {' ', '\t', '\r', '\n'}
  }

  /** A line with the attribute mark and the prefix, each of which may be missing. */
  ghost predicate LineOf(line: string, mark: string, prefix: string, body: string) {
    && line == mark + (prefix + body)
    && (mark == "a=" || (mark == "" && !("a=" <= line)))
    && (prefix == "candidate:" || (prefix == "" && !("candidate:" <= body)))
  }

  lemma {:induction false} TrimsBefore(before: string, rest: string)
    requires Padding(before) && (rest == "" || !IsBlank(rest[0]))
    ensures TrimLeft(before + rest) == rest
  {
    if before == "" {
      Unit(rest);
    } else {
      assert (before + rest)[1..] == before[1..] + rest;
      TrimsBefore(before[1..], rest);
    }
  }

  lemma TrimsPadding(before: string, line: string, after: string)
    requires Padding(before) && Padding(after) && Bare(line)
    ensures Trimmed(before + (line + after)) == line
  {
    hide TrimLeft, TrimRight;
    assert (line + after)[0] == line[0];
    TrimsBefore(before, line + after);
    TrimsAfter(line, after);
  }

  lemma {:induction false} TrimsAfter(line: string, after: string)
    requires Padding(after) && Bare(line)
    ensures TrimRight(line + after) == line
    decreases |after|
  {
    if after == "" {
      Unit(line);
    } else {
      var front := after[..|after| - 1];
      assert (line + after)[..|line + after| - 1] == line + front;
      TrimsAfter(line, front);
    }
  }

  lemma PrefixesAreDropped(line: string, mark: string, prefix: string, body: string)
    requires LineOf(line, mark, prefix, body)
    ensures WithoutPrefix(line) == body
  {
    DropPrefix(mark, prefix + body);
    DropPrefix(prefix, body);
    assert "a=" <= line <==> |line| >= 2 && line[0] == 'a' && line[1] == '=';
    Unit(body);
    Unit(prefix + body);
  }

  /** Padding, attribute mark and prefix are ignored, and so are the widths of the gaps between tokens. */
  lemma LineIsRead(before: string, line: string, after: string,
                   mark: string, prefix: string, body: string, gaps: seq<string>, tokens: seq<string>)
    requires Padding(before) && Padding(after) && Bare(line)
    requires LineOf(line, mark, prefix, body) && Laid(body, gaps, tokens)
    ensures Parsed(before + (line + after)) == ReadTokens(tokens)
  {
    hide Trimmed, WithoutPrefix, SplitFrom, Laid, LineOf, ReadTokens;
    TrimsPadding(before, line, after);
    PrefixesAreDropped(line, mark, prefix, body);
    TokensAreSplit(body, gaps, tokens);
  }

  lemma BlankLineIsRefused(s: string)
    requires Padding(s)
    ensures Parsed(s) == None
  {
    TrimsBefore(s, "");
    Unit(s);
  }

  // ---------------------------------------------------------------------------
  // Fields
  // ---------------------------------------------------------------------------

  /** The value of the last pair with this key. */
  function LastText(pairs: seq<string>, key: string): Option<string>
    decreases |pairs|
  {
    if |pairs| < 2 then None
    else
      var later := LastText(pairs[2..], key);
      if later.Some? then later else if pairs[0] == key then Some(pairs[1]) else None
  }

  /** The value of the last pair with this key whose value is a number. */
  function LastNumber(pairs: seq<string>, key: string): Option<int>
    decreases |pairs|
  {
    if |pairs| < 2 then None
    else
      var later := LastNumber(pairs[2..], key);
      if later.Some? then later else if pairs[0] == key then ParseInt(pairs[1]) else None
  }

  function OrText(o: Option<string>, default: string): string {
    if o.Some? then o.value else default
  }

  function OrNumber(o: Option<int>, default: int): int {
    if o.Some? then o.value else default
  }

  function Extended(c: Candidate, pairs: seq<string>): Candidate {
    c.(relatedAddress := OrText(LastText(pairs, "raddr"), c.relatedAddress),
       ufrag := OrText(LastText(pairs, "ufrag"), c.ufrag),
       relatedPort := OrNumber(LastNumber(pairs, "rport"), c.relatedPort),
       generation := OrNumber(LastNumber(pairs, "generation"), c.generation),
       networkId := OrNumber(LastNumber(pairs, "network-id"), c.networkId),
       networkCost := OrNumber(LastNumber(pairs, "network-cost"), c.networkCost))
  }

  lemma KeysDiffer()
    ensures "raddr" != "rport" && "raddr" != "generation" && "raddr" != "ufrag"
    ensures "raddr" != "network-id" && "raddr" != "network-cost"
    ensures "rport" != "generation" && "rport" != "ufrag" && "rport" != "network-id" && "rport" != "network-cost"
    ensures "generation" != "ufrag" && "generation" != "network-id" && "generation" != "network-cost"
    ensures "ufrag" != "network-id" && "ufrag" != "network-cost" && "network-id" != "network-cost"
  {
    assert "raddr"[1] == 'a' && "rport"[1] == 'p' && "ufrag"[1] == 'f';
  }

  function IfText(here: bool, value: string, otherwise: string): string {
    if here then value else otherwise
  }

  function IfNumber(here: bool, value: string, otherwise: int): int {
    if here then IntOr(value, otherwise) else otherwise
  }

  lemma TextFirst(pairs: seq<string>, key: string, default: string)
    requires |pairs| >= 2
    ensures OrText(LastText(pairs, key), default)
         == OrText(LastText(pairs[2..], key), IfText(pairs[0] == key, pairs[1], default))
  {
  }

  lemma NumberFirst(pairs: seq<string>, key: string, default: int)
    requires |pairs| >= 2
    ensures OrNumber(LastNumber(pairs, key), default)
         == OrNumber(LastNumber(pairs[2..], key), IfNumber(pairs[0] == key, pairs[1], default))
  {
    hide ParseInt;
  }

  /** Each key sets its own field and no other. */
  lemma ExtendSets(c: Candidate, key: string, value: string)
    ensures Extend(c, key, value)
         == c.(relatedAddress := IfText(key == "raddr", value, c.relatedAddress),
               ufrag := IfText(key == "ufrag", value, c.ufrag),
               relatedPort := IfNumber(key == "rport", value, c.relatedPort),
               generation := IfNumber(key == "generation", value, c.generation),
               networkId := IfNumber(key == "network-id", value, c.networkId),
               networkCost := IfNumber(key == "network-cost", value, c.networkCost))
  {
    hide IntOr;
    KeysDiffer();
  }

  lemma ExtendsByFirst(c: Candidate, pairs: seq<string>)
    requires |pairs| >= 2
    ensures Extended(Extend(c, pairs[0], pairs[1]), pairs[2..]) == Extended(c, pairs)
  {
    hide Extend, ParseInt, LastText, LastNumber, OrText, OrNumber, IfText, IfNumber;
    ExtendSets(c, pairs[0], pairs[1]);
    TextFirst(pairs, "raddr", c.relatedAddress);
    TextFirst(pairs, "ufrag", c.ufrag);
    NumberFirst(pairs, "rport", c.relatedPort);
    NumberFirst(pairs, "generation", c.generation);
    NumberFirst(pairs, "network-id", c.networkId);
    NumberFirst(pairs, "network-cost", c.networkCost);
  }

  lemma {:induction false} ExtendsByLast(c: Candidate, pairs: seq<string>)
    ensures ExtendAll(c, pairs) == Extended(c, pairs)
    decreases |pairs|
  {
    hide Extend, Extended;
    if |pairs| >= 2 {
      ExtendsByFirst(c, pairs);
      ExtendsByLast(Extend(c, pairs[0], pairs[1]), pairs[2..]);
    } else {
      NoPair(c, pairs);
    }
  }

  lemma NoPair(c: Candidate, pairs: seq<string>)
    requires |pairs| < 2
    ensures Extended(c, pairs) == c
  {
  }

  /**
    Tokens are read if and only if there are eight, the second, fourth and sixth are numbers, the
    seventh is "typ" and the eighth names a type; each extension comes from its last pair, a pair
    whose value should be a number and is none counting for nothing.
  */
  lemma TokensReadIff(tok: seq<string>, c: Candidate)
    ensures ReadTokens(tok) == Some(c)
       <==>
       && |tok| >= 8 && tok[6] == "typ"
       && ParseInt(tok[1]) == Some(c.componentId) && ParseU32(tok[3]) == Some(c.priority)
       && ParseInt(tok[5]) == Some(c.port)
       && c.foundation == tok[0] && c.transport == tok[2] && c.ip == tok[4]
       && ((tok[7] == "host" && c.kind == Host) || (tok[7] == "srflx" && c.kind == Srflx)
           || (tok[7] == "prflx" && c.kind == Prflx) || (tok[7] == "relay" && c.kind == Relay))
       && c.relatedAddress == OrText(LastText(tok[8..], "raddr"), "")
       && c.ufrag == OrText(LastText(tok[8..], "ufrag"), "")
       && c.relatedPort == OrNumber(LastNumber(tok[8..], "rport"), 0)
       && c.generation == OrNumber(LastNumber(tok[8..], "generation"), 0)
       && c.networkId == OrNumber(LastNumber(tok[8..], "network-id"), 0)
       && c.networkCost == OrNumber(LastNumber(tok[8..], "network-cost"), 0)
  {
    hide ParseInt, ParseU32, ExtendAll, LastText, LastNumber, OrText, OrNumber;
    assert "srflx"[0] == 's' && "prflx"[0] == 'p' && "relay"[0] == 'r' && "host"[0] == 'h';
    if |tok| >= 8 && ParseInt(tok[1]).Some? && ParseU32(tok[3]).Some? && ParseInt(tok[5]).Some? {
      ExtendsByLast(
        Candidate(tok[0], ParseInt(tok[1]).value, tok[2], ParseU32(tok[3]).value, tok[4], ParseInt(tok[5]).value,
                  TypeOf(tok[7]), "", 0, 0, 0, "", 0),
        tok[8..]);
    }
  }
}
