/** Candidate lines as the program handles them: scanning loops and a growing output. */
module IceCandidate {
  import opened Bytes
  import opened SeqFacts
  import opened DecimalText
  import opened IceCandidateSpec

  method Trim(s: string) returns (r: string)
    ensures r == Trimmed(s)
  {
    var a, b := 0, |s|;
    assert s[0..] == s;
    while a < b && IsBlank(s[a])
      invariant 0 <= a <= b == |s| && TrimLeft(s[a..]) == TrimLeft(s)
    {
      DropDrop(s, a, 1);
      a := a + 1;
    }
    LeftDone(s, a);
    while b > a && IsBlank(s[b - 1])
      invariant a <= b <= |s| && TrimRight(s[a..b]) == TrimRight(s[a..])
    {
      DropLast(s, a, b);
      b := b - 1;
    }
    RightDone(s[a..b]);
    r := s[a..b];
  }

  lemma LeftDone(s: string, a: nat)
    requires a <= |s| && (a < |s| ==> !IsBlank(s[a]))
    ensures TrimLeft(s[a..]) == s[a..] && s[a..|s|] == s[a..]
  {
  }

  lemma DropLast(s: string, a: nat, b: nat)
    requires a < b <= |s| && IsBlank(s[b - 1])
    ensures TrimRight(s[a..b]) == TrimRight(s[a..b - 1])
  {
    assert s[a..b][..b - a - 1] == s[a..b - 1];
  }

  lemma RightDone(t: string)
    requires t != "" ==> !IsBlank(t[|t| - 1])
    ensures TrimRight(t) == t
  {
  }

  method SplitSpaces(s: string) returns (out: seq<string>)
    ensures out == SplitFrom(s, "")
  {
    hide SplitFrom;
    out := [];
    var cur := "";
    var i := 0;
    assert s[0..] == s;
    Unit(SplitFrom(s, ""));
    while i < |s|
      invariant 0 <= i <= |s|
      invariant SplitFrom(s, "") == out + SplitFrom(s[i..], cur)
    {
      SplitHere(s, i, cur);
      if s[i] == ' ' || s[i] == '\t' {
        Assoc(out, Finish(cur), SplitFrom(s[i + 1..], ""));
        Unit(out);
        if cur != "" {
          out := out + [cur];
          cur := "";
        }
      } else {
        cur := cur + [s[i]];
      }
      i := i + 1;
    }
    assert s[i..] == "";
    SplitNothing(cur);
    Unit(out);
    if cur != "" {
      out := out + [cur];
    }
  }

  lemma SplitHere(s: string, i: nat, cur: string)
    requires i < |s|
    ensures SplitFrom(s[i..], cur)
         == if Separates(s[i]) then Finish(cur) + SplitFrom(s[i + 1..], "") else SplitFrom(s[i + 1..], cur + [s[i]])
  {
    DropDrop(s, i, 1);
  }

  lemma SplitNothing(cur: string)
    ensures SplitFrom("", cur) == Finish(cur)
  {
  }

  method Parse(sdpLine: string) returns (out: Option<Candidate>)
    ensures out == Parsed(sdpLine)
  {
    hide SplitFrom, ParseInt, ParseU32, TypeOf, Extend, Trimmed;
    var line := Trim(sdpLine);
    if line == "" {
      return None;
    }
    if |line| >= 2 && line[0] == 'a' && line[1] == '=' {
      line := line[2..];
    }
    if |line| >= 10 && line[..10] == PREFIX {
      line := line[10..];
    }
    PrefixLength();
    assert line == WithoutPrefix(Trimmed(sdpLine));
    var tok := SplitSpaces(line);
    out := ReadAll(tok);
  }

  lemma PrefixLength()
    ensures |PREFIX| == 10
  {
  }

  /** The fixed fields in order, then the extensions two tokens at a time. */
  method ReadAll(tok: seq<string>) returns (out: Option<Candidate>)
    ensures out == ReadTokens(tok)
  {
    hide ParseInt, ParseU32, TypeOf, Extend;
    if |tok| < 8 {
      return None;
    }
    var componentId, priority, port := ParseInt(tok[1]), ParseU32(tok[3]), ParseInt(tok[5]);
    if componentId.None? {
      return None;
    }
    if priority.None? {
      return None;
    }
    if port.None? {
      return None;
    }
    if tok[6] != "typ" {
      return None;
    }
    var kind := TypeOf(tok[7]);
    if kind == Unknown {
      return None;
    }
    var c := Candidate(tok[0], componentId.value, tok[2], priority.value, tok[4], port.value, kind,
                       "", 0, 0, 0, "", 0);
    ghost var goal := ExtendAll(c, tok[8..]);
    var i := 8;
    while i + 1 < |tok|
      invariant 8 <= i <= |tok| && goal == ExtendAll(c, tok[i..])
      decreases |tok| - i
    {
      DropDrop(tok, i, 2);
      c := Extend(c, tok[i], tok[i + 1]);
      i := i + 2;
    }
    out := Some(c);
  }

  /** Optional fields are printed only if they say something. */
  method Format(c: Candidate) returns (os: string)
    ensures os == Formatted(c)
  {
    hide DecimalInt, TypeText, Spaced;
    os := PREFIX + c.foundation + " " + DecimalInt(c.componentId);
    os := os + " " + OrUdp(c.transport) + " " + DecimalInt(c.priority);
    os := os + " " + c.ip + " " + DecimalInt(c.port) + " " + "typ" + " " + TypeText(c.kind);
    SpacedFixed(c);
    ghost var tokens := FixedTokens(c);
    Unit(tokens);
    if c.relatedAddress != "" {
      os := AppendPair(os, tokens, "raddr", c.relatedAddress);
      os := AppendPair(os, tokens + ["raddr", c.relatedAddress], "rport", DecimalInt(c.relatedPort));
      assert tokens + RelatedTokens(c)
          == tokens + ["raddr", c.relatedAddress] + ["rport", DecimalInt(c.relatedPort)];
    }
    tokens := tokens + RelatedTokens(c);
    os := AppendPair(os, tokens, "generation", DecimalInt(c.generation));
    tokens := tokens + ["generation", DecimalInt(c.generation)];
    Unit(tokens);
    if c.ufrag != "" {
      os := AppendPair(os, tokens, "ufrag", c.ufrag);
    }
    tokens := tokens + UfragTokens(c);
    Unit(tokens);
    if c.networkId > 0 {
      os := AppendPair(os, tokens, "network-id", DecimalInt(c.networkId));
    }
    tokens := tokens + PositiveTokens("network-id", c.networkId);
    Unit(tokens);
    if c.networkCost > 0 {
      os := AppendPair(os, tokens, "network-cost", DecimalInt(c.networkCost));
    }
    tokens := tokens + PositiveTokens("network-cost", c.networkCost);
    Regroup(c);
  }

  method AppendPair(os: string, ghost tokens: seq<string>, key: string, value: string) returns (r: string)
    requires tokens != [] && os == PREFIX + Spaced(tokens)
    ensures r == PREFIX + Spaced(tokens + [key, value])
  {
    hide Spaced;
    r := os + " " + key + " " + value;
    SpacedPair(tokens, key, value);
    Assoc(PREFIX, Spaced(tokens), " " + key + " " + value);
    assert os + (" " + key + " " + value) == os + " " + key + " " + value;
  }

  lemma SpacedPair(tokens: seq<string>, key: string, value: string)
    requires tokens != []
    ensures Spaced(tokens + [key, value]) == Spaced(tokens) + (" " + key + " " + value)
  {
    hide Spaced;
    SpacedNext(tokens, key);
    SpacedNext(tokens + [key], value);
    assert tokens + [key, value] == tokens + [key] + [value];
    assert Spaced(tokens) + (" " + key + " " + value) == Spaced(tokens) + " " + key + " " + value;
  }

  lemma SpacedOne(token: string)
    ensures Spaced([token]) == token
  {
  }

  lemma SpacedFixed(c: Candidate)
    ensures PREFIX + Spaced(FixedTokens(c))
         == PREFIX + c.foundation + " " + DecimalInt(c.componentId) + " " + OrUdp(c.transport) + " "
            + DecimalInt(c.priority) + " " + c.ip + " " + DecimalInt(c.port) + " " + "typ" + " " + TypeText(c.kind)
  {
    hide Spaced, DecimalInt, TypeText, OrUdp;
    var t := FixedTokens(c);
    var t1 := [c.foundation];
    var t2 := t1 + [t[1]];
    var t3 := t2 + [t[2]];
    var t4 := t3 + [t[3]];
    var t5 := t4 + [t[4]];
    var t6 := t5 + [t[5]];
    var t7 := t6 + [t[6]];
    assert t7 + [t[7]] == t;
    SpacedOne(c.foundation);
    SpacedNext(t1, t[1]);
    SpacedNext(t2, t[2]);
    SpacedNext(t3, t[3]);
    SpacedNext(t4, t[4]);
    SpacedNext(t5, t[5]);
    SpacedNext(t6, t[6]);
    SpacedNext(t7, t[7]);
  }

  lemma {:induction false} SpacedNext(tokens: seq<string>, next: string)
    requires tokens != []
    ensures PREFIX + Spaced(tokens + [next]) == PREFIX + Spaced(tokens) + " " + next
    ensures Spaced(tokens + [next]) == Spaced(tokens) + " " + next
  {
    if |tokens| == 1 {
      assert (tokens + [next])[1..] == [next];
    } else {
      assert (tokens + [next])[1..] == tokens[1..] + [next];
      SpacedNext(tokens[1..], next);
      assert tokens[0] + " " + (Spaced(tokens[1..]) + " " + next) == tokens[0] + " " + Spaced(tokens[1..]) + " " + next;
    }
    assert PREFIX + (Spaced(tokens) + " " + next) == PREFIX + Spaced(tokens) + " " + next;
  }

  lemma Regroup(c: Candidate)
    ensures FixedTokens(c) + RelatedTokens(c) + ["generation", DecimalInt(c.generation)] + UfragTokens(c)
            + PositiveTokens("network-id", c.networkId) + PositiveTokens("network-cost", c.networkCost)
         == FixedTokens(c) + ExtensionTokens(c)
  {
    hide FixedTokens, RelatedTokens, UfragTokens, PositiveTokens, DecimalInt;
    var f, r, g, u := FixedTokens(c), RelatedTokens(c), ["generation", DecimalInt(c.generation)], UfragTokens(c);
    var n, k := PositiveTokens("network-id", c.networkId), PositiveTokens("network-cost", c.networkCost);
    Assoc(f, r, g);
    Assoc(f, r + g, u);
    Assoc(f, r + g + u, n);
    Assoc(f, r + g + u + n, k);
  }
}
