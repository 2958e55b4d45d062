/**
  SDP candidate lines (section 15.1 of RFC 5245): their text, the tolerant reading of it,
  and the round trip.
*/
module IceCandidateSpec {
  import opened Bytes
  import opened SeqFacts
  import opened JsonSpec
  import opened DecimalText

  datatype CandidateType = Host | Srflx | Prflx | Relay | Unknown

  datatype Candidate = Candidate(
    foundation: string, componentId: int, transport: string, priority: u32, ip: string, port: int,
    kind: CandidateType, ufrag: string, networkId: int, networkCost: int, generation: int,
    relatedAddress: string, relatedPort: int)

  // ---------------------------------------------------------------------------
  // Numbers as `strtol` and `strtoul` read them, with 32-bit results
  // ---------------------------------------------------------------------------

  /** A C string ends at its first NUL. */
  function CString(s: string): (t: string)
    ensures s != "" && (forall i :: 0 <= i < |s| ==> s[i] != '\0') ==> t == s
  {
    if s == "" || s[0] == '\0' then "" else [s[0]] + CString(s[1..])
  }

  /** The digits behind white space and a sign, and where they end; zero if there are none. */
  function NumberEnd(t: string): int {
    var u := SkipCSpace(t);
    var digits := Run(BehindSign(u));
    if digits == "" then 0 else |t| - |u| + SignLength(u) + |digits|
  }

  function Magnitude(t: string): nat {
    DigitsValue(Run(BehindSign(SkipCSpace(t))))
  }

  function Clamp32(v: int): int {
    if v < -0x8000_0000 then -0x8000_0000 else if v > 0x7FFF_FFFF then 0x7FFF_FFFF else v
  }

  function ParseInt(s: string): Option<int> {
    var t := CString(s);
    if s == "" || NumberEnd(t) != |t| then None
    else Some(Clamp32(if StartsWith(SkipCSpace(t), '-') then -(Magnitude(t) as int) else Magnitude(t)))
  }

  /** A minus sign negates modulo 2^32. */
  function ParseU32(s: string): Option<u32> {
    var t := CString(s);
    if s == "" || NumberEnd(t) != |t| then None
    else if Magnitude(t) > 0xFFFF_FFFF then Some(0xFFFF_FFFF)
    else Some(if StartsWith(SkipCSpace(t), '-') then (-(Magnitude(t) as int)) % 0x1_0000_0000 else Magnitude(t))
  }

  lemma {:induction false} WholeRun(s: string)
    requires AllDigits(s)
    ensures Run(s) == s
  {
    AllDigitsRun(s);
  }

  lemma DigitsBehindSign(text: string, digits: string)
    requires digits != "" && AllDigits(digits)
    requires text == digits || text == "-" + digits
    ensures CString(text) == text && SkipCSpace(text) == text && BehindSign(text) == digits
    ensures NumberEnd(text) == |text| && Run(digits) == digits
    ensures StartsWith(text, '-') <==> text == "-" + digits
  {
    WholeRun(digits);
    DropPrefix("-", digits);
    assert !IsCSpace(text[0]);
    if text == digits {
      assert IsDigit(text[0]);
    }
  }

  /** How a printed integer is scanned. */
  lemma DecimalScans(i: int)
    ensures
      var text := DecimalInt(i);
      && text != "" && CString(text) == text && NumberEnd(text) == |text|
      && Magnitude(text) == (if i < 0 then -i else i)
      && (StartsWith(SkipCSpace(text), '-') <==> i < 0)
  {
    hide Run, DigitsValue, Decimal, SkipCSpace, CString, NumberEnd, BehindSign;
    var n := if i < 0 then -i else i;
    DecimalDigits(n);
    DigitsBehindSign(DecimalInt(i), Decimal(n));
    assert |"-" + Decimal(n)| == 1 + |Decimal(n)|;
  }

  lemma ParseDecimal(i: int)
    ensures IsInt32(i) ==> ParseInt(DecimalInt(i)) == Some(i)
    ensures 0 <= i < 0x1_0000_0000 ==> ParseU32(DecimalInt(i)) == Some(i)
  {
    hide DecimalInt, SkipCSpace, CString, NumberEnd, Magnitude, StartsWith;
    DecimalScans(i);
  }

  // ---------------------------------------------------------------------------
  // Tokens
  // ---------------------------------------------------------------------------

  predicate IsBlank(c: char) {
    c == ' ' || c == '\t' || c == '\r' || c == '\n'
  }

  predicate Separates(c: char) {
    c == ' ' || c == '\t'
  }

  function TrimLeft(s: string): string {
    if s != "" && IsBlank(s[0]) then TrimLeft(s[1..]) else s
  }

  function TrimRight(s: string): string {
    if s != "" && IsBlank(s[|s| - 1]) then TrimRight(s[..|s| - 1]) else s
  }

  function Trimmed(s: string): string {
    TrimRight(TrimLeft(s))
  }

  /** The tokens of `s` when `current` has been collected of the first one. */
  function SplitFrom(s: string, current: string): seq<string>
    decreases |s|
  {
    if s == "" then Finish(current)
    else if Separates(s[0]) then Finish(current) + SplitFrom(s[1..], "")
    else SplitFrom(s[1..], current + [s[0]])
  }

  function Finish(current: string): seq<string> {
    if current == "" then [] else [current]
  }

  function Spaced(tokens: seq<string>): string {
    if tokens == [] then ""
    else if |tokens| == 1 then tokens[0]
    else tokens[0] + " " + Spaced(tokens[1..])
  }

  /** A token that survives being written between spaces, also at the end of a line. */
  predicate IsToken(s: string) {
    s != "" && forall i :: 0 <= i < |s| ==> !IsBlank(s[i])
  }

  ghost predicate AreTokens(tokens: seq<string>) {
    forall i :: 0 <= i < |tokens| ==> IsToken(tokens[i])
  }

  lemma {:induction false} SplitToken(token: string, rest: string, current: string)
    requires forall i :: 0 <= i < |token| ==> !Separates(token[i])
    ensures SplitFrom(token + rest, current) == SplitFrom(rest, current + token)
  {
    if token == "" {
      Unit(rest);
      Unit(current);
    } else {
      assert (token + rest)[1..] == token[1..] + rest;
      assert current + token == current + [token[0]] + token[1..];
      SplitToken(token[1..], rest, current + [token[0]]);
    }
  }

  /** Splitting gives back the tokens. */
  lemma {:induction false} SplitSpaced(tokens: seq<string>)
    requires AreTokens(tokens)
    ensures SplitFrom(Spaced(tokens), "") == tokens
  {
    if tokens == [] {
    } else {
      var t := tokens[0];
      Unit(t);
      if |tokens| == 1 {
        SplitToken(t, "", "");
      } else {
        var rest := Spaced(tokens[1..]);
        SplitSpaced(tokens[1..]);
        Assoc(t, " ", rest);
        SplitToken(t, " " + rest, "");
        Cons(' ', rest);
        SplitFinished(t, rest);
        FirstRest(tokens);
      }
    }
  }

  lemma SplitFinished(t: string, rest: string)
    requires t != ""
    ensures SplitFrom(" " + rest, t) == [t] + SplitFrom(rest, "")
  {
    Cons(' ', rest);
  }

  lemma {:induction false} SpacedEnds(tokens: seq<string>)
    requires tokens != [] && AreTokens(tokens)
    ensures Spaced(tokens) != ""
    ensures !IsBlank(Spaced(tokens)[|Spaced(tokens)| - 1])
    ensures tokens[0] <= Spaced(tokens)
  {
    if |tokens| > 1 {
      SpacedEnds(tokens[1..]);
    }
  }

  // ---------------------------------------------------------------------------
  // Writing
  // ---------------------------------------------------------------------------

  function TypeText(kind: CandidateType): string {
    match kind
    case Host => "host"
    case Srflx => "srflx"
    case Prflx => "prflx"
    case Relay => "relay"
    case Unknown => "host"
  }

  function OrUdp(transport: string): string {
    if transport == "" then "udp" else transport
  }

  function FixedTokens(c: Candidate): seq<string> {
    [c.foundation, DecimalInt(c.componentId), OrUdp(c.transport), DecimalInt(c.priority),
     c.ip, DecimalInt(c.port), "typ", TypeText(c.kind)]
  }

  function RelatedTokens(c: Candidate): seq<string> {
    if c.relatedAddress == "" then [] else ["raddr", c.relatedAddress, "rport", DecimalInt(c.relatedPort)]
  }

  function UfragTokens(c: Candidate): seq<string> {
    if c.ufrag == "" then [] else ["ufrag", c.ufrag]
  }

  function PositiveTokens(key: string, value: int): seq<string> {
    if value > 0 then [key, DecimalInt(value)] else []
  }

  function ExtensionTokens(c: Candidate): seq<string> {
    RelatedTokens(c) + ["generation", DecimalInt(c.generation)] + UfragTokens(c)
    + PositiveTokens("network-id", c.networkId) + PositiveTokens("network-cost", c.networkCost)
  }

  const PREFIX := "candidate:"

  function Formatted(c: Candidate): string {
    PREFIX + Spaced(FixedTokens(c) + ExtensionTokens(c))
  }

  // ---------------------------------------------------------------------------
  // Reading
  // ---------------------------------------------------------------------------

  function TypeOf(text: string): CandidateType {
    if text == "host" then Host
    else if text == "srflx" then Srflx
    else if text == "prflx" then Prflx
    else if text == "relay" then Relay
    else Unknown
  }

  /** A number that does not parse leaves the field as it was. */
  function IntOr(s: string, previous: int): int {
    if ParseInt(s).Some? then ParseInt(s).value else previous
  }

  function Extend(c: Candidate, key: string, value: string): Candidate {
    if key == "raddr" then c.(relatedAddress := value)
    else if key == "rport" then c.(relatedPort := IntOr(value, c.relatedPort))
    else if key == "generation" then c.(generation := IntOr(value, c.generation))
    else if key == "ufrag" then c.(ufrag := value)
    else if key == "network-id" then c.(networkId := IntOr(value, c.networkId))
    else if key == "network-cost" then c.(networkCost := IntOr(value, c.networkCost))
    else c
  }

  /** Keys and values in pairs; a last key without a value is ignored. */
  function ExtendAll(c: Candidate, tokens: seq<string>): Candidate
    decreases |tokens|
  {
    if |tokens| < 2 then c else ExtendAll(Extend(c, tokens[0], tokens[1]), tokens[2..])
  }

  function ReadTokens(tok: seq<string>): Option<Candidate> {
    if |tok| < 8 then None
    else
      var componentId, priority, port := ParseInt(tok[1]), ParseU32(tok[3]), ParseInt(tok[5]);
      if componentId.None? || priority.None? || port.None? || tok[6] != "typ" || TypeOf(tok[7]) == Unknown then None
      else
        Some(ExtendAll(
               Candidate(tok[0], componentId.value, tok[2], priority.value, tok[4], port.value,
                         TypeOf(tok[7]), "", 0, 0, 0, "", 0),
               tok[8..]))
  }

  function WithoutPrefix(line: string): string {
    var bare := if |line| >= 2 && line[0] == 'a' && line[1] == '=' then line[2..] else line;
    if PREFIX <= bare then bare[|PREFIX|..] else bare
  }

  function Parsed(text: string): Option<Candidate> {
    var line := Trimmed(text);
    if line == "" then None else ReadTokens(SplitFrom(WithoutPrefix(line), ""))
  }

  // ---------------------------------------------------------------------------
  // Round trip
  // ---------------------------------------------------------------------------

  lemma TypeRoundTrip(kind: CandidateType)
    ensures TypeOf(TypeText(kind)) == if kind == Unknown then Host else kind
  {
    assert "srflx"[0] == 's' && "prflx"[0] == 'p' && "relay"[0] == 'r';
  }

  lemma ExtendRelated(c: Candidate, v: string)
    ensures Extend(c, "raddr", v) == c.(relatedAddress := v)
    ensures Extend(c, "rport", v) == c.(relatedPort := IntOr(v, c.relatedPort))
  {
    assert "raddr"[1] == 'a' && "rport"[1] == 'p';
  }

  lemma ExtendOther(c: Candidate, v: string)
    ensures Extend(c, "generation", v) == c.(generation := IntOr(v, c.generation))
    ensures Extend(c, "ufrag", v) == c.(ufrag := v)
  {
    assert "ufrag"[0] == 'u' && "raddr"[0] == 'r' && "rport"[0] == 'r';
  }

  lemma ExtendNetwork(c: Candidate, v: string)
    ensures Extend(c, "network-id", v) == c.(networkId := IntOr(v, c.networkId))
    ensures Extend(c, "network-cost", v) == c.(networkCost := IntOr(v, c.networkCost))
  {
    assert "network-id"[0] == 'n' && "generation"[0] == 'g';
  }

  /** Every token is free of white space, and the numbers are those of the program's types. */
  ghost predicate Writable(c: Candidate) {
    && IsToken(c.foundation) && IsToken(c.ip)
    && (c.transport == "" || IsToken(c.transport))
    && (c.ufrag == "" || IsToken(c.ufrag))
    && (c.relatedAddress == "" || IsToken(c.relatedAddress))
    && IsInt32(c.componentId) && IsInt32(c.port) && IsInt32(c.generation)
    && IsInt32(c.networkId) && IsInt32(c.networkCost) && IsInt32(c.relatedPort)
  }

  /** What a line can say: fields that are not printed have their defaults. */
  function Normal(c: Candidate): Candidate {
    c.(transport := OrUdp(c.transport),
       kind := if c.kind == Unknown then Host else c.kind,
       networkId := if c.networkId > 0 then c.networkId else 0,
       networkCost := if c.networkCost > 0 then c.networkCost else 0,
       relatedPort := if c.relatedAddress == "" then 0 else c.relatedPort)
  }

  lemma DecimalToken(i: int)
    ensures IsToken(DecimalInt(i))
  {
    DecimalDigits(if i < 0 then -i else i);
  }

  lemma LiteralTokens()
    ensures IsToken("typ") && IsToken("raddr") && IsToken("rport") && IsToken("generation") && IsToken("ufrag")
    ensures IsToken("network-id") && IsToken("network-cost") && IsToken("udp")
    ensures forall k: CandidateType :: IsToken(TypeText(k))
  {
  }

  lemma FixedAreTokens(c: Candidate)
    requires Writable(c)
    ensures AreTokens(FixedTokens(c))
  {
    hide DecimalInt, IsToken, TypeText;
    LiteralTokens();
    DecimalToken(c.componentId);
    DecimalToken(c.priority);
    DecimalToken(c.port);
  }

  lemma ExtensionsAreTokens(c: Candidate)
    requires Writable(c)
    ensures AreTokens(ExtensionTokens(c))
  {
    hide DecimalInt, IsToken;
    LiteralTokens();
    DecimalToken(c.relatedPort);
    DecimalToken(c.generation);
    DecimalToken(c.networkId);
    DecimalToken(c.networkCost);
    assert AreTokens(RelatedTokens(c)) && AreTokens(UfragTokens(c));
  }

  lemma {:induction false} ExtendConcat(c: Candidate, a: seq<string>, b: seq<string>)
    requires |a| % 2 == 0
    ensures ExtendAll(c, a + b) == ExtendAll(ExtendAll(c, a), b)
    decreases |a|
  {
    hide Extend;
    if a == [] {
      Unit(b);
    } else {
      assert (a + b)[2..] == a[2..] + b;
      ExtendConcat(Extend(c, a[0], a[1]), a[2..], b);
    }
  }

  lemma ExtendPair(c: Candidate, key: string, value: string)
    ensures ExtendAll(c, [key, value]) == Extend(c, key, value)
  {
    hide Extend;
    assert [key, value][2..] == [];
  }

  lemma IntOrDecimal(i: int, previous: int)
    requires IsInt32(i)
    ensures IntOr(DecimalInt(i), previous) == i
  {
    ParseDecimal(i);
  }

  lemma ExtendByRelated(b: Candidate, c: Candidate)
    requires IsInt32(c.relatedPort) && b.relatedAddress == "" && b.relatedPort == 0
    ensures ExtendAll(b, RelatedTokens(c))
         == b.(relatedAddress := c.relatedAddress, relatedPort := Normal(c).relatedPort)
  {
    hide Extend, DecimalInt, IntOr;
    if c.relatedAddress != "" {
      var port := DecimalInt(c.relatedPort);
      assert RelatedTokens(c) == ["raddr", c.relatedAddress] + ["rport", port];
      ExtendConcat(b, ["raddr", c.relatedAddress], ["rport", port]);
      ExtendPair(b, "raddr", c.relatedAddress);
      ExtendRelated(b, c.relatedAddress);
      var b1 := b.(relatedAddress := c.relatedAddress);
      ExtendPair(b1, "rport", port);
      ExtendRelated(b1, port);
      IntOrDecimal(c.relatedPort, 0);
    }
  }

  lemma ExtendByGeneration(b: Candidate, c: Candidate)
    requires IsInt32(c.generation)
    ensures ExtendAll(b, ["generation", DecimalInt(c.generation)]) == b.(generation := c.generation)
  {
    hide Extend, DecimalInt, IntOr, ExtendAll;
    ExtendPair(b, "generation", DecimalInt(c.generation));
    ExtendOther(b, DecimalInt(c.generation));
    IntOrDecimal(c.generation, b.generation);
  }

  lemma ExtendByUfrag(b: Candidate, c: Candidate)
    requires b.ufrag == ""
    ensures ExtendAll(b, UfragTokens(c)) == b.(ufrag := c.ufrag)
  {
    hide Extend;
    if c.ufrag != "" {
      ExtendPair(b, "ufrag", c.ufrag);
      ExtendOther(b, c.ufrag);
    }
  }

  lemma ExtendByNetwork(b: Candidate, value: int)
    requires IsInt32(value)
    ensures b.networkId == 0 ==>
              ExtendAll(b, PositiveTokens("network-id", value)) == b.(networkId := if value > 0 then value else 0)
    ensures b.networkCost == 0 ==>
              ExtendAll(b, PositiveTokens("network-cost", value)) == b.(networkCost := if value > 0 then value else 0)
  {
    hide Extend, DecimalInt, IntOr;
    if value > 0 {
      ExtendPair(b, "network-id", DecimalInt(value));
      ExtendPair(b, "network-cost", DecimalInt(value));
      ExtendNetwork(b, DecimalInt(value));
      IntOrDecimal(value, 0);
    }
  }

  lemma ExtendByExtensions(b: Candidate, c: Candidate)
    requires Writable(c)
    requires b == b.(ufrag := "", networkId := 0, networkCost := 0, generation := 0, relatedAddress := "", relatedPort := 0)
    ensures ExtendAll(b, ExtensionTokens(c))
         == b.(ufrag := c.ufrag, networkId := Normal(c).networkId, networkCost := Normal(c).networkCost,
               generation := c.generation, relatedAddress := c.relatedAddress, relatedPort := Normal(c).relatedPort)
  {
    hide ExtendAll, RelatedTokens, UfragTokens, PositiveTokens, DecimalInt, IsToken;
    TokenCounts(c);
    var generation := ["generation", DecimalInt(c.generation)];
    var network, cost := PositiveTokens("network-id", c.networkId), PositiveTokens("network-cost", c.networkCost);
    ExtendConcat(b, RelatedTokens(c), generation);
    ExtendConcat(b, RelatedTokens(c) + generation, UfragTokens(c));
    ExtendConcat(b, RelatedTokens(c) + generation + UfragTokens(c), network);
    ExtendConcat(b, RelatedTokens(c) + generation + UfragTokens(c) + network, cost);
    ExtendByRelated(b, c);
    var b1 := b.(relatedAddress := c.relatedAddress, relatedPort := Normal(c).relatedPort);
    ExtendByGeneration(b1, c);
    var b2 := b1.(generation := c.generation);
    ExtendByUfrag(b2, c);
    var b3 := b2.(ufrag := c.ufrag);
    ExtendByNetwork(b3, c.networkId);
    ExtendByNetwork(b3.(networkId := Normal(c).networkId), c.networkCost);
  }

  lemma TokenCounts(c: Candidate)
    ensures |RelatedTokens(c)| % 2 == 0 && |UfragTokens(c)| % 2 == 0
    ensures |PositiveTokens("network-id", c.networkId)| % 2 == 0
  {
  }

  lemma ReadFormattedTokens(c: Candidate)
    requires Writable(c)
    ensures ReadTokens(FixedTokens(c) + ExtensionTokens(c)) == Some(Normal(c))
  {
    hide ExtendAll, ExtensionTokens, DecimalInt, ParseInt, ParseU32, TypeOf, TypeText, IsToken;
    ParseDecimal(c.componentId);
    ParseDecimal(c.priority);
    ParseDecimal(c.port);
    TypeRoundTrip(c.kind);
    DropPrefix(FixedTokens(c), ExtensionTokens(c));
    var n := Normal(c);
    ExtendByExtensions(
      Candidate(c.foundation, c.componentId, n.transport, c.priority, c.ip, c.port, n.kind, "", 0, 0, 0, "", 0), c);
  }

  lemma TrimNothing(s: string)
    requires s != "" && !IsBlank(s[0]) && !IsBlank(s[|s| - 1])
    ensures Trimmed(s) == s
  {
  }

  /** A formatted candidate reads back as itself, as far as its line can tell. */
  lemma ParseFormat(c: Candidate)
    requires Writable(c)
    ensures Parsed(Formatted(c)) == Some(Normal(c))
  {
    hide ReadTokens, SplitFrom, Spaced, FixedTokens, ExtensionTokens, Trimmed, IsToken;
    var tokens := FixedTokens(c) + ExtensionTokens(c);
    FixedAreTokens(c);
    ExtensionsAreTokens(c);
    FixedCount(c);
    SpacedEnds(tokens);
    DropPrefix(PREFIX, Spaced(tokens));
    PrefixStarts(Spaced(tokens));
    TrimNothing(PREFIX + Spaced(tokens));
    SplitSpaced(tokens);
    ReadFormattedTokens(c);
  }

  lemma FixedCount(c: Candidate)
    ensures |FixedTokens(c)| == 8
  {
  }

  lemma PrefixStarts(rest: string)
    ensures var s := PREFIX + rest; s[0] == 'c' && !IsBlank(s[0]) && WithoutPrefix(s) == rest
  {
    DropPrefix(PREFIX, rest);
  }

  /** So formatting and parsing give back exactly the candidates with nothing to normalise. */
  lemma ParseFormatExactIff(c: Candidate)
    requires Writable(c)
    ensures Parsed(Formatted(c)) == Some(c)
       <==> c.transport != "" && c.kind != Unknown && c.networkId >= 0 && c.networkCost >= 0
            && (c.relatedAddress == "" ==> c.relatedPort == 0)
  {
    hide Parsed, Formatted, IsToken;
    ParseFormat(c);
  }
}
