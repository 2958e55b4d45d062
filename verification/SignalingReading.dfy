/**
  What a signaling message says when another program wrote it: the value of every number, the
  member each field comes from, and what becomes of members that are missing or of another kind.
*/
module SignalingReading {
  import opened Bytes
  import opened SeqFacts
  import opened JsonSpec
  import opened DecimalText
  import opened SignalingMessages
  import opened SignalingRoundTrip
  import CandidateReading
  import Spaced = JsonSpaced

  // ---------------------------------------------------------------------------
  // Numbers
  // ---------------------------------------------------------------------------

  function FractionOf(n: Spaced.NumberText): string {
    if n.fraction.Some? then n.fraction.value else ""
  }

  /** The power of ten the exponent multiplies by, and the one it divides by. */
  function Times(n: Spaced.NumberText): nat
    requires Spaced.IsNumber(n)
  {
    if n.exponent.Some? && n.exponent.value.sign != "-" then Pow10(DigitsValue(n.exponent.value.digits)) else 1
  }

  function Over(n: Spaced.NumberText): (p: nat)
    requires Spaced.IsNumber(n)
    ensures p > 0
  {
    if n.exponent.Some? && n.exponent.value.sign == "-" then Pow10(DigitsValue(n.exponent.value.digits)) else 1
  }

  lemma {:induction false} DigitsConcat(a: string, b: string)
    requires AllDigits(a) && AllDigits(b)
    ensures AllDigits(a + b) && DigitsValue(a + b) == DigitsValue(a) * Pow10(|b|) + DigitsValue(b)
    decreases |b|
  {
    if b == "" {
      Unit(a);
    } else {
      var front, last := b[..|b| - 1], b[|b| - 1];
      assert (a + b)[..|a + b| - 1] == a + front && (a + b)[|a + b| - 1] == last;
      DigitsConcat(a, front);
      Distribute(DigitsValue(a), Pow10(|front|), DigitsValue(front), last as int - '0' as int);
    }
  }

  lemma Distribute(a: nat, p: nat, b: nat, d: int)
    ensures 10 * (a * p + b) + d == a * (10 * p) + (10 * b + d)
  {
  }

  lemma RunOf(digits: string, rest: string)
    requires AllDigits(digits) && (rest == "" || !IsDigit(rest[0]))
    ensures Run(digits + rest) == digits && BehindDigits(digits + rest) == rest
  {
    hide Run, Digits;
    RunStops(digits, rest);
    DropPrefix(digits, rest);
  }

  lemma {:induction false} RunStops(digits: string, rest: string)
    requires AllDigits(digits) && (rest == "" || !IsDigit(rest[0]))
    ensures Run(digits + rest) == digits && Digits(digits + rest) == |digits|
  {
    if digits == "" {
      Unit(rest);
    } else {
      assert (digits + rest)[1..] == digits[1..] + rest;
      RunStops(digits[1..], rest);
      FirstRest(digits);
    }
  }

  /**
    A number has the value of its digits, those behind the point included, divided by a power of
    ten for each of these and scaled by the exponent.
  */
  lemma NumberMeans(n: Spaced.NumberText)
    requires Spaced.IsNumber(n)
    ensures AllDigits(n.digits + FractionOf(n))
    ensures
      var x := NumberValue(Spaced.NumberSpelling(n));
      (if n.minus then -x else x) * Pow10(|FractionOf(n)|) as real * Over(n) as real
      == DigitsValue(n.digits + FractionOf(n)) as real * Times(n) as real
  {
    hide Run, DigitsValue, Pow10, Digits, NumberValue, Spaced.IsNumber, Times, Over;
    var f := FractionOf(n);
    PartsAreDigits(n);
    DigitsConcat(n.digits, f);
    ValueByParts(n);
    var d, r, p := DigitsValue(n.digits) as real, DigitsValue(f) as real, Pow10(|f|) as real;
    assert DigitsValue(n.digits + f) as real == d * p + r by {
      AsReal(DigitsValue(n.digits), Pow10(|f|), DigitsValue(f));
    }
    CrossMultiplied(d, r, p, Times(n) as real, Over(n) as real);
  }

  lemma AsReal(a: nat, p: nat, b: nat)
    ensures (a * p + b) as real == a as real * p as real + b as real
  {
  }

  lemma CrossMultiplied(d: real, r: real, p: real, up: real, down: real)
    requires p > 0.0 && down > 0.0
    ensures (d + r / p) * up / down * p * down == (d * p + r) * up
  {
    var m, y := d + r / p, (d + r / p) * up;
    assert m * p == d * p + r by {
      assert r / p * p == r;
    }
    assert y / down * down == y;
    assert y / down * p * down == y * p by {
      assert y / down * p * down == (y / down * down) * p;
    }
    assert m * up * p == (m * p) * up;
  }

  lemma PartsAreDigits(n: Spaced.NumberText)
    requires Spaced.IsNumber(n)
    ensures AllDigits(n.digits) && AllDigits(FractionOf(n))
  {
  }

  lemma ValueByParts(n: Spaced.NumberText)
    requires Spaced.IsNumber(n) && AllDigits(n.digits) && AllDigits(FractionOf(n))
    ensures
      var mantissa := DigitsValue(n.digits) as real + DigitsValue(FractionOf(n)) as real / Pow10(|FractionOf(n)|) as real;
      var scaled := mantissa * Times(n) as real / Over(n) as real;
      NumberValue(Spaced.NumberSpelling(n)) == if n.minus then -scaled else scaled
  {
    hide Run, DigitsValue, Pow10, BehindSign, BehindDigits, BehindFraction, FractionDigits, ExponentText, FractionOf,
      Times, Over, Scale, StartsWith, AllDigits, Spaced.FractionText, Spaced.ExponentText, Spaced.NumberSpelling,
      Spaced.IsNumber, Spaced.AllDigits;
    Parts(n);
    ExponentReads(n);
    ByScale(DigitsValue(FractionOf(n)) as real, |FractionOf(n)|);
    Scaled(n, DigitsValue(n.digits) as real + Scale(DigitsValue(FractionOf(n)) as real, true, |FractionOf(n)|));
  }

  lemma ByScale(x: real, k: nat)
    ensures Scale(x, true, k) == x / Pow10(k) as real
  {
  }

  /** How the spelling falls apart. */
  lemma Parts(n: Spaced.NumberText)
    requires Spaced.IsNumber(n)
    ensures
      var text, x := Spaced.NumberSpelling(n), Spaced.ExponentText(n.exponent);
      var unsigned, behind := BehindSign(text), BehindDigits(BehindSign(text));
      && (StartsWith(text, '-') <==> n.minus)
      && Run(unsigned) == n.digits && FractionDigits(behind) == FractionOf(n) && BehindFraction(behind) == x
  {
    hide Run, BehindSign, BehindDigits, BehindFraction, FractionDigits, StartsWith,
      Spaced.FractionText, Spaced.ExponentText;
    var sign := if n.minus then "-" else "";
    var f, x := Spaced.FractionText(n.fraction), Spaced.ExponentText(n.exponent);
    Spaced.NumberParts(sign, n.digits, f, x, "");
    Unit(Spaced.NumberSpelling(n));
    Unit(x);
    Spaced.NoDigitBehind(n, "");
    Spaced.SignIsRead(sign, n.digits + (f + x));
    RunOf(n.digits, f + x);
    FractionReads(n.fraction, x);
    StartsWithMinus(n, f + x);
  }

  lemma Scaled(n: Spaced.NumberText, m: real)
    requires Spaced.IsNumber(n)
    ensures
      var e := if n.exponent.Some? then DigitsValue(n.exponent.value.digits) else 0;
      Scale(m, n.exponent.Some? && n.exponent.value.sign == "-", e) == m * Times(n) as real / Over(n) as real
  {
    ScaleByOne(m);
  }

  lemma StartsWithMinus(n: Spaced.NumberText, rest: string)
    requires AllDigits(n.digits)
    requires n.digits == "" ==> n.minus
    ensures StartsWith((if n.minus then "-" else "") + (n.digits + rest), '-') <==> n.minus
  {
  }

  lemma FractionReads(f: Option<string>, rest: string)
    requires f.Some? ==> AllDigits(f.value)
    requires rest == "" || (!IsDigit(rest[0]) && rest[0] != '.')
    ensures FractionDigits(Spaced.FractionText(f) + rest) == (if f.Some? then f.value else "")
    ensures BehindFraction(Spaced.FractionText(f) + rest) == rest
  {
    hide Run, BehindFraction;
    Spaced.FractionIsRead(f, rest);
    if f.Some? {
      Assoc(".", f.value, rest);
      Cons('.', f.value + rest);
      RunOf(f.value, rest);
    } else {
      Unit(rest);
    }
  }

  lemma ExponentReads(n: Spaced.NumberText)
    requires Spaced.IsNumber(n)
    ensures
      var text := ExponentText(Spaced.ExponentText(n.exponent));
      && (StartsWith(text, '-') <==> n.exponent.Some? && n.exponent.value.sign == "-")
      && DigitsValue(Run(BehindSign(text)))
         == (if n.exponent.Some? then DigitsValue(n.exponent.value.digits) else 0)
  {
    hide Run, DigitsValue;
    if n.exponent.Some? {
      var x := n.exponent.value;
      Assoc([x.letter], x.sign, x.digits);
      Cons(x.letter, x.sign + x.digits);
      Spaced.SignIsRead(x.sign, x.digits);
      Unit(x.digits);
      RunOf(x.digits, "");
    } else {
      NoDigits();
    }
  }

  lemma NoDigits()
    ensures BehindSign("") == "" && Run("") == "" && DigitsValue("") == 0
  {
    var none: string := "";
    assert none[0..] == none;
  }

  /** A text counts with the integer it begins with, behind white space; without digits it is zero. */
  lemma TextNumberMeans(blanks: string, sign: string, digits: string, rest: string)
    requires CandidateReading.AllCSpace(blanks) && sign in {"", "+", "-"} && AllDigits(digits)
    requires rest == "" || !IsDigit(rest[0])
    requires sign + digits != "" || rest == "" || (!IsCSpace(rest[0]) && rest[0] != '+' && rest[0] != '-')
    ensures Atoi(blanks + (sign + (digits + rest)))
         == if sign == "-" then -(DigitsValue(digits) as int) else DigitsValue(digits)
  {
    hide SkipCSpace, Run, DigitsValue, Spaced.IsSign;
    var u := sign + (digits + rest);
    SkipsToNumber(blanks, sign, digits, rest);
    RunOf(digits, rest);
    DropPrefix(sign, digits + rest);
  }

  lemma SkipsToNumber(blanks: string, sign: string, digits: string, rest: string)
    requires CandidateReading.AllCSpace(blanks) && sign in {"", "+", "-"} && AllDigits(digits)
    requires rest == "" || !IsDigit(rest[0])
    requires sign + digits != "" || rest == "" || (!IsCSpace(rest[0]) && rest[0] != '+' && rest[0] != '-')
    ensures
      var u := sign + (digits + rest);
      SkipCSpace(blanks + u) == u && SignLength(u) == |sign| && (StartsWith(u, '-') <==> sign == "-")
  {
    var u := sign + (digits + rest);
    if u != "" {
      CandidateReading.SkipsCSpace(blanks, u);
    } else {
      Unit(blanks);
      AllSkipped(blanks);
    }
  }

  lemma {:induction false} AllSkipped(blanks: string)
    requires CandidateReading.AllCSpace(blanks)
    ensures SkipCSpace(blanks) == ""
  {
    if blanks != "" {
      AllSkipped(blanks[1..]);
    }
  }

  /** What a member that should be a number counts as, modulo 2^32; neither number nor text is zero. */
  function IdOf(v: Json): int {
    match v
    case Number(text) => Truncate(NumberValue(text))
    case String(s) => Atoi(s)
    case _ => 0
  }

  // ---------------------------------------------------------------------------
  // Members
  // ---------------------------------------------------------------------------

  /** The first member with this key has this value. */
  ghost predicate Has(root: Json, key: string, v: Json) {
    root.Object? && exists i :: 0 <= i < |root.fields| && FirstAt(root.fields, i, key) && root.fields[i].value == v
  }

  predicate FirstAt(fields: seq<Field>, i: nat, key: string)
    requires i < |fields|
  {
    fields[i].key == key && forall j :: 0 <= j < i ==> fields[j].key != key
  }

  ghost predicate Lacks(root: Json, key: string) {
    !root.Object? || forall i :: 0 <= i < |root.fields| ==> root.fields[i].key != key
  }

  lemma {:induction false} WhereFound(fields: seq<Field>, key: string) returns (i: nat)
    ensures FindField(fields, key).Some? ==>
              i < |fields| && FirstAt(fields, i, key) && fields[i].value == FindField(fields, key).value
    ensures FindField(fields, key).None? ==> forall j :: 0 <= j < |fields| ==> fields[j].key != key
  {
    i := 0;
    if fields != [] && fields[0].key != key {
      var k := WhereFound(fields[1..], key);
      i := k + 1;
      assert forall j :: 0 < j < |fields| ==> fields[j] == fields[1..][j - 1];
    }
  }

  lemma FindIff(root: Json, key: string, v: Json)
    ensures root.Find(key) == Some(v) <==> Has(root, key, v)
    ensures root.Find(key) == None <==> Lacks(root, key)
  {
    if root.Object? {
      var i := WhereFound(root.fields, key);
      if Has(root, key, v) {
        var k :| 0 <= k < |root.fields| && FirstAt(root.fields, k, key) && root.fields[k].value == v;
        FindAt(root.fields, k);
      }
    }
  }

  /** A member that is a text. */
  ghost predicate HasText(root: Json, key: string, s: string) {
    Has(root, key, String(s))
  }

  ghost predicate NoText(root: Json, key: string) {
    forall s :: !HasText(root, key, s)
  }

  /** The text under the key, or the default. */
  ghost predicate TextIs(root: Json, key: string, default: string, s: string) {
    HasText(root, key, s) || (NoText(root, key) && s == default)
  }

  /** Set only if the member says true. */
  ghost predicate SwitchIs(root: Json, key: string, b: bool) {
    b <==> Has(root, key, Bool(true))
  }

  lemma TextMeans(root: Json, key: string, default: string, s: string)
    ensures TextIs(root, key, default, s) <==> s == StringOr(root.Find(key), default)
    ensures HasText(root, key, s) <==> root.Find(key) == Some(String(s))
    ensures NoText(root, key) <==> root.Find(key).None? || !root.Find(key).value.String?
  {
    hide Has;
    forall x
      ensures HasText(root, key, x) <==> root.Find(key) == Some(String(x))
    {
      FindIff(root, key, String(x));
    }
    if root.Find(key).Some? && root.Find(key).value.String? {
      assert HasText(root, key, root.Find(key).value.s);
    }
  }

  lemma SwitchMeans(root: Json, key: string, b: bool)
    ensures SwitchIs(root, key, b) <==> b == BoolOr(root.Find(key), false)
  {
    hide Has;
    FindIff(root, key, Bool(true));
  }

  // ---------------------------------------------------------------------------
  // Each type of message
  // ---------------------------------------------------------------------------

  /** The first fingerprint of the list; what it lacks is empty, and so is all of it if there is none. */
  ghost predicate FingerprintIs(items: seq<Json>, f: DtlsFingerprint) {
    if items == [] then f == DtlsFingerprint("", "", "")
    else
      && TextIs(items[0], "hash", "", f.hash) && TextIs(items[0], "setup", "", f.setup)
      && TextIs(items[0], "fingerprint", "", f.fingerprint)
  }

  ghost predicate SetupIs(root: Json, items: seq<Json>, m: InitialSetupMsg) {
    && Has(root, "fingerprints", Array(items))
    && HasText(root, "ufrag", m.ufrag) && HasText(root, "pwd", m.pwd)
    && SwitchIs(root, "renomination", m.supportsRenomination) && FingerprintIs(items, m.fingerprint)
  }

  lemma SetupReadIff(root: Json, m: InitialSetupMsg)
    ensures ParseInitialSetup(root) == Some(m) <==> exists items :: SetupIs(root, items, m)
  {
    hide Has, TextIs, HasText, SwitchIs, StringOr, BoolOr;
    TextMeans(root, "ufrag", "", m.ufrag);
    TextMeans(root, "pwd", "", m.pwd);
    SwitchMeans(root, "renomination", m.supportsRenomination);
    forall items
      ensures root.Find("fingerprints") == Some(Array(items)) <==> Has(root, "fingerprints", Array(items))
      ensures FingerprintIs(items, m.fingerprint)
         <==> m.fingerprint == var fp := if items == [] then Null else items[0];
              DtlsFingerprint(StringOr(fp.Find("hash"), ""), StringOr(fp.Find("setup"), ""),
                              StringOr(fp.Find("fingerprint"), ""))
    {
      FindIff(root, "fingerprints", Array(items));
      FingerprintMeans(items, m.fingerprint);
    }
    if ParseInitialSetup(root) == Some(m) {
      assert SetupIs(root, root.Find("fingerprints").value.items, m);
    }
  }

  lemma FingerprintMeans(items: seq<Json>, f: DtlsFingerprint)
    ensures FingerprintIs(items, f)
       <==> f == var fp := if items == [] then Null else items[0];
            DtlsFingerprint(StringOr(fp.Find("hash"), ""), StringOr(fp.Find("setup"), ""),
                            StringOr(fp.Find("fingerprint"), ""))
  {
    hide TextIs;
    if items != [] {
      TextMeans(items[0], "hash", "", f.hash);
      TextMeans(items[0], "setup", "", f.setup);
      TextMeans(items[0], "fingerprint", "", f.fingerprint);
    }
  }

  /** The texts of the items that have one, in order. */
  ghost predicate SdpsOf(items: seq<Json>, list: seq<string>) {
    if items == [] then list == []
    else
      || (NoText(items[0], "sdpString") && SdpsOf(items[1..], list))
      || (list != [] && HasText(items[0], "sdpString", list[0]) && SdpsOf(items[1..], list[1..]))
  }

  lemma {:induction false} SdpsCons(first: Json, items: seq<Json>)
    ensures SdpStrings([first] + items) == SdpStrings([first]) + SdpStrings(items)
  {
    if items == [] {
      Unit([first]);
      Unit(SdpStrings([first]));
    } else {
      var all, front := [first] + items, items[..|items| - 1];
      assert all[..|all| - 1] == [first] + front && all[|all| - 1] == items[|items| - 1];
      SdpsCons(first, front);
    }
  }

  lemma OneSdp(item: Json)
    ensures !NoText(item, "sdpString") ==> item.Find("sdpString").Some? && item.Find("sdpString").value.String?
    ensures SdpStrings([item]) == if NoText(item, "sdpString") then [] else [item.Find("sdpString").value.s]
  {
    TextMeans(item, "sdpString", "", "");
    assert [item][..0] == [] && SdpStrings([]) == [];
  }

  lemma {:induction false} SdpsMean(items: seq<Json>, list: seq<string>)
    ensures SdpsOf(items, list) <==> list == SdpStrings(items)
  {
    hide SdpStrings, NoText, HasText;
    if items == [] {
      NoSdps();
    } else {
      SdpsCons(items[0], items[1..]);
      FirstRest(items);
      OneSdp(items[0]);
      SdpsMean(items[1..], list);
      if list != [] {
        TextMeans(items[0], "sdpString", "", list[0]);
        SdpsMean(items[1..], list[1..]);
        FirstRest(list);
      }
    }
  }

  lemma NoSdps()
    ensures SdpStrings([]) == []
  {
  }

  ghost predicate ListIs(root: Json, items: seq<Json>, list: seq<string>) {
    Has(root, "candidates", Array(items)) && SdpsOf(items, list)
  }

  lemma CandidatesReadIff(root: Json, list: seq<string>)
    ensures ParseCandidates(root) == Some(list) <==> exists items :: ListIs(root, items, list)
  {
    hide Has, SdpsOf, SdpStrings;
    forall items
      ensures ListIs(root, items, list) <==> root.Find("candidates") == Some(Array(items)) && list == SdpStrings(items)
    {
      FindIff(root, "candidates", Array(items));
      SdpsMean(items, list);
    }
    if ParseCandidates(root) == Some(list) {
      assert ListIs(root, root.Find("candidates").value.items, list);
    }
  }

  lemma ConnectionReadIff(root: Json, status: string)
    ensures ParseConnection(root) == Some(status) <==> HasText(root, "status", status)
  {
    TextMeans(root, "status", "", status);
  }

  /** The identifier under the one key, or else under the other. */
  ghost predicate IdentifierIs(root: Json, v: Json) {
    Has(root, "pingId", v) || (Lacks(root, "pingId") && Has(root, "ping_id", v))
  }

  lemma PingReadIff(root: Json, id: u32)
    ensures ParsePingPong(root) == Some(id) <==> exists v :: IdentifierIs(root, v) && id == IdOf(v) % 0x1_0000_0000
  {
    hide Has, Lacks, NumberValue, Truncate, Atoi;
    forall v
      ensures root.Find("pingId") == Some(v) <==> Has(root, "pingId", v)
      ensures root.Find("ping_id") == Some(v) <==> Has(root, "ping_id", v)
      ensures root.Find("pingId") == None <==> Lacks(root, "pingId")
    {
      FindIff(root, "pingId", v);
      FindIff(root, "ping_id", v);
    }
    FindIff(root, "pingId", Null);
    if ParsePingPong(root) == Some(id) {
      var v := if root.Find("pingId").Some? then root.Find("pingId").value else root.Find("ping_id").value;
      assert IdentifierIs(root, v) && id == IdOf(v) % 0x1_0000_0000;
    }
  }

  /** The 32-bit integer with sign that is congruent. */
  function Signed32(v: int): int {
    (v + 0x8000_0000) % 0x1_0000_0000 - 0x8000_0000
  }

  ghost predicate RotationIs(root: Json, r: int) {
    || (exists text :: Has(root, "videoRotation", Number(text)) && r == Signed32(Truncate(NumberValue(text))))
    || (r == 0 && forall text :: !Has(root, "videoRotation", Number(text)))
  }

  lemma SignedMeans(x: real)
    ensures ToInt32(x) == Signed32(Truncate(x))
  {
    hide Truncate;
  }

  lemma RotationMeans(root: Json, r: int)
    ensures
      var v := root.Find("videoRotation");
      RotationIs(root, r) <==> r == if v.Some? && v.value.Number? then ToInt32(NumberValue(v.value.text)) else 0
  {
    hide Has, NumberValue, Truncate, ToInt32, Signed32;
    forall text
      ensures root.Find("videoRotation") == Some(Number(text)) <==> Has(root, "videoRotation", Number(text))
      ensures ToInt32(NumberValue(text)) == Signed32(Truncate(NumberValue(text)))
    {
      FindIff(root, "videoRotation", Number(text));
      SignedMeans(NumberValue(text));
    }
    var v := root.Find("videoRotation");
    if v.Some? && v.value.Number? {
      assert Has(root, "videoRotation", Number(v.value.text));
    }
  }

  lemma MediaStateReadIff(root: Json, m: MediaStateMsg)
    ensures ParseMediaState(root) == m
       <==>
       && SwitchIs(root, "muted", m.isMuted) && SwitchIs(root, "lowBattery", m.lowBattery)
       && TextIs(root, "videoState", "inactive", m.videoState)
       && TextIs(root, "screencastState", "inactive", m.screencastState)
       && RotationIs(root, m.videoRotation)
  {
    hide SwitchIs, TextIs, RotationIs, StringOr, BoolOr, ToInt32, NumberValue;
    SwitchMeans(root, "muted", m.isMuted);
    SwitchMeans(root, "lowBattery", m.lowBattery);
    TextMeans(root, "videoState", "inactive", m.videoState);
    TextMeans(root, "screencastState", "inactive", m.screencastState);
    RotationMeans(root, m.videoRotation);
  }

  // ---------------------------------------------------------------------------
  // Any message
  // ---------------------------------------------------------------------------

  /** The message with its type name and nothing else, as every message stays whose members do not fit. */
  function Named(t: string, json: string): Message {
    Message(Unknown, t, InitialSetupMsg("", "", false, DtlsFingerprint("", "", "")), [], "", 0, 0,
            MediaStateMsg(false, "", "", 0, false), json)
  }

  lemma NamesRead()
    ensures KindOf("InitialSetup") == InitialSetup && KindOf("Candidates") == Candidates
    ensures KindOf("Connection") == Connection && KindOf("Ping") == Ping && KindOf("Pong") == Pong
    ensures KindOf("MediaState") == MediaState && KindOf("RemoteMediaState") == RemoteMediaState
    ensures KindOf("NegotiateChannels") == NegotiateChannels && KindOf("Media") == Media && KindOf("EmptyAck") == EmptyAck
  {
  }

  predicate IsTypeName(t: string) {
    || t == "InitialSetup" || t == "Candidates" || t == "Connection" || t == "Ping" || t == "Pong"
    || t == "MediaState" || t == "RemoteMediaState" || t == "NegotiateChannels" || t == "Media" || t == "EmptyAck"
  }

  lemma NoNameRead(t: string)
    requires !IsTypeName(t)
    ensures KindOf(t) == Unknown
  {
  }

  /** By the text under "@type": the part it names and no other, if its members fit. */
  lemma EachTypeIsRead(root: Json, t: string, json: string)
    requires HasText(root, "@type", t)
    ensures
      var m, named := Read(root, Blank(json)), Named(t, json);
      var setup, list, status, id, media :=
        ParseInitialSetup(root), ParseCandidates(root), ParseConnection(root), ParsePingPong(root), ParseMediaState(root);
      && (t == "InitialSetup" ==>
            if setup.Some? then m == named.(kind := InitialSetup, initial := setup.value) else m == named)
      && (t == "Candidates" ==>
            if list.Some? then m == named.(kind := Candidates, candidates := list.value) else m == named)
      && (t == "Connection" ==>
            if status.Some? then m == named.(kind := Connection, status := status.value) else m == named)
      && (t == "Ping" ==> if id.Some? then m == named.(kind := Ping, pingId := id.value) else m == named)
      && (t == "Pong" ==> if id.Some? then m == named.(kind := Pong, pongId := id.value) else m == named)
      && (t == "MediaState" ==> m == named.(kind := MediaState, mediaState := media))
      && (t == "RemoteMediaState" ==> m == named.(kind := RemoteMediaState, mediaState := media))
      && (t == "NegotiateChannels" ==> m == named.(kind := NegotiateChannels))
      && (t == "Media" ==> m == named.(kind := Media))
      && (t == "EmptyAck" ==> m == named.(kind := EmptyAck))
      && (!IsTypeName(t) ==> m == named)
  {
    hide Has, KindOf, ParseInitialSetup, ParseCandidates, ParseConnection, ParsePingPong, ParseMediaState;
    TextMeans(root, "@type", "", t);
    NamesRead();
    if !IsTypeName(t) {
      NoNameRead(t);
    }
  }

  /** Without that text nothing is read but the raw message, and likewise without an object. */
  lemma NoTypeIsRead(root: Json, json: string)
    requires NoText(root, "@type")
    ensures Read(root, Blank(json)) == Named("", json)
  {
    hide Has, KindOf, ReadAs;
    TextMeans(root, "@type", "", "");
  }

  /** Any text is read through the value at its beginning. */
  lemma AnyTextIsRead(t: Spaced.Spaced, rest: string)
    requires Spaced.WellSpaced(t) && Spaced.Behind(rest)
    ensures
      var json, root := Spaced.SpacedText(t) + rest, Spaced.ValueOf(t.core);
      Parse(json) == if root.Object? then Read(root, Blank(json)) else Named("", json)
  {
    hide Spaced.SpacedText, Spaced.ValueOf, Read, ParseValue;
    Spaced.ParseText(t, rest);
  }

  lemma NoValueIsRead(json: string)
    requires ParseValue(json) == None
    ensures Parse(json) == Named("", json)
  {
    hide ParseValue;
  }
}
