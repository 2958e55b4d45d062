/**
  Reading back what was serialized gives the same message, for arbitrary text in its
  fields. The serialized text is first shown to be the printed form of a JSON tree.
*/
module SignalingRoundTrip {
  import opened Bytes
  import opened SeqFacts
  import opened JsonSpec
  import opened JsonRoundTrip
  import opened DecimalText
  import opened SignalingMessages

  // ---------------------------------------------------------------------------
  // The JSON tree of each message
  // ---------------------------------------------------------------------------

  function Text(key: string, s: string): Field {
    Field(key, String(s))
  }

  function FingerprintTree(f: DtlsFingerprint): Json {
    Object([Text("hash", f.hash), Text("setup", f.setup), Text("fingerprint", f.fingerprint)])
  }

  function InitialSetupTree(m: InitialSetupMsg): Json {
    Object([Text("@type", "InitialSetup"), Text("ufrag", m.ufrag), Text("pwd", m.pwd),
            Field("renomination", Bool(m.supportsRenomination)),
            Field("fingerprints", Array([FingerprintTree(m.fingerprint)]))])
  }

  function CandidateTrees(sdp: seq<string>): (ts: seq<Json>)
    ensures |ts| == |sdp|
    ensures forall i :: 0 <= i < |ts| ==> ts[i] == Object([Text("sdpString", sdp[i])])
  {
    seq(|sdp|, i requires 0 <= i < |sdp| => Object([Text("sdpString", sdp[i])]))
  }

  function CandidatesTree(sdp: seq<string>): Json {
    Object([Text("@type", "Candidates"), Field("candidates", Array(CandidateTrees(sdp)))])
  }

  function ConnectionTree(status: string): Json {
    Object([Text("@type", "Connection"), Text("status", status)])
  }

  function PingTree(name: string, id: u32): Json {
    Object([Text("@type", name), Field("pingId", Number(Decimal(id)))])
  }

  function MediaStateTree(m: MediaStateMsg): Json {
    Object([Text("@type", "MediaState"),
            Field("muted", Bool(m.isMuted)), Field("lowBattery", Bool(m.lowBattery)),
            Text("videoState", OrInactive(m.videoState)),
            Text("screencastState", OrInactive(m.screencastState)),
            Field("videoRotation", Number(DecimalInt(m.videoRotation)))])
  }

  // ---------------------------------------------------------------------------
  // The serialized text is the printed tree
  // ---------------------------------------------------------------------------

  /** Letters and `@`: what the member names and type names are made of. */
  predicate IsName(s: string) {
    forall i :: 0 <= i < |s| ==> '@' <= s[i] <= 'Z' || 'a' <= s[i] <= 'z'
  }

  lemma {:induction false} NameNeedsNoEscape(s: string)
    requires IsName(s)
    ensures EscapeJson(s) == s && Quoted(s) == Name(s)
  {
    if s != "" {
      NameNeedsNoEscape(s[..|s| - 1]);
      NameCharacter(s[|s| - 1]);
      FrontLast(s);
    }
  }

  lemma NameCharacter(c: char)
    requires '@' <= c <= 'Z' || 'a' <= c <= 'z'
    ensures EscapeChar(c) == [c]
  {
  }

  lemma MemberIsField(f: Field, text: string)
    requires IsName(f.key) && text == Print(f.value)
    ensures Member(f.key, text) == PrintField(f)
  {
    NameNeedsNoEscape(f.key);
  }

  lemma {:induction false} JoinIsFields(parts: seq<string>, fields: seq<Field>)
    requires |parts| == |fields|
    requires forall i :: 0 <= i < |parts| ==> parts[i] == PrintField(fields[i])
    ensures CommaJoin(parts) == PrintFields(fields)
  {
    if |parts| > 1 {
      JoinIsFields(parts[1..], fields[1..]);
    }
  }

  lemma {:induction false} JoinIsItems(parts: seq<string>, items: seq<Json>)
    requires |parts| == |items|
    requires forall i :: 0 <= i < |parts| ==> parts[i] == Print(items[i])
    ensures CommaJoin(parts) == PrintItems(items)
  {
    if |parts| > 1 {
      JoinIsItems(parts[1..], items[1..]);
    }
  }

  lemma BracesArePrinted(parts: seq<string>, fields: seq<Field>)
    requires |parts| == |fields|
    requires forall i :: 0 <= i < |parts| ==> parts[i] == PrintField(fields[i])
    ensures Braces(parts) == Print(Object(fields))
  {
    JoinIsFields(parts, fields);
  }

  lemma TypeIsPrinted(name: string)
    requires IsName(name)
    ensures Member("@type", Name(name)) == PrintField(Text("@type", name))
  {
    NameNeedsNoEscape(name);
    MemberIsField(Text("@type", name), Name(name));
  }

  lemma ConnectionIsPrinted(status: string)
    ensures SerializeConnection(status) == Print(ConnectionTree(status))
  {
    var fields := ConnectionTree(status).fields;
    TypeIsPrinted("Connection");
    MemberIsField(fields[1], Quoted(status));
    BracesArePrinted([Member("@type", Name("Connection")), Member("status", Quoted(status))], fields);
  }

  lemma PingIsPrinted(name: string, id: u32)
    requires IsName(name)
    ensures Braces([Member("@type", Name(name)), Member("pingId", Decimal(id))]) == Print(PingTree(name, id))
  {
    var fields := PingTree(name, id).fields;
    TypeIsPrinted(name);
    MemberIsField(fields[1], Decimal(id));
    BracesArePrinted([Member("@type", Name(name)), Member("pingId", Decimal(id))], fields);
  }

  lemma CandidateIsPrinted(sdp: string)
    ensures SerializeCandidate(sdp) == Print(Object([Text("sdpString", sdp)]))
  {
    MemberIsField(Text("sdpString", sdp), Quoted(sdp));
    BracesArePrinted([Member("sdpString", Quoted(sdp))], [Text("sdpString", sdp)]);
  }

  lemma CandidateListIsPrinted(sdp: seq<string>)
    ensures Brackets(SerializedCandidates(sdp)) == Print(Array(CandidateTrees(sdp)))
  {
    forall i | 0 <= i < |sdp|
      ensures SerializedCandidates(sdp)[i] == Print(CandidateTrees(sdp)[i])
    {
      CandidateIsPrinted(sdp[i]);
    }
    JoinIsItems(SerializedCandidates(sdp), CandidateTrees(sdp));
  }

  lemma CandidatesArePrinted(sdp: seq<string>)
    ensures SerializeCandidates(sdp) == Print(CandidatesTree(sdp))
  {
    var list := Field("candidates", Array(CandidateTrees(sdp)));
    CandidateListIsPrinted(sdp);
    TypeIsPrinted("Candidates");
    MemberIsField(list, Brackets(SerializedCandidates(sdp)));
    JoinTwo(PrintField(Text("@type", "Candidates")), PrintField(list), Text("@type", "Candidates"), list);
  }

  lemma TextMember(key: string, s: string)
    requires IsName(key)
    ensures Member(key, Quoted(s)) == PrintField(Text(key, s))
  {
    NameNeedsNoEscape(key);
  }

  lemma BoolMember(key: string, b: bool)
    requires IsName(key)
    ensures Member(key, BoolText(b)) == PrintField(Field(key, Bool(b)))
  {
    NameNeedsNoEscape(key);
  }

  /** Two texts joined in front of more are two fields printed in front of more. */
  lemma JoinTwo(a: string, b: string, f: Field, g: Field)
    requires a == PrintField(f) && b == PrintField(g)
    ensures CommaJoin([a, b]) == PrintFields([f, g])
  {
    JoinIsFields([a, b], [f, g]);
  }

  lemma JoinFront(a: string, parts: seq<string>, f: Field, fields: seq<Field>)
    requires parts != [] && fields != []
    requires a == PrintField(f) && CommaJoin(parts) == PrintFields(fields)
    ensures CommaJoin([a] + parts) == PrintFields([f] + fields)
  {
    Cons(a, parts);
    Cons(f, fields);
  }

  lemma FingerprintIsPrinted(f: DtlsFingerprint)
    ensures SerializeFingerprint(f) == Print(FingerprintTree(f))
  {
    hide Member, PrintField, PrintFields, CommaJoin, Quoted;
    var hash, setup, digest := Text("hash", f.hash), Text("setup", f.setup), Text("fingerprint", f.fingerprint);
    TextMember("hash", f.hash);
    TextMember("setup", f.setup);
    TextMember("fingerprint", f.fingerprint);
    JoinTwo(PrintField(setup), PrintField(digest), setup, digest);
    JoinFront(PrintField(hash), [PrintField(setup), PrintField(digest)], hash, [setup, digest]);
    assert [PrintField(hash)] + [PrintField(setup), PrintField(digest)]
        == [PrintField(hash), PrintField(setup), PrintField(digest)];
    assert [hash] + [setup, digest] == FingerprintTree(f).fields;
  }

  lemma SetupNames()
    ensures IsName("InitialSetup") && IsName("ufrag") && IsName("pwd")
    ensures IsName("renomination") && IsName("fingerprints")
  {
  }

  lemma MediaNames()
    ensures IsName("MediaState") && IsName("muted") && IsName("lowBattery") && IsName("videoState")
    ensures IsName("screencastState") && IsName("videoRotation")
  {
  }

  lemma InitialSetupIsPrinted(m: InitialSetupMsg)
    ensures SerializeInitialSetup(m) == Print(InitialSetupTree(m))
  {
    hide Member, PrintField, PrintFields, CommaJoin, Quoted, Braces;
    var fields := InitialSetupTree(m).fields;
    var prints := [SerializeFingerprint(m.fingerprint)];
    var parts := [Member("@type", Name("InitialSetup")), Member("ufrag", Quoted(m.ufrag)),
                  Member("pwd", Quoted(m.pwd)), Member("renomination", BoolText(m.supportsRenomination)),
                  Member("fingerprints", Brackets(prints))];
    SetupNames();
    forall i | 0 <= i < 5
      ensures parts[i] == PrintField(fields[i])
    {
      if i == 0 {
        TypeIsPrinted("InitialSetup");
      } else if i == 1 {
        TextMember("ufrag", m.ufrag);
      } else if i == 2 {
        TextMember("pwd", m.pwd);
      } else if i == 3 {
        BoolMember("renomination", m.supportsRenomination);
      } else {
        FingerprintIsPrinted(m.fingerprint);
        JoinIsItems(prints, [FingerprintTree(m.fingerprint)]);
        MemberIsField(fields[4], Brackets(prints));
      }
    }
    BracesArePrinted(parts, fields);
  }

  lemma MediaStateIsPrinted(m: MediaStateMsg)
    ensures SerializeMediaState(m) == Print(MediaStateTree(m))
  {
    hide Member, PrintField, PrintFields, CommaJoin, Quoted, Braces;
    var fields := MediaStateTree(m).fields;
    var parts := [Member("@type", Name("MediaState")), Member("muted", BoolText(m.isMuted)),
                  Member("lowBattery", BoolText(m.lowBattery)),
                  Member("videoState", Quoted(OrInactive(m.videoState))),
                  Member("screencastState", Quoted(OrInactive(m.screencastState))),
                  Member("videoRotation", DecimalInt(m.videoRotation))];
    MediaNames();
    forall i | 0 <= i < 6
      ensures parts[i] == PrintField(fields[i])
    {
      if i == 0 {
        TypeIsPrinted("MediaState");
      } else if i == 1 {
        BoolMember("muted", m.isMuted);
      } else if i == 2 {
        BoolMember("lowBattery", m.lowBattery);
      } else if i == 3 {
        TextMember("videoState", OrInactive(m.videoState));
      } else if i == 4 {
        TextMember("screencastState", OrInactive(m.screencastState));
      } else {
        MemberIsField(fields[5], DecimalInt(m.videoRotation));
      }
    }
    BracesArePrinted(parts, fields);
  }

  // ---------------------------------------------------------------------------
  // Reading the tree back
  // ---------------------------------------------------------------------------

  lemma {:induction false} FindAt(fields: seq<Field>, i: nat)
    requires i < |fields| && forall j :: 0 <= j < i ==> fields[j].key != fields[i].key
    ensures FindField(fields, fields[i].key) == Some(fields[i].value)
  {
    if i > 0 {
      FindAt(fields[1..], i - 1);
    }
  }

  lemma {:induction false} FindNothing(fields: seq<Field>, key: string)
    requires forall j :: 0 <= j < |fields| ==> fields[j].key != key
    ensures FindField(fields, key) == None
  {
    if fields != [] {
      FindNothing(fields[1..], key);
    }
  }

  /** No two members of the object share a key. */
  predicate DistinctKeys(fields: seq<Field>) {
    forall i, j :: 0 <= i < j < |fields| ==> fields[i].key != fields[j].key
  }

  lemma FindEach(fields: seq<Field>)
    requires DistinctKeys(fields)
    ensures forall i :: 0 <= i < |fields| ==> Object(fields).Find(fields[i].key) == Some(fields[i].value)
  {
    forall i | 0 <= i < |fields|
      ensures Object(fields).Find(fields[i].key) == Some(fields[i].value)
    {
      FindAt(fields, i);
    }
  }

  lemma Differ(a: string, b: string, i: nat)
    requires i < |a| && i < |b| && a[i] != b[i]
    ensures a != b
  {
  }

  /** What the receiver of a serialized message holds: the same fields, tagged alike. */
  function Received(m: Message, json: string): Message {
    var blank := Blank(json);
    match m.kind
    case InitialSetup => blank.(kind := InitialSetup, typeName := "InitialSetup", initial := m.initial)
    case Candidates => blank.(kind := Candidates, typeName := "Candidates", candidates := m.candidates)
    case Connection => blank.(kind := Connection, typeName := "Connection", status := m.status)
    case Ping => blank.(kind := Ping, typeName := "Ping", pingId := m.pingId)
    case Pong => blank.(kind := Pong, typeName := "Pong", pongId := m.pongId)
    case MediaState =>
      blank.(kind := MediaState, typeName := "MediaState",
             mediaState := m.mediaState.(videoState := StateSent(m.mediaState.videoState),
                                         screencastState := StateSent(m.mediaState.screencastState)))
    case _ => blank
  }

  /** A state is never sent empty. */
  function StateSent(state: string): (sent: string)
    ensures sent != "" && (sent == state || (state == "" && sent == "inactive"))
  {
    OrInactive(state)
  }

  predicate Structured(m: Message) {
    m.kind in {InitialSetup, Candidates, Connection, Ping, Pong, MediaState}
    && IsInt32(m.mediaState.videoRotation)
  }

  function Tree(m: Message): Json {
    match m.kind
    case InitialSetup => InitialSetupTree(m.initial)
    case Candidates => CandidatesTree(m.candidates)
    case Connection => ConnectionTree(m.status)
    case Ping => PingTree("Ping", m.pingId)
    case Pong => PingTree("Pong", m.pongId)
    case MediaState => MediaStateTree(m.mediaState)
    case _ => Object([])
  }

  lemma IntegralObject(fields: seq<Field>)
    requires forall i :: 0 <= i < |fields| ==> Integral(fields[i].value)
    ensures Integral(Object(fields))
  {
  }

  lemma InitialSetupIsIntegral(m: InitialSetupMsg)
    ensures Integral(InitialSetupTree(m))
  {
    IntegralObject(FingerprintTree(m.fingerprint).fields);
    assert Integral(Array([FingerprintTree(m.fingerprint)]));
    IntegralObject(InitialSetupTree(m).fields);
  }

  lemma CandidatesAreIntegral(sdp: seq<string>)
    ensures Integral(CandidatesTree(sdp))
  {
    var trees := CandidateTrees(sdp);
    forall i | 0 <= i < |trees|
      ensures Integral(trees[i])
    {
      IntegralObject([Text("sdpString", sdp[i])]);
    }
    assert Integral(Array(trees));
    IntegralObject(CandidatesTree(sdp).fields);
  }

  lemma TreeIsIntegral(m: Message)
    requires Structured(m)
    ensures Integral(Tree(m))
  {
    DecimalIsInteger(m.pingId);
    DecimalIsInteger(m.pongId);
    DecimalIsInteger(m.mediaState.videoRotation);
    match m.kind
    case InitialSetup => InitialSetupIsIntegral(m.initial);
    case Candidates => CandidatesAreIntegral(m.candidates);
    case Connection => IntegralObject(ConnectionTree(m.status).fields);
    case Ping => IntegralObject(PingTree("Ping", m.pingId).fields);
    case Pong => IntegralObject(PingTree("Pong", m.pongId).fields);
    case MediaState => IntegralObject(MediaStateTree(m.mediaState).fields);
  }

  lemma SerializedIsPrinted(m: Message)
    requires Structured(m)
    ensures Serialize(m) == Print(Tree(m)) && Tree(m).Object?
  {
    match m.kind
    case InitialSetup => InitialSetupIsPrinted(m.initial);
    case Candidates => CandidatesArePrinted(m.candidates);
    case Connection => ConnectionIsPrinted(m.status);
    case Ping => PingIsPrinted("Ping", m.pingId);
    case Pong => PingIsPrinted("Pong", m.pongId);
    case MediaState => MediaStateIsPrinted(m.mediaState);
  }

  lemma KindNames()
    ensures KindOf("InitialSetup") == InitialSetup && KindOf("Candidates") == Candidates
    ensures KindOf("Connection") == Connection && KindOf("MediaState") == MediaState
  {
  }

  lemma PingNames()
    ensures KindOf("Ping") == Ping && KindOf("Pong") == Pong
  {
    Differ("Ping", "Pong", 1);
  }

  lemma ReadInitialSetup(m: InitialSetupMsg, json: string)
    ensures Read(InitialSetupTree(m), Blank(json))
            == Blank(json).(kind := InitialSetup, typeName := "InitialSetup", initial := m)
  {
    KindNames();
    var root := InitialSetupTree(m);
    Differ("@type", "ufrag", 0);
    Differ("renomination", "fingerprints", 0);
    FindEach(root.fields);
    var prints := FingerprintTree(m.fingerprint);
    FindEach(prints.fields);
    assert root.Find(root.fields[0].key) == Some(String("InitialSetup"));
    assert root.Find(root.fields[1].key) == Some(String(m.ufrag));
    assert root.Find(root.fields[2].key) == Some(String(m.pwd));
    assert root.Find(root.fields[3].key) == Some(Bool(m.supportsRenomination));
    assert root.Find(root.fields[4].key) == Some(Array([prints]));
    assert prints.Find(prints.fields[0].key) == Some(String(m.fingerprint.hash));
    assert prints.Find(prints.fields[1].key) == Some(String(m.fingerprint.setup));
    assert prints.Find(prints.fields[2].key) == Some(String(m.fingerprint.fingerprint));
  }

  lemma MediaKeysDistinct(m: MediaStateMsg)
    ensures DistinctKeys(MediaStateTree(m).fields)
  {
    Differ("@type", "muted", 0);
    Differ("lowBattery", "videoState", 0);
  }

  lemma ReadMediaState(m: MediaStateMsg, json: string)
    requires IsInt32(m.videoRotation)
    ensures Read(MediaStateTree(m), Blank(json))
            == Blank(json).(kind := MediaState, typeName := "MediaState",
                            mediaState := m.(videoState := OrInactive(m.videoState),
                                             screencastState := OrInactive(m.screencastState)))
  {
    KindNames();
    ReadMediaFields(m);
  }

  lemma ReadMediaFields(m: MediaStateMsg)
    requires IsInt32(m.videoRotation)
    ensures MediaStateTree(m).Find("@type") == Some(String("MediaState"))
    ensures ParseMediaState(MediaStateTree(m))
            == m.(videoState := OrInactive(m.videoState), screencastState := OrInactive(m.screencastState))
  {
    MediaMembers(m);
    IntegerConversions(m.videoRotation);
  }

  lemma MediaMembers(m: MediaStateMsg)
    ensures
      var root := MediaStateTree(m);
      && root.Find("@type") == Some(String("MediaState"))
      && root.Find("muted") == Some(Bool(m.isMuted))
      && root.Find("lowBattery") == Some(Bool(m.lowBattery))
      && root.Find("videoState") == Some(String(OrInactive(m.videoState)))
      && root.Find("screencastState") == Some(String(OrInactive(m.screencastState)))
      && root.Find("videoRotation") == Some(Number(DecimalInt(m.videoRotation)))
  {
    var fields := MediaStateTree(m).fields;
    MediaKeysDistinct(m);
    FindAt(fields, 0);
    FindAt(fields, 1);
    FindAt(fields, 2);
    FindAt(fields, 3);
    FindAt(fields, 4);
    FindAt(fields, 5);
  }

  lemma ReadConnection(status: string, json: string)
    ensures Read(ConnectionTree(status), Blank(json))
            == Blank(json).(kind := Connection, typeName := "Connection", status := status)
  {
    KindNames();
    var root := ConnectionTree(status);
    FindEach(root.fields);
    assert root.Find(root.fields[0].key) == Some(String("Connection"));
    assert root.Find(root.fields[1].key) == Some(String(status));
  }

  lemma ReadPing(name: string, id: u32)
    ensures PingTree(name, id).Find("@type") == Some(String(name))
    ensures ParsePingPong(PingTree(name, id)) == Some(id)
  {
    var root := PingTree(name, id);
    FindEach(root.fields);
    IntegerConversions(id);
    assert root.Find(root.fields[0].key) == Some(String(name));
    assert root.Find(root.fields[1].key) == Some(Number(Decimal(id)));
  }

  lemma ReadPingMessage(id: u32, json: string)
    ensures Read(PingTree("Ping", id), Blank(json)) == Blank(json).(kind := Ping, typeName := "Ping", pingId := id)
  {
    hide PingTree, ParsePingPong, KindOf, ParseInitialSetup, ParseCandidates, ParseConnection, ParseMediaState;
    PingNames();
    ReadPing("Ping", id);
  }

  lemma ReadPongMessage(id: u32, json: string)
    ensures Read(PingTree("Pong", id), Blank(json)) == Blank(json).(kind := Pong, typeName := "Pong", pongId := id)
  {
    hide PingTree, ParsePingPong, KindOf, ParseInitialSetup, ParseCandidates, ParseConnection, ParseMediaState;
    PingNames();
    ReadPing("Pong", id);
  }

  lemma {:induction false} SdpStringsOf(sdp: seq<string>)
    ensures SdpStrings(CandidateTrees(sdp)) == sdp
  {
    var items := CandidateTrees(sdp);
    if sdp != [] {
      SdpStringsOf(sdp[..|sdp| - 1]);
      assert items[..|items| - 1] == CandidateTrees(sdp[..|sdp| - 1]);
      FindEach(items[|items| - 1].fields);
      FrontLast(sdp);
    }
  }

  lemma ReadCandidates(sdp: seq<string>, json: string)
    ensures Read(CandidatesTree(sdp), Blank(json))
            == Blank(json).(kind := Candidates, typeName := "Candidates", candidates := sdp)
  {
    KindNames();
    var root := CandidatesTree(sdp);
    FindEach(root.fields);
    assert root.Find(root.fields[0].key) == Some(String("Candidates"));
    assert root.Find(root.fields[1].key) == Some(Array(CandidateTrees(sdp)));
    SdpStringsOf(sdp);
  }

  lemma ReadTree(m: Message, json: string)
    requires Structured(m)
    ensures Read(Tree(m), Blank(json)) == Received(m, json)
  {
    match m.kind
    case InitialSetup => ReadInitialSetup(m.initial, json);
    case Candidates => ReadCandidates(m.candidates, json);
    case Connection => ReadConnection(m.status, json);
    case Ping => ReadPingMessage(m.pingId, json);
    case Pong => ReadPongMessage(m.pongId, json);
    case MediaState => ReadMediaState(m.mediaState, json);
  }

  /**
    Round trip for every message of a structured type, with arbitrary text in its fields
    and whatever follows it: the parser does not look behind the closing brace.
  */
  lemma ParseSerialize(m: Message, rest: string)
    requires Structured(m)
    ensures Parse(Serialize(m) + rest) == Received(m, Serialize(m) + rest)
  {
    SerializedIsPrinted(m);
    TreeIsIntegral(m);
    ParsePrint(Tree(m), rest);
    ReadTree(m, Serialize(m) + rest);
  }

  /** Reading and writing again settles after one pass. */
  lemma SerializeIsStable(m: Message)
    requires Structured(m)
    ensures Structured(Parse(Serialize(m))) && Serialize(Parse(Serialize(m))) == Serialize(m)
  {
    hide Parse, Braces, Quoted, DecimalInt, Decimal;
    ParseSerialize(m, "");
    assert Serialize(m) + "" == Serialize(m);
  }
}
