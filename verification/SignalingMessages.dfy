/**
  The signaling messages of a tgcalls call: their JSON text, and the reading of a message
  back from JSON.
*/
module SignalingMessages {
  import opened Bytes
  import opened JsonSpec
  import opened DecimalText

  datatype MessageType =
    | Unknown | InitialSetup | Candidates | NegotiateChannels | Media | MediaState
    | Connection | Pong | Ping | EmptyAck | RemoteMediaState

  datatype DtlsFingerprint = DtlsFingerprint(hash: string, setup: string, fingerprint: string)

  datatype InitialSetupMsg = InitialSetupMsg(
    ufrag: string, pwd: string, supportsRenomination: bool, fingerprint: DtlsFingerprint)

  datatype MediaStateMsg = MediaStateMsg(
    isMuted: bool, videoState: string, screencastState: string, videoRotation: int, lowBattery: bool)

  /** One record per message; only the part its type names is meaningful. */
  datatype Message = Message(
    kind: MessageType, typeName: string,
    initial: InitialSetupMsg, candidates: seq<string>, status: string,
    pingId: u32, pongId: u32, mediaState: MediaStateMsg, rawJson: string)

  const NO_SETUP := InitialSetupMsg("", "", false, DtlsFingerprint("", "", ""))
  const NO_MEDIA_STATE := MediaStateMsg(false, "", "", 0, false)

  function Blank(rawJson: string): Message {
    Message(Unknown, "", NO_SETUP, [], "", 0, 0, NO_MEDIA_STATE, rawJson)
  }

  // ---------------------------------------------------------------------------
  // Serializing
  // ---------------------------------------------------------------------------

  function BoolText(b: bool): string {
    if b then "true" else "false"
  }

  /** `"name"`, for a name that is written as it stands. */
  function Name(name: string): string {
    "\"" + name + "\""
  }

  /** `"key":text` */
  function Member(key: string, text: string): string {
    Name(key) + ":" + text
  }

  function CommaJoin(parts: seq<string>): string {
    if parts == [] then ""
    else if |parts| == 1 then parts[0]
    else parts[0] + "," + CommaJoin(parts[1..])
  }

  function Braces(members: seq<string>): string {
    "{" + CommaJoin(members) + "}"
  }

  function Brackets(items: seq<string>): string {
    "[" + CommaJoin(items) + "]"
  }

  function SerializeFingerprint(f: DtlsFingerprint): string {
    Braces([Member("hash", Quoted(f.hash)), Member("setup", Quoted(f.setup)),
            Member("fingerprint", Quoted(f.fingerprint))])
  }

  function SerializeInitialSetup(m: InitialSetupMsg): string {
    Braces([Member("@type", Name("InitialSetup")),
            Member("ufrag", Quoted(m.ufrag)),
            Member("pwd", Quoted(m.pwd)),
            Member("renomination", BoolText(m.supportsRenomination)),
            Member("fingerprints", Brackets([SerializeFingerprint(m.fingerprint)]))])
  }

  function SerializeCandidate(sdp: string): string {
    Braces([Member("sdpString", Quoted(sdp))])
  }

  function SerializedCandidates(sdp: seq<string>): (r: seq<string>)
    ensures |r| == |sdp|
    ensures forall i :: 0 <= i < |r| ==> r[i] == SerializeCandidate(sdp[i])
  {
    seq(|sdp|, i requires 0 <= i < |sdp| => SerializeCandidate(sdp[i]))
  }

  function SerializeCandidates(sdp: seq<string>): string {
    Braces([Member("@type", Name("Candidates")), Member("candidates", Brackets(SerializedCandidates(sdp)))])
  }

  function SerializeConnection(status: string): string {
    Braces([Member("@type", Name("Connection")), Member("status", Quoted(status))])
  }

  function SerializePing(pingId: u32): string {
    Braces([Member("@type", Name("Ping")), Member("pingId", Decimal(pingId))])
  }

  function SerializePong(pingId: u32): string {
    Braces([Member("@type", Name("Pong")), Member("pingId", Decimal(pingId))])
  }

  function OrInactive(s: string): string {
    if s == "" then "inactive" else s
  }

  function SerializeMediaState(m: MediaStateMsg): string {
    Braces([Member("@type", Name("MediaState")),
            Member("muted", BoolText(m.isMuted)),
            Member("lowBattery", BoolText(m.lowBattery)),
            Member("videoState", Quoted(OrInactive(m.videoState))),
            Member("screencastState", Quoted(OrInactive(m.screencastState))),
            Member("videoRotation", DecimalInt(m.videoRotation))])
  }

  function Serialize(m: Message): string {
    match m.kind
    case InitialSetup => SerializeInitialSetup(m.initial)
    case Candidates => SerializeCandidates(m.candidates)
    case Connection => SerializeConnection(m.status)
    case Ping => SerializePing(m.pingId)
    case Pong => SerializePong(m.pongId)
    case MediaState => SerializeMediaState(m.mediaState)
    case _ => m.rawJson
  }

  // ---------------------------------------------------------------------------
  // Reading
  // ---------------------------------------------------------------------------

  function StringOr(v: Option<Json>, default: string): string {
    if v.Some? && v.value.String? then v.value.s else default
  }

  function BoolOr(v: Option<Json>, default: bool): bool {
    if v.Some? && v.value.Bool? then v.value.b else default
  }

  function NumberOrStringToUInt32(v: Json): u32 {
    match v
    case Number(text) => ToUInt32(NumberValue(text))
    case String(s) => Atoi(s) % 0x1_0000_0000
    case _ => 0
  }

  function ParseInitialSetup(obj: Json): Option<InitialSetupMsg> {
    var ufrag, pwd, fps := obj.Find("ufrag"), obj.Find("pwd"), obj.Find("fingerprints");
    if ufrag.None? || !ufrag.value.String? then None
    else if pwd.None? || !pwd.value.String? then None
    else if fps.None? || !fps.value.Array? then None
    else
      var fp := if fps.value.items == [] then Null else fps.value.items[0];
      Some(InitialSetupMsg(
             ufrag.value.s, pwd.value.s, BoolOr(obj.Find("renomination"), false),
             DtlsFingerprint(StringOr(fp.Find("hash"), ""), StringOr(fp.Find("setup"), ""),
                             StringOr(fp.Find("fingerprint"), ""))))
  }

  function SdpStrings(items: seq<Json>): seq<string> {
    if items == [] then []
    else
      var sdp := items[|items| - 1].Find("sdpString");
      SdpStrings(items[..|items| - 1])
      + (if sdp.Some? && sdp.value.String? then [sdp.value.s] else [])
  }

  function ParseCandidates(obj: Json): Option<seq<string>> {
    var arr := obj.Find("candidates");
    if arr.None? || !arr.value.Array? then None else Some(SdpStrings(arr.value.items))
  }

  function ParseConnection(obj: Json): Option<string> {
    var status := obj.Find("status");
    if status.Some? && status.value.String? then Some(status.value.s) else None
  }

  function ParsePingPong(obj: Json): Option<u32> {
    var id := if obj.Find("pingId").Some? then obj.Find("pingId") else obj.Find("ping_id");
    if id.None? then None else Some(NumberOrStringToUInt32(id.value))
  }

  function ParseMediaState(obj: Json): MediaStateMsg {
    var rotation := obj.Find("videoRotation");
    MediaStateMsg(
      BoolOr(obj.Find("muted"), false),
      StringOr(obj.Find("videoState"), "inactive"),
      StringOr(obj.Find("screencastState"), "inactive"),
      if rotation.Some? && rotation.value.Number? then ToInt32(NumberValue(rotation.value.text)) else 0,
      BoolOr(obj.Find("lowBattery"), false))
  }

  /** Text behind the first value is not looked at. */
  function ParseJson(json: string): Option<Json> {
    var r := ParseValue(json);
    if r.None? then None else Some(r.value.0)
  }

  function Parse(json: string): Message {
    var root := ParseJson(json);
    if root.None? || !root.value.Object? then Blank(json) else Read(root.value, Blank(json))
  }

  function KindOf(typeName: string): MessageType {
    match typeName
    case "InitialSetup" => InitialSetup
    case "Candidates" => Candidates
    case "NegotiateChannels" => NegotiateChannels
    case "Media" => Media
    case "MediaState" => MediaState
    case "RemoteMediaState" => RemoteMediaState
    case "Connection" => Connection
    case "Ping" => Ping
    case "Pong" => Pong
    case "EmptyAck" => EmptyAck
    case _ => Unknown
  }

  /** Dispatch on the "@type" of a parsed object. */
  function Read(root: Json, blank: Message): Message {
    var t := root.Find("@type");
    if t.None? || !t.value.String? then blank
    else ReadAs(KindOf(t.value.s), root, blank.(typeName := t.value.s))
  }

  /** A message whose part does not parse stays of unknown type. */
  function ReadAs(kind: MessageType, root: Json, m: Message): Message {
    match kind
    case InitialSetup =>
      var r := ParseInitialSetup(root);
      if r.None? then m else m.(kind := kind, initial := r.value)
    case Candidates =>
      var r := ParseCandidates(root);
      if r.None? then m else m.(kind := kind, candidates := r.value)
    case MediaState => m.(kind := kind, mediaState := ParseMediaState(root))
    case RemoteMediaState => m.(kind := kind, mediaState := ParseMediaState(root))
    case Connection =>
      var r := ParseConnection(root);
      if r.None? then m else m.(kind := kind, status := r.value)
    case Ping =>
      var r := ParsePingPong(root);
      if r.None? then m else m.(kind := kind, pingId := r.value)
    case Pong =>
      var r := ParsePingPong(root);
      if r.None? then m else m.(kind := kind, pongId := r.value)
    case _ => m.(kind := kind)
  }
}
