/**
  STUN messages: their attributes, the encoding that overwrites the header's length for the
  integrity code and again for the fingerprint, and the readers that undo it.
*/
module StunSpec {
  import opened Bytes
  import opened SeqFacts
  import Crc32

  type Mac = s: seq<byte> | |s| == 20 witness seq(20, _ => 0)
  type TransactionId = s: seq<byte> | |s| == 12 witness seq(12, _ => 0)
  type Address = s: seq<byte> | |s| == 16 witness seq(16, _ => 0)

  /** HMAC-SHA1 of a message under a key, uninterpreted. */
  type Hmac = (seq<byte>, seq<byte>) -> Mac

  const MAGIC_COOKIE: u32 := 0x2112_A442
  const FINGERPRINT_MASK: u32 := 0x5354_554E
  const USERNAME: u16 := 0x0006
  const MESSAGE_INTEGRITY: u16 := 0x0008
  const XOR_MAPPED_ADDRESS: u16 := 0x0020
  const PRIORITY: u16 := 0x0024
  const USE_CANDIDATE: u16 := 0x0025
  const FINGERPRINT: u16 := 0x8028
  const ICE_CONTROLLED: u16 := 0x8029
  const ICE_CONTROLLING: u16 := 0x802A

  datatype Mapped = Mapped(family: byte, address: Address, port: u16)

  /** An empty user name or integrity code means that there is none. */
  datatype Message = Message(
    messageType: u16, transactionId: TransactionId, username: seq<byte>,
    priority: Option<u32>, iceControlling: Option<u64>, iceControlled: Option<u64>,
    useCandidate: bool, mapped: Option<Mapped>,
    messageIntegrity: seq<byte>, fingerprint: Option<u32>)

  function Blank(messageType: u16, transactionId: TransactionId): Message {
    Message(messageType, transactionId, [], None, None, None, false, None, [], None)
  }

  // ---------------------------------------------------------------------------
  // Attributes
  // ---------------------------------------------------------------------------

  datatype Attr = Attr(kind: u16, value: seq<byte>)

  /** Bytes needed to reach the next multiple of four. */
  function Padding(n: nat): (p: nat)
    ensures p < 4 && (n + p) % 4 == 0
  {
    (4 - n % 4) % 4
  }

  function AttrBytes(a: Attr): seq<byte> {
    BE16(a.kind) + BE16(|a.value| % 0x1_0000) + a.value + Zeros(Padding(|a.value|))
  }

  function AttrsBytes(attrs: seq<Attr>): seq<byte> {
    if attrs == [] then [] else AttrBytes(attrs[0]) + AttrsBytes(attrs[1..])
  }

  /** Room an attribute takes up, padding included. */
  function Span(a: Attr): nat {
    4 + |a.value| + Padding(|a.value|)
  }

  function Spans(attrs: seq<Attr>): nat {
    if attrs == [] then 0 else Span(attrs[0]) + Spans(attrs[1..])
  }

  /** The attributes up to the end, or up to the first one that is cut short. */
  datatype Scanned = Scanned(attrs: seq<Attr>, complete: bool)

  function Scan(s: seq<byte>): Scanned
    decreases |s|
  {
    if |s| < 4 then Scanned([], true)
    else if 4 + Read16(s, 2) > |s| then Scanned([], false)
    else
      var a := Attr(Read16(s, 0), s[4..4 + Read16(s, 2)]);
      var rest := Scan(if Span(a) <= |s| then s[Span(a)..] else []);
      Scanned([a] + rest.attrs, rest.complete)
  }

  // ---------------------------------------------------------------------------
  // Encoding
  // ---------------------------------------------------------------------------

  function Header(messageType: u16, length: nat, transactionId: TransactionId): (s: seq<byte>)
    ensures |s| == 20
  {
    BE16(messageType) + BE16(length % 0x1_0000) + BE32(MAGIC_COOKIE) + transactionId
  }

  function MappedValue(a: Mapped): seq<byte> {
    [0, 1] + BE16(Xor16(a.port, MAGIC_COOKIE / 0x1_0000)) + BE32(Xor32(Read32(a.address, 0), MAGIC_COOKIE))
  }

  function PriorityAttrs(m: Message): seq<Attr> {
    if m.priority.Some? then [Attr(PRIORITY, BE32(m.priority.value))] else []
  }

  function ControllingAttrs(m: Message): seq<Attr> {
    if m.iceControlling.Some? then [Attr(ICE_CONTROLLING, BE64(m.iceControlling.value))] else []
  }

  function ControlledAttrs(m: Message): seq<Attr> {
    if m.iceControlled.Some? then [Attr(ICE_CONTROLLED, BE64(m.iceControlled.value))] else []
  }

  function MappedAttrs(m: Message): seq<Attr> {
    if m.mapped.Some? && m.mapped.value.family == 1 then [Attr(XOR_MAPPED_ADDRESS, MappedValue(m.mapped.value))] else []
  }

  /** The attributes in the order they are written. */
  function AttrsOf(m: Message): seq<Attr> {
    (if m.username == [] then [] else [Attr(USERNAME, m.username)])
    + PriorityAttrs(m)
    + ControllingAttrs(m)
    + ControlledAttrs(m)
    + (if m.useCandidate then [Attr(USE_CANDIDATE, [])] else [])
    + MappedAttrs(m)
  }

  /** The integrity code covers the attributes before it, under a length that includes it. */
  function IntegrityAttrs(hmac: Hmac, m: Message, password: seq<byte>): seq<Attr> {
    var body := AttrsBytes(AttrsOf(m));
    if password == [] then []
    else [Attr(MESSAGE_INTEGRITY, hmac(password, Header(m.messageType, |body| + 24, m.transactionId) + body))]
  }

  function FingerprintOf(m: Message, covered: seq<byte>): u32 {
    Xor32(Crc32.Crc(Header(m.messageType, |covered| + 8, m.transactionId) + covered), FINGERPRINT_MASK)
  }

  /** Everything between the header and the fingerprint. */
  function Covered(hmac: Hmac, m: Message, password: seq<byte>): seq<byte> {
    AttrsBytes(AttrsOf(m)) + AttrsBytes(IntegrityAttrs(hmac, m, password))
  }

  function Encoded(hmac: Hmac, m: Message, password: seq<byte>): seq<byte> {
    var covered := Covered(hmac, m, password);
    Header(m.messageType, |covered| + 8, m.transactionId) + covered
    + AttrBytes(Attr(FINGERPRINT, BE32(FingerprintOf(m, covered))))
  }

  // ---------------------------------------------------------------------------
  // Reading
  // ---------------------------------------------------------------------------

  /** The bytes the header's length says are attributes. */
  function Region(data: seq<byte>): Option<seq<byte>> {
    if |data| < 20 || 20 + Read16(data, 2) > |data| then None else Some(data[20..20 + Read16(data, 2)])
  }

  function ReadMapped(v: seq<byte>, previous: Option<Mapped>): Mapped
    requires |v| >= 8
  {
    var address: Address := if previous.Some? then previous.value.address else Zeros(16);
    Mapped(v[1],
           if v[1] == 1 then BE32(Xor32(Read32(v, 4), MAGIC_COOKIE)) + address[4..] else address,
           Xor16(Read16(v, 2), MAGIC_COOKIE / 0x1_0000))
  }

  /** One attribute's effect; attributes of other kinds or lengths are skipped. */
  function Apply(m: Message, a: Attr): Message {
    if a.kind == USERNAME then m.(username := a.value)
    else if a.kind == MESSAGE_INTEGRITY then if |a.value| == 20 then m.(messageIntegrity := a.value) else m
    else if a.kind == FINGERPRINT then if |a.value| == 4 then m.(fingerprint := Some(Read32(a.value, 0))) else m
    else if a.kind == PRIORITY then if |a.value| == 4 then m.(priority := Some(Read32(a.value, 0))) else m
    else if a.kind == ICE_CONTROLLING then if |a.value| == 8 then m.(iceControlling := Some(Read64(a.value, 0))) else m
    else if a.kind == ICE_CONTROLLED then if |a.value| == 8 then m.(iceControlled := Some(Read64(a.value, 0))) else m
    else if a.kind == USE_CANDIDATE then m.(useCandidate := true)
    else if a.kind == XOR_MAPPED_ADDRESS then
      if |a.value| >= 8 then m.(mapped := Some(ReadMapped(a.value, m.mapped))) else m
    else m
  }

  function ApplyAll(m: Message, attrs: seq<Attr>): Message
    decreases |attrs|
  {
    if attrs == [] then m else ApplyAll(Apply(m, attrs[0]), attrs[1..])
  }

  function Decoded(data: seq<byte>): Option<Message> {
    var region := Region(data);
    if region.None? || Read32(data, 4) != MAGIC_COOKIE then None
    else
      var scanned := Scan(region.value);
      if !scanned.complete then None
      else Some(ApplyAll(Blank(Read16(data, 0), data[8..20]), scanned.attrs))
  }

  /** Index of the first integrity code, or the length if there is none. */
  function FirstIntegrity(attrs: seq<Attr>): (k: nat)
    ensures k <= |attrs|
    ensures k < |attrs| ==> |attrs[k].value| == 20
  {
    if attrs == [] then 0
    else if attrs[0].kind == MESSAGE_INTEGRITY && |attrs[0].value| == 20 then 0
    else 1 + FirstIntegrity(attrs[1..])
  }

  /** The header's length replaced. */
  function WithLength(data: seq<byte>, length: nat): (r: seq<byte>)
    requires |data| >= 20
    ensures |r| == |data|
  {
    data[..2] + BE16(length % 0x1_0000) + data[4..]
  }

  function IntegrityVerified(hmac: Hmac, data: seq<byte>, password: seq<byte>): bool {
    var region := Region(data);
    if region.None? then false
    else
      var attrs := Scan(region.value).attrs;
      var k := FirstIntegrity(attrs);
      if k == |attrs| then false
      else
        ScannedFits(region.value, k);
        var at := 20 + Spans(attrs[..k]);
        hmac(password, WithLength(data[..at], at - 20 + 24)) == attrs[k].value
  }

  function FingerprintVerified(data: seq<byte>): bool {
    if |data| < 28 then false
    else
      var at := |data| - 8;
      && Read16(data, at) == FINGERPRINT
      && Read16(data, at + 2) == 4
      && Xor32(Crc32.Crc(WithLength(data[..at], at - 20 + 8)), FINGERPRINT_MASK) == Read32(data, at + 4)
  }

  lemma {:induction false} ScannedFits(s: seq<byte>, k: nat)
    requires k < |Scan(s).attrs|
    ensures Spans(Scan(s).attrs[..k]) + 4 + |Scan(s).attrs[k].value| <= |s|
    decreases |s|
  {
    hide Read16;
    if k > 0 {
      var attrs := Scan(s).attrs;
      var rest := if Span(attrs[0]) <= |s| then s[Span(attrs[0])..] else [];
      assert attrs[1..] == Scan(rest).attrs;
      ScannedFits(rest, k - 1);
      assert attrs[..k][1..] == attrs[1..][..k - 1];
    }
  }
}
