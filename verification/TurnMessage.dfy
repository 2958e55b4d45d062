/**
  TURN messages: the composite message type, exclusive-or'ed addresses, Send indications and
  permission requests, and the decoder. Attributes are laid out and scanned as in STUN.
*/
module TurnMessage {
  import opened Bytes
  import opened SeqFacts
  import opened StunSpec
  import opened StunLaws
  import Code = StunMessage

  // ---------------------------------------------------------------------------
  // The message type
  // ---------------------------------------------------------------------------

  const METHOD_SEND: u16 := 0x006
  const METHOD_CREATE_PERMISSION: u16 := 0x008
  const CLASS_REQUEST: u16 := 0x000
  const CLASS_INDICATION: u16 := 0x010
  const CLASS_SUCCESS: u16 := 0x100
  const CLASS_ERROR: u16 := 0x110

  predicate IsClass(cls: u16) {
    cls in {CLASS_REQUEST, CLASS_INDICATION, CLASS_SUCCESS, CLASS_ERROR}
  }

  function Bit(v: u16, place: nat): nat
    requires place > 0
  {
    v / place % 2
  }

  /** Bit 9 is written both by method bit 7 and by the high class bit. */
  function MessageType(methodNumber: u16, cls: u16): u16 {
    methodNumber % 16 + 16 * Bit(cls, 16) + 32 * (methodNumber / 16 % 8)
    + 512 * (if Bit(methodNumber, 128) == 1 || Bit(cls, 256) == 1 then 1 else 0)
    + 1024 * (methodNumber / 256 % 16)
  }

  function MethodOf(kind: u16): u16 {
    kind % 16 + 16 * (kind / 32 % 8) + 128 * (kind / 512 % 32)
  }

  function ClassOf(kind: u16): u16 {
    16 * Bit(kind, 16) + 256 * Bit(kind, 512)
  }

  /** The layout of section 6 of RFC 5389, where the high class bit has place 8 to itself. */
  function StandardType(methodNumber: u16, cls: u16): nat {
    methodNumber % 16 + 16 * Bit(cls, 16) + 32 * (methodNumber / 16 % 8) + 256 * Bit(cls, 256) + 512 * (methodNumber / 128 % 32)
  }

  /** A message type by its fields, lowest first. */
  function Fields(low: nat, classLow: nat, middle: nat, place8: nat, place9: nat, high: nat): nat {
    low + 16 * classLow + 32 * middle + 256 * place8 + 512 * place9 + 1024 * high
  }

  lemma FieldsOf(low: nat, classLow: nat, middle: nat, place8: nat, place9: nat, high: nat)
    requires low < 16 && classLow < 2 && middle < 8 && place8 < 2 && place9 < 2 && high < 16
    ensures
      var v := Fields(low, classLow, middle, place8, place9, high);
      v % 16 == low && v / 16 % 2 == classLow && v / 32 % 8 == middle && v / 512 % 2 == place9 && v / 512 % 32 == place9 + 2 * high
  {
    var v := Fields(low, classLow, middle, place8, place9, high);
    assert v / 16 == classLow + 2 * middle + 16 * place8 + 32 * place9 + 64 * high;
    assert v / 32 == middle + 8 * place8 + 16 * place9 + 32 * high;
    assert v / 512 == place9 + 2 * high;
  }

  lemma MethodDigits(m: u16)
    requires m < 0x1000
    ensures m == m % 16 + 16 * (m / 16 % 8) + 128 * (m / 128 % 2) + 256 * (m / 256 % 16)
    ensures m / 128 % 32 == m / 128 % 2 + 2 * (m / 256 % 16)
  {
    assert m / 128 == m / 256 * 2 + m / 128 % 2;
    assert m / 16 == m / 128 * 8 + m / 16 % 8;
  }

  /** Method and class are both recovered exactly if method bit 7 agrees with the high class bit. */
  lemma TypeRoundTrip(methodNumber: u16, cls: u16)
    requires methodNumber < 0x1000 && IsClass(cls)
    ensures
      var kind := MessageType(methodNumber, cls);
      MethodOf(kind) == methodNumber && ClassOf(kind) == cls <==> Bit(methodNumber, 128) == Bit(cls, 256)
  {
    var place9 := if Bit(methodNumber, 128) == 1 || Bit(cls, 256) == 1 then 1 else 0;
    MethodDigits(methodNumber);
    FieldsOf(methodNumber % 16, Bit(cls, 16), methodNumber / 16 % 8, 0, place9, methodNumber / 256 % 16);
    assert cls == 16 * Bit(cls, 16) + 256 * Bit(cls, 256);
    assert MessageType(methodNumber, cls)
        == Fields(methodNumber % 16, Bit(cls, 16), methodNumber / 16 % 8, 0, place9, methodNumber / 256 % 16);
    hide Fields, MessageType;
  }

  /** The layout agrees with the standard exactly for requests and indications. */
  lemma StandardIff(methodNumber: u16, cls: u16)
    requires methodNumber < 0x1000 && IsClass(cls)
    ensures MessageType(methodNumber, cls) == StandardType(methodNumber, cls) <==> cls == CLASS_REQUEST || cls == CLASS_INDICATION
  {
    MethodDigits(methodNumber);
  }

  lemma StandardFields(methodNumber: u16, cls: u16)
    requires methodNumber < 0x80 && (cls == CLASS_SUCCESS || cls == CLASS_ERROR)
    ensures StandardType(methodNumber, cls)
         == Fields(methodNumber % 16, if cls == CLASS_SUCCESS then 0 else 1, methodNumber / 16 % 8, 1, 0, 0)
    ensures methodNumber == methodNumber % 16 + 16 * (methodNumber / 16 % 8)
  {
    assert methodNumber / 128 == 0;
  }

  /** So the standard's success and error responses are all read as requests and indications. */
  lemma StandardResponsesAreMisread(methodNumber: u16, cls: u16)
    requires methodNumber < 0x80 && (cls == CLASS_SUCCESS || cls == CLASS_ERROR)
    ensures
      var kind := StandardType(methodNumber, cls);
      && kind < 0x1_0000 && MethodOf(kind) == methodNumber
      && ClassOf(kind) == if cls == CLASS_SUCCESS then CLASS_REQUEST else CLASS_INDICATION
  {
    hide StandardType;
    StandardFields(methodNumber, cls);
    FieldsOf(methodNumber % 16, if cls == CLASS_SUCCESS then 0 else 1, methodNumber / 16 % 8, 1, 0, 0);
  }

  // ---------------------------------------------------------------------------
  // Addresses
  // ---------------------------------------------------------------------------

  const IPV4: byte := 1
  const IPV6: byte := 2

  datatype Address = Address(family: byte, port: u16, bytes: seq<byte>)

  const PORT_MASK: u16 := 0x2112

  function Mask(transactionId: TransactionId): (s: seq<byte>)
    ensures |s| == 16
  {
    BE32(MAGIC_COOKIE) + transactionId
  }

  /** An IPv6 value loses the family and the port to a stray write of four zero bytes. */
  function AddressValue(a: Address, transactionId: TransactionId): seq<byte>
    requires |a.bytes| == if a.family == IPV4 then 4 else 16
  {
    if a.family == IPV4 then
      [0, IPV4] + BE16(Xor16(a.port, PORT_MASK)) + BE32(Xor32(Read32(a.bytes, 0), MAGIC_COOKIE))
    else
      [0, 0, 0, 0] + XorBytes(a.bytes, Mask(transactionId))
  }

  predicate IsAddress(a: Address) {
    (a.family == IPV4 && |a.bytes| == 4) || (a.family == IPV6 && |a.bytes| == 16)
  }

  /** Malformed addresses are left out without an error. */
  function AddressAttrs(kind: u16, a: Address, transactionId: TransactionId): seq<Attr> {
    if IsAddress(a) then [Attr(kind, AddressValue(a, transactionId))] else []
  }

  function DecodedAddress(v: seq<byte>, transactionId: TransactionId): Option<Address> {
    if |v| < 8 then None
    else
      var port := Xor16(Read16(v, 2), PORT_MASK);
      if v[1] == IPV4 then Some(Address(IPV4, port, BE32(Xor32(Read32(v, 4), MAGIC_COOKIE))))
      else if v[1] == IPV6 && |v| >= 20 then Some(Address(IPV6, port, XorBytes(v[4..20], Mask(transactionId))))
      else None
  }

  /** Every IPv4 address comes back; no IPv6 address does. */
  lemma AddressRoundTrip(a: Address, transactionId: TransactionId)
    requires IsAddress(a)
    ensures DecodedAddress(AddressValue(a, transactionId), transactionId) == if a.family == IPV4 then Some(a) else None
  {
    if a.family == IPV4 {
      var port, address := Xor16(a.port, PORT_MASK), Xor32(Read32(a.bytes, 0), MAGIC_COOKIE);
      HasAtIn([0, 1], BE16(port), BE32(address));
      HasAtIn([0, 1] + BE16(port), BE32(address), []);
      Unit([0, 1] + BE16(port) + BE32(address));
      var v := AddressValue(a, transactionId);
      Read16At(v, 2, port);
      Read32At(v, 4, address);
      XorCancel(a.port, PORT_MASK);
      XorCancel(Read32(a.bytes, 0), MAGIC_COOKIE);
      BE32Read32(a.bytes, 0);
      assert a.bytes[0..4] == a.bytes;
    }
  }

  // ---------------------------------------------------------------------------
  // Messages
  // ---------------------------------------------------------------------------

  const ERROR_CODE: u16 := 0x0009
  const LIFETIME: u16 := 0x000D
  const XOR_PEER_ADDRESS: u16 := 0x0012
  const DATA: u16 := 0x0013
  const REALM: u16 := 0x0014
  const NONCE: u16 := 0x0015
  const XOR_RELAYED_ADDRESS: u16 := 0x0016
  const REQUESTED_TRANSPORT: u16 := 0x0019

  datatype TurnMessage = TurnMessage(
    kind: u16, transactionId: TransactionId,
    username: Option<seq<byte>>, realm: Option<seq<byte>>, nonce: Option<seq<byte>>,
    errorCode: Option<int>, errorReason: seq<byte>,
    xorMapped: Option<Address>, xorRelayed: Option<Address>, xorPeers: seq<Address>,
    data: Option<seq<byte>>, lifetime: Option<u32>, protocol: Option<byte>,
    messageIntegrity: Option<seq<byte>>, raw: seq<byte>)

  function NewMessage(kind: u16, transactionId: TransactionId, raw: seq<byte>): TurnMessage {
    TurnMessage(kind, transactionId, None, None, None, None, [], None, None, [], None, None, None, None, raw)
  }

  /** One attribute's effect on the decoded message. */
  function Apply(m: TurnMessage, a: Attr): TurnMessage {
    var v := a.value;
    if a.kind == USERNAME then m.(username := Some(v))
    else if a.kind == REALM then m.(realm := Some(v))
    else if a.kind == NONCE then m.(nonce := Some(v))
    else if a.kind == ERROR_CODE then ApplyError(m, v)
    else if a.kind == XOR_MAPPED_ADDRESS then
      var d := DecodedAddress(v, m.transactionId);
      if d.Some? then m.(xorMapped := d) else m
    else if a.kind == XOR_RELAYED_ADDRESS then
      var d := DecodedAddress(v, m.transactionId);
      if d.Some? then m.(xorRelayed := d) else m
    else if a.kind == XOR_PEER_ADDRESS then
      var d := DecodedAddress(v, m.transactionId);
      if d.Some? then m.(xorPeers := m.xorPeers + [d.value]) else m
    else if a.kind == DATA then m.(data := Some(v))
    else if a.kind == LIFETIME then if |v| == 4 then m.(lifetime := Some(Read32(v, 0))) else m
    else if a.kind == REQUESTED_TRANSPORT then if |v| == 4 then m.(protocol := Some(v[0])) else m
    else if a.kind == MESSAGE_INTEGRITY then if |v| == 20 then m.(messageIntegrity := Some(v)) else m
    else m
  }

  function ApplyError(m: TurnMessage, v: seq<byte>): TurnMessage {
    if |v| < 4 then m
    else m.(errorCode := Some(100 * (v[2] as int % 8) + v[3] as int), errorReason := if |v| > 4 then v[4..] else m.errorReason)
  }

  function ApplyAll(m: TurnMessage, attrs: seq<Attr>): TurnMessage
    decreases |attrs|
  {
    if attrs == [] then m else ApplyAll(Apply(m, attrs[0]), attrs[1..])
  }

  function Decoded(bytes: seq<byte>): Option<TurnMessage> {
    var region := Region(bytes);
    if region.None? || bytes[0] > 3 || Read32(bytes, 4) != MAGIC_COOKIE then None
    else
      var scanned := Scan(region.value);
      if !scanned.complete then None
      else Some(ApplyAll(NewMessage(Read16(bytes, 0), bytes[8..20], bytes), scanned.attrs))
  }

  /** A header with the final length in front of attributes. */
  function Laid(kind: u16, transactionId: TransactionId, attrs: seq<Attr>): seq<byte> {
    Header(kind, |AttrsBytes(attrs)|, transactionId) + AttrsBytes(attrs)
  }

  function SendIndication(transactionId: TransactionId, peer: Address, data: seq<byte>): seq<byte> {
    Laid(MessageType(METHOD_SEND, CLASS_INDICATION), transactionId,
         AddressAttrs(XOR_PEER_ADDRESS, peer, transactionId) + [Attr(DATA, data)])
  }

  function PeerAttrs(peers: seq<Address>, transactionId: TransactionId): seq<Attr> {
    if peers == [] then []
    else PeerAttrs(peers[..|peers| - 1], transactionId) + AddressAttrs(XOR_PEER_ADDRESS, peers[|peers| - 1], transactionId)
  }

  /** Empty credentials are left out. */
  function Present(kind: u16, value: seq<byte>): seq<Attr> {
    if value == [] then [] else [Attr(kind, value)]
  }

  function AuthAttrs(username: seq<byte>, realm: seq<byte>, nonce: seq<byte>): seq<Attr> {
    Present(USERNAME, username) + Present(REALM, realm) + Present(NONCE, nonce)
  }

  /** The code over what precedes it, under the length that includes it; none without a key. */
  function Authenticated(hmac: Hmac, kind: u16, transactionId: TransactionId, own: seq<Attr>, key: seq<byte>): seq<Attr> {
    if key == [] then own
    else own + [Attr(MESSAGE_INTEGRITY,
                     hmac(key, Header(kind, |AttrsBytes(own)| + 24, transactionId) + AttrsBytes(own)))]
  }

  function PermissionAttrs(transactionId: TransactionId, peers: seq<Address>,
                           username: seq<byte>, realm: seq<byte>, nonce: seq<byte>): seq<Attr> {
    PeerAttrs(peers, transactionId) + AuthAttrs(username, realm, nonce)
  }

  function CreatePermission(hmac: Hmac, transactionId: TransactionId, peers: seq<Address>, username: seq<byte>,
                            realm: seq<byte>, nonce: seq<byte>, key: seq<byte>): seq<byte> {
    var kind := MessageType(METHOD_CREATE_PERMISSION, CLASS_REQUEST);
    Laid(kind, transactionId,
         Authenticated(hmac, kind, transactionId, PermissionAttrs(transactionId, peers, username, realm, nonce), key))
  }

  // ---------------------------------------------------------------------------
  // Round trips
  // ---------------------------------------------------------------------------

  lemma {:induction false} ApplyConcat(m: TurnMessage, a: seq<Attr>, b: seq<Attr>)
    ensures ApplyAll(m, a + b) == ApplyAll(ApplyAll(m, a), b)
    decreases |a|
  {
    hide Apply;
    if a == [] {
      Unit(b);
    } else {
      assert (a + b)[1..] == a[1..] + b;
      ApplyConcat(Apply(m, a[0]), a[1..], b);
    }
  }

  lemma ApplyOne(m: TurnMessage, a: Attr)
    ensures ApplyAll(m, [a]) == Apply(m, a)
  {
    hide Apply;
    assert [a][1..] == [];
  }

  /** What the decoder makes of a laid-out message whose attributes fit. */
  lemma DecodeLaid(kind: u16, transactionId: TransactionId, attrs: seq<Attr>)
    requires kind < 0x400 && |AttrsBytes(attrs)| < 0x1_0000
    ensures
      var data := Laid(kind, transactionId, attrs);
      Decoded(data) == Some(ApplyAll(NewMessage(kind, transactionId, data), attrs))
  {
    hide ApplyAll, AttrsBytes, Scan, Region, Read32;
    RegionOfLayout(kind, transactionId, attrs);
    var data := Laid(kind, transactionId, attrs);
    assert Read16(data, 0) == 0x100 * data[0] as int + data[1];
  }

  lemma ApplyPeer(m: TurnMessage, peer: Address)
    ensures ApplyAll(m, AddressAttrs(XOR_PEER_ADDRESS, peer, m.transactionId)) == m.(xorPeers := m.xorPeers + Reachable(peer))
  {
    hide AddressValue, DecodedAddress;
    Unit(m.xorPeers);
    if IsAddress(peer) {
      AddressRoundTrip(peer, m.transactionId);
      ApplyOne(m, Attr(XOR_PEER_ADDRESS, AddressValue(peer, m.transactionId)));
    }
  }

  /** The address as the server sees it: IPv4 addresses only. */
  function Reachable(peer: Address): seq<Address> {
    if peer.family == IPV4 && |peer.bytes| == 4 then [peer] else []
  }

  function AllReachable(peers: seq<Address>): seq<Address> {
    if peers == [] then [] else AllReachable(peers[..|peers| - 1]) + Reachable(peers[|peers| - 1])
  }

  /** The relay gets the data for every peer, and the peer exactly if it is an IPv4 address. */
  lemma DecodeSend(transactionId: TransactionId, peer: Address, data: seq<byte>)
    requires |AttrsBytes(AddressAttrs(XOR_PEER_ADDRESS, peer, transactionId) + [Attr(DATA, data)])| < 0x1_0000
    ensures
      var bytes := SendIndication(transactionId, peer, data);
      Decoded(bytes) == Some(NewMessage(0x16, transactionId, bytes).(xorPeers := Reachable(peer), data := Some(data)))
  {
    hide AttrsBytes, Decoded, AddressAttrs, Laid;
    var attrs := AddressAttrs(XOR_PEER_ADDRESS, peer, transactionId) + [Attr(DATA, data)];
    DecodeLaid(0x16, transactionId, attrs);
    var m := NewMessage(0x16, transactionId, SendIndication(transactionId, peer, data));
    ApplyConcat(m, AddressAttrs(XOR_PEER_ADDRESS, peer, transactionId), [Attr(DATA, data)]);
    ApplyPeer(m, peer);
    Unit(Reachable(peer));
    ApplyOne(m.(xorPeers := Reachable(peer)), Attr(DATA, data));
  }

  lemma {:induction false} ApplyPeers(m: TurnMessage, peers: seq<Address>)
    requires m.xorPeers == []
    ensures ApplyAll(m, PeerAttrs(peers, m.transactionId)) == m.(xorPeers := AllReachable(peers))
  {
    hide Apply, AddressAttrs, Reachable;
    if peers != [] {
      var front, last := peers[..|peers| - 1], peers[|peers| - 1];
      ApplyPeers(m, front);
      ApplyConcat(m, PeerAttrs(front, m.transactionId), AddressAttrs(XOR_PEER_ADDRESS, last, m.transactionId));
      ApplyPeer(m.(xorPeers := AllReachable(front)), last);
    }
  }

  function SomeIf(value: seq<byte>): Option<seq<byte>> {
    if value == [] then None else Some(value)
  }

  lemma ApplyAuth(m: TurnMessage, username: seq<byte>, realm: seq<byte>, nonce: seq<byte>)
    requires m.username == None && m.realm == None && m.nonce == None
    ensures ApplyAll(m, AuthAttrs(username, realm, nonce))
         == m.(username := SomeIf(username), realm := SomeIf(realm), nonce := SomeIf(nonce))
  {
    var m1 := m.(username := SomeIf(username));
    var m2 := m1.(realm := SomeIf(realm));
    assert ApplyAll(m, Present(USERNAME, username)) == m1 by { ApplyOne(m, Attr(USERNAME, username)); }
    assert ApplyAll(m1, Present(REALM, realm)) == m2 by { ApplyOne(m1, Attr(REALM, realm)); }
    assert ApplyAll(m2, Present(NONCE, nonce)) == m2.(nonce := SomeIf(nonce)) by { ApplyOne(m2, Attr(NONCE, nonce)); }
    hide ApplyAll, Apply, Present;
    ApplyConcat(m, Present(USERNAME, username), Present(REALM, realm));
    ApplyConcat(m, Present(USERNAME, username) + Present(REALM, realm), Present(NONCE, nonce));
  }

  lemma {:induction false} PeersCarryNoCode(peers: seq<Address>, transactionId: TransactionId)
    ensures forall i :: 0 <= i < |PeerAttrs(peers, transactionId)| ==>
              PeerAttrs(peers, transactionId)[i].kind != MESSAGE_INTEGRITY
  {
    hide AddressValue;
    if peers != [] {
      PeersCarryNoCode(peers[..|peers| - 1], transactionId);
    }
  }

  lemma ApplyPermission(m: TurnMessage, peers: seq<Address>, username: seq<byte>, realm: seq<byte>, nonce: seq<byte>)
    requires m == NewMessage(m.kind, m.transactionId, m.raw)
    ensures ApplyAll(m, PermissionAttrs(m.transactionId, peers, username, realm, nonce))
         == m.(xorPeers := AllReachable(peers),
               username := SomeIf(username), realm := SomeIf(realm), nonce := SomeIf(nonce))
  {
    hide ApplyAll, PeerAttrs, AuthAttrs, AllReachable, SomeIf;
    ApplyPeers(m, peers);
    ApplyConcat(m, PeerAttrs(peers, m.transactionId), AuthAttrs(username, realm, nonce));
    ApplyAuth(m.(xorPeers := AllReachable(peers)), username, realm, nonce);
  }

  /** A message without a code verifies under no key. */
  lemma NoCodeNoIntegrity(hmac: Hmac, kind: u16, transactionId: TransactionId, own: seq<Attr>, key: seq<byte>)
    requires FirstIntegrity(own) == |own| && |AttrsBytes(own)| < 0x1_0000
    ensures !IntegrityVerified(hmac, Laid(kind, transactionId, own), key)
  {
    hide AttrsBytes, Region, Scan, Header, FirstIntegrity;
    RegionOfLayout(kind, transactionId, own);
  }

  /** A request that is made without a key: all credentials and the IPv4 peers, and no code. */
  lemma DecodeOpenPermission(hmac: Hmac, transactionId: TransactionId, peers: seq<Address>, username: seq<byte>,
                             realm: seq<byte>, nonce: seq<byte>)
    requires |CreatePermission(hmac, transactionId, peers, username, realm, nonce, [])| < 20 + 0x1_0000
    ensures
      var bytes := CreatePermission(hmac, transactionId, peers, username, realm, nonce, []);
      && Decoded(bytes)
         == Some(NewMessage(0x008, transactionId, bytes).(
               xorPeers := AllReachable(peers), username := SomeIf(username), realm := SomeIf(realm),
               nonce := SomeIf(nonce)))
      && !IntegrityVerified(hmac, bytes, [])
  {
    hide AttrsBytes, Decoded, PermissionAttrs, IntegrityVerified, Header, Apply, ApplyAll, AllReachable, SomeIf;
    var own := PermissionAttrs(transactionId, peers, username, realm, nonce);
    var bytes := CreatePermission(hmac, transactionId, peers, username, realm, nonce, []);
    assert bytes == Laid(0x008, transactionId, own);
    DecodeLaid(0x008, transactionId, own);
    ApplyPermission(NewMessage(0x008, transactionId, bytes), peers, username, realm, nonce);
    PermissionHasNoCode(transactionId, peers, username, realm, nonce);
    NoCodeNoIntegrity(hmac, 0x008, transactionId, own, []);
  }

  lemma DecodeCodedPermission(hmac: Hmac, transactionId: TransactionId, peers: seq<Address>, username: seq<byte>,
                              realm: seq<byte>, nonce: seq<byte>, key: seq<byte>)
    requires key != []
    requires |CreatePermission(hmac, transactionId, peers, username, realm, nonce, key)| < 20 + 0x1_0000
    ensures
      var own := PermissionAttrs(transactionId, peers, username, realm, nonce);
      var covered := Header(0x008, |AttrsBytes(own)| + 24, transactionId) + AttrsBytes(own);
      var bytes := CreatePermission(hmac, transactionId, peers, username, realm, nonce, key);
      && Decoded(bytes)
         == Some(NewMessage(0x008, transactionId, bytes).(
               xorPeers := AllReachable(peers), username := SomeIf(username), realm := SomeIf(realm),
               nonce := SomeIf(nonce), messageIntegrity := Some(hmac(key, covered))))
      && IntegrityVerified(hmac, bytes, key)
  {
    hide AttrsBytes, Decoded, PermissionAttrs, IntegrityVerified, Header, Apply, ApplyAll, AllReachable, SomeIf;
    var own := PermissionAttrs(transactionId, peers, username, realm, nonce);
    var mac := hmac(key, Header(0x008, |AttrsBytes(own)| + 24, transactionId) + AttrsBytes(own));
    var code := Attr(MESSAGE_INTEGRITY, mac);
    var bytes := CreatePermission(hmac, transactionId, peers, username, realm, nonce, key);
    assert bytes == Laid(0x008, transactionId, own + [code]);
    DecodeLaid(0x008, transactionId, own + [code]);
    var m := NewMessage(0x008, transactionId, bytes);
    ApplyConcat(m, own, [code]);
    ApplyPermission(m, peers, username, realm, nonce);
    ApplyCode(ApplyAll(m, own), mac);
    PermissionHasNoCode(transactionId, peers, username, realm, nonce);
    Unit([code]);
    IntegrityOfLayout(hmac, 0x008, transactionId, own, mac, [], key);
  }

  /**
    A permission request that fits: the server reads all credentials and, in order, the IPv4
    peers. With a key it also reads the code, and the request verifies under that key; a
    request made without one carries no code and does not verify.
  */
  lemma DecodePermission(hmac: Hmac, transactionId: TransactionId, peers: seq<Address>, username: seq<byte>,
                         realm: seq<byte>, nonce: seq<byte>, key: seq<byte>)
    requires |CreatePermission(hmac, transactionId, peers, username, realm, nonce, key)| < 20 + 0x1_0000
    ensures
      var own := PermissionAttrs(transactionId, peers, username, realm, nonce);
      var covered := Header(0x008, |AttrsBytes(own)| + 24, transactionId) + AttrsBytes(own);
      var bytes := CreatePermission(hmac, transactionId, peers, username, realm, nonce, key);
      && Decoded(bytes)
         == Some(NewMessage(0x008, transactionId, bytes).(
               xorPeers := AllReachable(peers), username := SomeIf(username), realm := SomeIf(realm),
               nonce := SomeIf(nonce), messageIntegrity := if key == [] then None else Some(hmac(key, covered))))
      && (IntegrityVerified(hmac, bytes, key) <==> key != [])
  {
    hide AttrsBytes, Decoded, PermissionAttrs, IntegrityVerified, Header, AllReachable, SomeIf, CreatePermission;
    if key == [] {
      DecodeOpenPermission(hmac, transactionId, peers, username, realm, nonce);
    } else {
      DecodeCodedPermission(hmac, transactionId, peers, username, realm, nonce, key);
    }
  }

  lemma ApplyCode(m: TurnMessage, mac: Mac)
    ensures ApplyAll(m, [Attr(MESSAGE_INTEGRITY, mac)]) == m.(messageIntegrity := Some(mac))
  {
    ApplyOne(m, Attr(MESSAGE_INTEGRITY, mac));
  }

  lemma PermissionHasNoCode(transactionId: TransactionId, peers: seq<Address>,
                            username: seq<byte>, realm: seq<byte>, nonce: seq<byte>)
    ensures
      var own := PermissionAttrs(transactionId, peers, username, realm, nonce);
      FirstIntegrity(own) == |own|
  {
    hide PeerAttrs, FirstIntegrity;
    PeersCarryNoCode(peers, transactionId);
    NoIntegrity(PermissionAttrs(transactionId, peers, username, realm, nonce));
  }

  // ---------------------------------------------------------------------------
  // The code
  // ---------------------------------------------------------------------------

  /** A value of 8 or 20 bytes, filled in place. */
  method EncodeXorAddress(buf: seq<byte>, ghost head: seq<byte>, ghost written: seq<Attr>,
                          kind: u16, a: Address, transactionId: TransactionId) returns (r: seq<byte>)
    requires |head| == 20 && buf == head + AttrsBytes(written)
    ensures r == head + AttrsBytes(written + AddressAttrs(kind, a, transactionId))
  {
    hide AttrsBytes;
    Unit(written);
    if a.family != IPV4 && a.family != IPV6 {
      return buf;
    }
    if a.family == IPV4 && |a.bytes| != 4 {
      return buf;
    }
    if a.family == IPV6 && |a.bytes| != 16 {
      return buf;
    }
    var v := AddressBytes(a, transactionId);
    r := Code.Append(buf, head, written, kind, v);
  }

  method AddressBytes(a: Address, transactionId: TransactionId) returns (v: seq<byte>)
    requires IsAddress(a)
    ensures v == AddressValue(a, transactionId)
  {
    hide Xor16, Xor32, XorByte, BE16, BE32;
    var size := if a.family == IPV4 then 8 else 20;
    var value := new byte[size](_ => 0);
    value[1] := a.family;
    var port := BE16(Xor16(a.port, PORT_MASK));
    value[2], value[3] := port[0], port[1];
    if a.family == IPV4 {
      var masked := BE32(Xor32(Read32(a.bytes, 0), MAGIC_COOKIE));
      value[4], value[5], value[6], value[7] := masked[0], masked[1], masked[2], masked[3];
      v := value[..];
      assert v == [0, IPV4] + port + masked;
    } else {
      value[0], value[1], value[2], value[3] := 0, 0, 0, 0;
      assert value[..4] == [0, 0, 0, 0];
      v := MaskInto(value, a.bytes, Mask(transactionId));
    }
  }

  /** The sixteen address bytes, masked one by one behind the first four. */
  method MaskInto(value: array<byte>, address: seq<byte>, mask: seq<byte>) returns (v: seq<byte>)
    requires value.Length == 20 && |address| == 16 && |mask| == 16
    modifies value
    ensures v == old(value[..4]) + XorBytes(address, mask)
  {
    hide XorByte;
    ghost var head := value[..4];
    var i := 0;
    while i < 16
      invariant 0 <= i <= 16 && value[..4] == head
      invariant forall k :: 4 <= k < 4 + i ==> value[k] == XorByte(address[k - 4], mask[k - 4])
    {
      value[4 + i] := XorByte(address[i], mask[i]);
      i := i + 1;
    }
    v := value[..];
    assert v[4..] == XorBytes(address, mask);
    assert v == value[..4] + v[4..];
  }

  /** The length is written last, over the zero the header started with. */
  method FinalizeLength(buf: seq<byte>, ghost kind: u16, ghost transactionId: TransactionId,
                        ghost was: nat, ghost attrs: seq<Attr>) returns (r: seq<byte>)
    requires buf == Header(kind, was, transactionId) + AttrsBytes(attrs)
    ensures r == Laid(kind, transactionId, attrs)
  {
    hide AttrsBytes;
    var length := (|buf| - 20) % 0x1_0000;
    r := Code.WriteU16(buf, 2, length);
    WithLengthHeader(kind, was, transactionId, AttrsBytes(attrs), |buf| - 20);
  }

  method EncodeSendIndication(transactionId: TransactionId, peer: Address, data: seq<byte>) returns (buf: seq<byte>)
    ensures buf == SendIndication(transactionId, peer, data)
  {
    hide Header, AttrsBytes, AddressAttrs, Laid, MessageType;
    var kind := MessageType(METHOD_SEND, CLASS_INDICATION);
    buf := Header(kind, 0, transactionId);
    ghost var head := buf;
    Unit(head);
    Code.NoAttrs();
    Unit(AddressAttrs(XOR_PEER_ADDRESS, peer, transactionId));
    buf := EncodeXorAddress(buf, head, [], XOR_PEER_ADDRESS, peer, transactionId);
    buf := Code.Append(buf, head, AddressAttrs(XOR_PEER_ADDRESS, peer, transactionId), DATA, data);
    buf := FinalizeLength(buf, kind, transactionId, 0,
                          AddressAttrs(XOR_PEER_ADDRESS, peer, transactionId) + [Attr(DATA, data)]);
  }

  method AppendCommonAuthAttrs(buf: seq<byte>, ghost head: seq<byte>, ghost written: seq<Attr>,
                               username: seq<byte>, realm: seq<byte>, nonce: seq<byte>) returns (r: seq<byte>)
    requires |head| == 20 && buf == head + AttrsBytes(written)
    ensures r == head + AttrsBytes(written + AuthAttrs(username, realm, nonce))
  {
    hide AttrsBytes;
    r := buf;
    ghost var w := written;
    Unit(w);
    if username != [] {
      r := Code.Append(r, head, w, USERNAME, username);
    }
    w := w + Present(USERNAME, username);
    Unit(w);
    if realm != [] {
      r := Code.Append(r, head, w, REALM, realm);
    }
    w := w + Present(REALM, realm);
    Unit(w);
    if nonce != [] {
      r := Code.Append(r, head, w, NONCE, nonce);
    }
    hide Present;
    Assoc(written, Present(USERNAME, username), Present(REALM, realm));
    Assoc(written, Present(USERNAME, username) + Present(REALM, realm), Present(NONCE, nonce));
  }

  method EncodeCreatePermission(hmac: Hmac, transactionId: TransactionId, peers: seq<Address>, username: seq<byte>,
                                realm: seq<byte>, nonce: seq<byte>, key: seq<byte>) returns (buf: seq<byte>)
    ensures buf == CreatePermission(hmac, transactionId, peers, username, realm, nonce, key)
  {
    hide Header, AttrsBytes, AddressAttrs, Laid, AuthAttrs, MessageType;
    var kind := MessageType(METHOD_CREATE_PERMISSION, CLASS_REQUEST);
    buf := Header(kind, 0, transactionId);
    ghost var head := buf;
    Unit(head);
    Code.NoAttrs();
    var i := 0;
    while i < |peers|
      invariant 0 <= i <= |peers| && buf == head + AttrsBytes(PeerAttrs(peers[..i], transactionId))
    {
      Snoc(peers[..i], peers[i]);
      assert peers[..i + 1] == peers[..i] + [peers[i]];
      buf := EncodeXorAddress(buf, head, PeerAttrs(peers[..i], transactionId), XOR_PEER_ADDRESS, peers[i], transactionId);
      i := i + 1;
    }
    assert peers[..i] == peers;
    hide PeerAttrs;
    buf := AppendCommonAuthAttrs(buf, head, PeerAttrs(peers, transactionId), username, realm, nonce);
    ghost var own := PermissionAttrs(transactionId, peers, username, realm, nonce);
    ghost var length: nat := 0;
    if key != [] {
      length := |AttrsBytes(own)| + 24;
      buf := SetIntegrityLength(buf, kind, transactionId, own);
      var mac := hmac(key, buf);
      buf := Code.Append(buf, Header(kind, length, transactionId), own, MESSAGE_INTEGRITY, mac);
    }
    buf := FinalizeLength(buf, kind, transactionId, length, Authenticated(hmac, kind, transactionId, own, key));
  }

  method SetIntegrityLength(buf: seq<byte>, ghost kind: u16, ghost transactionId: TransactionId, ghost own: seq<Attr>)
    returns (r: seq<byte>)
    requires buf == Header(kind, 0, transactionId) + AttrsBytes(own)
    ensures r == Header(kind, |AttrsBytes(own)| + 24, transactionId) + AttrsBytes(own)
  {
    hide AttrsBytes;
    var length := (|buf| - 20 + 24) % 0x1_0000;
    r := Code.WriteU16(buf, 2, length);
    WithLengthHeader(kind, 0, transactionId, AttrsBytes(own), |buf| - 20 + 24);
  }

  method DecodeMessage(bytes: seq<byte>) returns (out: Option<TurnMessage>)
    ensures out == Decoded(bytes)
  {
    hide Apply, Read16, Read32, Scan;
    if |bytes| < 20 {
      return None;
    }
    if bytes[0] > 3 {
      return None;
    }
    var attrLen := Read16(bytes, 2);
    if Read32(bytes, 4) != MAGIC_COOKIE {
      return None;
    }
    if 20 + attrLen > |bytes| {
      return None;
    }
    var m := NewMessage(Read16(bytes, 0), bytes[8..20], bytes);
    var region := bytes[20..20 + attrLen];
    var p := 0;
    assert Code.Rest(region, 0) == region;
    ghost var all := Scan(region);
    while p + 4 <= |region|
      invariant Decoded(bytes)
             == if all.complete then Some(ApplyAll(m, Scan(Code.Rest(region, p)).attrs)) else None
      invariant all.complete == Scan(Code.Rest(region, p)).complete
      decreases |region| - p
    {
      var kind, len := Read16(region, p), Read16(region, p + 2);
      Code.ScanHere(region, p);
      if p + 4 + len > |region| {
        return None;
      }
      var a := Attr(kind, region[p + 4..p + 4 + len]);
      var advance := Code.Advance(len);
      ApplyFirst(m, a, Scan(Code.Rest(region, p + advance)).attrs);
      m := Apply(m, a);
      p := p + advance;
    }
    Code.ScanEnd(region, p);
    out := Some(m);
  }

  lemma ApplyFirst(m: TurnMessage, a: Attr, rest: seq<Attr>)
    ensures ApplyAll(m, [a] + rest) == ApplyAll(Apply(m, a), rest)
  {
    hide Apply;
    Cons(a, rest);
  }
}
