/**
  DTLS handshake messages: the 12-byte header, the bytes that enter the transcript, and the
  bodies the client reads and writes. Every reader is paired with the layout it undoes.
*/
module DtlsHandshake {
  import opened Bytes
  import opened SeqFacts

  const CLIENT_HELLO: byte := 1
  const SERVER_HELLO: byte := 2
  const HELLO_VERIFY_REQUEST: byte := 3
  const CERTIFICATE: byte := 11
  const SERVER_KEY_EXCHANGE: byte := 12
  const CERTIFICATE_REQUEST: byte := 13
  const SERVER_HELLO_DONE: byte := 14
  const CERTIFICATE_VERIFY: byte := 15
  const CLIENT_KEY_EXCHANGE: byte := 16
  const FINISHED: byte := 20

  const SUITE: u16 := 0xC02B
  const SECP256R1: u16 := 0x0017
  const EXT_USE_SRTP: u16 := 0x000E
  const EXT_EXTENDED_MASTER_SECRET: u16 := 0x0017
  const HEADER_BYTES := 12
  const LIMIT24 := 0x100_0000

  datatype Message = Message(kind: byte, body: seq<byte>)

  // ---------------------------------------------------------------------------
  // Headers
  // ---------------------------------------------------------------------------

  datatype Header = Header(kind: byte, length: nat, messageSeq: u16, fragmentOffset: nat, fragmentLength: nat)

  function HeaderBytes(h: Header): (s: seq<byte>)
    ensures |s| == HEADER_BYTES
  {
    [h.kind] + BE24(h.length) + BE16(h.messageSeq) + BE24(h.fragmentOffset) + BE24(h.fragmentLength)
  }

  function ReadHeader(s: seq<byte>): Header
    requires |s| >= HEADER_BYTES
  {
    Header(s[0], Read24(s, 1), Read16(s, 4), Read24(s, 6), Read24(s, 9))
  }

  /** One message in one piece. */
  function Wrapped(m: Message, messageSeq: u16): seq<byte> {
    HeaderBytes(Header(m.kind, |m.body|, messageSeq, 0, |m.body|)) + m.body
  }

  lemma HeaderRoundTrip(h: Header, rest: seq<byte>)
    requires h.length < LIMIT24 && h.fragmentOffset < LIMIT24 && h.fragmentLength < LIMIT24
    ensures ReadHeader(HeaderBytes(h) + rest) == h
  {
    hide BE16, BE24, Read16, Read24;
    var k, l, q := [h.kind], BE24(h.length), BE16(h.messageSeq);
    var o, f := BE24(h.fragmentOffset), BE24(h.fragmentLength);
    var s := HeaderBytes(h) + rest;
    HasAtIn([], k + l + q + o + f, rest);
    Unit(k + l + q + o + f);
    HasAtParts(s, 0, k + l + q + o, f);
    HasAtParts(s, 0, k + l + q, o);
    HasAtParts(s, 0, k + l, q);
    HasAtParts(s, 0, k, l);
    assert s[0 + 0] == k[0];
    Read24At(s, 1, h.length);
    Read16At(s, 4, h.messageSeq);
    Read24At(s, 6, h.fragmentOffset);
    Read24At(s, 9, h.fragmentLength);
  }

  // ---------------------------------------------------------------------------
  // The transcript
  // ---------------------------------------------------------------------------

  /** A message as TLS would frame it: without the fragment fields (section 4.2.6 of RFC 6347). */
  function TlsBytes(m: Message): seq<byte> {
    [m.kind] + BE24(|m.body|) + m.body
  }

  function Transcript(log: seq<Message>): seq<byte> {
    if log == [] then [] else TlsBytes(log[0]) + Transcript(log[1..])
  }

  function ReadTranscript(s: seq<byte>): Option<seq<Message>>
    decreases |s|
  {
    if s == [] then Some([])
    else if |s| < 4 || 4 + Read24(s, 1) > |s| then None
    else
      var end := 4 + Read24(s, 1);
      var rest := ReadTranscript(s[end..]);
      if rest.None? then None else Some([Message(s[0], s[4..end])] + rest.value)
  }

  ghost predicate Short(log: seq<Message>) {
    forall i :: 0 <= i < |log| ==> |log[i].body| < LIMIT24
  }

  lemma TlsFields(m: Message, rest: seq<byte>)
    requires |m.body| < LIMIT24
    ensures
      var s := TlsBytes(m) + rest;
      var end := 4 + |m.body|;
      && |s| >= end && s[0] == m.kind && Read24(s, 1) == |m.body| && s[4..end] == m.body && s[end..] == rest
  {
    hide BE24, Read24;
    var l := BE24(|m.body|);
    Slice([m.kind] + l, m.body, rest);
    DropPrefix(TlsBytes(m), rest);
    Assoc([m.kind] + l, m.body, rest);
    HasAtIn([m.kind], l, m.body + rest);
    Read24At(TlsBytes(m) + rest, 1, |m.body|);
  }

  /** The transcript determines the messages: it is parsed in one way only. */
  lemma {:induction false} TranscriptParses(log: seq<Message>)
    requires Short(log)
    ensures ReadTranscript(Transcript(log)) == Some(log)
  {
    hide TlsBytes, Read24;
    if log != [] {
      TlsFields(log[0], Transcript(log[1..]));
      TranscriptParses(log[1..]);
      FirstRest(log);
    }
  }

  lemma {:induction false} TranscriptAppend(log: seq<Message>, m: Message)
    ensures Transcript(log + [m]) == Transcript(log) + TlsBytes(m)
  {
    hide TlsBytes;
    if log == [] {
      Unit([m]);
      assert [m][1..] == [];
      Unit(TlsBytes(m));
    } else {
      assert (log + [m])[1..] == log[1..] + [m];
      TranscriptAppend(log[1..], m);
      Assoc(TlsBytes(log[0]), Transcript(log[1..]), TlsBytes(m));
    }
  }

  // ---------------------------------------------------------------------------
  // HelloVerifyRequest
  // ---------------------------------------------------------------------------

  function ReadCookie(b: seq<byte>): Option<seq<byte>> {
    if |b| < 3 || 3 + b[2] > |b| then None else Some(b[3..3 + b[2]])
  }

  function HelloVerifyBytes(version: u16, cookie: seq<byte>): seq<byte>
    requires |cookie| < 0x100
  {
    BE16(version) + [|cookie|] + cookie
  }

  lemma CookieRoundTrip(version: u16, cookie: seq<byte>, tail: seq<byte>)
    requires |cookie| < 0x100
    ensures ReadCookie(HelloVerifyBytes(version, cookie) + tail) == Some(cookie)
  {
    hide BE16;
    Slice(BE16(version) + [|cookie|], cookie, tail);
  }

  // ---------------------------------------------------------------------------
  // ServerHello
  // ---------------------------------------------------------------------------

  datatype ServerHello = ServerHello(
    version: u16, random: seq<byte>, sessionId: seq<byte>, cipherSuite: u16, compression: byte,
    extendedMasterSecret: bool, srtpProfile: Option<u16>)

  datatype Extension = Extension(kind: u16, value: seq<byte>)

  function ApplyExtension(h: ServerHello, e: Extension): ServerHello {
    if e.kind == EXT_EXTENDED_MASTER_SECRET then h.(extendedMasterSecret := true)
    else if e.kind == EXT_USE_SRTP && |e.value| >= 2 && Read16(e.value, 0) >= 2 && |e.value| >= 2 + Read16(e.value, 0)
    then h.(srtpProfile := Some(Read16(e.value, 2)))
    else h
  }

  function ApplyExtensions(h: ServerHello, es: seq<Extension>): ServerHello
    decreases |es|
  {
    if es == [] then h else ApplyExtensions(ApplyExtension(h, es[0]), es[1..])
  }

  /** Extensions up to the end of their block; fewer than four bytes at the end are ignored. */
  function ReadExtensions(h: ServerHello, s: seq<byte>): Option<ServerHello>
    decreases |s|
  {
    if |s| < 4 then Some(h)
    else if 4 + Read16(s, 2) > |s| then None
    else
      var end := 4 + Read16(s, 2);
      ReadExtensions(ApplyExtension(h, Extension(Read16(s, 0), s[4..end])), s[end..])
  }

  function ReadServerHello(b: seq<byte>): Option<ServerHello> {
    if |b| < 35 || 35 + b[34] + 3 > |b| then None
    else
      var pos := 35 + b[34] as nat;
      var h := ServerHello(Read16(b, 0), b[2..34], b[35..pos], Read16(b, pos), b[pos + 2], false, None);
      if pos + 3 == |b| then Some(h)
      else if pos + 5 > |b| || pos + 5 + Read16(b, pos + 3) > |b| then None
      else ReadExtensions(h, b[pos + 5..pos + 5 + Read16(b, pos + 3)])
  }

  function ExtensionBytes(e: Extension): seq<byte> {
    BE16(e.kind) + BE16(|e.value| % 0x1_0000) + e.value
  }

  function ExtensionsBytes(es: seq<Extension>): seq<byte> {
    if es == [] then [] else ExtensionBytes(es[0]) + ExtensionsBytes(es[1..])
  }

  function ServerHelloHead(h: ServerHello): seq<byte>
    requires |h.random| == 32 && |h.sessionId| < 0x100
  {
    BE16(h.version) + h.random + [|h.sessionId|] + h.sessionId + BE16(h.cipherSuite) + [h.compression]
  }

  /** A ServerHello as a server lays it out, with or without an extension block. */
  function ServerHelloBytes(h: ServerHello, es: Option<seq<Extension>>): seq<byte>
    requires |h.random| == 32 && |h.sessionId| < 0x100
  {
    ServerHelloHead(h)
    + (if es.None? then [] else BE16(|ExtensionsBytes(es.value)| % 0x1_0000) + ExtensionsBytes(es.value))
  }

  lemma ExtensionFields(e: Extension, rest: seq<byte>)
    requires |e.value| < 0x1_0000
    ensures
      var s := ExtensionBytes(e) + rest;
      var end := 4 + |e.value|;
      && |s| >= end && Read16(s, 0) == e.kind && Read16(s, 2) == |e.value| && s[4..end] == e.value && s[end..] == rest
  {
    hide BE16, Read16;
    var k, l := BE16(e.kind), BE16(|e.value|);
    Slice(k + l, e.value, rest);
    DropPrefix(ExtensionBytes(e), rest);
    Assoc(k + l, e.value, rest);
    Assoc(k, l, e.value + rest);
    TwoFields(k, l, e.value + rest, e.kind, |e.value|);
  }

  lemma TwoFields(k: seq<byte>, l: seq<byte>, rest: seq<byte>, x: u16, y: u16)
    requires k == BE16(x) && l == BE16(y)
    ensures Read16(k + (l + rest), 0) == x && Read16(k + (l + rest), 2) == y
  {
    hide BE16, Read16;
    var s := k + (l + rest);
    Assoc(k, l, rest);
    HasAtIn(k, l, rest);
    HasAtIn([], k, l + rest);
    Unit(k);
    Read16At(s, 0, x);
    Read16At(s, 2, y);
  }

  lemma {:induction false} ReadExtensionsOf(h: ServerHello, es: seq<Extension>)
    requires forall i :: 0 <= i < |es| ==> |es[i].value| < 0x1_0000
    ensures ReadExtensions(h, ExtensionsBytes(es)) == Some(ApplyExtensions(h, es))
    decreases |es|
  {
    hide ExtensionBytes, Read16, ApplyExtension;
    if es != [] {
      ExtensionFields(es[0], ExtensionsBytes(es[1..]));
      ReadExtensionsOf(ApplyExtension(h, es[0]), es[1..]);
    }
  }

  lemma {:induction false} ExtensionsLength(es: seq<Extension>)
    requires |ExtensionsBytes(es)| < 0x1_0000
    ensures forall i :: 0 <= i < |es| ==> |es[i].value| < 0x1_0000
  {
    hide BE16;
    if es != [] {
      ExtensionsLength(es[1..]);
    }
  }

  lemma ServerHelloFields(h: ServerHello, rest: seq<byte>)
    requires |h.random| == 32 && |h.sessionId| < 0x100
    ensures
      var b := ServerHelloHead(h) + rest;
      var pos := 35 + |h.sessionId|;
      && |b| == pos + 3 + |rest| && Read16(b, 0) == h.version && b[2..34] == h.random
      && b[34] == |h.sessionId| && b[35..pos] == h.sessionId
      && Read16(b, pos) == h.cipherSuite && b[pos + 2] == h.compression && b[pos + 3..] == rest
  {
    hide BE16, Read16;
    var v, n, c := BE16(h.version), [|h.sessionId|], BE16(h.cipherSuite);
    HelloStart(v, h.random, n, h.sessionId, c + [h.compression] + rest);
    HelloEnd(v + h.random + n + h.sessionId, c, h.compression, rest);
    var front := v + h.random + n + h.sessionId;
    Assoc(front, c, [h.compression]);
    Assoc(front, c + [h.compression], rest);
    var b := ServerHelloHead(h) + rest;
    HasAtIn([], v, b[2..]);
    assert [] + v + b[2..] == b;
    Read16At(b, 0, h.version);
    HasAtIn(front, c, [h.compression] + rest);
    Assoc(c, [h.compression], rest);
    Assoc(front, c, [h.compression] + rest);
    Read16At(b, |front|, h.cipherSuite);
  }

  lemma HelloStart(v: seq<byte>, random: seq<byte>, n: seq<byte>, id: seq<byte>, tail: seq<byte>)
    requires |v| == 2 && |random| == 32 && |n| == 1
    ensures
      var b := v + random + n + id + tail;
      b[..2] == v && b[2..34] == random && b[34] == n[0] && b[35..35 + |id|] == id && b[35 + |id|..] == tail
  {
  }

  lemma HelloEnd(front: seq<byte>, c: seq<byte>, compression: byte, rest: seq<byte>)
    requires |c| == 2
    ensures
      var b := front + (c + [compression] + rest);
      b[|front| + 2] == compression && b[|front| + 3..] == rest
  {
  }

  lemma HasAtSlice(s: seq<byte>, at: nat, field: seq<byte>)
    requires HasAt(s, at, field)
    ensures s[at..at + |field|] == field
  {
    forall k | 0 <= k < |field|
      ensures s[at..at + |field|][k] == field[k]
    {
      assert s[at + k] == field[k];
    }
  }

  /** The fields come back; without extensions neither optional feature is on. */
  lemma PlainServerHello(h: ServerHello)
    requires |h.random| == 32 && |h.sessionId| < 0x100
    ensures ReadServerHello(ServerHelloBytes(h, None)) == Some(h.(extendedMasterSecret := false, srtpProfile := None))
  {
    hide ServerHelloHead, Read16;
    ServerHelloFields(h, []);
  }

  /** With extensions, they are applied in order to the plain message. */
  lemma ServerHelloRoundTrip(h: ServerHello, es: seq<Extension>)
    requires |h.random| == 32 && |h.sessionId| < 0x100 && |ExtensionsBytes(es)| < 0x1_0000
    ensures ReadServerHello(ServerHelloBytes(h, Some(es)))
         == Some(ApplyExtensions(h.(extendedMasterSecret := false, srtpProfile := None), es))
  {
    hide Read16, BE16, ExtensionsBytes, ReadExtensions, ApplyExtensions, ServerHelloHead;
    var block := ExtensionsBytes(es);
    ServerHelloFields(h, BE16(|block|) + block);
    BlockFields(ServerHelloBytes(h, Some(es)), 35 + |h.sessionId| + 3, block);
    ExtensionsLength(es);
    ReadExtensionsOf(h.(extendedMasterSecret := false, srtpProfile := None), es);
  }

  lemma BlockFields(b: seq<byte>, at: nat, block: seq<byte>)
    requires |block| < 0x1_0000 && at <= |b| && b[at..] == BE16(|block|) + block
    ensures |b| == at + 2 + |block| && Read16(b, at) == |block| && b[at + 2..at + 2 + |block|] == block
  {
    var rest := BE16(|block|) + block;
    assert b[at] == rest[0] && b[at + 1] == rest[1];
    DropPrefix(BE16(|block|), block);
    DropDrop(b, at, 2);
    assert b[at + 2..at + 2 + |block|] == b[at + 2..];
  }

  /** The extended master secret is on exactly if some extension of that kind is present. */
  lemma {:induction false} ExtendedIff(h: ServerHello, es: seq<Extension>)
    ensures ApplyExtensions(h, es).extendedMasterSecret
       <==> h.extendedMasterSecret || exists i :: 0 <= i < |es| && es[i].kind == EXT_EXTENDED_MASTER_SECRET
    decreases |es|
  {
    hide Read16;
    if es != [] {
      ExtendedIff(ApplyExtension(h, es[0]), es[1..]);
      assert forall i :: 1 <= i < |es| ==> es[i] == es[1..][i - 1];
    }
  }

  /** The first profile of the last use_srtp extension that is well-formed (section 4.1.1 of RFC 5764). */
  function LastProfile(es: seq<Extension>): Option<u16> {
    if es == [] then None
    else
      var v := es[|es| - 1].value;
      if es[|es| - 1].kind == 0x000E && |v| >= 4 && 2 <= Read16(v, 0) <= |v| - 2 then Some(Read16(v, 2))
      else LastProfile(es[..|es| - 1])
  }

  lemma {:induction false} ExtensionsSnoc(h: ServerHello, es: seq<Extension>, e: Extension)
    ensures ApplyExtensions(h, es + [e]) == ApplyExtension(ApplyExtensions(h, es), e)
    decreases |es|
  {
    hide ApplyExtension;
    if es == [] {
      assert [e][1..] == [];
      Unit([e]);
    } else {
      assert (es + [e])[1..] == es[1..] + [e];
      ExtensionsSnoc(ApplyExtension(h, es[0]), es[1..], e);
    }
  }

  /** The SRTP profile is that of the last such extension, and unchanged without one. */
  lemma {:induction false} ProfileIsLast(h: ServerHello, es: seq<Extension>)
    ensures ApplyExtensions(h, es).srtpProfile
         == if LastProfile(es).Some? then Some(LastProfile(es).value) else h.srtpProfile
  {
    hide Read16;
    if es != [] {
      FrontLast(es);
      ExtensionsSnoc(h, es[..|es| - 1], es[|es| - 1]);
      ProfileIsLast(h, es[..|es| - 1]);
    }
  }

  // ---------------------------------------------------------------------------
  // Certificate
  // ---------------------------------------------------------------------------

  function ReadChain(s: seq<byte>): Option<seq<seq<byte>>>
    decreases |s|
  {
    if |s| < 3 then Some([])
    else if 3 + Read24(s, 0) > |s| then None
    else
      var end := 3 + Read24(s, 0);
      var rest := ReadChain(s[end..]);
      if rest.None? then None else Some([s[3..end]] + rest.value)
  }

  function ReadCertificates(b: seq<byte>): Option<seq<seq<byte>>> {
    if |b| < 3 || 3 + Read24(b, 0) > |b| then None else ReadChain(b[3..3 + Read24(b, 0)])
  }

  function ChainBytes(chain: seq<seq<byte>>): seq<byte> {
    if chain == [] then [] else BE24(|chain[0]|) + chain[0] + ChainBytes(chain[1..])
  }

  function CertificateBytes(chain: seq<seq<byte>>): seq<byte> {
    BE24(|ChainBytes(chain)|) + ChainBytes(chain)
  }

  lemma {:induction false} ReadChainOf(chain: seq<seq<byte>>)
    requires |ChainBytes(chain)| < LIMIT24
    ensures ReadChain(ChainBytes(chain)) == Some(chain)
  {
    hide BE24, Read24;
    if chain != [] {
      var l, rest := BE24(|chain[0]|), ChainBytes(chain[1..]);
      ReadChainOf(chain[1..]);
      Slice(l, chain[0], rest);
      DropPrefix(l + chain[0], rest);
      Assoc(l, chain[0], rest);
      HasAtIn([], l, chain[0] + rest);
      Unit(l);
      Read24At(ChainBytes(chain), 0, |chain[0]|);
      FirstRest(chain);
    }
  }

  /** Every certificate chain under 2^24 bytes is read back, whatever follows it. */
  lemma CertificatesRoundTrip(chain: seq<seq<byte>>, tail: seq<byte>)
    requires |ChainBytes(chain)| < LIMIT24
    ensures ReadCertificates(CertificateBytes(chain) + tail) == Some(chain)
  {
    hide BE24, Read24, ChainBytes, ReadChain;
    var l, s := BE24(|ChainBytes(chain)|), ChainBytes(chain);
    ReadChainOf(chain);
    Slice(l, s, tail);
    Assoc(l, s, tail);
    HasAtIn([], l, s + tail);
    Unit(l);
    Read24At(CertificateBytes(chain) + tail, 0, |s|);
  }

  // ---------------------------------------------------------------------------
  // ServerKeyExchange
  // ---------------------------------------------------------------------------

  datatype KeyExchange = KeyExchange(
    namedCurve: u16, publicPoint: seq<byte>, hashAlgorithm: byte, signatureAlgorithm: byte,
    signature: seq<byte>, signedParams: seq<byte>)

  function ReadKeyExchange(b: seq<byte>): Option<KeyExchange> {
    if |b| < 4 || b[0] != 3 || 4 + b[3] + 4 > |b| then None
    else
      var pos := 4 + b[3] as nat;
      var end := pos + 4 + Read16(b, pos + 2);
      if end > |b| then None
      else Some(KeyExchange(Read16(b, 1), b[4..pos], b[pos], b[pos + 1], b[pos + 4..end], b[..pos]))
  }

  function ParamsBytes(curve: u16, point: seq<byte>): seq<byte>
    requires |point| < 0x100
  {
    [3] + BE16(curve) + [|point|] + point
  }

  function KeyExchangeBytes(curve: u16, point: seq<byte>, hash: byte, algorithm: byte, signature: seq<byte>): seq<byte>
    requires |point| < 0x100
  {
    ParamsBytes(curve, point) + [hash, algorithm] + BE16(|signature| % 0x1_0000) + signature
  }

  lemma ParamsFields(curve: u16, point: seq<byte>, rest: seq<byte>)
    requires |point| < 0x100
    ensures
      var b := ParamsBytes(curve, point) + rest;
      var pos := 4 + |point|;
      && |b| >= pos && b[0] == 3 && Read16(b, 1) == curve && b[3] == |point|
      && b[4..pos] == point && b[..pos] == ParamsBytes(curve, point)
  {
    hide BE16, Read16;
    var c, n := BE16(curve), [|point|];
    var b := ParamsBytes(curve, point) + rest;
    DropPrefix([3] + c + n + point, rest);
    Slice([3] + c + n, point, rest);
    Assoc([3] + c + n, point, rest);
    HasAtIn([3] + c, n, point + rest);
    HasAtIn([3], c, n + (point + rest));
    Assoc([3] + c, n, point + rest);
    Assoc([3], c, n + (point + rest));
    Read16At(b, 1, curve);
    assert b[3 + 0] == n[0];
  }

  lemma SignatureFields(front: seq<byte>, hash: byte, algorithm: byte, signature: seq<byte>, tail: seq<byte>)
    requires |signature| < 0x1_0000
    ensures
      var b := front + ([hash, algorithm] + BE16(|signature|) + signature + tail);
      var pos := |front|;
      && |b| >= pos + 4 + |signature| && b[pos] == hash && b[pos + 1] == algorithm
      && Read16(b, pos + 2) == |signature| && b[pos + 4..pos + 4 + |signature|] == signature
  {
    hide BE16, Read16;
    var a, l := [hash, algorithm], BE16(|signature|);
    var b := front + (a + l + signature + tail);
    Assoc(a + l, signature, tail);
    Assoc(a, l, signature + tail);
    Assoc(front, a, l + (signature + tail));
    Assoc(front + a, l, signature + tail);
    Assoc(front + a + l, signature, tail);
    Slice(front + a + l, signature, tail);
    HasAtIn(front + a, l, signature + tail);
    Read16At(b, |front| + 2, |signature|);
  }

  /** All fields come back, and the signed parameters are exactly the bytes before the algorithms. */
  lemma KeyExchangeRoundTrip(curve: u16, point: seq<byte>, hash: byte, algorithm: byte, signature: seq<byte>, tail: seq<byte>)
    requires |point| < 0x100 && |signature| < 0x1_0000
    ensures ReadKeyExchange(KeyExchangeBytes(curve, point, hash, algorithm, signature) + tail)
         == Some(KeyExchange(curve, point, hash, algorithm, signature, ParamsBytes(curve, point)))
  {
    hide BE16, Read16;
    var params, a, l := ParamsBytes(curve, point), [hash, algorithm], BE16(|signature|);
    Assoc(params, a, l);
    Assoc(params, a + l, signature);
    Assoc(params, a + l + signature, tail);
    ParamsFields(curve, point, a + l + signature + tail);
    SignatureFields(params, hash, algorithm, signature, tail);
  }

  /** What is read stands there in this layout, for a named curve, whatever follows it; nothing else is read. */
  lemma KeyExchangeReadIff(b: seq<byte>, k: KeyExchange)
    ensures ReadKeyExchange(b) == Some(k)
       <==>
       && |k.publicPoint| < 0x100 && |k.signature| < 0x1_0000
       && k.signedParams == ParamsBytes(k.namedCurve, k.publicPoint)
       && KeyExchangeBytes(k.namedCurve, k.publicPoint, k.hashAlgorithm, k.signatureAlgorithm, k.signature) <= b
  {
    hide ReadKeyExchange, KeyExchangeBytes;
    if |k.publicPoint| < 0x100 && |k.signature| < 0x1_0000 {
      var bytes := KeyExchangeBytes(k.namedCurve, k.publicPoint, k.hashAlgorithm, k.signatureAlgorithm, k.signature);
      if bytes <= b {
        SplitAt(b, |bytes|);
        assert b == bytes + b[|bytes|..];
        KeyExchangeRoundTrip(k.namedCurve, k.publicPoint, k.hashAlgorithm, k.signatureAlgorithm, k.signature, b[|bytes|..]);
      }
    }
    if ReadKeyExchange(b) == Some(k) {
      KeyExchangeWasThere(b);
    }
  }

  lemma KeyExchangeWasThere(b: seq<byte>)
    requires ReadKeyExchange(b).Some?
    ensures
      var k := ReadKeyExchange(b).value;
      && |k.publicPoint| < 0x100 && |k.signature| < 0x1_0000
      && k.signedParams == ParamsBytes(k.namedCurve, k.publicPoint)
      && KeyExchangeBytes(k.namedCurve, k.publicPoint, k.hashAlgorithm, k.signatureAlgorithm, k.signature) <= b
  {
    hide BE16, Read16;
    var k := ReadKeyExchange(b).value;
    var pos := 4 + b[3] as nat;
    var end := pos + 4 + |k.signature|;
    BE16Read16(b, 1);
    BE16Read16(b, pos + 2);
    assert b[..pos] == [b[0]] + b[1..3] + [b[3]] + b[4..pos];
    assert b[..end] == b[..pos] + [b[pos], b[pos + 1]] + b[pos + 2..pos + 4] + b[pos + 4..end];
  }

  // ---------------------------------------------------------------------------
  // What the client writes
  // ---------------------------------------------------------------------------

  /** Groups, point formats, signature algorithms, the SRTP profile and the extended master secret. */
  function ClientExtensions(): seq<byte> {
    BE16(0x000A) + BE16(4) + BE16(2) + BE16(SECP256R1)
    + BE16(0x000B) + BE16(2) + [1, 0]
    + BE16(0x000D) + BE16(4) + BE16(2) + BE16(0x0403)
    + BE16(EXT_USE_SRTP) + BE16(5) + BE16(2) + BE16(0x0001) + [0]
    + BE16(EXT_EXTENDED_MASTER_SECRET) + BE16(0)
  }

  /** Version, random, no session id and the cookie. */
  function ClientHelloFront(random: seq<byte>, cookie: seq<byte>): seq<byte> {
    BE16(0xFEFD) + random + [0] + [|cookie| % 0x100] + cookie
  }

  /** One cipher suite, no compression, the extensions. */
  function ClientHelloBody(random: seq<byte>, cookie: seq<byte>): seq<byte> {
    ClientHelloFront(random, cookie)
    + (BE16(2) + BE16(SUITE) + [1, 0] + BE16(|ClientExtensions()| % 0x1_0000) + ClientExtensions())
  }

  function KeyExchangeBody(point: seq<byte>): seq<byte> {
    [|point| % 0x100] + point
  }

  function CertificateVerifyBody(signature: seq<byte>): seq<byte> {
    [4, 3] + BE16(|signature| % 0x1_0000) + signature
  }

  /** The server finds the random and the cookie where the format puts them. */
  lemma ClientHelloFields(random: seq<byte>, cookie: seq<byte>, rest: seq<byte>)
    requires |random| == 32 && |cookie| < 0x100
    ensures
      var b := ClientHelloFront(random, cookie) + rest;
      && |b| >= 36 + |cookie| && Read16(b, 0) == 0xFEFD && b[2..34] == random
      && b[34] == 0 && b[35] == |cookie| && b[36..36 + |cookie|] == cookie
  {
    hide BE16, Read16;
    var v, n := BE16(0xFEFD), [|cookie|];
    var b := ClientHelloFront(random, cookie) + rest;
    var more := cookie + rest;
    Slice(v + random + [0] + n, cookie, rest);
    Assoc(v + random + [0] + n, cookie, rest);
    Assoc(v + random + [0], n, more);
    Assoc(v + random, [0], n + more);
    Slice(v, random, [0] + (n + more));
    Assoc(v, random, [0] + (n + more));
    HasAtIn([], v, random + ([0] + (n + more)));
    Unit(v);
    Read16At(b, 0, 0xFEFD);
  }
}
