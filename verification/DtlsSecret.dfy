/**
  Which messages the client's flight binds, and how the extended master secret departs from
  RFC 7627. The departure is reached by a complete handshake up to the client's Finished.
*/
module DtlsSecret {
  import opened Bytes
  import opened SeqFacts
  import opened DtlsRecord
  import opened DtlsHandshake
  import opened DtlsSessionSpec
  import opened DtlsSessionLaws

  const EXTENDED := "extended master secret"

  // ---------------------------------------------------------------------------
  // The messages of the flight, and the secret as the standard has it
  // ---------------------------------------------------------------------------

  /** What precedes the flight, its Certificate and its ClientKeyExchange. */
  function ThroughKeyExchange(env: Env, heard: seq<Message>, point: seq<byte>): seq<Message> {
    heard + [Message(CERTIFICATE, CertificateBytes([env.certificate]))]
    + [Message(CLIENT_KEY_EXCHANGE, KeyExchangeBody(point))]
  }

  /** CertificateVerify signs everything before it (section 7.4.8 of RFC 5246). */
  function Verify(env: Env, heard: seq<Message>, point: seq<byte>): Message {
    Message(CERTIFICATE_VERIFY,
            CertificateVerifyBody(env.sign(env.sha256(Transcript(ThroughKeyExchange(env, heard, point))))))
  }

  function ThroughVerify(env: Env, heard: seq<Message>, point: seq<byte>): seq<Message> {
    ThroughKeyExchange(env, heard, point) + [Verify(env, heard, point)]
  }

  /** The session hash of section 3 of RFC 7627: the messages up to and including ClientKeyExchange. */
  function SessionHash(env: Env, heard: seq<Message>, point: seq<byte>): Digest {
    env.sha256(Transcript(ThroughKeyExchange(env, heard, point)))
  }

  /** Section 4 of RFC 7627 if the extension was negotiated, section 8.1 of RFC 5246 otherwise. */
  function StandardSecret(env: Env, shared: seq<byte>, extended: bool, heard: seq<Message>, point: seq<byte>,
                          randoms: seq<byte>): seq<byte>
  {
    if extended then env.prf(shared, EXTENDED, SessionHash(env, heard, point), 48)
    else env.prf(shared, "master secret", randoms, 48)
  }

  /** The pseudo-random function gives one value for the standard's session hash and the code's. */
  predicate Collides(env: Env, shared: seq<byte>, heard: seq<Message>, point: seq<byte>) {
    env.prf(shared, EXTENDED, SessionHash(env, heard, point), 48)
    == env.prf(shared, EXTENDED, env.sha256(Transcript(ThroughVerify(env, heard, point))), 48)
  }

  /** The two hashed texts are never the same: the code's is longer by CertificateVerify. */
  lemma TranscriptsDiffer(env: Env, heard: seq<Message>, point: seq<byte>)
    ensures |Transcript(ThroughVerify(env, heard, point))|
         == |Transcript(ThroughKeyExchange(env, heard, point))| + |TlsBytes(Verify(env, heard, point))|
    ensures Transcript(ThroughVerify(env, heard, point)) != Transcript(ThroughKeyExchange(env, heard, point))
  {
    hide ThroughKeyExchange, Verify, Transcript;
    TranscriptAppend(ThroughKeyExchange(env, heard, point), Verify(env, heard, point));
  }

  predicate DerivesSecret(env: Env, s: Session) {
    |s.serverPoint| == 65 && |s.ecdhPrivate| == 32 && env.ecdh(s.ecdhPrivate, s.serverPoint).Some?
  }

  lemma FlightSecret(env: Env, s: Session)
    requires DerivesSecret(env, s)
    ensures
      var shared := env.ecdh(s.ecdhPrivate, s.serverPoint).value;
      ClientFlight(env, s).s.masterSecret
      == if s.extendedMasterSecret
         then env.prf(shared, EXTENDED, env.sha256(Transcript(ThroughVerify(env, s.log, s.ecdhPublic))), 48)
         else env.prf(shared, "master secret", s.clientRandom + s.serverRandom, 48)
  {
    hide CertificateBytes, KeyExchangeBody, CertificateVerifyBody, Transcript, Wrapped;
  }

  /**
    From every session the flight derives the standard's master secret if and only if the
    extension was not negotiated, or the pseudo-random function does not tell the two
    transcripts apart, which are never equal.
  */
  lemma SecretIsStandardIff(env: Env, s: Session)
    requires DerivesSecret(env, s)
    ensures
      var shared := env.ecdh(s.ecdhPrivate, s.serverPoint).value;
      var standard := StandardSecret(env, shared, s.extendedMasterSecret, s.log, s.ecdhPublic,
                                     s.clientRandom + s.serverRandom);
      ClientFlight(env, s).s.masterSecret == standard
      <==> !s.extendedMasterSecret || Collides(env, shared, s.log, s.ecdhPublic)
    ensures Transcript(ThroughVerify(env, s.log, s.ecdhPublic))
         != Transcript(ThroughKeyExchange(env, s.log, s.ecdhPublic))
  {
    hide ClientFlight, ThroughKeyExchange, Verify, Transcript;
    FlightSecret(env, s);
    TranscriptsDiffer(env, s.log, s.ecdhPublic);
  }

  /** The Finished that closes the flight covers all messages before it (section 7.4.9 of RFC 5246). */
  function Finished(env: Env, secret: seq<byte>, heard: seq<Message>, point: seq<byte>): Message {
    Message(FINISHED, env.prf(secret, "client finished", env.sha256(Transcript(ThroughVerify(env, heard, point))), 12))
  }

  /** The key block in the order of section 6.3 of RFC 5246: two keys of 16 bytes, two vectors of four. */
  ghost predicate Partitions(env: Env, secret: seq<byte>, seed: seq<byte>, k: Keys) {
    && |k.clientKey| == 16 && |k.serverKey| == 16 && |k.clientIv| == 4 && |k.serverIv| == 4
    && k.clientKey + k.serverKey + k.clientIv + k.serverIv == env.prf(secret, "key expansion", seed, 40)
  }

  /** ChangeCipherSpec in the old epoch; then the message, sealed, as record zero of the next one. */
  ghost predicate SealedBehindCcs(env: Env, s: Session, t: Session, m: Message, out: seq<Sent>) {
    && t.keys.Some? && |out| == 2
    && out[0] == Sent(CHANGE_CIPHER_SPEC, s.epoch, s.recordSeq, [1])
    && out[1] == Sent(HANDSHAKE, s.epoch + 1, 0, out[1].payload)
    && env.seal(t.keys.value.clientKey, t.keys.value.clientIv, Aad((s.epoch + 1) % 0x1_0000, 0, HANDSHAKE),
                Wrapped(m, s.messageSeq % 0x1_0000)) == Some(out[1].payload)
  }

  lemma FinishedBinds(env: Env, s: Session)
    requires s.keys.Some? && FinishedFlight(env, s).s.phase == SentFinished
    ensures
      var f := FinishedFlight(env, s);
      var m := Message(FINISHED, env.prf(s.masterSecret, "client finished", env.sha256(Transcript(s.log)), 12));
      && f.s.log == s.log + [m] && f.s.masterSecret == s.masterSecret
      && f.s.messageSeq == s.messageSeq + 1 && f.s.epoch == s.epoch + 1 && f.s.recordSeq == 1
      && f.s.keys == s.keys && |f.out| == 2 && SealedBehindCcs(env, s, f.s, m, f.out)
  {
    hide Transcript, Wrapped;
  }

  lemma DeriveBinds(env: Env, s: Session)
    requires DeriveKeys(env, s).phase != Failed
    ensures DerivesSecret(env, s)
    ensures
      var t := DeriveKeys(env, s);
      && t.keys.Some? && t.log == s.log
      && t.messageSeq == s.messageSeq && t.epoch == s.epoch && t.recordSeq == s.recordSeq
      && Partitions(env, t.masterSecret, s.serverRandom + s.clientRandom, t.keys.value)
  {
    hide MasterSecret;
    var block := env.prf(DeriveKeys(env, s).masterSecret, "key expansion", s.serverRandom + s.clientRandom, 40);
    assert block[..16] + block[16..32] + block[32..36] + block[36..] == block;
  }

  /** The three plaintext messages of the flight. */
  ghost predicate PlainThree(s: Session, a: Message, b: Message, c: Message, out: seq<Sent>) {
    out == [Sent(HANDSHAKE, s.epoch, s.recordSeq, Wrapped(a, s.messageSeq % 0x1_0000)),
            Sent(HANDSHAKE, s.epoch, s.recordSeq + 1, Wrapped(b, (s.messageSeq + 1) % 0x1_0000)),
            Sent(HANDSHAKE, s.epoch, s.recordSeq + 2, Wrapped(c, (s.messageSeq + 2) % 0x1_0000))]
  }

  /**
    A flight that succeeds enters its four messages into the transcript, sends the first three
    in plaintext records and the Finished, sealed under the new client key, as record zero of
    the next epoch, behind the ChangeCipherSpec. The keys are the standard's for the secret.
  */
  lemma FlightBinds(env: Env, s: Session)
    requires ClientFlight(env, s).s.phase == SentFinished
    ensures
      var f := ClientFlight(env, s);
      var t, finished := f.s, Finished(env, f.s.masterSecret, s.log, s.ecdhPublic);
      && DerivesSecret(env, s) && t.keys.Some?
      && Partitions(env, t.masterSecret, s.serverRandom + s.clientRandom, t.keys.value)
      && t.log == ThroughVerify(env, s.log, s.ecdhPublic) + [finished]
      && t.messageSeq == s.messageSeq + 4 && t.epoch == s.epoch + 1 && t.recordSeq == 1
      && |f.out| == 5
      && PlainThree(s, t.log[|s.log|], t.log[|s.log| + 1], t.log[|s.log| + 2], f.out[..3])
      && SealedBehindCcs(env, s.(recordSeq := s.recordSeq + 3, messageSeq := s.messageSeq + 3), t, finished, f.out[3..])
  {
    hide CertificateBytes, KeyExchangeBody, CertificateVerifyBody, Transcript, Wrapped, DeriveKeys, FinishedFlight,
         DerivesSecret, EmitMessage, PlainThree, SealedBehindCcs, Partitions;
    var ma := Message(CERTIFICATE, CertificateBytes([env.certificate]));
    var a := EmitMessage(s, ma);
    var mb := Message(CLIENT_KEY_EXCHANGE, KeyExchangeBody(a.s.ecdhPublic));
    var b := EmitMessage(a.s, mb);
    var b' := b.s.(phase := SentClientKeyExchange);
    var mc := Message(CERTIFICATE_VERIFY, CertificateVerifyBody(env.sign(TranscriptDigest(env, b'))));
    var c := EmitMessage(b', mc);
    var keyed := DeriveKeys(env, c.s);
    ThreeEmitted(s, ma, mb, mc);
    DeriveBinds(env, c.s);
    SameDerivation(env, s, c.s);
    FinishedBinds(env, keyed);
    var f := FinishedFlight(env, keyed);
    assert ClientFlight(env, s) == Step(f.s, a.out + b.out + c.out + f.out);
    var signed := ThroughVerify(env, s.log, s.ecdhPublic);
    assert c.s.log == signed == s.log + [ma] + [mb] + [mc];
    hide ClientFlight, ThroughVerify;
    assert f.s.log[|s.log|] == ma && f.s.log[|s.log| + 1] == mb && f.s.log[|s.log| + 2] == mc;
    DropPrefix(a.out + b.out + c.out, f.out);
    SealedSame(env, keyed, s.(recordSeq := s.recordSeq + 3, messageSeq := s.messageSeq + 3), f.s,
               Finished(env, f.s.masterSecret, s.log, s.ecdhPublic), f.out);
  }

  lemma ThreeEmitted(s: Session, ma: Message, mb: Message, mc: Message)
    ensures
      var a := EmitMessage(s, ma);
      var b := EmitMessage(a.s, mb);
      var c := EmitMessage(b.s.(phase := SentClientKeyExchange), mc);
      && a.s.ecdhPublic == s.ecdhPublic && a.s.log == s.log + [ma] && b.s.log == s.log + [ma] + [mb]
      && c.s.log == s.log + [ma] + [mb] + [mc]
      && c.s.serverPoint == s.serverPoint && c.s.ecdhPrivate == s.ecdhPrivate
      && c.s.clientRandom == s.clientRandom && c.s.serverRandom == s.serverRandom
      && c.s.epoch == s.epoch && c.s.recordSeq == s.recordSeq + 3 && c.s.messageSeq == s.messageSeq + 3
      && |a.out + b.out + c.out| == 3 && PlainThree(s, ma, mb, mc, a.out + b.out + c.out)
  {
    hide Wrapped;
  }

  lemma SealedSame(env: Env, s: Session, s': Session, t: Session, m: Message, out: seq<Sent>)
    requires s'.epoch == s.epoch && s'.recordSeq == s.recordSeq && s'.messageSeq == s.messageSeq
    ensures SealedBehindCcs(env, s, t, m, out) == SealedBehindCcs(env, s', t, m, out)
  {
  }

  lemma SameDerivation(env: Env, s: Session, t: Session)
    requires t.serverPoint == s.serverPoint && t.ecdhPrivate == s.ecdhPrivate
    ensures DerivesSecret(env, t) == DerivesSecret(env, s)
  {
  }

  // ---------------------------------------------------------------------------
  // A server's flight
  // ---------------------------------------------------------------------------

  datatype ServerFlight = ServerFlight(
    hello: ServerHello, extensions: Option<seq<Extension>>, chain: seq<seq<byte>>,
    curve: u16, point: seq<byte>, hash: byte, algorithm: byte, signature: seq<byte>)

  /** The extension is among those of the ServerHello. */
  ghost predicate Negotiated(f: ServerFlight) {
    f.extensions.Some?
    && exists i :: 0 <= i < |f.extensions.value| && f.extensions.value[i].kind == EXT_EXTENDED_MASTER_SECRET
  }

  /** Messages that fit their length fields. */
  predicate Laid(f: ServerFlight) {
    && |f.hello.random| == 32 && |f.hello.sessionId| < 0x100
    && (f.extensions.Some? ==> |ExtensionsBytes(f.extensions.value)| < 0x1_0000)
    && |ChainBytes(f.chain)| < LIMIT24 && |f.point| < 0x100 && |f.signature| < 0x1_0000
  }

  /** The announced certificate comes first. */
  predicate Announced(env: Env, f: ServerFlight) {
    |f.chain| > 0 && env.sha256(f.chain[0]) == env.peerFingerprint
  }

  /** An uncompressed point of P-256. */
  predicate GoodPoint(f: ServerFlight) {
    f.curve == 0x0017 && |f.point| == 65 && f.point[0] == 0x04
  }

  /** What the client insists on. */
  predicate Wanted(env: Env, f: ServerFlight) {
    f.hello.cipherSuite == 0xC02B && Announced(env, f) && GoodPoint(f)
  }

  function Hello(f: ServerFlight): Message
    requires |f.hello.random| == 32 && |f.hello.sessionId| < 0x100
  {
    Message(SERVER_HELLO, ServerHelloBytes(f.hello, f.extensions))
  }

  function Chain(f: ServerFlight): Message {
    Message(CERTIFICATE, CertificateBytes(f.chain))
  }

  function Exchange(f: ServerFlight): Message
    requires |f.point| < 0x100
  {
    Message(SERVER_KEY_EXCHANGE, KeyExchangeBytes(f.curve, f.point, f.hash, f.algorithm, f.signature))
  }

  const DONE := Message(SERVER_HELLO_DONE, [])

  function ServerMessages(f: ServerFlight): (ms: seq<Message>)
    requires |f.hello.random| == 32 && |f.hello.sessionId| < 0x100 && |f.point| < 0x100
    ensures |ms| == 4
  {
    [Hello(f), Chain(f), Exchange(f), DONE]
  }

  /** A message in a plaintext record of its own. */
  function Plain(m: Message, number: u16): Record {
    Record(HANDSHAKE, VERSION_12, 0, number, Wrapped(m, number))
  }

  function PlainAll(ms: seq<Message>, number: nat): seq<Record>
    decreases |ms|
  {
    if ms == [] then [] else [Plain(ms[0], number % 0x1_0000)] + PlainAll(ms[1..], number + 1)
  }

  /** The messages handled one after the other, up to the first failure. */
  function HandleAll(env: Env, s: Session, ms: seq<Message>): Step
    decreases |ms|
  {
    if ms == [] then Step(s, [])
    else
      var step := Handle(env, s, ms[0]);
      if step.s.phase == Failed then step
      else
        var rest := HandleAll(env, step.s, ms[1..]);
        Step(rest.s, step.out + rest.out)
  }

  lemma OneMessage(env: Env, s: Session, m: Message, number: u16)
    requires |m.body| < LIMIT24
    ensures
      var step := Handle(env, s, m);
      ProcessRecord(env, s, Plain(m, number)) == Processed(step.s, step.out, step.s.phase != Failed)
  {
    hide Messages, Wrapped;
    OneWrapped(env, s, m, number);
  }

  /** A datagram that packs one message a record is handled message by message. */
  lemma {:induction false} DatagramHandles(env: Env, s: Session, ms: seq<Message>, number: nat)
    requires forall i :: 0 <= i < |ms| ==> |ms[i].body| + HEADER_BYTES < 0x1_0000
    requires s.phase != Failed
    ensures
      var p := ProcessRecords(env, s, Packed(PlainAll(ms, number)));
      Step(p.s, p.out) == HandleAll(env, s, ms)
    decreases |ms|
  {
    hide Handle, ProcessRecord, RecordBytes, ProcessRecords;
    if ms == [] {
      NoRecords(env, s);
    } else {
      var r := Plain(ms[0], number % 0x1_0000);
      var rest := PlainAll(ms[1..], number + 1);
      Cons(r, rest);
      FirstRecord(env, s, r, Packed(rest));
      OneMessage(env, s, ms[0], number % 0x1_0000);
      var next := Handle(env, s, ms[0]).s;
      if next.phase != Failed {
        DatagramHandles(env, next, ms[1..], number + 1);
      }
    }
  }

  // ---------------------------------------------------------------------------
  // The run
  // ---------------------------------------------------------------------------

  /** The session when ServerHelloDone has been entered, before the client's flight. */
  ghost function Heard(s: Session, f: ServerFlight): Session
    requires |f.hello.random| == 32 && |f.hello.sessionId| < 0x100 && |f.point| < 0x100 && f.chain != []
  {
    s.(serverRandom := f.hello.random, extendedMasterSecret := Negotiated(f), serverCertificate := f.chain[0],
       serverPoint := f.point, phase := GotServerHelloDone, log := s.log + ServerMessages(f))
  }

  lemma HelloHandled(env: Env, s: Session, f: ServerFlight)
    requires Laid(f)
    ensures Handle(env, s, Hello(f))
         == Step(if f.hello.cipherSuite == 0xC02B
                 then Accept(s.(serverRandom := f.hello.random, extendedMasterSecret := Negotiated(f)), Hello(f), GotServerHello)
                 else Fail(s), [])
  {
    hide ServerHelloBytes, ReadServerHello, ApplyExtensions, ExtensionsBytes, ChainBytes;
    var plain := f.hello.(extendedMasterSecret := false, srtpProfile := None);
    if f.extensions.None? {
      PlainServerHello(f.hello);
    } else {
      ServerHelloRoundTrip(f.hello, f.extensions.value);
      ExtendedIff(plain, f.extensions.value);
      ExtensionsKeep(plain, f.extensions.value);
    }
  }

  lemma {:induction false} ExtensionsKeep(h: ServerHello, es: seq<Extension>)
    ensures
      var r := ApplyExtensions(h, es);
      r.random == h.random && r.cipherSuite == h.cipherSuite
    decreases |es|
  {
    hide Read16;
    if es != [] {
      ExtensionsKeep(ApplyExtension(h, es[0]), es[1..]);
    }
  }

  lemma ChainHandled(env: Env, s: Session, f: ServerFlight)
    requires Laid(f)
    ensures Handle(env, s, Chain(f)).out == []
    ensures
      var t := Handle(env, s, Chain(f)).s;
      if Announced(env, f) then t == Accept(s.(serverCertificate := f.chain[0]), Chain(f), GotServerCertificate)
      else t.phase == Failed
  {
    hide CertificateBytes, ReadCertificates, ExtensionsBytes, ChainBytes;
    CertificatesRoundTrip(f.chain, []);
    Unit(CertificateBytes(f.chain));
  }

  lemma ExchangeHandled(env: Env, s: Session, f: ServerFlight)
    requires Laid(f)
    ensures Handle(env, s, Exchange(f))
         == Step(if GoodPoint(f) then Accept(s.(serverPoint := f.point), Exchange(f), GotServerKeyExchange) else Fail(s), [])
  {
    hide KeyExchangeBytes, ReadKeyExchange, ExtensionsBytes, ChainBytes;
    KeyExchangeRoundTrip(f.curve, f.point, f.hash, f.algorithm, f.signature, []);
    Unit(KeyExchangeBytes(f.curve, f.point, f.hash, f.algorithm, f.signature));
  }

  lemma FlightHandled(env: Env, s: Session, f: ServerFlight)
    requires Laid(f) && Wanted(env, f) && s.phase != Failed
    ensures HandleAll(env, s, ServerMessages(f)) == ClientFlight(env, Heard(s, f))
  {
    hide Handle, Hello, Chain, Exchange, Negotiated, ClientFlight, ExtensionsBytes, ChainBytes;
    var ms := ServerMessages(f);
    HelloHandled(env, s, f);
    var s1 := Handle(env, s, Hello(f)).s;
    ChainHandled(env, s1, f);
    var s2 := Handle(env, s1, Chain(f)).s;
    ExchangeHandled(env, s2, f);
    var s3 := Handle(env, s2, Exchange(f)).s;
    DoneHandled(env, s3);
    assert s.log + [Hello(f)] + [Chain(f)] + [Exchange(f)] + [DONE] == s.log + ms;
    assert Accept(s3, DONE, GotServerHelloDone) == Heard(s, f);
    FourHandled(env, s, Hello(f), Chain(f), Exchange(f), DONE);
  }

  /** The flight is not answered, and the session fails, if any of its messages is unwanted. */
  lemma FlightRefused(env: Env, s: Session, f: ServerFlight)
    requires Laid(f) && !Wanted(env, f) && s.phase != Failed
    ensures HandleAll(env, s, ServerMessages(f)).s.phase == Failed && HandleAll(env, s, ServerMessages(f)).out == []
  {
    hide Handle, Hello, Chain, Exchange, ExtensionsBytes, ChainBytes, Announced, GoodPoint;
    HelloHandled(env, s, f);
    var s1 := Handle(env, s, Hello(f)).s;
    ChainHandled(env, s1, f);
    var s2 := Handle(env, s1, Chain(f)).s;
    ExchangeHandled(env, s2, f);
    var ms := ServerMessages(f);
    assert ms[1..] == [Chain(f), Exchange(f), DONE] && ms[1..][1..] == [Exchange(f), DONE];
    if f.hello.cipherSuite == 0xC02B && Announced(env, f) {
      assert HandleAll(env, s2, ms[1..][1..]) == Handle(env, s2, Exchange(f));
      assert HandleAll(env, s1, ms[1..]).out == [] && HandleAll(env, s1, ms[1..]).s.phase == Failed;
    } else if f.hello.cipherSuite == 0xC02B {
      assert HandleAll(env, s1, ms[1..]) == Handle(env, s1, Chain(f));
    }
  }

  lemma DoneHandled(env: Env, s: Session)
    ensures Handle(env, s, DONE) == ClientFlight(env, Accept(s, DONE, GotServerHelloDone))
  {
    hide ClientFlight;
  }

  lemma FourHandled(env: Env, s: Session, a: Message, b: Message, c: Message, d: Message)
    requires Handle(env, s, a).out == [] && Handle(env, s, a).s.phase != Failed
    requires var s1 := Handle(env, s, a).s; Handle(env, s1, b).out == [] && Handle(env, s1, b).s.phase != Failed
    requires
      var s2 := Handle(env, Handle(env, s, a).s, b).s;
      Handle(env, s2, c).out == [] && Handle(env, s2, c).s.phase != Failed
    ensures HandleAll(env, s, [a, b, c, d]) == Handle(env, Handle(env, Handle(env, Handle(env, s, a).s, b).s, c).s, d)
  {
    hide Handle;
    var s1 := Handle(env, s, a).s;
    var s2 := Handle(env, s1, b).s;
    var s3 := Handle(env, s2, c).s;
    var last := Handle(env, s3, d);
    assert [a, b, c, d][1..] == [b, c, d] && [b, c, d][1..] == [c, d] && [c, d][1..] == [d] && [d][1..] == [];
    Unit(last.out);
    assert HandleAll(env, s3, [d]) == last;
    assert HandleAll(env, s2, [c, d]) == last;
    assert HandleAll(env, s1, [b, c, d]) == last;
  }

  /** Key material has the length asked for, and sealing succeeds. */
  ghost predicate Works(env: Env) {
    && (forall secret: seq<byte>, purpose: string, seed: seq<byte>, n: nat :: |env.prf(secret, purpose, seed, n)| == n)
    && (forall key: seq<byte>, iv: seq<byte>, aad: Aad, text: seq<byte> :: env.seal(key, iv, aad, text).Some?)
  }

  lemma DeriveSucceeds(env: Env, s: Session)
    requires Works(env) && DerivesSecret(env, s) && s.phase != Failed
    ensures
      var t := DeriveKeys(env, s);
      t.phase == s.phase && t.keys.Some? && t.extendedMasterSecret == s.extendedMasterSecret
  {
    hide MasterSecret;
  }

  lemma FinishedSucceeds(env: Env, s: Session)
    requires Works(env) && s.keys.Some?
    ensures
      var t := FinishedFlight(env, s).s;
      t.phase == SentFinished && t.extendedMasterSecret == s.extendedMasterSecret
  {
    hide VerifyData, Wrapped;
  }

  lemma FlightSucceeds(env: Env, s: Session)
    requires Works(env) && DerivesSecret(env, s) && s.phase != Failed
    ensures ClientFlight(env, s).s.phase == SentFinished
    ensures ClientFlight(env, s).s.extendedMasterSecret == s.extendedMasterSecret
  {
    hide CertificateBytes, KeyExchangeBody, CertificateVerifyBody, TranscriptDigest, Wrapped, DeriveKeys,
         FinishedFlight, Works, DerivesSecret;
    var a := EmitMessage(s, Message(CERTIFICATE, CertificateBytes([env.certificate])));
    var b := EmitMessage(a.s, Message(CLIENT_KEY_EXCHANGE, KeyExchangeBody(a.s.ecdhPublic)));
    var b' := b.s.(phase := SentClientKeyExchange);
    var c := EmitMessage(b', Message(CERTIFICATE_VERIFY, CertificateVerifyBody(env.sign(TranscriptDigest(env, b')))));
    SameDerivation(env, s, c.s);
    DeriveSucceeds(env, c.s);
    FinishedSucceeds(env, DeriveKeys(env, c.s));
  }

  function ServerDatagram(f: ServerFlight): seq<byte>
    requires |f.hello.random| == 32 && |f.hello.sessionId| < 0x100 && |f.point| < 0x100
  {
    Packed(PlainAll(ServerMessages(f), 0))
  }

  /** The operations of a client that starts and receives one server flight. */
  function Handshake(random: seq<byte>, priv: seq<byte>, pub: seq<byte>, f: ServerFlight): seq<Op>
    requires Laid(f)
  {
    [Start(random, priv, pub), Datagram(ServerDatagram(f))]
  }

  /**
    In every environment that works, a session that starts and receives a server flight sends
    its Finished if and only if the cipher suite, the certificate and the point are the wanted
    ones, and otherwise fails, with its ClientHello as the only record sent. In the first case
    its transcript is the ClientHello, the server's messages and its own; and its master secret
    is the standard's if and only if the ServerHello does not carry the extension, or the
    pseudo-random function does not tell the transcript up to ClientKeyExchange from the one up
    to CertificateVerify.
  */
  lemma HandshakeRun(env: Env, random: seq<byte>, priv: seq<byte>, pub: seq<byte>, f: ServerFlight, shared: seq<byte>)
    requires Works(env) && Laid(f)
    requires forall i :: 0 <= i < 4 ==> |ServerMessages(f)[i].body| + HEADER_BYTES < 0x1_0000
    requires |priv| == 32 && env.ecdh(priv, f.point) == Some(shared)
    ensures
      var r := Run(env, FRESH, Handshake(random, priv, pub, f));
      var hello := Message(CLIENT_HELLO, ClientHelloBody(random, []));
      var heard := [hello] + ServerMessages(f);
      && (r.s.phase == SentFinished <==> Wanted(env, f))
      && |r.out| >= 1 && r.out[0] == Sent(HANDSHAKE, 0, 0, Wrapped(hello, 0))
      && (!Wanted(env, f) ==> r.s.phase == Failed && |r.out| == 1)
      && (Wanted(env, f) ==>
            && |r.out| == 6
            && r.s.log == ThroughVerify(env, heard, pub) + [Finished(env, r.s.masterSecret, heard, pub)]
            && r.s.keys.Some? && Partitions(env, r.s.masterSecret, f.hello.random + random, r.s.keys.value)
            && (r.s.masterSecret == StandardSecret(env, shared, Negotiated(f), heard, pub, random + f.hello.random)
                <==> !Negotiated(f) || Collides(env, shared, heard, pub)))
  {
    hide ServerMessages, ClientFlight, ProcessRecords, ClientHelloBody, Wrapped, Negotiated, ThroughVerify, Finished,
         StandardSecret, Collides, Works, ExtensionsBytes, ChainBytes, Announced, Partitions;
    var started := Initiate(FRESH, random, priv, pub).s;
    var hello := Message(CLIENT_HELLO, ClientHelloBody(random, []));
    assert [] + [hello] == [hello];
    DatagramHandles(env, started, ServerMessages(f), 0);
    TwoOps(env, Start(random, priv, pub), Datagram(ServerDatagram(f)));
    if Wanted(env, f) {
      assert f.chain != [] by { AnnouncedSome(env, f); }
      FlightHandled(env, started, f);
      var s := Heard(started, f);
      FlightSucceeds(env, s);
      FlightBinds(env, s);
      SecretIsStandardIff(env, s);
    } else {
      FlightRefused(env, started, f);
    }
  }

  lemma AnnouncedSome(env: Env, f: ServerFlight)
    requires Announced(env, f)
    ensures f.chain != []
  {
  }

  lemma TwoOps(env: Env, a: Op, b: Op)
    ensures
      var first := Do(env, FRESH, a);
      var second := Do(env, first.s, b);
      Run(env, FRESH, [a, b]) == Step(second.s, first.out + second.out)
  {
    hide Do;
    assert [a, b][1..] == [b] && [b][1..] == [];
    var first := Do(env, FRESH, a).s;
    var second := Do(env, first, b);
    assert Run(env, second.s, []) == Step(second.s, []);
    Unit(second.out);
  }

  // ---------------------------------------------------------------------------
  // The departure occurs
  // ---------------------------------------------------------------------------

  /** A toy environment: the digest starts with the length, and the secret repeats that byte. */
  function ToyEnv(): Env {
    Env((d: seq<byte>) => [|d| % 0x100] + Zeros(31),
        (secret: seq<byte>, purpose: string, seed: seq<byte>, n: nat) => seq(n, _ => if seed == [] then 0 else seed[0]),
        (priv: seq<byte>, point: seq<byte>) => Some(Zeros(32)),
        (digest: seq<byte>) => [],
        [],
        (key: seq<byte>, iv: seq<byte>, aad: Aad, text: seq<byte>) => Some(text),
        (key: seq<byte>, iv: seq<byte>, aad: Aad, text: seq<byte>) => Some(text),
        [1] + Zeros(31))
  }

  /** A ServerHello with the extension, a certificate of one byte, a point, an empty signature. */
  function ToyFlight(): ServerFlight {
    ServerFlight(ServerHello(VERSION_12, Zeros(32), [], SUITE, 0, true, None),
                 Some([Extension(EXT_EXTENDED_MASTER_SECRET, [])]), [[1]], 0x0017, [4] + Zeros(64), 4, 3, [])
  }

  lemma ToyTranscriptsTold(heard: seq<Message>, point: seq<byte>)
    ensures !Collides(ToyEnv(), Zeros(32), heard, point)
  {
    hide ThroughKeyExchange, Transcript, ThroughVerify, ToyEnv, TlsBytes, Verify;
    var env := ToyEnv();
    TranscriptsDiffer(env, heard, point);
    ToyVerifySize(heard, point);
    var a, b := Transcript(ThroughKeyExchange(env, heard, point)), Transcript(ThroughVerify(env, heard, point));
    ToySecret(a);
    ToySecret(b);
  }

  lemma ToyVerifySize(heard: seq<Message>, point: seq<byte>)
    ensures |TlsBytes(Verify(ToyEnv(), heard, point))| == 8
  {
    hide ThroughKeyExchange, Transcript, BE16;
  }

  lemma ToySecret(transcript: seq<byte>)
    ensures
      var secret := ToyEnv().prf(Zeros(32), EXTENDED, ToyEnv().sha256(transcript), 48);
      |secret| == 48 && secret[0] == |transcript| % 0x100
  {
  }

  lemma ToyFlightWanted()
    ensures Laid(ToyFlight()) && Wanted(ToyEnv(), ToyFlight()) && Negotiated(ToyFlight())
    ensures forall i :: 0 <= i < 4 ==> |ServerMessages(ToyFlight())[i].body| + HEADER_BYTES < 0x1_0000
  {
    hide BE16, BE24;
    var f := ToyFlight();
    var es := f.extensions.value;
    assert es[1..] == [] && es[0].kind == EXT_EXTENDED_MASTER_SECRET;
    assert |ExtensionsBytes(es)| == 4;
    assert f.chain[1..] == [] && |ChainBytes(f.chain)| == 4;
    assert ToyEnv().sha256([1]) == ToyEnv().peerFingerprint;
    assert |Hello(f).body| < 100;
    assert |Chain(f).body| < 100;
    assert |Exchange(f).body| < 100;
  }

  lemma ToyWorks(point: seq<byte>)
    ensures Works(ToyEnv()) && ToyEnv().ecdh(Zeros(32), point) == Some(Zeros(32))
  {
  }

  /**
    A complete handshake, from the fresh session to the client's Finished, whose master secret
    is not the one that RFC 7627 prescribes.
  */
  lemma DepartureOccurs(random: seq<byte>, pub: seq<byte>)
    ensures
      var f := ToyFlight();
      && Laid(f)
      && var t := Run(ToyEnv(), FRESH, Handshake(random, Zeros(32), pub, f)).s;
         var heard := [Message(CLIENT_HELLO, ClientHelloBody(random, []))] + ServerMessages(f);
         && t.phase == SentFinished
         && t.masterSecret != StandardSecret(ToyEnv(), Zeros(32), true, heard, pub, random + f.hello.random)
  {
    hide Run, Collides, ClientHelloBody, Negotiated, Wanted, Works, StandardSecret, ServerMessages, Handshake,
         ToyEnv, ThroughVerify, Finished, Wrapped;
    var f := ToyFlight();
    ToyFlightWanted();
    ToyWorks(f.point);
    HandshakeRun(ToyEnv(), random, Zeros(32), pub, f, Zeros(32));
    ToyTranscriptsTold([Message(CLIENT_HELLO, ClientHelloBody(random, []))] + ServerMessages(f), pub);
  }
}
