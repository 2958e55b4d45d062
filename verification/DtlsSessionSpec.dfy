/**
  The DTLS 1.2 client session as functions on values: its reaction to each handshake
  message, to a record and to a datagram that packs several records. Cryptography, the own
  certificate and all randomness are parameters.
*/
module DtlsSessionSpec {
  import opened Bytes
  import opened SeqFacts
  import opened DtlsRecord
  import opened DtlsHandshake

  /** What authenticated encryption covers besides the plaintext. */
  datatype Aad = Aad(epoch: u16, sequence: u64, kind: byte)

  datatype Env = Env(
    sha256: seq<byte> -> Digest,
    prf: (seq<byte>, string, seq<byte>, nat) -> seq<byte>,
    ecdh: (seq<byte>, seq<byte>) -> Option<seq<byte>>,
    sign: seq<byte> -> seq<byte>,
    certificate: seq<byte>,
    seal: (seq<byte>, seq<byte>, Aad, seq<byte>) -> Option<seq<byte>>,
    unseal: (seq<byte>, seq<byte>, Aad, seq<byte>) -> Option<seq<byte>>,
    peerFingerprint: seq<byte>)

  datatype Phase =
    | Initial | SentClientHello | SentClientHelloWithCookie
    | GotServerHello | GotServerCertificate | GotServerKeyExchange | GotServerHelloDone
    | SentClientKeyExchange | SentChangeCipherSpec | SentFinished | GotChangeCipherSpec
    | Established | Failed

  datatype Keys = Keys(clientKey: seq<byte>, serverKey: seq<byte>, clientIv: seq<byte>, serverIv: seq<byte>)

  /** Counters are exact; on the wire and in the program they are taken modulo their width. */
  datatype Session = Session(
    phase: Phase, clientRandom: seq<byte>, serverRandom: seq<byte>, cookie: seq<byte>,
    serverPoint: seq<byte>, ecdhPrivate: seq<byte>, ecdhPublic: seq<byte>, serverCertificate: seq<byte>,
    extendedMasterSecret: bool, messageSeq: nat, epoch: nat, recordSeq: nat,
    masterSecret: seq<byte>, keys: Option<Keys>, log: seq<Message>)

  const FRESH := Session(Initial, Zeros(32), Zeros(32), [], [], [], [], [], true, 0, 0, 0, [], None, [])

  /** An emitted record with its exact counters. */
  datatype Sent = Sent(kind: byte, epoch: nat, sequence: nat, payload: seq<byte>)

  function OnWire(d: Sent): seq<byte> {
    RecordBytes(Record(d.kind, VERSION_12, d.epoch % 0x1_0000, d.sequence % 0x1_0000_0000_0000_0000, d.payload))
  }

  datatype Step = Step(s: Session, out: seq<Sent>)

  function Fail(s: Session): Session {
    s.(phase := Failed)
  }

  // ---------------------------------------------------------------------------
  // Sending
  // ---------------------------------------------------------------------------

  function Emit(s: Session, kind: byte, payload: seq<byte>): Step {
    Step(s.(recordSeq := s.recordSeq + 1), [Sent(kind, s.epoch, s.recordSeq, payload)])
  }

  /** A plaintext handshake message, entered into the transcript. */
  function EmitMessage(s: Session, m: Message): Step {
    var e := Emit(s, HANDSHAKE, Wrapped(m, s.messageSeq % 0x1_0000));
    Step(e.s.(messageSeq := s.messageSeq + 1, log := s.log + [m]), e.out)
  }

  function Accept(s: Session, m: Message, phase: Phase): Session {
    s.(log := s.log + [m], phase := phase)
  }

  function Initiate(s: Session, random: seq<byte>, ecdhPrivate: seq<byte>, ecdhPublic: seq<byte>): Step {
    var keyed := s.(clientRandom := random, ecdhPrivate := ecdhPrivate, ecdhPublic := ecdhPublic);
    var e := EmitMessage(keyed, Message(CLIENT_HELLO, ClientHelloBody(random, [])));
    Step(e.s.(phase := SentClientHello), e.out)
  }

  function TranscriptDigest(env: Env, s: Session): Digest {
    env.sha256(Transcript(s.log))
  }

  function VerifyData(env: Env, s: Session, purpose: string): seq<byte> {
    env.prf(s.masterSecret, purpose, TranscriptDigest(env, s), 12)
  }

  /** The extended master secret is bound to the transcript at this point. */
  function MasterSecret(env: Env, s: Session, shared: seq<byte>): seq<byte> {
    if s.extendedMasterSecret then env.prf(shared, "extended master secret", TranscriptDigest(env, s), 48)
    else env.prf(shared, "master secret", s.clientRandom + s.serverRandom, 48)
  }

  function DeriveKeys(env: Env, s: Session): Session {
    if |s.serverPoint| != 65 || |s.ecdhPrivate| != 32 then Fail(s)
    else
      var shared := env.ecdh(s.ecdhPrivate, s.serverPoint);
      if shared.None? then Fail(s)
      else
        var keyed := s.(masterSecret := MasterSecret(env, s, shared.value));
        var block := env.prf(keyed.masterSecret, "key expansion", s.serverRandom + s.clientRandom, 40);
        if |block| != 40 then Fail(keyed)
        else keyed.(keys := Some(Keys(block[..16], block[16..32], block[32..36], block[36..])))
  }

  /** ChangeCipherSpec in the old epoch, then Finished as the first record of the new one. */
  function FinishedFlight(env: Env, s: Session): Step
    requires s.keys.Some?
  {
    var ccs := Emit(s, CHANGE_CIPHER_SPEC, [1]);
    var next := ccs.s.(phase := SentChangeCipherSpec, epoch := s.epoch + 1, recordSeq := 0);
    var m := Message(FINISHED, VerifyData(env, next, "client finished"));
    var logged := next.(messageSeq := s.messageSeq + 1, log := s.log + [m]);
    var ciphertext := env.seal(s.keys.value.clientKey, s.keys.value.clientIv,
                            Aad(next.epoch % 0x1_0000, 0, HANDSHAKE), Wrapped(m, s.messageSeq % 0x1_0000));
    if ciphertext.None? then Step(Fail(logged), ccs.out)
    else
      var e := Emit(logged, HANDSHAKE, ciphertext.value);
      Step(e.s.(phase := SentFinished), ccs.out + e.out)
  }

  /** Certificate, ClientKeyExchange, CertificateVerify; then keys; then the Finished flight. */
  function ClientFlight(env: Env, s: Session): Step {
    var a := EmitMessage(s, Message(CERTIFICATE, CertificateBytes([env.certificate])));
    var b := EmitMessage(a.s, Message(CLIENT_KEY_EXCHANGE, KeyExchangeBody(a.s.ecdhPublic)));
    var b' := b.s.(phase := SentClientKeyExchange);
    var c := EmitMessage(b', Message(CERTIFICATE_VERIFY, CertificateVerifyBody(env.sign(TranscriptDigest(env, b')))));
    var keyed := DeriveKeys(env, c.s);
    var out := a.out + b.out + c.out;
    if keyed.phase == Failed || keyed.keys.None? then Step(keyed, out)
    else
      var f := FinishedFlight(env, keyed);
      Step(f.s, out + f.out)
  }

  // ---------------------------------------------------------------------------
  // Receiving
  // ---------------------------------------------------------------------------

  function HandleHelloVerify(s: Session, m: Message): Step {
    var cookie := ReadCookie(m.body);
    if cookie.None? then Step(Fail(s), [])
    else
      var e := EmitMessage(s.(cookie := cookie.value, log := []),
                           Message(CLIENT_HELLO, ClientHelloBody(s.clientRandom, cookie.value)));
      Step(e.s.(phase := SentClientHelloWithCookie), e.out)
  }

  function HandleServerHello(s: Session, m: Message): Session {
    var h := ReadServerHello(m.body);
    if h.None? || h.value.cipherSuite != SUITE then Fail(s)
    else
      Accept(s.(serverRandom := h.value.random, extendedMasterSecret := h.value.extendedMasterSecret), m, GotServerHello)
  }

  function HandleCertificate(env: Env, s: Session, m: Message): Session {
    var chain := ReadCertificates(m.body);
    if chain.None? || chain.value == [] then Fail(s)
    else
      var leaf := chain.value[0];
      var kept := s.(serverCertificate := leaf);
      if env.sha256(leaf) != env.peerFingerprint then Fail(kept) else Accept(kept, m, GotServerCertificate)
  }

  function HandleKeyExchange(s: Session, m: Message): Session {
    var k := ReadKeyExchange(m.body);
    if k.None? || k.value.namedCurve != SECP256R1 || |k.value.publicPoint| != 65 || k.value.publicPoint[0] != 4
    then Fail(s)
    else Accept(s.(serverPoint := k.value.publicPoint), m, GotServerKeyExchange)
  }

  function HandleFinished(env: Env, s: Session, m: Message): Session {
    var expected := VerifyData(env, s, "server finished");
    if |m.body| != 12 || |expected| < 12 || m.body != expected[..12] then Fail(s) else Accept(s, m, Established)
  }

  /** Messages of other kinds are tolerated and not hashed. */
  function Handle(env: Env, s: Session, m: Message): Step {
    if m.kind == HELLO_VERIFY_REQUEST then HandleHelloVerify(s, m)
    else if m.kind == SERVER_HELLO then Step(HandleServerHello(s, m), [])
    else if m.kind == CERTIFICATE then Step(HandleCertificate(env, s, m), [])
    else if m.kind == SERVER_KEY_EXCHANGE then Step(HandleKeyExchange(s, m), [])
    else if m.kind == CERTIFICATE_REQUEST then Step(Accept(s, m, s.phase), [])
    else if m.kind == SERVER_HELLO_DONE then ClientFlight(env, Accept(s, m, GotServerHelloDone))
    else if m.kind == FINISHED then Step(HandleFinished(env, s, m), [])
    else Step(s, [])
  }

  datatype Processed = Processed(s: Session, out: seq<Sent>, ok: bool)

  /** The messages packed into one record, up to the first failure. */
  function Messages(env: Env, s: Session, b: seq<byte>): Processed
    decreases |b|
  {
    if |b| < HEADER_BYTES then Processed(s, [], true)
    else
      var h := ReadHeader(b);
      if h.fragmentOffset != 0 || h.fragmentLength != h.length || HEADER_BYTES + h.length > |b| then
        Processed(Fail(s), [], false)
      else
        var end := HEADER_BYTES + h.length;
        var step := Handle(env, s, Message(h.kind, b[HEADER_BYTES..end]));
        if step.s.phase == Failed then Processed(step.s, step.out, false)
        else
          var rest := Messages(env, step.s, b[end..]);
          Processed(rest.s, step.out + rest.out, rest.ok)
  }

  function ProcessRecord(env: Env, s: Session, r: Record): Processed {
    if r.kind == CHANGE_CIPHER_SPEC then Processed(s.(phase := GotChangeCipherSpec), [], true)
    else if r.kind == ALERT then
      if |r.payload| >= 2 && r.payload[0] == 2 then Processed(Fail(s), [], false) else Processed(s, [], true)
    else if r.kind != HANDSHAKE then Processed(s, [], true)
    else if r.epoch == 0 then Messages(env, s, r.payload)
    else if s.keys.None? then Processed(Fail(s), [], false)
    else
      var plain := env.unseal(s.keys.value.serverKey, s.keys.value.serverIv,
                              Aad(r.epoch, r.sequence, HANDSHAKE), r.payload);
      if plain.None? then Processed(Fail(s), [], false) else Messages(env, s, plain.value)
  }

  /** The records packed into a datagram, up to the first failure or malformed header. */
  function ProcessRecords(env: Env, s: Session, data: seq<byte>): Processed
    decreases |data|
  {
    if data == [] then Processed(s, [], true)
    else
      var d := ReadRecord(data);
      if d.None? then Processed(s, [], false)
      else
        var p := ProcessRecord(env, s, d.value.record);
        if !p.ok then p
        else
          var rest := ProcessRecords(env, p.s, data[d.value.consumed..]);
          Processed(rest.s, p.out + rest.out, rest.ok)
  }

  function ProcessDatagram(env: Env, s: Session, data: seq<byte>): Processed {
    if s.phase == Failed then Processed(s, [], false) else ProcessRecords(env, s, data)
  }

  // ---------------------------------------------------------------------------
  // Application data
  // ---------------------------------------------------------------------------

  function EncryptAppData(env: Env, s: Session, plaintext: seq<byte>): Step {
    if s.phase != Established || s.keys.None? then Step(s, [])
    else
      var ciphertext := env.seal(s.keys.value.clientKey, s.keys.value.clientIv,
                              Aad(s.epoch % 0x1_0000, s.recordSeq % 0x1_0000_0000_0000_0000, APPLICATION_DATA), plaintext);
      if ciphertext.None? then Step(s, []) else Emit(s, APPLICATION_DATA, ciphertext.value)
  }

  function DecryptAppData(env: Env, s: Session, datagram: seq<byte>): Option<seq<byte>> {
    var d := ReadRecord(datagram);
    if s.phase != Established || s.keys.None? || d.None? || d.value.record.kind != APPLICATION_DATA then None
    else env.unseal(s.keys.value.serverKey, s.keys.value.serverIv,
                    Aad(d.value.record.epoch, d.value.record.sequence, APPLICATION_DATA), d.value.record.payload)
  }

  // ---------------------------------------------------------------------------
  // Runs
  // ---------------------------------------------------------------------------

  datatype Op =
    | Start(random: seq<byte>, ecdhPrivate: seq<byte>, ecdhPublic: seq<byte>)
    | Datagram(data: seq<byte>)
    | AppData(plaintext: seq<byte>)

  function Do(env: Env, s: Session, op: Op): Step {
    match op
    case Start(random, priv, pub) => Initiate(s, random, priv, pub)
    case Datagram(data) => var p := ProcessDatagram(env, s, data); Step(p.s, p.out)
    case AppData(plaintext) => EncryptAppData(env, s, plaintext)
  }

  function Run(env: Env, s: Session, ops: seq<Op>): Step
    decreases |ops|
  {
    if ops == [] then Step(s, [])
    else
      var first := Do(env, s, ops[0]);
      var rest := Run(env, first.s, ops[1..]);
      Step(rest.s, first.out + rest.out)
  }
}
