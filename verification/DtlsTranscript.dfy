/**
  The transcript over DTLS runs. The history of a run lists every handshake message that the
  session accepted from its datagrams and every one that its own records carry; the
  transcript is the part of it behind the last HelloVerifyRequest. What was accepted met the
  client's conditions.
*/
module DtlsTranscript {
  import opened Bytes
  import opened SeqFacts
  import opened DtlsRecord
  import opened DtlsHandshake
  import opened DtlsSessionSpec
  import opened DtlsSessionLaws

  // ---------------------------------------------------------------------------
  // The history of a run
  // ---------------------------------------------------------------------------

  /** The complete, unfragmented messages at the front of a record's contents. */
  function MessagesIn(b: seq<byte>): seq<Message>
    decreases |b|
  {
    if |b| < HEADER_BYTES then []
    else
      var h := ReadHeader(b);
      var end := HEADER_BYTES + h.length;
      if h.fragmentOffset != 0 || h.fragmentLength != h.length || end > |b| then []
      else [Message(h.kind, b[HEADER_BYTES..end])] + MessagesIn(b[end..])
  }

  /** The complete records at the front of a datagram. */
  function RecordsIn(data: seq<byte>): seq<Record>
    decreases |data|
  {
    if data == [] || ReadRecord(data).None? then []
    else
      var d := ReadRecord(data).value;
      [d.record] + RecordsIn(data[d.consumed..])
  }

  /** The handshake bytes in a record, decrypted behind the first epoch. */
  function Contents(env: Env, s: Session, r: Record): seq<byte> {
    if r.kind != HANDSHAKE then []
    else if r.epoch == 0 then r.payload
    else if s.keys.None? then []
    else
      var plain := env.unseal(s.keys.value.serverKey, s.keys.value.serverIv,
                              Aad(r.epoch, r.sequence, HANDSHAKE), r.payload);
      if plain.None? then [] else plain.value
  }

  /** The kinds of message the client takes part in; others are ignored. */
  predicate TakesPart(kind: byte) {
    || kind == HELLO_VERIFY_REQUEST || kind == SERVER_HELLO || kind == CERTIFICATE || kind == SERVER_KEY_EXCHANGE
    || kind == CERTIFICATE_REQUEST || kind == SERVER_HELLO_DONE || kind == FINISHED
  }

  /** The session did not fail over the message; after ServerHelloDone only its own flight can fail. */
  predicate Accepted(m: Message, after: Session) {
    TakesPart(m.kind) && (m.kind == SERVER_HELLO_DONE || after.phase != Failed)
  }

  /** A message of the session's own or one of its peer's. */
  datatype Entry = Own(m: Message) | Peer(m: Message)

  /** The messages behind the last HelloVerifyRequest. */
  function SinceVerify(h: seq<Entry>): seq<Message> {
    if h == [] || h[|h| - 1].m.kind == HELLO_VERIFY_REQUEST then []
    else SinceVerify(h[..|h| - 1]) + [h[|h| - 1].m]
  }

  /** The client's Finished, from the messages exchanged before it (section 7.4.9 of RFC 5246). */
  function ClientFinished(env: Env, secret: seq<byte>, h: seq<Entry>): Message {
    Message(FINISHED, env.prf(secret, "client finished", env.sha256(Transcript(SinceVerify(h))), 12))
  }

  /**
    The history after these records were sent: the message in each plaintext handshake record,
    and behind a ChangeCipherSpec, where the contents are sealed, the client's Finished.
  */
  function Told(env: Env, secret: seq<byte>, h: seq<Entry>, out: seq<Sent>): seq<Entry>
    decreases |out|
  {
    if out == [] then h
    else if out[0].kind == CHANGE_CIPHER_SPEC then h + [Own(ClientFinished(env, secret, h))]
    else if out[0].kind == HANDSHAKE && |out[0].payload| >= HEADER_BYTES then
      Told(env, secret, h + [Own(Message(out[0].payload[0], out[0].payload[HEADER_BYTES..]))], out[1..])
    else Told(env, secret, h, out[1..])
  }

  function AfterMessage(env: Env, s: Session, h: seq<Entry>, m: Message): seq<Entry> {
    var step := Handle(env, s, m);
    Told(env, step.s.masterSecret, if Accepted(m, step.s) then h + [Peer(m)] else h, step.out)
  }

  /** Messages behind one that fails are not looked at. */
  function AfterMessages(env: Env, s: Session, h: seq<Entry>, ms: seq<Message>): seq<Entry>
    decreases |ms|
  {
    if ms == [] || s.phase == Failed then h
    else AfterMessages(env, Handle(env, s, ms[0]).s, AfterMessage(env, s, h, ms[0]), ms[1..])
  }

  function AfterRecords(env: Env, s: Session, h: seq<Entry>, rs: seq<Record>): seq<Entry>
    decreases |rs|
  {
    if rs == [] || s.phase == Failed then h
    else
      var heard := AfterMessages(env, s, h, MessagesIn(Contents(env, s, rs[0])));
      AfterRecords(env, ProcessRecord(env, s, rs[0]).s, heard, rs[1..])
  }

  function AfterOp(env: Env, s: Session, h: seq<Entry>, op: Op): seq<Entry> {
    match op
    case Datagram(data) => AfterRecords(env, s, h, RecordsIn(data))
    case _ => Told(env, s.masterSecret, h, Do(env, s, op).out)
  }

  /** All messages of a run in the order in which they were accepted and sent. */
  function History(env: Env, s: Session, h: seq<Entry>, ops: seq<Op>): seq<Entry>
    decreases |ops|
  {
    if ops == [] then h else History(env, Do(env, s, ops[0]).s, AfterOp(env, s, h, ops[0]), ops[1..])
  }

  // ---------------------------------------------------------------------------
  // The transcript is the history
  // ---------------------------------------------------------------------------

  /** The session's log agrees with a history. */
  predicate Keeps(s: Session, h: seq<Entry>) {
    s.log == SinceVerify(h)
  }

  lemma SinceSnoc(h: seq<Entry>, e: Entry)
    ensures SinceVerify(h + [e]) == if e.m.kind == HELLO_VERIFY_REQUEST then [] else SinceVerify(h) + [e.m]
  {
    Snoc(h, e);
  }

  lemma ToldMessage(env: Env, secret: seq<byte>, h: seq<Entry>, d: Sent, m: Message, q: u16, rest: seq<Sent>)
    requires d.kind == HANDSHAKE && d.payload == Wrapped(m, q)
    ensures Told(env, secret, h, [d] + rest) == Told(env, secret, h + [Own(m)], rest)
  {
    hide BE24, BE16;
    Cons(d, rest);
    DropPrefix(HeaderBytes(Header(m.kind, |m.body|, q, 0, |m.body|)), m.body);
    assert d.payload[0] == m.kind;
  }

  /** One plaintext message: entered into the transcript, and readable in the record. */
  lemma EmitTells(env: Env, secret: seq<byte>, s: Session, h: seq<Entry>, m: Message, rest: seq<Sent>)
    requires Keeps(s, h) && m.kind != HELLO_VERIFY_REQUEST
    ensures Keeps(EmitMessage(s, m).s, h + [Own(m)])
    ensures Told(env, secret, h, EmitMessage(s, m).out + rest) == Told(env, secret, h + [Own(m)], rest)
  {
    hide Wrapped, SinceVerify, Told;
    SinceSnoc(h, Own(m));
    ToldMessage(env, secret, h, EmitMessage(s, m).out[0], m, s.messageSeq % 0x1_0000, rest);
  }

  lemma FinishedTells(env: Env, s: Session, h: seq<Entry>)
    requires Keeps(s, h) && s.keys.Some?
    ensures
      var f := FinishedFlight(env, s);
      f.s.masterSecret == s.masterSecret && Keeps(f.s, Told(env, s.masterSecret, h, f.out))
  {
    hide Wrapped, SinceVerify, Transcript;
    SinceSnoc(h, Own(ClientFinished(env, s.masterSecret, h)));
  }

  lemma DeriveKeepsLog(env: Env, s: Session)
    ensures
      var t := DeriveKeys(env, s);
      t.log == s.log && t.clientRandom == s.clientRandom && t.cookie == s.cookie && t.ecdhPublic == s.ecdhPublic
  {
    hide MasterSecret;
  }

  lemma FlightTells(env: Env, s: Session, h: seq<Entry>)
    requires Keeps(s, h)
    ensures
      var f := ClientFlight(env, s);
      Keeps(f.s, Told(env, f.s.masterSecret, h, f.out))
  {
    hide EmitMessage, DeriveKeys, FinishedFlight, Told, SinceVerify,
         CertificateBytes, KeyExchangeBody, CertificateVerifyBody, TranscriptDigest;
    var ma := Message(CERTIFICATE, CertificateBytes([env.certificate]));
    var a := EmitMessage(s, ma);
    var mb := Message(CLIENT_KEY_EXCHANGE, KeyExchangeBody(a.s.ecdhPublic));
    var b := EmitMessage(a.s, mb);
    var b' := b.s.(phase := SentClientKeyExchange);
    var mc := Message(CERTIFICATE_VERIFY, CertificateVerifyBody(env.sign(TranscriptDigest(env, b'))));
    var c := EmitMessage(b', mc);
    var keyed := DeriveKeys(env, c.s);
    DeriveKeepsLog(env, c.s);
    var tail := if keyed.phase == Failed || keyed.keys.None? then [] else FinishedFlight(env, keyed).out;
    var secret := ClientFlight(env, s).s.masterSecret;
    EmitTells(env, secret, s, h, ma, b.out + c.out + tail);
    EmitTells(env, secret, a.s, h + [Own(ma)], mb, c.out + tail);
    EmitTells(env, secret, b', h + [Own(ma)] + [Own(mb)], mc, tail);
    var told := h + [Own(ma)] + [Own(mb)] + [Own(mc)];
    FourParts(a.out, b.out, c.out, tail);
    if tail == [] {
      ToldNothing(env, secret, told);
    }
    if !(keyed.phase == Failed || keyed.keys.None?) {
      FinishedTells(env, keyed, told);
    }
  }

  lemma ToldNothing(env: Env, secret: seq<byte>, h: seq<Entry>)
    ensures Told(env, secret, h, []) == h
  {
  }

  lemma FourParts<T>(a: seq<T>, b: seq<T>, c: seq<T>, d: seq<T>)
    ensures a + b + c + d == a + (b + c + d) && b + c + d == b + (c + d)
    ensures a + b + c + [] == a + b + c
  {
  }

  lemma HandleTells(env: Env, s: Session, h: seq<Entry>, m: Message)
    requires Keeps(s, h) && s.phase != Failed
    ensures Keeps(Handle(env, s, m).s, AfterMessage(env, s, h, m))
  {
    hide ClientFlight, ReadServerHello, ReadCertificates, ReadKeyExchange, VerifyData, ReadCookie, ClientHelloBody,
         EmitMessage, SinceVerify, Told;
    var t := Handle(env, s, m);
    SinceSnoc(h, Peer(m));
    ToldNothing(env, t.s.masterSecret, h);
    ToldNothing(env, t.s.masterSecret, h + [Peer(m)]);
    if m.kind == HELLO_VERIFY_REQUEST {
      if ReadCookie(m.body).Some? {
        VerifyTells(env, s, h, m, ReadCookie(m.body).value);
      }
    } else if m.kind == SERVER_HELLO_DONE {
      FlightTells(env, Accept(s, m, GotServerHelloDone), h + [Peer(m)]);
    }
  }

  lemma VerifyTells(env: Env, s: Session, h: seq<Entry>, m: Message, cookie: seq<byte>)
    requires m.kind == HELLO_VERIFY_REQUEST && ReadCookie(m.body) == Some(cookie) && s.phase != Failed
    ensures Keeps(HandleHelloVerify(s, m).s, AfterMessage(env, s, h, m))
  {
    hide ClientHelloBody, ReadCookie, SinceVerify, Told, Wrapped;
    var hello := Message(CLIENT_HELLO, ClientHelloBody(s.clientRandom, cookie));
    var cleared := s.(cookie := cookie, log := []);
    SinceSnoc(h, Peer(m));
    var t := Handle(env, s, m);
    EmitTells(env, t.s.masterSecret, cleared, h + [Peer(m)], hello, []);
    Unit(t.out);
    ToldNothing(env, t.s.masterSecret, h + [Peer(m)] + [Own(hello)]);
  }

  lemma {:induction false} MessagesTell(env: Env, s: Session, h: seq<Entry>, b: seq<byte>)
    requires Keeps(s, h) && s.phase != Failed
    ensures Keeps(Messages(env, s, b).s, AfterMessages(env, s, h, MessagesIn(b)))
    decreases |b|
  {
    hide Handle, ReadHeader, AfterMessage, SinceVerify;
    if |b| >= HEADER_BYTES {
      var header := ReadHeader(b);
      var end := HEADER_BYTES + header.length;
      if header.fragmentOffset == 0 && header.fragmentLength == header.length && end <= |b| {
        var m := Message(header.kind, b[HEADER_BYTES..end]);
        Cons(m, MessagesIn(b[end..]));
        HandleTells(env, s, h, m);
        if Handle(env, s, m).s.phase != Failed {
          MessagesTell(env, Handle(env, s, m).s, AfterMessage(env, s, h, m), b[end..]);
        }
      }
    }
  }

  lemma RecordTells(env: Env, s: Session, h: seq<Entry>, r: Record)
    requires Keeps(s, h) && s.phase != Failed
    ensures Keeps(ProcessRecord(env, s, r).s, AfterMessages(env, s, h, MessagesIn(Contents(env, s, r))))
  {
    hide Messages, AfterMessages, SinceVerify;
    NoMessages(env, s, h);
    MessagesTell(env, s, h, Contents(env, s, r));
  }

  lemma NoMessages(env: Env, s: Session, h: seq<Entry>)
    ensures AfterMessages(env, s, h, MessagesIn([])) == h
  {
  }

  lemma {:induction false} RecordsTell(env: Env, s: Session, h: seq<Entry>, data: seq<byte>)
    requires Keeps(s, h) && s.phase != Failed
    ensures Keeps(ProcessRecords(env, s, data).s, AfterRecords(env, s, h, RecordsIn(data)))
    decreases |data|
  {
    hide ProcessRecord, ReadRecord, AfterMessages, MessagesIn, Contents, SinceVerify;
    if data != [] && ReadRecord(data).Some? {
      var d := ReadRecord(data).value;
      Cons(d.record, RecordsIn(data[d.consumed..]));
      RecordTells(env, s, h, d.record);
      RecordFailsOnly(env, s, d.record);
      if ProcessRecord(env, s, d.record).ok {
        RecordsTell(env, ProcessRecord(env, s, d.record).s,
                    AfterMessages(env, s, h, MessagesIn(Contents(env, s, d.record))), data[d.consumed..]);
      }
    }
  }

  lemma StartTells(env: Env, s: Session, h: seq<Entry>, random: seq<byte>, priv: seq<byte>, pub: seq<byte>)
    requires Keeps(s, h)
    ensures
      var t := Initiate(s, random, priv, pub);
      Keeps(t.s, Told(env, s.masterSecret, h, t.out))
  {
    hide ClientHelloBody, Wrapped, SinceVerify, Told;
    var keyed := s.(clientRandom := random, ecdhPrivate := priv, ecdhPublic := pub);
    var hello := Message(CLIENT_HELLO, ClientHelloBody(random, []));
    EmitTells(env, s.masterSecret, keyed, h, hello, []);
    Unit(EmitMessage(keyed, hello).out);
    ToldNothing(env, s.masterSecret, h + [Own(hello)]);
  }

  lemma OpTells(env: Env, s: Session, h: seq<Entry>, op: Op)
    requires Keeps(s, h)
    ensures Keeps(Do(env, s, op).s, AfterOp(env, s, h, op))
  {
    hide ProcessRecords, AfterRecords, Initiate, SinceVerify;
    match op
    case Start(random, priv, pub) =>
      StartTells(env, s, h, random, priv, pub);
    case Datagram(data) =>
      if s.phase == Failed {
        assert AfterRecords(env, s, h, RecordsIn(data)) == h by { FailedHearsNothing(env, s, h, RecordsIn(data)); }
      } else {
        RecordsTell(env, s, h, data);
      }
    case AppData(plaintext) =>
      DataTellsNothing(env, s, h, plaintext);
  }

  lemma DataTellsNothing(env: Env, s: Session, h: seq<Entry>, plaintext: seq<byte>)
    ensures
      var e := EncryptAppData(env, s, plaintext);
      e.s.log == s.log && Told(env, s.masterSecret, h, e.out) == h
  {
    var out := EncryptAppData(env, s, plaintext).out;
    assert out != [] ==> out[0].kind == APPLICATION_DATA && out[1..] == [];
  }

  lemma FailedHearsNothing(env: Env, s: Session, h: seq<Entry>, rs: seq<Record>)
    requires s.phase == Failed
    ensures AfterRecords(env, s, h, rs) == h
  {
  }

  lemma {:induction false} RunTells(env: Env, s: Session, h: seq<Entry>, ops: seq<Op>)
    requires Keeps(s, h)
    ensures Keeps(Run(env, s, ops).s, History(env, s, h, ops))
    decreases |ops|
  {
    hide Do, AfterOp, Keeps;
    if ops != [] {
      OpTells(env, s, h, ops[0]);
      RunTells(env, Do(env, s, ops[0]).s, AfterOp(env, s, h, ops[0]), ops[1..]);
    }
  }

  /**
    On every run whatsoever the transcript consists of exactly the handshake messages that
    were accepted or sent since the last HelloVerifyRequest, in this order: none is missing
    and no other is in it. The request itself and the ClientHello before it are out
    (section 4.2.1 of RFC 6347).
  */
  lemma TranscriptOfRun(env: Env, ops: seq<Op>)
    ensures Run(env, FRESH, ops).s.log == SinceVerify(History(env, FRESH, [], ops))
  {
    hide Run, History;
    RunTells(env, FRESH, [], ops);
  }

  // ---------------------------------------------------------------------------
  // Its shape
  // ---------------------------------------------------------------------------

  /** Outputs have the sizes their algorithms define, and the own certificate fits. */
  ghost predicate Sane(env: Env) {
    && |env.certificate| + 6 < LIMIT24
    && (forall d: seq<byte> :: |env.sign(d)| < 0x1_0000)
    && (forall secret: seq<byte>, text: string, seed: seq<byte>, n: nat :: |env.prf(secret, text, seed, n)| == n)
  }

  /** The sizes of what is drawn for a session. */
  ghost predicate Sized(ops: seq<Op>) {
    forall i :: 0 <= i < |ops| && ops[i].Start? ==> |ops[i].random| == 32 && |ops[i].ecdhPublic| < 0x100
  }

  /**
    Every body fits its length and no HelloVerifyRequest is in the transcript. For a session
    that was started `once`, it starts with the latest ClientHello and holds no other one.
  */
  ghost predicate Logged(s: Session, once: bool) {
    && Short(s.log)
    && (forall i :: 0 <= i < |s.log| ==> s.log[i].kind != HELLO_VERIFY_REQUEST)
    && |s.ecdhPublic| < 0x100 && |s.clientRandom| == 32
    && (once ==>
          && s.log != [] && s.log[0] == Message(CLIENT_HELLO, ClientHelloBody(s.clientRandom, s.cookie))
          && forall i :: 1 <= i < |s.log| ==> s.log[i].kind != CLIENT_HELLO)
  }

  lemma HelloIsShort(random: seq<byte>, cookie: seq<byte>)
    requires |random| == 32 && |cookie| < 0x100
    ensures |ClientHelloBody(random, cookie)| < LIMIT24
  {
    hide BE16;
    assert |ClientExtensions()| < 100;
  }

  lemma AcceptLogged(s: Session, t: Session, m: Message, once: bool)
    requires Logged(s, once) && t.log == s.log + [m] && |m.body| < LIMIT24
    requires m.kind != HELLO_VERIFY_REQUEST && (once ==> m.kind != CLIENT_HELLO)
    requires t.clientRandom == s.clientRandom && t.cookie == s.cookie && t.ecdhPublic == s.ecdhPublic
    ensures Logged(t, once)
  {
    hide ClientHelloBody;
  }

  lemma SameLogged(s: Session, t: Session, once: bool)
    requires Logged(s, once) && t.log == s.log
    requires t.clientRandom == s.clientRandom && t.cookie == s.cookie && t.ecdhPublic == s.ecdhPublic
    ensures Logged(t, once)
  {
    hide ClientHelloBody;
  }

  lemma OwnBodiesShort(env: Env, s: Session)
    requires Sane(env)
    ensures |CertificateBytes([env.certificate])| < LIMIT24
    ensures |CertificateVerifyBody(env.sign(TranscriptDigest(env, s)))| < LIMIT24
    ensures |VerifyData(env, s, "client finished")| == 12
  {
    hide BE24, BE16, Transcript;
    assert [env.certificate][1..] == [];
    assert |ChainBytes([env.certificate])| == 3 + |env.certificate|;
  }

  lemma KeyBodyShort(point: seq<byte>)
    requires |point| < 0x100
    ensures |KeyExchangeBody(point)| < LIMIT24
  {
  }

  lemma FlightLogged(env: Env, s: Session, once: bool)
    requires Sane(env) && Logged(s, once)
    ensures Logged(ClientFlight(env, s).s, once)
  {
    hide DeriveKeys, CertificateBytes, KeyExchangeBody, CertificateVerifyBody, TranscriptDigest, VerifyData, Wrapped,
         Logged, Sane;
    var ma := Message(CERTIFICATE, CertificateBytes([env.certificate]));
    OwnBodiesShort(env, s);
    var a := EmitMessage(s, ma);
    AcceptLogged(s, a.s, ma, once);
    LoggedPoint(a.s, once);
    KeyBodyShort(a.s.ecdhPublic);
    var mb := Message(CLIENT_KEY_EXCHANGE, KeyExchangeBody(a.s.ecdhPublic));
    var b := EmitMessage(a.s, mb);
    var b' := b.s.(phase := SentClientKeyExchange);
    AcceptLogged(a.s, b', mb, once);
    OwnBodiesShort(env, b');
    var mc := Message(CERTIFICATE_VERIFY, CertificateVerifyBody(env.sign(TranscriptDigest(env, b'))));
    var c := EmitMessage(b', mc);
    AcceptLogged(b', c.s, mc, once);
    var keyed := DeriveKeys(env, c.s);
    DeriveKeepsLog(env, c.s);
    SameLogged(c.s, keyed, once);
    if keyed.phase != Failed && keyed.keys.Some? {
      FinishedLogged(env, keyed, once);
    }
  }

  lemma LoggedPoint(s: Session, once: bool)
    requires Logged(s, once)
    ensures |s.ecdhPublic| < 0x100
  {
  }

  lemma FinishedLogged(env: Env, s: Session, once: bool)
    requires Sane(env) && Logged(s, once) && s.keys.Some?
    ensures Logged(FinishedFlight(env, s).s, once)
  {
    hide Wrapped, Logged, VerifyData, Sane;
    var next := s.(phase := SentChangeCipherSpec, epoch := s.epoch + 1, recordSeq := 0);
    OwnBodiesShort(env, next);
    AcceptLogged(s, FinishedFlight(env, s).s, Message(FINISHED, VerifyData(env, next, "client finished")), once);
  }

  lemma HandleLogged(env: Env, s: Session, m: Message, once: bool)
    requires Sane(env) && Logged(s, once) && |m.body| < LIMIT24
    ensures Logged(Handle(env, s, m).s, once)
  {
    hide ClientFlight, ReadServerHello, ReadCertificates, ReadKeyExchange, VerifyData, Wrapped, Logged, Sane,
         ClientHelloBody;
    var t := Handle(env, s, m).s;
    if m.kind == HELLO_VERIFY_REQUEST {
      if ReadCookie(m.body).Some? {
        RestartLogged(s, t, ReadCookie(m.body).value, once);
      } else {
        SameLogged(s, t, once);
      }
    } else if m.kind == SERVER_HELLO_DONE {
      AcceptLogged(s, Accept(s, m, GotServerHelloDone), m, once);
      FlightLogged(env, Accept(s, m, GotServerHelloDone), once);
    } else if t.log == s.log {
      SameLogged(s, t, once);
    } else {
      AcceptLogged(s, t, m, once);
    }
  }

  lemma RestartLogged(s: Session, t: Session, cookie: seq<byte>, once: bool)
    requires Logged(s, once) && |cookie| < 0x100
    requires t.log == [Message(CLIENT_HELLO, ClientHelloBody(s.clientRandom, cookie))]
    requires t.clientRandom == s.clientRandom && t.cookie == cookie && t.ecdhPublic == s.ecdhPublic
    ensures Logged(t, once)
  {
    hide ClientHelloBody;
    HelloIsShort(s.clientRandom, cookie);
  }

  lemma {:induction false} MessagesLogged(env: Env, s: Session, b: seq<byte>, once: bool)
    requires Sane(env) && Logged(s, once)
    ensures Logged(Messages(env, s, b).s, once)
    decreases |b|
  {
    hide Handle, Logged, Sane, Read16;
    SameLogged(s, Fail(s), once);
    if |b| >= HEADER_BYTES {
      var h := ReadHeader(b);
      if h.fragmentOffset == 0 && h.fragmentLength == h.length && HEADER_BYTES + h.length <= |b| {
        var end := HEADER_BYTES + h.length;
        var m := Message(h.kind, b[HEADER_BYTES..end]);
        HandleLogged(env, s, m, once);
        if Handle(env, s, m).s.phase != Failed {
          MessagesLogged(env, Handle(env, s, m).s, b[end..], once);
        }
      }
    }
  }

  lemma RecordLogged(env: Env, s: Session, r: Record, once: bool)
    requires Sane(env) && Logged(s, once)
    ensures Logged(ProcessRecord(env, s, r).s, once)
  {
    hide Messages, Logged, Sane;
    SameLogged(s, Fail(s), once);
    SameLogged(s, s.(phase := GotChangeCipherSpec), once);
    MessagesLogged(env, s, r.payload, once);
    if s.keys.Some? {
      var plain := env.unseal(s.keys.value.serverKey, s.keys.value.serverIv,
                              Aad(r.epoch, r.sequence, HANDSHAKE), r.payload);
      if plain.Some? {
        MessagesLogged(env, s, plain.value, once);
      }
    }
  }

  lemma {:induction false} RecordsLogged(env: Env, s: Session, data: seq<byte>, once: bool)
    requires Sane(env) && Logged(s, once)
    ensures Logged(ProcessRecords(env, s, data).s, once)
    decreases |data|
  {
    hide ProcessRecord, ReadRecord, Logged, Sane;
    if data != [] && ReadRecord(data).Some? {
      var d := ReadRecord(data).value;
      RecordLogged(env, s, d.record, once);
      if ProcessRecord(env, s, d.record).ok {
        RecordsLogged(env, ProcessRecord(env, s, d.record).s, data[d.consumed..], once);
      }
    }
  }

  lemma InitiateLogged(s: Session, random: seq<byte>, priv: seq<byte>, pub: seq<byte>)
    requires Logged(s, false) && |random| == 32 && |pub| < 0x100
    ensures Logged(Initiate(s, random, priv, pub).s, false)
  {
    hide ClientHelloBody, Wrapped;
    HelloIsShort(random, []);
  }

  lemma {:induction false} RunLogged(env: Env, s: Session, ops: seq<Op>, once: bool)
    requires Sane(env) && Logged(s, once) && Sized(ops) && (once ==> forall i :: 0 <= i < |ops| ==> !ops[i].Start?)
    ensures Logged(Run(env, s, ops).s, once)
    decreases |ops|
  {
    hide ProcessRecords, Initiate, Logged, Sane;
    if ops != [] {
      var t := Do(env, s, ops[0]).s;
      match ops[0] {
        case Start(random, priv, pub) =>
          InitiateLogged(s, random, priv, pub);
        case Datagram(data) =>
          RecordsLogged(env, s, data, once);
        case AppData(plaintext) =>
          SameLogged(s, t, once);
      }
      RunLogged(env, t, ops[1..], once);
    }
  }

  /**
    On every run the transcript's bytes can be parsed in exactly one way, into those messages:
    what is hashed determines the history since the last HelloVerifyRequest.
  */
  lemma TranscriptParsesBack(env: Env, ops: seq<Op>)
    requires Sane(env) && Sized(ops)
    ensures ReadTranscript(Transcript(Run(env, FRESH, ops).s.log)) == Some(SinceVerify(History(env, FRESH, [], ops)))
  {
    hide Logged, Sane, Short, Run, History;
    FreshLogged();
    RunLogged(env, FRESH, ops, false);
    LoggedShort(Run(env, FRESH, ops).s, false);
    TranscriptParses(Run(env, FRESH, ops).s.log);
    TranscriptOfRun(env, ops);
  }

  /**
    On every run of a session that was started once, the transcript begins with the latest
    ClientHello and contains no other opening message.
  */
  lemma TranscriptOpens(env: Env, random: seq<byte>, priv: seq<byte>, pub: seq<byte>, ops: seq<Op>)
    requires Sane(env) && |random| == 32 && |pub| < 0x100
    requires forall i :: 0 <= i < |ops| ==> !ops[i].Start?
    ensures Logged(Run(env, FRESH, [Start(random, priv, pub)] + ops).s, true)
  {
    hide Logged, Sane, Initiate;
    var started := Initiate(FRESH, random, priv, pub).s;
    StartLogged(random, priv, pub);
    Cons(Start(random, priv, pub), ops);
    RunLogged(env, started, ops, true);
  }

  lemma FreshLogged()
    ensures Logged(FRESH, false)
  {
  }

  lemma LoggedShort(s: Session, once: bool)
    requires Logged(s, once)
    ensures Short(s.log)
  {
  }

  lemma StartLogged(random: seq<byte>, priv: seq<byte>, pub: seq<byte>)
    requires |random| == 32 && |pub| < 0x100
    ensures Logged(Initiate(FRESH, random, priv, pub).s, true)
  {
    hide ClientHelloBody, Wrapped;
    HelloIsShort(random, []);
    var m := Message(CLIENT_HELLO, ClientHelloBody(random, []));
    assert [] + [m] == [m];
  }
}
