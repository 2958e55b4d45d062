/**
  Which handshake messages a DTLS session accepts: exactly those that meet the client's
  conditions. Over every run the server's certificate, its cipher suite, its point and its
  Finished have been checked before they enter the transcript.
*/
module DtlsAcceptance {
  import opened Bytes
  import opened SeqFacts
  import opened DtlsRecord
  import opened DtlsHandshake
  import opened DtlsSessionSpec
  import opened DtlsSessionLaws
  import opened DtlsTranscript

  // ---------------------------------------------------------------------------
  // Conditions
  // ---------------------------------------------------------------------------

  /** A certificate chain whose first entry has the fingerprint that signaling announced. */
  predicate Trusted(env: Env, body: seq<byte>) {
    var chain := ReadCertificates(body);
    chain.Some? && |chain.value| > 0 && env.sha256(chain.value[0]) == env.peerFingerprint
  }

  /** ECDHE with ECDSA, AES-128-GCM and SHA-256. */
  predicate SuitableHello(body: seq<byte>) {
    ReadServerHello(body).Some? && ReadServerHello(body).value.cipherSuite == 0xC02B
  }

  /** An uncompressed point of the curve P-256. */
  predicate SuitablePoint(body: seq<byte>) {
    var k := ReadKeyExchange(body);
    k.Some? && k.value.namedCurve == 0x0017 && |k.value.publicPoint| == 65 && k.value.publicPoint[0] == 0x04
  }

  /** What is asked of a message by itself. */
  predicate Meets(env: Env, m: Message) {
    && (m.kind == CERTIFICATE ==> Trusted(env, m.body))
    && (m.kind == SERVER_HELLO ==> SuitableHello(m.body))
    && (m.kind == SERVER_KEY_EXCHANGE ==> SuitablePoint(m.body))
    && (m.kind == HELLO_VERIFY_REQUEST ==> ReadCookie(m.body).Some?)
  }

  /** The server's Finished over the messages exchanged before it (section 7.4.9 of RFC 5246). */
  predicate RightFinished(env: Env, secret: seq<byte>, h: seq<Entry>, m: Message) {
    var expected := env.prf(secret, "server finished", env.sha256(Transcript(SinceVerify(h))), 12);
    |m.body| == 12 && |expected| >= 12 && m.body == expected[..12]
  }

  /**
    A session that has not failed accepts exactly the messages that meet the conditions; over
    any other message that it takes part in it fails, and the rest it ignores.
  */
  lemma AcceptedIff(env: Env, s: Session, h: seq<Entry>, m: Message)
    requires Keeps(s, h) && s.phase != Failed
    ensures
      var t := Handle(env, s, m);
      && (Accepted(m, t.s) <==>
            && TakesPart(m.kind) && Meets(env, m)
            && (m.kind == FINISHED ==> RightFinished(env, s.masterSecret, h, m)))
      && (TakesPart(m.kind) && !Accepted(m, t.s) ==> t.s.phase == Failed && t.out == [])
      && (!TakesPart(m.kind) ==> t == Step(s, []))
  {
    hide ClientFlight, ReadServerHello, ReadCertificates, ReadKeyExchange, ReadCookie, ClientHelloBody, EmitMessage,
         SinceVerify;
    EmitKeepsPhase(s.(cookie := [], log := []), Message(CLIENT_HELLO, []));
  }

  lemma EmitKeepsPhase(s: Session, m: Message)
    ensures EmitMessage(s, m).s.phase == s.phase
  {
  }

  /** The state that each accepted message leads to. */
  function StateAfter(kind: byte, before: Phase): Phase {
    if kind == HELLO_VERIFY_REQUEST then SentClientHelloWithCookie
    else if kind == SERVER_HELLO then GotServerHello
    else if kind == CERTIFICATE then GotServerCertificate
    else if kind == SERVER_KEY_EXCHANGE then GotServerKeyExchange
    else if kind == FINISHED then Established
    else before
  }

  /** What an accepted message leaves in the session, besides the transcript. */
  lemma AcceptedLeaves(env: Env, s: Session, m: Message)
    requires Accepted(m, Handle(env, s, m).s) && m.kind != SERVER_HELLO_DONE
    ensures
      var t := Handle(env, s, m).s;
      && t.phase == StateAfter(m.kind, s.phase)
      && (m.kind == CERTIFICATE ==> ReadCertificates(m.body).Some? && |ReadCertificates(m.body).value| > 0
                                    && t.serverCertificate == ReadCertificates(m.body).value[0])
      && (m.kind == SERVER_HELLO ==>
            && ReadServerHello(m.body).Some? && t.serverRandom == ReadServerHello(m.body).value.random
            && t.extendedMasterSecret == ReadServerHello(m.body).value.extendedMasterSecret)
      && (m.kind == SERVER_KEY_EXCHANGE ==>
            ReadKeyExchange(m.body).Some? && t.serverPoint == ReadKeyExchange(m.body).value.publicPoint)
      && (m.kind == HELLO_VERIFY_REQUEST ==> ReadCookie(m.body).Some? && t.cookie == ReadCookie(m.body).value)
      && t.clientRandom == s.clientRandom && t.ecdhPrivate == s.ecdhPrivate && t.ecdhPublic == s.ecdhPublic
      && t.masterSecret == s.masterSecret && t.keys == s.keys
  {
    hide ReadServerHello, ReadCertificates, ReadKeyExchange, ReadCookie, ClientHelloBody, VerifyData, Wrapped;
  }

  // ---------------------------------------------------------------------------
  // Over runs
  // ---------------------------------------------------------------------------

  /** The entry at `i` was checked: against its own contents, or against the history before it. */
  ghost predicate Checked(env: Env, h: seq<Entry>, i: nat)
    requires i < |h|
  {
    h[i].Peer? ==>
      && TakesPart(h[i].m.kind) && Meets(env, h[i].m)
      && (h[i].m.kind == FINISHED ==> exists secret: seq<byte> :: RightFinished(env, secret, h[..i], h[i].m))
  }

  ghost predicate AllChecked(env: Env, h: seq<Entry>) {
    forall i :: 0 <= i < |h| ==> Checked(env, h, i)
  }

  /** The peer's Finished is in the history. */
  ghost predicate Finished(h: seq<Entry>) {
    exists i :: 0 <= i < |h| && h[i].Peer? && h[i].m.kind == FINISHED
  }

  ghost predicate Sound(env: Env, s: Session, h: seq<Entry>) {
    Keeps(s, h) && AllChecked(env, h) && (s.phase == Established ==> Finished(h))
  }

  lemma CheckedMore(env: Env, h: seq<Entry>, e: Entry, i: nat)
    requires i < |h|
    ensures Checked(env, h + [e], i) == Checked(env, h, i)
  {
    hide RightFinished, Meets;
    assert (h + [e])[..i] == h[..i];
  }

  lemma OwnChecked(env: Env, h: seq<Entry>, m: Message)
    requires AllChecked(env, h)
    ensures AllChecked(env, h + [Own(m)]) && (Finished(h) ==> Finished(h + [Own(m)]))
  {
    hide Checked;
    var all := h + [Own(m)];
    forall i | 0 <= i < |all|
      ensures Checked(env, all, i)
    {
      if i < |h| {
        CheckedMore(env, h, Own(m), i);
      } else {
        OwnIsChecked(env, all, i);
      }
    }
    if Finished(h) {
      var i :| 0 <= i < |h| && h[i].Peer? && h[i].m.kind == FINISHED;
      assert all[i] == h[i];
    }
  }

  lemma OwnIsChecked(env: Env, h: seq<Entry>, i: nat)
    requires i < |h| && h[i].Own?
    ensures Checked(env, h, i)
  {
  }

  lemma PeerChecked(env: Env, secret: seq<byte>, h: seq<Entry>, m: Message)
    requires AllChecked(env, h) && TakesPart(m.kind) && Meets(env, m)
    requires m.kind == FINISHED ==> RightFinished(env, secret, h, m)
    ensures AllChecked(env, h + [Peer(m)]) && (Finished(h) || m.kind == FINISHED ==> Finished(h + [Peer(m)]))
  {
    hide RightFinished, Meets, Checked;
    var all := h + [Peer(m)];
    forall i | 0 <= i < |all|
      ensures Checked(env, all, i)
    {
      if i < |h| {
        CheckedMore(env, h, Peer(m), i);
      } else {
        assert all[..i] == h && all[i] == Peer(m);
        LastIsChecked(env, secret, all, i);
      }
    }
    if Finished(h) {
      var i :| 0 <= i < |h| && h[i].Peer? && h[i].m.kind == FINISHED;
      assert all[i] == h[i];
    } else if m.kind == FINISHED {
      assert all[|h|] == Peer(m);
    }
  }

  lemma LastIsChecked(env: Env, secret: seq<byte>, h: seq<Entry>, i: nat)
    requires i < |h| && h[i].Peer? && TakesPart(h[i].m.kind) && Meets(env, h[i].m)
    requires h[i].m.kind == FINISHED ==> RightFinished(env, secret, h[..i], h[i].m)
    ensures Checked(env, h, i)
  {
    hide RightFinished, Meets;
  }

  lemma {:induction false} ToldChecked(env: Env, secret: seq<byte>, h: seq<Entry>, out: seq<Sent>)
    requires AllChecked(env, h)
    ensures AllChecked(env, Told(env, secret, h, out)) && (Finished(h) ==> Finished(Told(env, secret, h, out)))
    decreases |out|
  {
    hide AllChecked, Finished, ClientFinished;
    if out != [] {
      if out[0].kind == CHANGE_CIPHER_SPEC {
        OwnChecked(env, h, ClientFinished(env, secret, h));
      } else if out[0].kind == HANDSHAKE && |out[0].payload| >= HEADER_BYTES {
        var m := Message(out[0].payload[0], out[0].payload[HEADER_BYTES..]);
        OwnChecked(env, h, m);
        ToldChecked(env, secret, h + [Own(m)], out[1..]);
      } else {
        ToldChecked(env, secret, h, out[1..]);
      }
    }
  }

  /** Only the peer's Finished establishes a session. */
  lemma EstablishedBy(env: Env, s: Session, m: Message)
    requires s.phase != Failed
    ensures
      var t := Handle(env, s, m).s;
      t.phase == Established ==> s.phase == Established || (m.kind == FINISHED && Accepted(m, t))
  {
    hide ReadServerHello, ReadCertificates, ReadKeyExchange, ReadCookie, ClientHelloBody, VerifyData, EmitMessage,
         ClientFlight;
    if m.kind == SERVER_HELLO_DONE {
      FlightPhase(env, Accept(s, m, GotServerHelloDone));
    }
  }

  lemma FlightPhase(env: Env, s: Session)
    ensures ClientFlight(env, s).s.phase in {SentClientKeyExchange, SentFinished, Failed}
  {
    hide CertificateBytes, KeyExchangeBody, CertificateVerifyBody, TranscriptDigest, Wrapped, VerifyData, MasterSecret;
  }

  lemma HandleSound(env: Env, s: Session, h: seq<Entry>, m: Message)
    requires Sound(env, s, h) && s.phase != Failed
    ensures Sound(env, Handle(env, s, m).s, AfterMessage(env, s, h, m))
  {
    hide Handle, Told, RightFinished, Meets, AllChecked, Finished, Keeps, Accepted, TakesPart;
    var t := Handle(env, s, m);
    HandleTells(env, s, h, m);
    AcceptedIff(env, s, h, m);
    EstablishedBy(env, s, m);
    var heard := if Accepted(m, t.s) then h + [Peer(m)] else h;
    if Accepted(m, t.s) {
      PeerChecked(env, s.masterSecret, h, m);
    }
    ToldChecked(env, t.s.masterSecret, heard, t.out);
  }

  lemma {:induction false} MessagesSound(env: Env, s: Session, h: seq<Entry>, b: seq<byte>)
    requires Sound(env, s, h) && s.phase != Failed
    ensures Sound(env, Messages(env, s, b).s, AfterMessages(env, s, h, MessagesIn(b)))
    decreases |b|
  {
    hide Handle, ReadHeader, AfterMessage, Sound;
    if |b| >= HEADER_BYTES {
      var header := ReadHeader(b);
      var end := HEADER_BYTES + header.length;
      if header.fragmentOffset == 0 && header.fragmentLength == header.length && end <= |b| {
        var m := Message(header.kind, b[HEADER_BYTES..end]);
        Cons(m, MessagesIn(b[end..]));
        HandleSound(env, s, h, m);
        if Handle(env, s, m).s.phase != Failed {
          MessagesSound(env, Handle(env, s, m).s, AfterMessage(env, s, h, m), b[end..]);
        }
      } else {
        SamePhaseSound(env, s, Fail(s), h);
      }
    }
  }

  /** A change that touches neither the log nor establishes anything. */
  lemma SamePhaseSound(env: Env, s: Session, t: Session, h: seq<Entry>)
    requires Sound(env, s, h) && t.log == s.log && t.phase != Established
    ensures Sound(env, t, h)
  {
    hide AllChecked;
  }

  lemma RecordSound(env: Env, s: Session, h: seq<Entry>, r: Record)
    requires Sound(env, s, h) && s.phase != Failed
    ensures Sound(env, ProcessRecord(env, s, r).s, AfterMessages(env, s, h, MessagesIn(Contents(env, s, r))))
  {
    hide Messages, AfterMessages, Sound;
    NoMessages(env, s, h);
    SamePhaseSound(env, s, Fail(s), h);
    SamePhaseSound(env, s, s.(phase := GotChangeCipherSpec), h);
    MessagesSound(env, s, h, Contents(env, s, r));
  }

  lemma {:induction false} RecordsSound(env: Env, s: Session, h: seq<Entry>, data: seq<byte>)
    requires Sound(env, s, h) && s.phase != Failed
    ensures Sound(env, ProcessRecords(env, s, data).s, AfterRecords(env, s, h, RecordsIn(data)))
    decreases |data|
  {
    hide ProcessRecord, ReadRecord, AfterMessages, MessagesIn, Contents, Sound;
    if data != [] && ReadRecord(data).Some? {
      var d := ReadRecord(data).value;
      Cons(d.record, RecordsIn(data[d.consumed..]));
      RecordSound(env, s, h, d.record);
      RecordFailsOnly(env, s, d.record);
      if ProcessRecord(env, s, d.record).ok {
        RecordsSound(env, ProcessRecord(env, s, d.record).s,
                     AfterMessages(env, s, h, MessagesIn(Contents(env, s, d.record))), data[d.consumed..]);
      }
    }
  }

  lemma OpSound(env: Env, s: Session, h: seq<Entry>, op: Op)
    requires Sound(env, s, h)
    ensures Sound(env, Do(env, s, op).s, AfterOp(env, s, h, op))
  {
    hide ProcessRecords, AfterRecords, Initiate, Keeps, AllChecked, Finished, Told;
    OpTells(env, s, h, op);
    match op
    case Start(random, priv, pub) =>
      InitiatePhase(s, random, priv, pub);
      ToldChecked(env, s.masterSecret, h, Initiate(s, random, priv, pub).out);
    case Datagram(data) =>
      if s.phase == Failed {
        FailedHearsNothing(env, s, h, RecordsIn(data));
      } else {
        RecordsSound(env, s, h, data);
      }
    case AppData(plaintext) =>
      DataTellsNothing(env, s, h, plaintext);
  }

  lemma InitiatePhase(s: Session, random: seq<byte>, priv: seq<byte>, pub: seq<byte>)
    ensures Initiate(s, random, priv, pub).s.phase == SentClientHello
  {
    hide Wrapped, ClientHelloBody;
  }

  lemma {:induction false} RunSound(env: Env, s: Session, h: seq<Entry>, ops: seq<Op>)
    requires Sound(env, s, h)
    ensures Sound(env, Run(env, s, ops).s, History(env, s, h, ops))
    decreases |ops|
  {
    hide Do, AfterOp, Sound;
    if ops != [] {
      OpSound(env, s, h, ops[0]);
      RunSound(env, Do(env, s, ops[0]).s, AfterOp(env, s, h, ops[0]), ops[1..]);
    }
  }

  /**
    On every run: each message that was accepted from a datagram had met its condition. In
    particular every certificate chain begins with the certificate that signaling announced,
    and every Finished covers the history before it. A session is established only when the
    peer's Finished is in the history.
  */
  lemma TrustOfRun(env: Env, ops: seq<Op>)
    ensures
      var s, h := Run(env, FRESH, ops).s, History(env, FRESH, [], ops);
      && (forall i :: 0 <= i < |h| ==> Checked(env, h, i))
      && (s.phase == Established ==> Finished(h))
  {
    hide Run, History, Checked;
    RunSound(env, FRESH, [], ops);
  }

  /** For certificates alone. */
  lemma CertificatesOfRun(env: Env, ops: seq<Op>, m: Message)
    requires Peer(m) in History(env, FRESH, [], ops) && m.kind == CERTIFICATE
    ensures Trusted(env, m.body)
  {
    hide Run, History, RightFinished, Trusted;
    TrustOfRun(env, ops);
    var h := History(env, FRESH, [], ops);
    var i :| 0 <= i < |h| && h[i] == Peer(m);
    assert Checked(env, h, i);
  }
}
