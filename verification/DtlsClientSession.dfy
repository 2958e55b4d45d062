/** The session as the program runs it: an object with wrapping counters and a raw transcript. */
module DtlsClientSession {
  import opened Bytes
  import opened SeqFacts
  import opened DtlsRecord
  import opened DtlsHandshake
  import opened DtlsDecoders
  import opened DtlsSessionSpec
  import Spec = DtlsSessionSpec

  /** The datagrams for emitted records. */
  function Wire(out: seq<Sent>): (r: seq<seq<byte>>)
    ensures |r| == |out|
  {
    seq(|out|, i requires 0 <= i < |out| => OnWire(out[i]))
  }

  lemma WireConcat(a: seq<Sent>, b: seq<Sent>)
    ensures Wire(a + b) == Wire(a) + Wire(b)
  {
    hide OnWire;
  }

  lemma WireOne(d: Sent)
    ensures Wire([d]) == [OnWire(d)]
  {
    hide OnWire;
  }

  /** What sealing the Finished leaves and sends. */
  function SealedFinished(env: Env, s: Session, wrapped: seq<byte>): (Session, seq<seq<byte>>) {
    if s.keys.None? then (s, [])
    else
      var sealed := env.seal(s.keys.value.clientKey, s.keys.value.clientIv,
                             Aad(s.epoch % 0x1_0000, s.recordSeq % 0x1_0000_0000_0000_0000, HANDSHAKE), wrapped);
      if sealed.None? then (Fail(s), [])
      else
        var e := Emit(s, HANDSHAKE, sealed.value);
        (e.s.(phase := SentFinished), Wire(e.out))
  }

  lemma FlightOnWire(env: Env, before: Session, entered: Session, wrapped: seq<byte>, sealed: seq<seq<byte>>)
    requires before.keys.Some?
    requires
      var next := before.(phase := SentChangeCipherSpec, epoch := before.epoch + 1, recordSeq := 0);
      var m := Message(FINISHED, VerifyData(env, next, "client finished"));
      && wrapped == Wrapped(m, before.messageSeq % 0x1_0000)
      && entered == next.(messageSeq := before.messageSeq + 1, log := before.log + [m])
    requires SealedFinished(env, entered, wrapped).1 == sealed
    ensures
      var f := FinishedFlight(env, before);
      && f.s == SealedFinished(env, entered, wrapped).0
      && Wire(f.out) == Wire(Emit(before, CHANGE_CIPHER_SPEC, [1]).out) + sealed
  {
    hide OnWire, VerifyData, Wrapped, Wire;
    var f := FinishedFlight(env, before);
    WireConcat(f.out[..1], f.out[1..]);
    assert f.out == f.out[..1] + f.out[1..];
    WireNothing();
  }

  lemma WireNothing()
    ensures Wire([]) == []
  {
  }

  lemma NextShort(n: nat)
    ensures (n % 0x1_0000 + 1) % 0x1_0000 == (n + 1) % 0x1_0000
  {
  }

  lemma NextLong(n: nat)
    ensures (n % 0x1_0000_0000_0000_0000 + 1) % 0x1_0000_0000_0000_0000 == (n + 1) % 0x1_0000_0000_0000_0000
  {
  }

  class ClientSession {
    const env: Env
    var phase: Phase
    var clientRandom: seq<byte>
    var serverRandom: seq<byte>
    var cookie: seq<byte>
    var serverPublicPoint: seq<byte>
    var ecdhPrivate: seq<byte>
    var ecdhPublic: seq<byte>
    var serverCertDer: seq<byte>
    var extendedMasterSecret: bool
    var clientMessageSeq: u16
    var clientEpoch: u16
    var clientRecordSeq: u64
    var masterSecret: seq<byte>
    var keys: Option<Keys>
    var transcript: seq<byte>
    ghost var model: Session

    ghost predicate Valid()
      reads this
    {
      && model == Session(phase, clientRandom, serverRandom, cookie, serverPublicPoint, ecdhPrivate, ecdhPublic,
                          serverCertDer, extendedMasterSecret, model.messageSeq, model.epoch, model.recordSeq,
                          masterSecret, keys, model.log)
      && Counters()
    }

    /** Counters and transcript against their exact counterparts. */
    ghost predicate Counters()
      reads this
    {
      && clientMessageSeq == model.messageSeq % 0x1_0000
      && clientEpoch == model.epoch % 0x1_0000
      && clientRecordSeq == model.recordSeq % 0x1_0000_0000_0000_0000
      && transcript == Transcript(model.log)
    }

    constructor (env: Env)
      ensures Valid() && model == FRESH && this.env == env
    {
      this.env := env;
      phase, clientRandom, serverRandom, cookie := Initial, Zeros(32), Zeros(32), [];
      serverPublicPoint, ecdhPrivate, ecdhPublic, serverCertDer := [], [], [], [];
      extendedMasterSecret, clientMessageSeq, clientEpoch, clientRecordSeq := true, 0, 0, 0;
      masterSecret, keys, transcript, model := [], None, [], FRESH;
    }

    method SetFailed()
      requires Valid()
      modifies `phase, `model
      ensures Valid() && model == Fail(old(model))
    {
      hide Transcript;
      phase := Failed;
      model := Fail(model);
    }

    /** One record around a payload, numbered. */
    method WrapRecord(kind: byte, payload: seq<byte>) returns (datagram: seq<byte>)
      requires Valid()
      modifies `clientRecordSeq, `model
      ensures Valid()
      ensures var e := Emit(old(model), kind, payload); model == e.s && datagram == OnWire(e.out[0])
    {
      hide RecordBytes, Transcript;
      datagram := Encode(Record(kind, VERSION_12, clientEpoch, clientRecordSeq, payload));
      NextLong(model.recordSeq);
      clientRecordSeq := (clientRecordSeq + 1) % 0x1_0000_0000_0000_0000;
      model := model.(recordSeq := model.recordSeq + 1);
    }

    method AppendToHandshakeHash(m: Message)
      requires Valid()
      modifies `transcript, `model
      ensures Valid() && model == old(model).(log := old(model).log + [m])
    {
      hide Transcript, TlsBytes;
      TranscriptAppend(model.log, m);
      var bytes := TlsLikeTranscriptBytes(m);
      transcript := transcript + bytes;
      model := model.(log := model.log + [m]);
    }

    /** A message numbered and entered into the transcript. */
    method EnterMessage(m: Message) returns (wrapped: seq<byte>)
      requires Valid()
      modifies `clientMessageSeq, `transcript, `model
      ensures Valid() && wrapped == Wrapped(m, old(model).messageSeq % 0x1_0000)
      ensures model == old(model).(messageSeq := old(model).messageSeq + 1, log := old(model).log + [m])
    {
      hide Transcript, Wrapped;
      wrapped := WrapHandshakeUnfragmented(m, clientMessageSeq);
      NextShort(model.messageSeq);
      clientMessageSeq := (clientMessageSeq + 1) % 0x1_0000;
      model := model.(messageSeq := model.messageSeq + 1);
      AppendToHandshakeHash(m);
    }

    /** A handshake message in a record of its own, entered into the transcript. */
    method SendMessage(m: Message) returns (datagram: seq<byte>)
      requires Valid()
      modifies `clientMessageSeq, `clientRecordSeq, `transcript, `model
      ensures Valid()
      ensures var e := EmitMessage(old(model), m); model == e.s && datagram == OnWire(e.out[0])
    {
      hide Transcript, Wrapped, OnWire;
      var wrapped := EnterMessage(m);
      datagram := WrapRecord(HANDSHAKE, wrapped);
    }

    method Initiate(random: seq<byte>, priv: seq<byte>, pub: seq<byte>) returns (out: seq<seq<byte>>)
      requires Valid()
      modifies this
      ensures Valid()
      ensures var e := Spec.Initiate(old(model), random, priv, pub); model == e.s && out == Wire(e.out)
    {
      hide Transcript, ClientHelloBody, Wrapped, OnWire;
      clientRandom, ecdhPrivate, ecdhPublic := random, priv, pub;
      model := model.(clientRandom := random, ecdhPrivate := priv, ecdhPublic := pub);
      ghost var keyed := model;
      var datagram := SendMessage(Message(CLIENT_HELLO, ClientHelloBody(random, [])));
      out := [datagram];
      WireOne(EmitMessage(keyed, Message(CLIENT_HELLO, ClientHelloBody(random, []))).out[0]);
      phase := SentClientHello;
      model := model.(phase := SentClientHello);
    }

    /** Key agreement, master secret and the two directions' keys. */
    method DeriveKeysAndCipher()
      requires Valid()
      modifies `phase, `masterSecret, `keys, `model
      ensures Valid() && model == DeriveKeys(env, old(model))
    {
      hide Transcript;
      ghost var before := model;
      if |serverPublicPoint| != 65 || |ecdhPrivate| != 32 {
        SetFailed();
        return;
      }
      var shared := env.ecdh(ecdhPrivate, serverPublicPoint);
      if shared.None? {
        SetFailed();
        return;
      }
      if extendedMasterSecret {
        masterSecret := env.prf(shared.value, "extended master secret", env.sha256(transcript), 48);
      } else {
        masterSecret := env.prf(shared.value, "master secret", clientRandom + serverRandom, 48);
      }
      model := model.(masterSecret := masterSecret);
      assert masterSecret == MasterSecret(env, before, shared.value);
      var block := env.prf(masterSecret, "key expansion", serverRandom + clientRandom, 40);
      if |block| != 40 {
        SetFailed();
        return;
      }
      keys := Some(Keys(block[..16], block[16..32], block[32..36], block[36..]));
      model := model.(keys := keys);
    }

    method BuildClientFinishedFlight() returns (out: seq<seq<byte>>)
      requires Valid() && keys.Some?
      modifies `phase, `clientMessageSeq, `clientEpoch, `clientRecordSeq, `transcript, `model
      ensures Valid()
      ensures var f := FinishedFlight(env, old(model)); model == f.s && out == Wire(f.out)
    {
      hide Valid, Transcript, Wrapped, OnWire, Wire, VerifyData;
      ghost var before := model;
      ghost var sentCcs := Emit(before, CHANGE_CIPHER_SPEC, [1]).out;
      SameKeys();
      var ccs := SendChangeCipherSpec();
      WireOne(sentCcs[0]);
      var wrapped := EnterFinished();
      ghost var entered := model;
      var sealed := SealFinished(wrapped);
      out := [ccs] + sealed;
      FlightOnWire(env, before, entered, wrapped, sealed);
    }

    lemma SameKeys()
      requires Valid()
      ensures model.keys == keys
    {
    }

    /** Sealed under the new keys as a record of its own; nothing goes out if that fails. */
    method SealFinished(wrapped: seq<byte>) returns (sent: seq<seq<byte>>)
      requires Valid() && keys.Some?
      modifies `phase, `clientRecordSeq, `model
      ensures Valid()
      ensures (model, sent) == SealedFinished(env, old(model), wrapped)
    {
      hide Transcript, OnWire;
      var encrypted := env.seal(keys.value.clientKey, keys.value.clientIv, Aad(clientEpoch, clientRecordSeq, HANDSHAKE), wrapped);
      if encrypted.None? {
        SetFailed();
        return [];
      }
      ghost var record := Emit(model, HANDSHAKE, encrypted.value).out[0];
      var finished := SendFinished(encrypted.value);
      WireOne(record);
      sent := [finished];
    }

    /** The Finished over the transcript so far, entered into it. */
    method EnterFinished() returns (wrapped: seq<byte>)
      requires Valid()
      modifies `clientMessageSeq, `transcript, `model
      ensures Valid()
      ensures
        var m := Message(FINISHED, VerifyData(env, old(model), "client finished"));
        && wrapped == Wrapped(m, old(model).messageSeq % 0x1_0000)
        && model == old(model).(messageSeq := old(model).messageSeq + 1, log := old(model).log + [m])
    {
      hide Transcript, Wrapped;
      var verifyData := env.prf(masterSecret, "client finished", env.sha256(transcript), 12);
      assert verifyData == VerifyData(env, model, "client finished");
      wrapped := EnterMessage(Message(FINISHED, verifyData));
    }

    method SendFinished(encrypted: seq<byte>) returns (datagram: seq<byte>)
      requires Valid()
      modifies `phase, `clientRecordSeq, `model
      ensures Valid()
      ensures
        var e := Emit(old(model), HANDSHAKE, encrypted);
        model == e.s.(phase := SentFinished) && datagram == OnWire(e.out[0])
    {
      hide Transcript, OnWire;
      datagram := WrapRecord(HANDSHAKE, encrypted);
      phase := SentFinished;
      model := model.(phase := SentFinished);
    }

    /** Sent in the old epoch; the record numbers then start over in the protected one. */
    method SendChangeCipherSpec() returns (datagram: seq<byte>)
      requires Valid()
      modifies `phase, `clientEpoch, `clientRecordSeq, `model
      ensures Valid() && datagram == OnWire(Emit(old(model), CHANGE_CIPHER_SPEC, [1]).out[0])
      ensures model == old(model).(phase := SentChangeCipherSpec, epoch := old(model).epoch + 1, recordSeq := 0)
    {
      hide Transcript, OnWire;
      datagram := WrapRecord(CHANGE_CIPHER_SPEC, [1]);
      NextShort(model.epoch);
      phase := SentChangeCipherSpec;
      clientEpoch := (clientEpoch + 1) % 0x1_0000;
      clientRecordSeq := 0;
      model := model.(phase := SentChangeCipherSpec, epoch := model.epoch + 1, recordSeq := 0);
    }

    /** Everything the client answers to ServerHelloDone. */
    method SendFlight() returns (out: seq<seq<byte>>)
      requires Valid()
      modifies this
      ensures Valid()
      ensures var f := ClientFlight(env, old(model)); model == f.s && out == Wire(f.out)
    {
      hide Transcript, OnWire, DeriveKeys, FinishedFlight, EmitMessage, CertificateBytes, KeyExchangeBody, CertificateVerifyBody;
      ghost var s := model;
      var ma := Message(CERTIFICATE, CertificateBytes([env.certificate]));
      var a := SendMessage(ma);
      ghost var ea := EmitMessage(s, ma);
      MessageIsOne(s, ma);
      var mb := Message(CLIENT_KEY_EXCHANGE, KeyExchangeBody(ecdhPublic));
      var b := SendMessage(mb);
      ghost var eb := EmitMessage(ea.s, mb);
      MessageIsOne(ea.s, mb);
      phase := SentClientKeyExchange;
      model := model.(phase := SentClientKeyExchange);
      ghost var sb := model;
      var mc := Message(CERTIFICATE_VERIFY, CertificateVerifyBody(env.sign(env.sha256(transcript))));
      var c := SendMessage(mc);
      ghost var ec := EmitMessage(sb, mc);
      MessageIsOne(sb, mc);
      out := [a, b, c];
      ThreeOnWire(ea.out, eb.out, ec.out);
      DeriveKeysAndCipher();
      if phase == Failed || keys.None? {
        return;
      }
      ghost var f := FinishedFlight(env, model);
      var finished := BuildClientFinishedFlight();
      WireConcat(ea.out + eb.out + ec.out, f.out);
      out := out + finished;
    }

    /** One decoded handshake message; message order is not enforced. */
    method HandleHandshakeMessage(m: Message) returns (out: seq<seq<byte>>)
      requires Valid()
      modifies this
      ensures Valid()
      ensures var h := Handle(env, old(model), m); model == h.s && out == Wire(h.out)
    {
      hide Transcript, OnWire, ClientFlight, EmitMessage, ReadServerHello, ReadCertificates, ReadKeyExchange, ReadCookie,
           ClientHelloBody, VerifyData;
      ghost var s := model;
      out := [];
      if m.kind == HELLO_VERIFY_REQUEST {
        out := OnHelloVerifyRequest(m);
      } else if m.kind == SERVER_HELLO {
        OnServerHello(m);
      } else if m.kind == CERTIFICATE {
        OnCertificate(m);
      } else if m.kind == SERVER_KEY_EXCHANGE {
        OnServerKeyExchange(m);
      } else if m.kind == CERTIFICATE_REQUEST {
        AppendToHandshakeHash(m);
      } else if m.kind == SERVER_HELLO_DONE {
        AppendToHandshakeHash(m);
        phase := GotServerHelloDone;
        model := model.(phase := GotServerHelloDone);
        out := SendFlight();
      } else if m.kind == FINISHED {
        OnFinished(m);
      }
    }

    method OnHelloVerifyRequest(m: Message) returns (out: seq<seq<byte>>)
      requires Valid()
      modifies this
      ensures Valid()
      ensures var h := HandleHelloVerify(old(model), m); model == h.s && out == Wire(h.out)
    {
      hide OnWire, EmitMessage, ReadCookie, ClientHelloBody;
      var read := DecodeHelloVerifyRequest(m.body);
      if read.None? {
        SetFailed();
        return [];
      }
      cookie := read.value;
      transcript := [];
      model := model.(cookie := read.value, log := []);
      ghost var cleared := model;
      var hello := Message(CLIENT_HELLO, ClientHelloBody(clientRandom, cookie));
      var datagram := SendMessage(hello);
      MessageIsOne(cleared, hello);
      out := [datagram];
      WireOne(EmitMessage(cleared, hello).out[0]);
      phase := SentClientHelloWithCookie;
      model := model.(phase := SentClientHelloWithCookie);
    }

    method OnServerHello(m: Message)
      requires Valid()
      modifies this
      ensures Valid() && model == HandleServerHello(old(model), m)
    {
      hide Transcript, ReadServerHello;
      var hello := DecodeServerHello(m.body);
      if hello.None? {
        SetFailed();
        return;
      }
      if hello.value.cipherSuite != SUITE {
        SetFailed();
        return;
      }
      serverRandom := hello.value.random;
      extendedMasterSecret := hello.value.extendedMasterSecret;
      model := model.(serverRandom := serverRandom, extendedMasterSecret := extendedMasterSecret);
      AppendToHandshakeHash(m);
      phase := GotServerHello;
      model := model.(phase := GotServerHello);
    }

    method OnCertificate(m: Message)
      requires Valid()
      modifies this
      ensures Valid() && model == HandleCertificate(env, old(model), m)
    {
      hide Transcript, ReadCertificates;
      var chain := DecodeCertificate(m.body);
      if chain.None? {
        SetFailed();
        return;
      }
      if chain.value == [] {
        SetFailed();
        return;
      }
      serverCertDer := chain.value[0];
      model := model.(serverCertificate := serverCertDer);
      if env.sha256(serverCertDer) != env.peerFingerprint {
        SetFailed();
        return;
      }
      AppendToHandshakeHash(m);
      phase := GotServerCertificate;
      model := model.(phase := GotServerCertificate);
    }

    method OnServerKeyExchange(m: Message)
      requires Valid()
      modifies this
      ensures Valid() && model == HandleKeyExchange(old(model), m)
    {
      hide Transcript, ReadKeyExchange;
      var exchange := DecodeServerKeyExchange(m.body);
      if exchange.None? {
        SetFailed();
        return;
      }
      if exchange.value.namedCurve != SECP256R1 {
        SetFailed();
        return;
      }
      if |exchange.value.publicPoint| != 65 || exchange.value.publicPoint[0] != 4 {
        SetFailed();
        return;
      }
      serverPublicPoint := exchange.value.publicPoint;
      model := model.(serverPoint := serverPublicPoint);
      AppendToHandshakeHash(m);
      phase := GotServerKeyExchange;
      model := model.(phase := GotServerKeyExchange);
    }

    method OnFinished(m: Message)
      requires Valid()
      modifies this
      ensures Valid() && model == HandleFinished(env, old(model), m)
    {
      hide Transcript;
      var expected := env.prf(masterSecret, "server finished", env.sha256(transcript), 12);
      assert expected == VerifyData(env, model, "server finished");
      if |m.body| != 12 || |expected| < 12 || m.body != expected[..12] {
        SetFailed();
        return;
      }
      AppendToHandshakeHash(m);
      phase := Established;
      model := model.(phase := Established);
    }

    /** The handshake messages in one record's plaintext. */
    method HandleMessages(b: seq<byte>) returns (ok: bool, out: seq<seq<byte>>)
      requires Valid()
      modifies this
      ensures Valid()
      ensures var p := Messages(env, old(model), b); model == p.s && ok == p.ok && out == Wire(p.out)
    {
      hide Transcript, OnWire, Handle, Messages, ReadHeader;
      ghost var all := Messages(env, model, b);
      out := [];
      var hpos := 0;
      assert b[0..] == b;
      while hpos + HEADER_BYTES <= |b|
        invariant 0 <= hpos <= |b| && Valid()
        invariant var rest := Messages(env, model, b[hpos..]);
                  all.s == rest.s && all.ok == rest.ok && Wire(all.out) == out + Wire(rest.out)
        decreases |b| - hpos
      {
        MessagesHere(env, model, b, hpos);
        var h := ReadHeader(b[hpos..]);
        if h.fragmentOffset != 0 || h.fragmentLength != h.length {
          SetFailed();
          Unit(out);
          return false, out;
        }
        if hpos + HEADER_BYTES + h.length > |b| {
          SetFailed();
          Unit(out);
          return false, out;
        }
        var m := Message(h.kind, b[hpos + HEADER_BYTES..hpos + HEADER_BYTES + h.length]);
        ghost var step := Handle(env, model, m);
        var more := HandleHandshakeMessage(m);
        ghost var before := out;
        out := out + more;
        if phase == Failed {
          return false, out;
        }
        hpos := hpos + HEADER_BYTES + h.length;
        ghost var rest := Messages(env, model, b[hpos..]);
        WireConcat(step.out, rest.out);
        Assoc(before, more, Wire(rest.out));
      }
      MessagesEnd(env, model, b[hpos..]);
      Unit(out);
      ok := true;
    }

    method HandleRecord(r: Record) returns (ok: bool, out: seq<seq<byte>>)
      requires Valid()
      modifies this
      ensures Valid()
      ensures var p := ProcessRecord(env, old(model), r); model == p.s && ok == p.ok && out == Wire(p.out)
    {
      hide Transcript, OnWire, Messages;
      if r.kind == CHANGE_CIPHER_SPEC {
        phase := GotChangeCipherSpec;
        model := model.(phase := GotChangeCipherSpec);
        return true, [];
      }
      if r.kind == ALERT {
        if |r.payload| >= 2 && r.payload[0] == 2 {
          SetFailed();
          return false, [];
        }
        return true, [];
      }
      if r.kind == HANDSHAKE {
        var plain := r.payload;
        if r.epoch != 0 {
          if keys.None? {
            SetFailed();
            return false, [];
          }
          var unsealed := env.unseal(keys.value.serverKey, keys.value.serverIv, Aad(r.epoch, r.sequence, HANDSHAKE), r.payload);
          if unsealed.None? {
            SetFailed();
            return false, [];
          }
          plain := unsealed.value;
        }
        ok, out := HandleMessages(plain);
        return;
      }
      return true, [];
    }

    method ProcessDatagram(data: seq<byte>) returns (ok: bool, out: seq<seq<byte>>)
      requires Valid()
      modifies this
      ensures Valid()
      ensures var p := Spec.ProcessDatagram(env, old(model), data); model == p.s && ok == p.ok && out == Wire(p.out)
    {
      hide Transcript, OnWire, ProcessRecord, ProcessRecords, ReadRecord;
      if phase == Failed {
        return false, [];
      }
      ghost var all := ProcessRecords(env, model, data);
      out := [];
      var pos := 0;
      assert data[0..] == data;
      while pos < |data|
        invariant 0 <= pos <= |data| && Valid()
        invariant var rest := ProcessRecords(env, model, data[pos..]);
                  all.s == rest.s && all.ok == rest.ok && Wire(all.out) == out + Wire(rest.out)
        decreases |data| - pos
      {
        RecordsHere(env, model, data, pos);
        var decoded := Decode(data[pos..]);
        if decoded.None? {
          Unit(out);
          return false, out;
        }
        pos := pos + decoded.value.consumed;
        ghost var p := ProcessRecord(env, model, decoded.value.record);
        var fine, more := HandleRecord(decoded.value.record);
        ghost var before := out;
        out := out + more;
        if !fine {
          return false, out;
        }
        ghost var rest := ProcessRecords(env, model, data[pos..]);
        WireConcat(p.out, rest.out);
        Assoc(before, more, Wire(rest.out));
      }
      RecordsEnd(env, model, data[pos..]);
      Unit(out);
      ok := true;
    }

    method EncryptAppData(plaintext: seq<byte>) returns (out: seq<seq<byte>>)
      requires Valid()
      modifies `clientRecordSeq, `model
      ensures Valid()
      ensures var e := Spec.EncryptAppData(env, old(model), plaintext); model == e.s && out == Wire(e.out)
    {
      hide Transcript, OnWire;
      if phase != Established || keys.None? {
        return [];
      }
      var ciphertext := env.seal(keys.value.clientKey, keys.value.clientIv,
                                 Aad(clientEpoch, clientRecordSeq, APPLICATION_DATA), plaintext);
      if ciphertext.None? {
        return [];
      }
      ghost var e := Emit(model, APPLICATION_DATA, ciphertext.value);
      var datagram := WrapRecord(APPLICATION_DATA, ciphertext.value);
      out := [datagram];
      WireOne(e.out[0]);
    }
  }

  method TlsLikeTranscriptBytes(m: Message) returns (out: seq<byte>)
    ensures out == TlsBytes(m)
  {
    hide BE24;
    out := [m.kind];
    out := out + BE24(|m.body|);
    if m.body != [] {
      out := out + m.body;
    }
  }

  lemma MessageIsOne(s: Session, m: Message)
    ensures |EmitMessage(s, m).out| == 1
  {
    hide Wrapped;
  }

  lemma ThreeOnWire(a: seq<Sent>, b: seq<Sent>, c: seq<Sent>)
    requires |a| == 1 && |b| == 1 && |c| == 1
    ensures Wire(a + b + c) == [OnWire(a[0]), OnWire(b[0]), OnWire(c[0])]
  {
    hide OnWire;
  }

  lemma MessagesHere(env: Env, s: Session, b: seq<byte>, at: nat)
    requires at + HEADER_BYTES <= |b|
    ensures
      var h := ReadHeader(b[at..]);
      Messages(env, s, b[at..])
      == if h.fragmentOffset != 0 || h.fragmentLength != h.length || at + HEADER_BYTES + h.length > |b| then
           Processed(Fail(s), [], false)
         else
           var end := at + HEADER_BYTES + h.length;
           var step := Handle(env, s, Message(h.kind, b[at + HEADER_BYTES..end]));
           if step.s.phase == Failed then Processed(step.s, step.out, false)
           else
             var rest := Messages(env, step.s, b[end..]);
             Processed(rest.s, step.out + rest.out, rest.ok)
  {
    hide Handle, ReadHeader;
    var h := ReadHeader(b[at..]);
    if h.length >= 0 && at + HEADER_BYTES + h.length <= |b| {
      var end := HEADER_BYTES + h.length;
      assert b[at..][HEADER_BYTES..end] == b[at + HEADER_BYTES..at + end];
      DropDrop(b, at, end);
    }
  }

  lemma MessagesEnd(env: Env, s: Session, b: seq<byte>)
    requires |b| < HEADER_BYTES
    ensures Messages(env, s, b) == Processed(s, [], true)
  {
  }

  lemma RecordsHere(env: Env, s: Session, data: seq<byte>, at: nat)
    requires at < |data|
    ensures
      var d := ReadRecord(data[at..]);
      ProcessRecords(env, s, data[at..])
      == if d.None? then Processed(s, [], false)
         else
           var p := ProcessRecord(env, s, d.value.record);
           if !p.ok then p
           else
             var rest := ProcessRecords(env, p.s, data[at + d.value.consumed..]);
             Processed(rest.s, p.out + rest.out, rest.ok)
  {
    hide ProcessRecord, ReadRecord;
    var d := ReadRecord(data[at..]);
    if d.Some? {
      DropDrop(data, at, d.value.consumed);
    }
  }

  lemma RecordsEnd(env: Env, s: Session, data: seq<byte>)
    requires data == []
    ensures ProcessRecords(env, s, data) == Processed(s, [], true)
  {
  }
}
