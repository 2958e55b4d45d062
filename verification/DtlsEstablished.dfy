/**
  How a DTLS session gets established and what its records carry then: alerts and cipher
  changes, the server's Finished under the new keys, and application data that the peer reads.
*/
module DtlsEstablished {
  import opened Bytes
  import opened SeqFacts
  import opened DtlsRecord
  import opened DtlsHandshake
  import opened DtlsLayout
  import opened DtlsSessionSpec
  import opened DtlsSessionLaws
  import opened DtlsTranscript
  import opened DtlsAcceptance

  // ---------------------------------------------------------------------------
  // Records that are not handshake messages
  // ---------------------------------------------------------------------------

  /** A datagram that holds one record. */
  function Alone(r: Record): Op {
    Datagram(RecordBytes(r))
  }

  lemma AloneIs(env: Env, s: Session, r: Record)
    requires Fits(r) && s.phase != Failed
    ensures Do(env, s, Alone(r)) == (var p := ProcessRecord(env, s, r); Step(p.s, p.out))
  {
    hide ProcessRecord, ProcessRecords, RecordBytes, Fits;
    OneRecord(env, s, r);
  }

  /** An alert of level two ends the session; other alerts, and application data, change nothing. */
  lemma AlertEnds(env: Env, s: Session, r: Record)
    requires Fits(r) && s.phase != Failed && (r.kind == 21 || r.kind == 23)
    ensures Do(env, s, Alone(r))
         == Step(if r.kind == 21 && |r.payload| >= 2 && r.payload[0] == 2 then s.(phase := Failed) else s, [])
  {
    hide ProcessRecords, RecordBytes, Fits;
    AloneIs(env, s, r);
  }

  /** A ChangeCipherSpec changes the state and nothing else. */
  lemma CipherChange(env: Env, s: Session, r: Record)
    requires Fits(r) && s.phase != Failed && r.kind == 20
    ensures Do(env, s, Alone(r)) == Step(s.(phase := GotChangeCipherSpec), [])
  {
    hide ProcessRecords, RecordBytes, Fits;
    AloneIs(env, s, r);
  }

  // ---------------------------------------------------------------------------
  // The server's Finished
  // ---------------------------------------------------------------------------

  /** The record opens under the server's key to these bytes. */
  predicate Opens(env: Env, s: Session, r: Record, plain: seq<byte>) {
    s.keys.Some?
    && env.unseal(s.keys.value.serverKey, s.keys.value.serverIv, Aad(r.epoch, r.sequence, 22), r.payload) == Some(plain)
  }

  /** A record behind the first epoch that does not open ends the session. */
  lemma UnopenedEnds(env: Env, s: Session, r: Record)
    requires Fits(r) && s.phase != Failed && r.kind == 22 && r.epoch > 0
    requires forall plain: seq<byte> :: !Opens(env, s, r, plain)
    ensures Do(env, s, Alone(r)) == Step(s.(phase := Failed), [])
  {
    hide ProcessRecords, RecordBytes, Fits, Messages;
    AloneIs(env, s, r);
    if s.keys.Some? {
      var plain := env.unseal(s.keys.value.serverKey, s.keys.value.serverIv, Aad(r.epoch, r.sequence, 22), r.payload);
      assert plain.Some? ==> Opens(env, s, r, plain.value);
    }
  }

  /**
    A Finished in a record that opens establishes the session if and only if it covers the
    history so far; otherwise the session fails. Nothing is sent.
  */
  lemma FinishedEstablishes(env: Env, s: Session, h: seq<Entry>, r: Record, body: seq<byte>, number: u16)
    requires Keeps(s, h) && s.phase != Failed && Fits(r) && r.kind == 22 && r.epoch > 0 && |body| < LIMIT24
    requires Opens(env, s, r, Wrapped(Message(FINISHED, body), number))
    ensures
      var step := Do(env, s, Alone(r));
      && step.out == []
      && step.s.phase == (if RightFinished(env, s.masterSecret, h, Message(FINISHED, body)) then Established else Failed)
      && (step.s.phase == Established ==> step.s.log == s.log + [Message(FINISHED, body)])
  {
    hide ProcessRecords, RecordBytes, Fits, Messages, Wrapped, Keeps, RightFinished;
    var m := Message(FINISHED, body);
    AloneIs(env, s, r);
    OneWrapped(env, s, m, number);
    AcceptedIff(env, s, h, m);
    FinishedHandled(env, s, m);
  }

  lemma FinishedHandled(env: Env, s: Session, m: Message)
    requires m.kind == FINISHED
    ensures
      var step := Handle(env, s, m);
      && step.out == [] && (step.s.phase == Failed || (step.s.phase == Established && step.s.log == s.log + [m]))
  {
    hide VerifyData;
  }

  // ---------------------------------------------------------------------------
  // Application data
  // ---------------------------------------------------------------------------

  /** What is sealed is opened again under the same key, nonce and associated data. */
  ghost predicate Authentic(env: Env) {
    forall key: seq<byte>, iv: seq<byte>, aad: Aad, text: seq<byte> ::
      env.seal(key, iv, aad, text).Some? ==> env.unseal(key, iv, aad, env.seal(key, iv, aad, text).value) == Some(text)
  }

  /** The other end: it reads under the key that this end writes under. */
  ghost predicate Faces(s: Session, peer: Session) {
    && s.phase == Established && peer.phase == Established && s.keys.Some? && peer.keys.Some?
    && peer.keys.value.serverKey == s.keys.value.clientKey && peer.keys.value.serverIv == s.keys.value.clientIv
  }

  lemma OneSent(env: Env, s: Session, text: seq<byte>)
    ensures
      var e := EncryptAppData(env, s, text);
      && (e.out != [] ==> s.phase == Established && s.keys.Some?)
      && (s.phase != Established ==> e == Step(s, []))
      && (e.out != [] ==> |e.out| == 1 && e.s == s.(recordSeq := s.recordSeq + 1))
      && (e.out != [] ==>
            && e.out[0] == Sent(23, s.epoch, s.recordSeq, e.out[0].payload)
            && env.seal(s.keys.value.clientKey, s.keys.value.clientIv,
                        Aad(s.epoch % 0x1_0000, s.recordSeq % 0x1_0000_0000_0000_0000, 23), text)
               == Some(e.out[0].payload))
      && (e.out == [] ==> e.s == s)
  {
  }

  /**
    The peer reads exactly the data that an established session sends, as long as neither
    counter has overflowed and the record fits its length.
  */
  lemma DataArrives(env: Env, s: Session, peer: Session, text: seq<byte>)
    requires Authentic(env) && Faces(s, peer)
    requires s.epoch < 0x1_0000 && s.recordSeq < SEQ_LIMIT
    ensures
      var e := EncryptAppData(env, s, text);
      e.out != [] && |e.out[0].payload| < 0x1_0000 ==> DecryptAppData(env, peer, OnWire(e.out[0])) == Some(text)
  {
    hide EncryptAppData, RecordHead, ReadRecord;
    var e := EncryptAppData(env, s, text);
    OneSent(env, s, text);
    if e.out != [] && |e.out[0].payload| < 0x1_0000 {
      var r := Record(23, VERSION_12, s.epoch, s.recordSeq, e.out[0].payload);
      RecordRoundTrip(r, []);
      Unit(RecordBytes(r));
      assert OnWire(e.out[0]) == RecordBytes(r);
    }
  }

  /** Data is read exactly from a datagram whose first record is application data that opens. */
  lemma DataReadIff(env: Env, s: Session, datagram: seq<byte>, text: seq<byte>)
    ensures DecryptAppData(env, s, datagram) == Some(text) <==>
              && s.phase == Established && s.keys.Some?
              && RecordsIn(datagram) != []
              && var r := RecordsIn(datagram)[0];
                 r.kind == 23
                 && env.unseal(s.keys.value.serverKey, s.keys.value.serverIv, Aad(r.epoch, r.sequence, 23), r.payload)
                    == Some(text)
  {
    hide ReadRecord;
    if datagram == [] {
      NothingRead();
    }
  }

  lemma NothingRead()
    ensures ReadRecord([]).None?
  {
  }

  // ---------------------------------------------------------------------------
  // On the wire
  // ---------------------------------------------------------------------------

  /** Every record that goes out is of DTLS 1.2 and carries its counters in 16 and 48 bits. */
  lemma SentIs(d: Sent)
    requires |d.payload| < 0x1_0000
    ensures RecordAt(OnWire(d), Record(d.kind, 0xFEFD, d.epoch % 0x1_0000, d.sequence % 0x1_0000_0000_0000, d.payload),
                     |OnWire(d)|)
  {
    hide RecordAt, BE48, BE16;
    Truncated(d.sequence);
    var r := Record(d.kind, 0xFEFD, d.epoch % 0x1_0000, d.sequence % 0x1_0000_0000_0000, d.payload);
    assert OnWire(d) == RecordBytes(r);
    RecordWritten(r);
  }

  lemma Truncated(n: nat)
    ensures n % 0x1_0000_0000_0000_0000 % 0x1_0000_0000_0000 == n % 0x1_0000_0000_0000
    ensures n % 0x1_0000_0000_0000 % 0x1_0000_0000_0000 == n % 0x1_0000_0000_0000
  {
  }
}
