/**
  What holds over DTLS runs: packing records into datagrams does not matter, failure is
  final, and emitted records are numbered upwards.
*/
module DtlsSessionLaws {
  import opened Bytes
  import opened SeqFacts
  import opened DtlsRecord
  import opened DtlsHandshake
  import opened DtlsSessionSpec

  // ---------------------------------------------------------------------------
  // Packing
  // ---------------------------------------------------------------------------

  function Packed(rs: seq<Record>): seq<byte> {
    if rs == [] then [] else RecordBytes(rs[0]) + Packed(rs[1..])
  }

  /** Each record in a datagram of its own. */
  function ProcessEach(env: Env, s: Session, rs: seq<Record>): Processed
    decreases |rs|
  {
    if rs == [] then Processed(s, [], true)
    else
      var p := ProcessDatagram(env, s, RecordBytes(rs[0]));
      var rest := ProcessEach(env, p.s, rs[1..]);
      Processed(rest.s, p.out + rest.out, p.ok && rest.ok)
  }

  ghost predicate AllFit(rs: seq<Record>) {
    forall i :: 0 <= i < |rs| ==> Fits(rs[i])
  }

  lemma FirstRecord(env: Env, s: Session, r: Record, rest: seq<byte>)
    requires Fits(r)
    ensures
      var p := ProcessRecord(env, s, r);
      ProcessRecords(env, s, RecordBytes(r) + rest)
      == if !p.ok then p
         else var q := ProcessRecords(env, p.s, rest); Processed(q.s, p.out + q.out, q.ok)
  {
    hide ProcessRecord, ReadRecord, Fits;
    RecordRoundTrip(r, rest);
    DropPrefix(RecordBytes(r), rest);
  }

  lemma OneRecord(env: Env, s: Session, r: Record)
    requires Fits(r)
    ensures ProcessRecords(env, s, RecordBytes(r)) == ProcessRecord(env, s, r)
  {
    hide ProcessRecord, RecordBytes, Fits;
    FirstRecord(env, s, r, []);
    Unit(RecordBytes(r));
    NoRecords(env, ProcessRecord(env, s, r).s);
    Unit(ProcessRecord(env, s, r).out);
  }

  lemma NoRecords(env: Env, s: Session)
    ensures ProcessRecords(env, s, []) == Processed(s, [], true)
  {
  }

  /** A message in one piece is handled, and nothing else. */
  lemma OneWrapped(env: Env, s: Session, m: Message, number: u16)
    requires |m.body| < LIMIT24
    ensures
      var step := Handle(env, s, m);
      Messages(env, s, Wrapped(m, number)) == Processed(step.s, step.out, step.s.phase != Failed)
  {
    hide Handle, ReadHeader, HeaderBytes;
    var header := Header(m.kind, |m.body|, number, 0, |m.body|);
    var b := Wrapped(m, number);
    HeaderRoundTrip(header, m.body);
    DropPrefix(HeaderBytes(header), m.body);
    assert b[HEADER_BYTES..HEADER_BYTES + |m.body|] == m.body;
    assert Message(header.kind, m.body) == m;
    var step := Handle(env, s, m);
    assert b[HEADER_BYTES + |m.body|..] == [];
    Unit(step.out);
    assert Messages(env, step.s, []) == Processed(step.s, [], true);
  }

  lemma {:induction false} MessagesFailOnly(env: Env, s: Session, b: seq<byte>)
    requires s.phase != Failed
    ensures Messages(env, s, b).ok <==> Messages(env, s, b).s.phase != Failed
    decreases |b|
  {
    hide Handle, ReadHeader;
    if |b| >= HEADER_BYTES {
      var h := ReadHeader(b);
      if h.fragmentOffset == 0 && h.fragmentLength == h.length && HEADER_BYTES + h.length <= |b| {
        var end := HEADER_BYTES + h.length;
        var step := Handle(env, s, Message(h.kind, b[HEADER_BYTES..end]));
        if step.s.phase != Failed {
          MessagesFailOnly(env, step.s, b[end..]);
        }
      }
    }
  }

  /** A record is refused exactly if the session has failed. */
  lemma RecordFailsOnly(env: Env, s: Session, r: Record)
    requires s.phase != Failed
    ensures ProcessRecord(env, s, r).ok <==> ProcessRecord(env, s, r).s.phase != Failed
  {
    hide Messages;
    MessagesFailOnly(env, s, r.payload);
    if s.keys.Some? {
      var plain := env.unseal(s.keys.value.serverKey, s.keys.value.serverIv,
                              Aad(r.epoch, r.sequence, HANDSHAKE), r.payload);
      if plain.Some? {
        MessagesFailOnly(env, s, plain.value);
      }
    }
  }

  /** A failed session neither changes nor answers, whatever arrives. */
  lemma {:induction false} FailedAbsorbs(env: Env, s: Session, rs: seq<Record>)
    requires s.phase == Failed
    ensures ProcessEach(env, s, rs) == Processed(s, [], rs == [])
    decreases |rs|
  {
    hide ProcessRecords;
    if rs != [] {
      FailedAbsorbs(env, s, rs[1..]);
    }
  }

  lemma {:induction false} FailedRun(env: Env, s: Session, ops: seq<Op>)
    requires s.phase == Failed && forall i :: 0 <= i < |ops| ==> !ops[i].Start?
    ensures Run(env, s, ops) == Step(s, [])
    decreases |ops|
  {
    hide ProcessRecords;
    if ops != [] {
      FailedRun(env, s, ops[1..]);
    }
  }

  /**
    Processing a datagram that packs any well-formed records gives the same session, the
    same answers in the same order and the same verdict as one datagram per record, also if
    a record in the middle fails.
  */
  lemma {:induction false} PackingIsIrrelevant(env: Env, s: Session, rs: seq<Record>)
    requires AllFit(rs) && s.phase != Failed
    ensures ProcessDatagram(env, s, Packed(rs)) == ProcessEach(env, s, rs)
    decreases |rs|
  {
    hide ProcessRecord, RecordBytes, ProcessRecords, Fits;
    if rs == [] {
      NoRecords(env, s);
    } else {
      var r := rs[0];
      assert Fits(r);
      var p := ProcessRecord(env, s, r);
      FirstRecord(env, s, r, Packed(rs[1..]));
      OneRecord(env, s, r);
      RecordFailsOnly(env, s, r);
      if p.ok {
        PackingIsIrrelevant(env, p.s, rs[1..]);
      } else {
        FailedAbsorbs(env, p.s, rs[1..]);
        Unit(p.out);
      }
    }
  }

  function Flattened(groups: seq<seq<Record>>): seq<Record> {
    if groups == [] then [] else groups[0] + Flattened(groups[1..])
  }

  /** Datagrams that pack several records each. */
  function ProcessGroups(env: Env, s: Session, groups: seq<seq<Record>>): Processed
    decreases |groups|
  {
    if groups == [] then Processed(s, [], true)
    else
      var p := ProcessDatagram(env, s, Packed(groups[0]));
      var rest := ProcessGroups(env, p.s, groups[1..]);
      Processed(rest.s, p.out + rest.out, p.ok && rest.ok)
  }

  lemma {:induction false} EachAppend(env: Env, s: Session, a: seq<Record>, b: seq<Record>)
    ensures
      var p := ProcessEach(env, s, a);
      var q := ProcessEach(env, p.s, b);
      ProcessEach(env, s, a + b) == Processed(q.s, p.out + q.out, p.ok && q.ok)
    decreases |a|
  {
    hide ProcessDatagram;
    if a == [] {
      Unit(b);
      Unit(ProcessEach(env, s, b).out);
    } else {
      var p := ProcessDatagram(env, s, RecordBytes(a[0]));
      assert (a + b)[1..] == a[1..] + b;
      EachAppend(env, p.s, a[1..], b);
      var m := ProcessEach(env, p.s, a[1..]);
      Assoc(p.out, m.out, ProcessEach(env, m.s, b).out);
    }
  }

  /** However the same records are grouped into datagrams, the outcome is the same. */
  lemma {:induction false} GroupingIsIrrelevant(env: Env, s: Session, groups: seq<seq<Record>>)
    requires forall i :: 0 <= i < |groups| ==> groups[i] != [] && AllFit(groups[i])
    ensures ProcessGroups(env, s, groups) == ProcessEach(env, s, Flattened(groups))
    decreases |groups|
  {
    hide ProcessDatagram, Packed, AllFit;
    if groups != [] {
      var g := groups[0];
      if s.phase == Failed {
        FailedGroup(env, s, Packed(g));
        FailedAbsorbs(env, s, g);
      } else {
        PackingIsIrrelevant(env, s, g);
      }
      var p := ProcessEach(env, s, g);
      GroupingIsIrrelevant(env, p.s, groups[1..]);
      EachAppend(env, s, g, Flattened(groups[1..]));
    }
  }

  lemma FailedGroup(env: Env, s: Session, data: seq<byte>)
    requires s.phase == Failed
    ensures ProcessDatagram(env, s, data) == Processed(s, [], false)
  {
  }

  // ---------------------------------------------------------------------------
  // Numbering
  // ---------------------------------------------------------------------------

  predicate Precedes(e: nat, q: nat, e': nat, q': nat) {
    e < e' || (e == e' && q <= q')
  }

  /** Strictly increasing counters, from (e, q) on and below (e', q'). */
  predicate Rising(out: seq<Sent>, e: nat, q: nat, e': nat, q': nat)
    decreases |out|
  {
    if out == [] then Precedes(e, q, e', q')
    else
      && Precedes(e, q, out[0].epoch, out[0].sequence)
      && Rising(out[1..], out[0].epoch, out[0].sequence + 1, e', q')
  }

  lemma {:induction false} RisingWeaken(out: seq<Sent>, e: nat, q: nat, f: nat, p: nat, e': nat, q': nat)
    requires Precedes(e, q, f, p) && Rising(out, f, p, e', q')
    ensures Rising(out, e, q, e', q')
  {
  }

  lemma {:induction false} RisingConcat(a: seq<Sent>, b: seq<Sent>, e: nat, q: nat, f: nat, p: nat, e': nat, q': nat)
    requires Rising(a, e, q, f, p) && Rising(b, f, p, e', q')
    ensures Rising(a + b, e, q, e', q')
    decreases |a|
  {
    hide Precedes;
    if a == [] {
      Unit(b);
      RisingStart(e, q, f, p);
      RisingWeaken(b, e, q, f, p, e', q');
    } else {
      assert (a + b)[1..] == a[1..] + b;
      RisingConcat(a[1..], b, a[0].epoch, a[0].sequence + 1, f, p, e', q');
    }
  }

  lemma RisingStart(e: nat, q: nat, f: nat, p: nat)
    ensures Rising([], e, q, f, p) <==> Precedes(e, q, f, p)
  {
  }

  predicate StepRises(s: Session, t: Session, out: seq<Sent>) {
    Rising(out, s.epoch, s.recordSeq, t.epoch, t.recordSeq)
  }

  lemma StepRisesTrans(s: Session, t: Session, u: Session, a: seq<Sent>, b: seq<Sent>)
    requires StepRises(s, t, a) && StepRises(t, u, b)
    ensures StepRises(s, u, a + b)
  {
    hide Rising;
    RisingConcat(a, b, s.epoch, s.recordSeq, t.epoch, t.recordSeq, u.epoch, u.recordSeq);
  }

  lemma QuietRises(s: Session, t: Session)
    requires t.epoch == s.epoch && t.recordSeq == s.recordSeq
    ensures StepRises(s, t, [])
  {
  }

  lemma EmitRises(s: Session, t: Session, kind: byte, payload: seq<byte>)
    requires t.epoch == s.epoch && t.recordSeq == s.recordSeq + 1
    ensures StepRises(s, t, Emit(s, kind, payload).out)
  {
    assert Emit(s, kind, payload).out[1..] == [];
  }

  lemma MessageRises(s: Session, m: Message)
    ensures StepRises(s, EmitMessage(s, m).s, EmitMessage(s, m).out)
  {
    hide StepRises, Wrapped;
    EmitRises(s, EmitMessage(s, m).s, HANDSHAKE, Wrapped(m, s.messageSeq % 0x1_0000));
  }

  lemma InitiateRises(s: Session, random: seq<byte>, priv: seq<byte>, pub: seq<byte>)
    ensures StepRises(s, Initiate(s, random, priv, pub).s, Initiate(s, random, priv, pub).out)
  {
    hide Rising, EmitMessage, ClientHelloBody;
    MessageRises(s.(clientRandom := random, ecdhPrivate := priv, ecdhPublic := pub),
                 Message(CLIENT_HELLO, ClientHelloBody(random, [])));
  }

  lemma DeriveQuiet(env: Env, s: Session)
    ensures DeriveKeys(env, s).epoch == s.epoch && DeriveKeys(env, s).recordSeq == s.recordSeq
  {
    hide MasterSecret;
  }

  lemma FinishedRises(env: Env, s: Session)
    requires s.keys.Some?
    ensures StepRises(s, FinishedFlight(env, s).s, FinishedFlight(env, s).out)
  {
    hide Wrapped, VerifyData, StepRises;
    var f := FinishedFlight(env, s);
    var next := s.(epoch := s.epoch + 1, recordSeq := 0);
    var ccs := Emit(s, CHANGE_CIPHER_SPEC, [1]);
    CcsRises(s);
    if f.s.phase == Failed {
      SameCounters(s, next, f.s, ccs.out);
    } else {
      var ciphertext := f.out[1].payload;
      EmitRises(next, f.s, HANDSHAKE, ciphertext);
      StepRisesTrans(s, next, f.s, ccs.out, Emit(next, HANDSHAKE, ciphertext).out);
    }
  }

  lemma CcsRises(s: Session)
    ensures StepRises(s, s.(epoch := s.epoch + 1, recordSeq := 0), Emit(s, CHANGE_CIPHER_SPEC, [1]).out)
  {
    assert Emit(s, CHANGE_CIPHER_SPEC, [1]).out[1..] == [];
  }

  lemma SameCounters(s: Session, t: Session, u: Session, out: seq<Sent>)
    requires StepRises(s, t, out) && u.epoch == t.epoch && u.recordSeq == t.recordSeq
    ensures StepRises(s, u, out)
  {
    hide Rising;
  }

  lemma FlightRises(env: Env, s: Session)
    ensures StepRises(s, ClientFlight(env, s).s, ClientFlight(env, s).out)
  {
    hide EmitMessage, DeriveKeys, FinishedFlight, StepRises, CertificateBytes, KeyExchangeBody, CertificateVerifyBody, TranscriptDigest;
    var a := EmitMessage(s, Message(CERTIFICATE, CertificateBytes([env.certificate])));
    var b := EmitMessage(a.s, Message(CLIENT_KEY_EXCHANGE, KeyExchangeBody(a.s.ecdhPublic)));
    var b' := b.s.(phase := SentClientKeyExchange);
    var c := EmitMessage(b', Message(CERTIFICATE_VERIFY, CertificateVerifyBody(env.sign(TranscriptDigest(env, b')))));
    var keyed := DeriveKeys(env, c.s);
    MessageRises(s, Message(CERTIFICATE, CertificateBytes([env.certificate])));
    MessageRises(a.s, Message(CLIENT_KEY_EXCHANGE, KeyExchangeBody(a.s.ecdhPublic)));
    MessageRises(b', Message(CERTIFICATE_VERIFY, CertificateVerifyBody(env.sign(TranscriptDigest(env, b')))));
    SameCounters(a.s, b.s, b', b.out);
    StepRisesTrans(s, a.s, b', a.out, b.out);
    StepRisesTrans(s, b', c.s, a.out + b.out, c.out);
    DeriveQuiet(env, c.s);
    SameCounters(s, c.s, keyed, a.out + b.out + c.out);
    if keyed.phase != Failed && keyed.keys.Some? {
      FinishedRises(env, keyed);
      StepRisesTrans(s, keyed, FinishedFlight(env, keyed).s, a.out + b.out + c.out, FinishedFlight(env, keyed).out);
    }
  }

  lemma HandleRises(env: Env, s: Session, m: Message)
    ensures StepRises(s, Handle(env, s, m).s, Handle(env, s, m).out)
  {
    hide StepRises, ClientFlight, ReadServerHello, ReadCertificates, ReadKeyExchange, VerifyData, EmitMessage, ReadCookie,
         ClientHelloBody;
    if m.kind == HELLO_VERIFY_REQUEST {
      var cookie := ReadCookie(m.body);
      QuietRises(s, Fail(s));
      if cookie.Some? {
        var hello := Message(CLIENT_HELLO, ClientHelloBody(s.clientRandom, cookie.value));
        var cleared := s.(cookie := cookie.value, log := []);
        MessageRises(cleared, hello);
        FromCounters(s, cleared, EmitMessage(cleared, hello).s, Handle(env, s, m).s, EmitMessage(cleared, hello).out);
      }
    } else if m.kind == SERVER_HELLO_DONE {
      var done := Accept(s, m, GotServerHelloDone);
      FlightRises(env, done);
      FromCounters(s, done, ClientFlight(env, done).s, ClientFlight(env, done).s, ClientFlight(env, done).out);
    } else {
      QuietRises(s, Handle(env, s, m).s);
    }
  }

  lemma FromCounters(s: Session, s': Session, t: Session, t': Session, out: seq<Sent>)
    requires StepRises(s', t, out) && s'.epoch == s.epoch && s'.recordSeq == s.recordSeq
    requires t'.epoch == t.epoch && t'.recordSeq == t.recordSeq
    ensures StepRises(s, t', out)
  {
    hide Rising;
  }

  lemma {:induction false} MessagesRise(env: Env, s: Session, b: seq<byte>)
    ensures StepRises(s, Messages(env, s, b).s, Messages(env, s, b).out)
    decreases |b|
  {
    hide Handle, ReadHeader, StepRises;
    QuietRises(s, s);
    QuietRises(s, Fail(s));
    if |b| >= HEADER_BYTES {
      var h := ReadHeader(b);
      if h.fragmentOffset == 0 && h.fragmentLength == h.length && HEADER_BYTES + h.length <= |b| {
        var end := HEADER_BYTES + h.length;
        var m := Message(h.kind, b[HEADER_BYTES..end]);
        var step := Handle(env, s, m);
        HandleRises(env, s, m);
        if step.s.phase != Failed {
          MessagesRise(env, step.s, b[end..]);
          var rest := Messages(env, step.s, b[end..]);
          StepRisesTrans(s, step.s, rest.s, step.out, rest.out);
        }
      }
    }
  }

  lemma RecordRises(env: Env, s: Session, r: Record)
    ensures StepRises(s, ProcessRecord(env, s, r).s, ProcessRecord(env, s, r).out)
  {
    hide Messages, StepRises;
    QuietRises(s, s);
    QuietRises(s, Fail(s));
    QuietRises(s, s.(phase := GotChangeCipherSpec));
    MessagesRise(env, s, r.payload);
    if s.keys.Some? {
      var plain := env.unseal(s.keys.value.serverKey, s.keys.value.serverIv,
                              Aad(r.epoch, r.sequence, HANDSHAKE), r.payload);
      if plain.Some? {
        MessagesRise(env, s, plain.value);
      }
    }
  }

  lemma {:induction false} RecordsRise(env: Env, s: Session, data: seq<byte>)
    ensures StepRises(s, ProcessRecords(env, s, data).s, ProcessRecords(env, s, data).out)
    decreases |data|
  {
    hide ProcessRecord, ReadRecord, StepRises;
    QuietRises(s, s);
    if data != [] {
      var d := ReadRecord(data);
      if d.Some? {
        var p := ProcessRecord(env, s, d.value.record);
        RecordRises(env, s, d.value.record);
        if p.ok {
          var rest := ProcessRecords(env, p.s, data[d.value.consumed..]);
          RecordsRise(env, p.s, data[d.value.consumed..]);
          StepRisesTrans(s, p.s, rest.s, p.out, rest.out);
        }
      }
    }
  }

  lemma DoRises(env: Env, s: Session, op: Op)
    ensures StepRises(s, Do(env, s, op).s, Do(env, s, op).out)
  {
    hide StepRises, ProcessRecords, Initiate;
    QuietRises(s, s);
    match op
    case Start(random, priv, pub) => InitiateRises(s, random, priv, pub);
    case Datagram(data) => RecordsRise(env, s, data);
    case AppData(plaintext) =>
      var e := EncryptAppData(env, s, plaintext);
      if e.out != [] {
        EmitRises(s, e.s, APPLICATION_DATA, e.out[0].payload);
      }
  }

  lemma {:induction false} RunRises(env: Env, s: Session, ops: seq<Op>)
    ensures StepRises(s, Run(env, s, ops).s, Run(env, s, ops).out)
    decreases |ops|
  {
    hide Do, StepRises;
    if ops == [] {
      QuietRises(s, s);
    } else {
      var first := Do(env, s, ops[0]);
      var rest := Run(env, first.s, ops[1..]);
      DoRises(env, s, ops[0]);
      RunRises(env, first.s, ops[1..]);
      StepRisesTrans(s, first.s, rest.s, first.out, rest.out);
    }
  }

  lemma {:induction false} RisingFrom(out: seq<Sent>, e: nat, q: nat, e': nat, q': nat, j: nat)
    requires Rising(out, e, q, e', q') && j < |out|
    ensures Precedes(e, q, out[j].epoch, out[j].sequence)
    decreases |out|
  {
    if j > 0 {
      RisingFrom(out[1..], out[0].epoch, out[0].sequence + 1, e', q', j - 1);
    }
  }

  lemma {:induction false} RisingOrdered(out: seq<Sent>, e: nat, q: nat, e': nat, q': nat, i: nat, j: nat)
    requires Rising(out, e, q, e', q') && i < j < |out|
    ensures Precedes(out[i].epoch, out[i].sequence + 1, out[j].epoch, out[j].sequence)
    decreases |out|
  {
    if i > 0 {
      RisingOrdered(out[1..], out[0].epoch, out[0].sequence + 1, e', q', i - 1, j - 1);
    } else {
      RisingFrom(out[1..], out[0].epoch, out[0].sequence + 1, e', q', j - 1);
    }
  }

  lemma StampOnWire(d: Sent)
    ensures |OnWire(d)| >= RECORD_HEADER
    ensures Read16(OnWire(d), 3) == d.epoch % 0x1_0000 && Read48(OnWire(d), 5) == d.sequence % SEQ_LIMIT
  {
    hide RecordHead, Read16, Read48;
    RecordFields(Record(d.kind, VERSION_12, d.epoch % 0x1_0000, d.sequence % 0x1_0000_0000_0000_0000, d.payload), d.payload);
    WrapTwice(d.sequence);
  }

  lemma WrapTwice(n: nat)
    ensures n % 0x1_0000_0000_0000_0000 % SEQ_LIMIT == n % SEQ_LIMIT
  {
    var q := n / 0x1_0000_0000_0000_0000;
    assert n % 0x1_0000_0000_0000_0000 == n - SEQ_LIMIT * (0x1_0000 * q);
    LessMultiple(n, 0x1_0000 * q);
  }

  lemma LessMultiple(n: nat, k: nat)
    requires n >= SEQ_LIMIT * k
    ensures (n - SEQ_LIMIT * k) % SEQ_LIMIT == n % SEQ_LIMIT
  {
  }

  /**
    Over every run, from every state: each later record has a larger (epoch, sequence) pair,
    also on the wire as long as neither field has overflowed.
  */
  lemma EmissionsIncrease(env: Env, s: Session, ops: seq<Op>, i: nat, j: nat)
    requires i < j < |Run(env, s, ops).out|
    ensures
      var a, b := Run(env, s, ops).out[i], Run(env, s, ops).out[j];
      && (a.epoch < b.epoch || (a.epoch == b.epoch && a.sequence < b.sequence))
      && |OnWire(a)| >= RECORD_HEADER && |OnWire(b)| >= RECORD_HEADER
      && (b.epoch < 0x1_0000 && a.sequence < SEQ_LIMIT && b.sequence < SEQ_LIMIT ==>
            var e, f := Read16(OnWire(a), 3), Read16(OnWire(b), 3);
            e < f || (e == f && Read48(OnWire(a), 5) < Read48(OnWire(b), 5)))
  {
    hide Run, Rising, OnWire, Read16, Read48;
    var r := Run(env, s, ops);
    RunRises(env, s, ops);
    RisingOrdered(r.out, s.epoch, s.recordSeq, r.s.epoch, r.s.recordSeq, i, j);
    StampOnWire(r.out[i]);
    StampOnWire(r.out[j]);
  }
}
