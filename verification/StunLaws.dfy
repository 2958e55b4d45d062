/**
  What STUN encoding promises: the attributes can be scanned again, the message decodes to
  its fields, and both integrity codes verify although they were computed under different
  values of the header's length.
*/
module StunLaws {
  import opened Bytes
  import opened SeqFacts
  import opened StunSpec
  import Crc32

  // ---------------------------------------------------------------------------
  // Scanning undoes laying out
  // ---------------------------------------------------------------------------

  lemma {:induction false} AttrsBytesLength(attrs: seq<Attr>)
    ensures |AttrsBytes(attrs)| == Spans(attrs) && Spans(attrs) % 4 == 0
  {
    hide BE16, Zeros, Padding;
    if attrs != [] {
      AttrsBytesLength(attrs[1..]);
    }
  }

  lemma {:induction false} AttrsBytesConcat(a: seq<Attr>, b: seq<Attr>)
    ensures AttrsBytes(a + b) == AttrsBytes(a) + AttrsBytes(b)
  {
    hide AttrBytes;
    if a == [] {
      assert a + b == b;
    } else {
      Cons(a[0], a[1..]);
      assert (a + b)[1..] == a[1..] + b;
      AttrsBytesConcat(a[1..], b);
      Assoc(AttrBytes(a[0]), AttrsBytes(a[1..]), AttrsBytes(b));
    }
  }

  /** The fields of an attribute in front of anything else. */
  lemma AttrFields(a: Attr, rest: seq<byte>)
    requires |a.value| < 0x1_0000
    ensures
      var s := AttrBytes(a) + rest;
      && Read16(s, 0) == a.kind && Read16(s, 2) == |a.value|
      && s[4..4 + |a.value|] == a.value
      && Span(a) <= |s| && s[Span(a)..] == rest
  {
    hide BE16, Read16, Padding, Zeros;
    var head := BE16(a.kind) + BE16(|a.value|);
    var tail := Zeros(Padding(|a.value|)) + rest;
    var s := AttrBytes(a) + rest;
    DropPrefix(AttrBytes(a), rest);
    Assoc(head + a.value, Zeros(Padding(|a.value|)), rest);
    Slice(head, a.value, tail);
    Assoc(head, a.value, tail);
    HasAtIn([], BE16(a.kind) + BE16(|a.value|), a.value + tail);
    assert [] + head + (a.value + tail) == s;
    HasAtParts(s, 0, BE16(a.kind), BE16(|a.value|));
    Read16At(s, 0, a.kind);
    Read16At(s, 2, |a.value|);
  }

  lemma ScanOne(a: Attr, rest: seq<byte>)
    requires |a.value| < 0x1_0000
    ensures Scan(AttrBytes(a) + rest) == Scanned([a] + Scan(rest).attrs, Scan(rest).complete)
  {
    hide AttrBytes, Read16, Padding;
    AttrFields(a, rest);
  }

  predicate Short(attrs: seq<Attr>) {
    forall i :: 0 <= i < |attrs| ==> |attrs[i].value| < 0x1_0000
  }

  /** Scanning gives back every list of attributes whose values fit their length fields. */
  lemma {:induction false} ScanAttrs(attrs: seq<Attr>)
    requires Short(attrs)
    ensures Scan(AttrsBytes(attrs)) == Scanned(attrs, true)
  {
    hide AttrBytes;
    if attrs != [] {
      ScanAttrs(attrs[1..]);
      hide Scan;
      ScanOne(attrs[0], AttrsBytes(attrs[1..]));
      FirstRest(attrs);
    }
  }

  lemma {:induction false} SpansBound(attrs: seq<Attr>)
    requires Spans(attrs) < 0x1_0000
    ensures Short(attrs)
  {
    if attrs != [] {
      SpansBound(attrs[1..]);
    }
  }

  // ---------------------------------------------------------------------------
  // The layout of a whole message
  // ---------------------------------------------------------------------------

  function AllAttrs(hmac: Hmac, m: Message, password: seq<byte>): seq<Attr> {
    AttrsOf(m) + IntegrityAttrs(hmac, m, password)
    + [Attr(FINGERPRINT, BE32(FingerprintOf(m, Covered(hmac, m, password))))]
  }

  lemma EncodedLayout(hmac: Hmac, m: Message, password: seq<byte>)
    ensures
      var body := AttrsBytes(AllAttrs(hmac, m, password));
      && Encoded(hmac, m, password) == Header(m.messageType, |body|, m.transactionId) + body
      && |body| == |Covered(hmac, m, password)| + 8
  {
    hide AttrsOf, IntegrityAttrs, FingerprintOf, Header, BE32, BE16;
    var own, mac := AttrsOf(m), IntegrityAttrs(hmac, m, password);
    var covered := Covered(hmac, m, password);
    var fp := Attr(FINGERPRINT, BE32(FingerprintOf(m, covered)));
    AttrsBytesConcat(own, mac);
    AttrsBytesConcat(own + mac, [fp]);
    assert AttrsBytes([fp]) == AttrBytes(fp) by {
      assert [fp][1..] == [];
    }
    Assoc(Header(m.messageType, |covered| + 8, m.transactionId), covered, AttrBytes(fp));
  }

  lemma HeaderFields(messageType: u16, length: nat, transactionId: TransactionId, body: seq<byte>)
    ensures
      var s := Header(messageType, length, transactionId) + body;
      && Read16(s, 0) == messageType && Read16(s, 2) == length % 0x1_0000
      && Read32(s, 4) == MAGIC_COOKIE && s[8..20] == transactionId && s[20..] == body
  {
    hide BE16, BE32, Read16, Read32;
    var a, b, c := BE16(messageType), BE16(length % 0x1_0000), BE32(MAGIC_COOKIE);
    var s := Header(messageType, length, transactionId) + body;
    DropPrefix(a + b + c + transactionId, body);
    HasAtIn([], a + b + c + transactionId, body);
    assert [] + (a + b + c + transactionId) + body == s;
    HasAtParts(s, 0, a + b + c, transactionId);
    HasAtParts(s, 0, a + b, c);
    HasAtParts(s, 0, a, b);
    Read16At(s, 0, messageType);
    Read16At(s, 2, length % 0x1_0000);
    Read32At(s, 4, MAGIC_COOKIE);
    Assoc(a + b + c, transactionId, body);
    Slice(a + b + c, transactionId, body);
  }

  /** The message fits the 16-bit length of its header. */
  predicate Fits(hmac: Hmac, m: Message, password: seq<byte>) {
    |Covered(hmac, m, password)| + 8 < 0x1_0000
  }

  /** A header with the right length in front of attributes: the reader finds all of them. */
  lemma RegionOfLayout(messageType: u16, transactionId: TransactionId, attrs: seq<Attr>)
    requires |AttrsBytes(attrs)| < 0x1_0000
    ensures
      var body := AttrsBytes(attrs);
      var data := Header(messageType, |body|, transactionId) + body;
      && Region(data) == Some(body) && Scan(body) == Scanned(attrs, true)
      && Read16(data, 0) == messageType && Read32(data, 4) == MAGIC_COOKIE && data[8..20] == transactionId
  {
    hide AttrsBytes, Scan, Read16, Read32, Header;
    var body := AttrsBytes(attrs);
    HeaderFields(messageType, |body|, transactionId, body);
    AttrsBytesLength(attrs);
    SpansBound(attrs);
    ScanAttrs(attrs);
    var data := Header(messageType, |body|, transactionId) + body;
    assert data[20..20 + |body|] == data[20..];
  }

  lemma RegionOfEncoded(hmac: Hmac, m: Message, password: seq<byte>)
    requires Fits(hmac, m, password)
    ensures
      var data := Encoded(hmac, m, password);
      && Region(data) == Some(AttrsBytes(AllAttrs(hmac, m, password)))
      && Scan(Region(data).value) == Scanned(AllAttrs(hmac, m, password), true)
      && Read16(data, 0) == m.messageType && Read32(data, 4) == MAGIC_COOKIE && data[8..20] == m.transactionId
  {
    hide Encoded, AllAttrs, AttrsBytes, Covered, Scan, Read16, Read32, Header, Region;
    EncodedLayout(hmac, m, password);
    RegionOfLayout(m.messageType, m.transactionId, AllAttrs(hmac, m, password));
  }

  // ---------------------------------------------------------------------------
  // Decoding
  // ---------------------------------------------------------------------------

  lemma {:induction false} ApplyConcat(m: Message, a: seq<Attr>, b: seq<Attr>)
    ensures ApplyAll(m, a + b) == ApplyAll(ApplyAll(m, a), b)
    decreases |a|
  {
    hide Apply;
    if a == [] {
      assert a + b == b;
    } else {
      assert (a + b)[1..] == a[1..] + b;
      ApplyConcat(Apply(m, a[0]), a[1..], b);
    }
  }

  lemma ApplyOne(m: Message, a: Attr)
    ensures ApplyAll(m, [a]) == Apply(m, a)
  {
    hide Apply;
    assert [a][1..] == [];
  }

  lemma Read32BE32(v: u32)
    ensures Read32(BE32(v), 0) == v
  {
    HasAtIn([], BE32(v), []);
    assert [] + BE32(v) + [] == BE32(v);
    Read32At(BE32(v), 0, v);
  }

  lemma Read64BE64(v: u64)
    ensures Read64(BE64(v), 0) == v
  {
    HasAtIn([], BE64(v), []);
    assert [] + BE64(v) + [] == BE64(v);
    Read64At(BE64(v), 0, v);
  }

  /** An IPv4 address survives its masking with the magic cookie. */
  lemma ReadMappedValue(a: Mapped)
    requires a.family == 1
    ensures |MappedValue(a)| == 8
    ensures ReadMapped(MappedValue(a), None) == Mapped(1, a.address[..4] + Zeros(12), a.port)
  {
    var port, address := Xor16(a.port, MAGIC_COOKIE / 0x1_0000), Xor32(Read32(a.address, 0), MAGIC_COOKIE);
    var v := MappedValue(a);
    HasAtIn([0, 1], BE16(port), BE32(address));
    HasAtIn([0, 1] + BE16(port), BE32(address), []);
    assert [0, 1] + BE16(port) + BE32(address) + [] == v;
    Read16At(v, 2, port);
    Read32At(v, 4, address);
    XorCancel(a.port, MAGIC_COOKIE / 0x1_0000);
    XorCancel(Read32(a.address, 0), MAGIC_COOKIE);
    BE32Read32(a.address, 0);
    assert Zeros(16)[4..] == Zeros(12);
  }

  /** The fields a receiver can learn: a mapped address only if it is IPv4, and then 4 bytes of it. */
  function Normal(m: Message): Message {
    m.(mapped := if m.mapped.Some? && m.mapped.value.family == 1
                 then Some(Mapped(1, m.mapped.value.address[..4] + Zeros(12), m.mapped.value.port)) else None,
       messageIntegrity := [], fingerprint := None)
  }

  lemma ApplyOwn(m: Message)
    ensures ApplyAll(Blank(m.messageType, m.transactionId), AttrsOf(m)) == Normal(m)
  {
    hide BE32, BE64, Read32, Read64, MappedValue, ReadMapped;
    var blank := Blank(m.messageType, m.transactionId);
    var user := if m.username == [] then [] else [Attr(USERNAME, m.username)];
    var flag := if m.useCandidate then [Attr(USE_CANDIDATE, [])] else [];
    var s1 := blank.(username := m.username);
    var s2 := s1.(priority := m.priority);
    var s3 := s2.(iceControlling := m.iceControlling);
    var s4 := s3.(iceControlled := m.iceControlled);
    var s5 := s4.(useCandidate := m.useCandidate);
    assert ApplyAll(blank, user) == s1 by { ApplyUser(blank, m); }
    assert ApplyAll(s1, PriorityAttrs(m)) == s2 by { ApplyPriority(s1, m); }
    assert ApplyAll(s2, ControllingAttrs(m)) == s3 by { ApplyControlling(s2, m); }
    assert ApplyAll(s3, ControlledAttrs(m)) == s4 by { ApplyControlled(s3, m); }
    assert ApplyAll(s4, flag) == s5 by { ApplyFlag(s4, m); }
    assert ApplyAll(s5, MappedAttrs(m)) == Normal(m) by { ApplyMapped(s5, m); }
    hide ApplyAll, PriorityAttrs, ControllingAttrs, ControlledAttrs, MappedAttrs, Normal;
    ApplyConcat(blank, user, PriorityAttrs(m));
    ApplyConcat(blank, user + PriorityAttrs(m), ControllingAttrs(m));
    ApplyConcat(blank, user + PriorityAttrs(m) + ControllingAttrs(m), ControlledAttrs(m));
    ApplyConcat(blank, user + PriorityAttrs(m) + ControllingAttrs(m) + ControlledAttrs(m), flag);
    ApplyConcat(blank, user + PriorityAttrs(m) + ControllingAttrs(m) + ControlledAttrs(m) + flag, MappedAttrs(m));
  }

  lemma ApplyUser(b: Message, m: Message)
    requires b.username == []
    ensures ApplyAll(b, if m.username == [] then [] else [Attr(USERNAME, m.username)]) == b.(username := m.username)
  {
    ApplyOne(b, Attr(USERNAME, m.username));
  }

  lemma ApplyPriority(b: Message, m: Message)
    requires b.priority == None
    ensures ApplyAll(b, PriorityAttrs(m)) == b.(priority := m.priority)
  {
    if m.priority.Some? {
      ApplyOne(b, PriorityAttrs(m)[0]);
      Read32BE32(m.priority.value);
    }
  }

  lemma ApplyControlling(b: Message, m: Message)
    requires b.iceControlling == None
    ensures ApplyAll(b, ControllingAttrs(m)) == b.(iceControlling := m.iceControlling)
  {
    if m.iceControlling.Some? {
      ApplyOne(b, ControllingAttrs(m)[0]);
      Read64BE64(m.iceControlling.value);
    }
  }

  lemma ApplyControlled(b: Message, m: Message)
    requires b.iceControlled == None
    ensures ApplyAll(b, ControlledAttrs(m)) == b.(iceControlled := m.iceControlled)
  {
    if m.iceControlled.Some? {
      ApplyOne(b, ControlledAttrs(m)[0]);
      Read64BE64(m.iceControlled.value);
    }
  }

  lemma ApplyFlag(b: Message, m: Message)
    requires !b.useCandidate
    ensures ApplyAll(b, if m.useCandidate then [Attr(USE_CANDIDATE, [])] else []) == b.(useCandidate := m.useCandidate)
  {
    ApplyOne(b, Attr(USE_CANDIDATE, []));
  }

  lemma ApplyMapped(b: Message, m: Message)
    requires b.mapped == None
    ensures ApplyAll(b, MappedAttrs(m)) == b.(mapped := Normal(m).mapped)
  {
    hide MappedValue, ReadMapped;
    if MappedAttrs(m) != [] {
      ApplyOne(b, MappedAttrs(m)[0]);
      ReadMappedValue(m.mapped.value);
    }
  }

  /** The integrity code that goes with a message, if a password is given. */
  function MacOf(hmac: Hmac, m: Message, password: seq<byte>): seq<byte> {
    var body := AttrsBytes(AttrsOf(m));
    if password == [] then [] else hmac(password, Header(m.messageType, |body| + 24, m.transactionId) + body)
  }

  /** What the receiver of an encoded message holds. */
  function Arrived(hmac: Hmac, m: Message, password: seq<byte>): Message {
    Normal(m).(messageIntegrity := MacOf(hmac, m, password),
               fingerprint := Some(FingerprintOf(m, Covered(hmac, m, password))))
  }

  lemma ApplyMac(hmac: Hmac, b: Message, m: Message, password: seq<byte>)
    requires b.messageIntegrity == []
    ensures ApplyAll(b, IntegrityAttrs(hmac, m, password)) == b.(messageIntegrity := MacOf(hmac, m, password))
  {
    hide Header, AttrsBytes, AttrsOf;
    var mac := IntegrityAttrs(hmac, m, password);
    if mac != [] {
      ApplyOne(b, mac[0]);
    }
  }

  lemma ApplyFingerprint(b: Message, crc: u32)
    ensures ApplyAll(b, [Attr(FINGERPRINT, BE32(crc))]) == b.(fingerprint := Some(crc))
  {
    hide BE32, Read32;
    ApplyOne(b, Attr(FINGERPRINT, BE32(crc)));
    Read32BE32(crc);
  }

  lemma ApplyEverything(hmac: Hmac, m: Message, password: seq<byte>)
    ensures ApplyAll(Blank(m.messageType, m.transactionId), AllAttrs(hmac, m, password)) == Arrived(hmac, m, password)
  {
    hide ApplyAll, AttrsOf, IntegrityAttrs, MacOf, FingerprintOf, Covered, BE32;
    var blank := Blank(m.messageType, m.transactionId);
    var own, mac := AttrsOf(m), IntegrityAttrs(hmac, m, password);
    var crc := FingerprintOf(m, Covered(hmac, m, password));
    ApplyOwn(m);
    ApplyMac(hmac, Normal(m), m, password);
    ApplyFingerprint(Normal(m).(messageIntegrity := MacOf(hmac, m, password)), crc);
    ApplyConcat(blank, own, mac);
    ApplyConcat(blank, own + mac, [Attr(FINGERPRINT, BE32(crc))]);
  }

  /**
    Decoding gives back every message that fits: all its fields, its integrity code and its
    fingerprint. The mapped address is kept exactly if it is IPv4.
  */
  lemma DecodeEncode(hmac: Hmac, m: Message, password: seq<byte>)
    requires Fits(hmac, m, password)
    ensures Decoded(Encoded(hmac, m, password)) == Some(Arrived(hmac, m, password))
  {
    hide ApplyAll, AllAttrs, Encoded, Arrived, Scan, Region, Fits, Read16, Read32, AttrsBytes;
    RegionOfEncoded(hmac, m, password);
    ApplyEverything(hmac, m, password);
  }

  // ---------------------------------------------------------------------------
  // Verification
  // ---------------------------------------------------------------------------

  /** Putting another length into a header gives the header with that length. */
  lemma WithLengthHeader(messageType: u16, length: nat, transactionId: TransactionId, body: seq<byte>, length': nat)
    ensures WithLength(Header(messageType, length, transactionId) + body, length')
         == Header(messageType, length', transactionId) + body
  {
    hide BE16, BE32;
    var a, b, tail := BE16(messageType), BE16(length % 0x1_0000), BE32(MAGIC_COOKIE) + transactionId;
    var s := Header(messageType, length, transactionId) + body;
    assert s == a + b + (tail + body) by {
      Assoc(a + b, BE32(MAGIC_COOKIE), transactionId);
      Assoc(a + b, tail, body);
    }
    DropPrefix(a + b, tail + body);
    Assoc(a, b, tail + body);
    DropPrefix(a, b + (tail + body));
    var b' := BE16(length' % 0x1_0000);
    Assoc(a + b', BE32(MAGIC_COOKIE), transactionId);
    Assoc(a + b', tail, body);
  }

  /** The fingerprint verifies for every message, also one too long for its length field. */
  lemma FingerprintVerifies(hmac: Hmac, m: Message, password: seq<byte>)
    ensures FingerprintVerified(Encoded(hmac, m, password))
  {
    hide Covered, FingerprintOf, Header, WithLength, Crc32.Crc;
    var covered := Covered(hmac, m, password);
    var head := Header(m.messageType, |covered| + 8, m.transactionId);
    var crc := FingerprintOf(m, covered);
    var data := Encoded(hmac, m, password);
    DropPrefix(head + covered, AttrBytes(Attr(FINGERPRINT, BE32(crc))));
    FingerprintFields(head + covered, crc);
    WithLengthHeader(m.messageType, |covered| + 8, m.transactionId, covered, |covered| + 8);
    FingerprintIs(m, covered);
  }

  lemma FingerprintIs(m: Message, covered: seq<byte>)
    ensures FingerprintOf(m, covered)
         == Xor32(Crc32.Crc(Header(m.messageType, |covered| + 8, m.transactionId) + covered), FINGERPRINT_MASK)
  {
  }

  lemma FingerprintFields(front: seq<byte>, crc: u32)
    ensures
      var s := front + AttrBytes(Attr(FINGERPRINT, BE32(crc)));
      var at := |front|;
      && |s| == at + 8 && Read16(s, at) == FINGERPRINT && Read16(s, at + 2) == 4 && Read32(s, at + 4) == crc
  {
    var a, b, c := BE16(FINGERPRINT), BE16(4), BE32(crc);
    var s := front + AttrBytes(Attr(FINGERPRINT, c));
    assert AttrBytes(Attr(FINGERPRINT, c)) == a + b + c;
    HasAtIn(front, a + b + c, []);
    assert front + (a + b + c) + [] == s;
    HasAtParts(s, |front|, a + b, c);
    HasAtParts(s, |front|, a, b);
    Read16At(s, |front|, FINGERPRINT);
    Read16At(s, |front| + 2, 4);
    Read32At(s, |front| + 4, crc);
  }

  lemma {:induction false} FirstIntegrityIn(own: seq<Attr>, rest: seq<Attr>)
    requires FirstIntegrity(own) == |own|
    ensures FirstIntegrity(own + rest) == |own| + FirstIntegrity(rest)
  {
    if own == [] {
      assert own + rest == rest;
    } else {
      assert (own + rest)[1..] == own[1..] + rest;
      FirstIntegrityIn(own[1..], rest);
    }
  }

  lemma {:induction false} NoIntegrity(attrs: seq<Attr>)
    requires forall i :: 0 <= i < |attrs| ==> attrs[i].kind != MESSAGE_INTEGRITY
    ensures FirstIntegrity(attrs) == |attrs|
  {
    if attrs != [] {
      NoIntegrity(attrs[1..]);
    }
  }

  lemma OwnHaveNoIntegrity(m: Message)
    ensures forall i :: 0 <= i < |AttrsOf(m)| ==> AttrsOf(m)[i].kind != MESSAGE_INTEGRITY
  {
    hide BE32, BE64, MappedValue, Xor16, Xor32;
    assert PriorityAttrs(m) == [] || PriorityAttrs(m) == [Attr(PRIORITY, BE32(m.priority.value))];
  }

  lemma {:induction false} SpansConcat(a: seq<Attr>, b: seq<Attr>)
    ensures Spans(a + b) == Spans(a) + Spans(b)
  {
    if a == [] {
      assert a + b == b;
    } else {
      assert (a + b)[1..] == a[1..] + b;
      SpansConcat(a[1..], b);
    }
  }

  /** A message whose first integrity code stands behind `own` verifies if the code is that of `own`. */
  lemma IntegrityOfLayout(hmac: Hmac, messageType: u16, transactionId: TransactionId, own: seq<Attr>, mac: Mac,
                          rest: seq<Attr>, key: seq<byte>)
    requires FirstIntegrity(own) == |own|
    requires |AttrsBytes(own + ([Attr(MESSAGE_INTEGRITY, mac)] + rest))| < 0x1_0000
    ensures
      var body := AttrsBytes(own + ([Attr(MESSAGE_INTEGRITY, mac)] + rest));
      IntegrityVerified(hmac, Header(messageType, |body|, transactionId) + body, key)
      <==> hmac(key, Header(messageType, |AttrsBytes(own)| + 24, transactionId) + AttrsBytes(own)) == mac
  {
    hide AttrsBytes, Header, Scan, Region, WithLength, Spans, FirstIntegrity, AttrBytes, Read16, Read32;
    var tail := [Attr(MESSAGE_INTEGRITY, mac)] + rest;
    var all := own + tail;
    RegionOfLayout(messageType, transactionId, all);
    IntegrityBehind(own, mac, rest);
    var length := |AttrsBytes(all)|;
    var head := Header(messageType, length, transactionId);
    AttrsBytesConcat(own, tail);
    AttrsBytesLength(own);
    Assoc(head, AttrsBytes(own), AttrsBytes(tail));
    DropPrefix(head + AttrsBytes(own), AttrsBytes(tail));
    WithLengthHeader(messageType, length, transactionId, AttrsBytes(own), |AttrsBytes(own)| + 24);
  }

  lemma IntegrityBehind(own: seq<Attr>, mac: Mac, rest: seq<Attr>)
    requires FirstIntegrity(own) == |own|
    ensures
      var all := own + ([Attr(MESSAGE_INTEGRITY, mac)] + rest);
      FirstIntegrity(all) == |own| && all[..|own|] == own && all[|own|].value == mac
  {
    var tail := [Attr(MESSAGE_INTEGRITY, mac)] + rest;
    FirstIntegrityIn(own, tail);
    DropPrefix(own, tail);
  }

  /**
    A message that fits verifies under the password it was encoded with, if that is not
    empty; under another password exactly if the two codes of its covered bytes collide.
  */
  lemma IntegrityVerifies(hmac: Hmac, m: Message, password: seq<byte>, other: seq<byte>)
    requires Fits(hmac, m, password)
    ensures
      var body := AttrsBytes(AttrsOf(m));
      var covered := Header(m.messageType, |body| + 24, m.transactionId) + body;
      IntegrityVerified(hmac, Encoded(hmac, m, password), other)
      <==> password != [] && hmac(other, covered) == hmac(password, covered)
  {
    hide AttrsOf, Encoded, Scan, Region, Header, AttrsBytes, FirstIntegrity, IntegrityVerified, FingerprintOf, BE32;
    OwnHaveNoIntegrity(m);
    NoIntegrity(AttrsOf(m));
    EncodedLayout(hmac, m, password);
    var fp := Attr(FINGERPRINT, BE32(FingerprintOf(m, Covered(hmac, m, password))));
    var mac := IntegrityAttrs(hmac, m, password);
    Assoc(AttrsOf(m), mac, [fp]);
    if password == [] {
      NoCodeNoVerdict(hmac, m, password, other);
    } else {
      IntegrityOfLayout(hmac, m.messageType, m.transactionId, AttrsOf(m), mac[0].value, [fp], other);
    }
  }

  lemma NoCodeNoVerdict(hmac: Hmac, m: Message, password: seq<byte>, other: seq<byte>)
    requires Fits(hmac, m, password) && password == []
    ensures !IntegrityVerified(hmac, Encoded(hmac, m, password), other)
  {
    hide AttrsOf, Encoded, Scan, Region, Header, AttrsBytes, FingerprintOf, BE32, Fits;
    RegionOfEncoded(hmac, m, password);
    OwnHaveNoIntegrity(m);
    NoIntegrity(AllAttrs(hmac, m, password));
  }
}
