/**
  The STUN codec as the program runs it: a growing buffer whose header is overwritten, and
  cursors that walk over attributes.
*/
module StunMessage {
  import opened Bytes
  import opened SeqFacts
  import opened StunSpec
  import opened StunLaws
  import Crc32

  // ---------------------------------------------------------------------------
  // Writing
  // ---------------------------------------------------------------------------

  /** Two bytes of the buffer overwritten. */
  method WriteU16(buf: seq<byte>, pos: nat, v: u16) returns (r: seq<byte>)
    requires pos + 2 <= |buf|
    ensures r == buf[..pos] + BE16(v) + buf[pos + 2..]
  {
    r := buf[pos := v / 0x100][pos + 1 := v % 0x100];
  }

  lemma ZerosSnoc(n: nat)
    ensures Zeros(n + 1) == Zeros(n) + [0] && Zeros(0) == []
  {
  }

  method AppendAttr(buf: seq<byte>, kind: u16, value: seq<byte>) returns (r: seq<byte>)
    requires |buf| % 4 == 0
    ensures r == buf + AttrBytes(Attr(kind, value)) && |r| % 4 == 0
  {
    hide BE16, Zeros;
    ghost var head := BE16(kind) + BE16(|value| % 0x1_0000);
    r := buf + Zeros(4);
    r := WriteU16(r, |buf|, kind);
    r := WriteU16(r, |buf| + 2, |value| % 0x1_0000);
    assert r == buf + head;
    r := r + value;
    ghost var n: nat := 0;
    ZerosSnoc(0);
    Unit(r);
    while |r| % 4 != 0
      invariant n <= Padding(|value|) && r == buf + head + value + Zeros(n)
      decreases Padding(|value|) - n
    {
      ZerosSnoc(n);
      Assoc(buf + head + value, Zeros(n), [0]);
      r := r + [0];
      n := n + 1;
    }
    Assoc(buf, head, value);
    Assoc(buf, head + value, Zeros(n));
  }

  /** One more attribute behind a header and the attributes written so far. */
  method Append(buf: seq<byte>, ghost head: seq<byte>, ghost written: seq<Attr>, kind: u16, value: seq<byte>)
    returns (r: seq<byte>)
    requires |head| == 20 && buf == head + AttrsBytes(written)
    ensures r == head + AttrsBytes(written + [Attr(kind, value)])
  {
    hide AttrBytes;
    AttrsBytesLength(written);
    r := AppendAttr(buf, kind, value);
    AttrsBytesConcat(written, [Attr(kind, value)]);
    assert [Attr(kind, value)][1..] == [];
    Assoc(head, AttrsBytes(written), AttrBytes(Attr(kind, value)));
  }

  /** The header, its length still zero, and the message's own attributes. */
  method EncodeOwn(m: Message) returns (buf: seq<byte>)
    ensures buf == Header(m.messageType, 0, m.transactionId) + AttrsBytes(AttrsOf(m))
  {
    hide AttrsBytes, BE32, BE64, MappedValue;
    buf := Header(m.messageType, 0, m.transactionId);
    ghost var head := buf;
    ghost var written: seq<Attr> := [];
    NoAttrs();
    Unit(head);
    Unit(written);
    if m.username != [] {
      buf := Append(buf, head, written, USERNAME, m.username);
      Unit([Attr(USERNAME, m.username)]);
    }
    written := if m.username == [] then [] else [Attr(USERNAME, m.username)];
    Unit(written);
    if m.priority.Some? {
      buf := Append(buf, head, written, PRIORITY, BE32(m.priority.value));
    }
    written := written + PriorityAttrs(m);
    Unit(written);
    if m.iceControlling.Some? {
      buf := Append(buf, head, written, ICE_CONTROLLING, BE64(m.iceControlling.value));
    }
    written := written + ControllingAttrs(m);
    Unit(written);
    if m.iceControlled.Some? {
      buf := Append(buf, head, written, ICE_CONTROLLED, BE64(m.iceControlled.value));
    }
    written := written + ControlledAttrs(m);
    Unit(written);
    if m.useCandidate {
      buf := Append(buf, head, written, USE_CANDIDATE, []);
    }
    written := written + if m.useCandidate then [Attr(USE_CANDIDATE, [])] else [];
    Unit(written);
    if m.mapped.Some? {
      if m.mapped.value.family == 1 {
        buf := Append(buf, head, written, XOR_MAPPED_ADDRESS, MappedValue(m.mapped.value));
      }
    }
    written := written + MappedAttrs(m);
  }

  lemma NoAttrs()
    ensures AttrsBytes([]) == []
  {
  }

  method SetLength(buf: seq<byte>, ghost m: Message, ghost was: nat, ghost body: seq<byte>, length: nat)
    returns (r: seq<byte>)
    requires buf == Header(m.messageType, was, m.transactionId) + body
    ensures r == Header(m.messageType, length, m.transactionId) + body
  {
    r := WriteU16(buf, 2, length % 0x1_0000);
    WithLengthHeader(m.messageType, was, m.transactionId, body, length);
  }

  method Encode(hmac: Hmac, m: Message, password: seq<byte>) returns (buf: seq<byte>)
    ensures buf == Encoded(hmac, m, password)
  {
    hide AttrBytes, AttrsBytes, AttrsOf, BE32, Header, Xor32, Crc32.Crc;
    buf := EncodeOwn(m);
    ghost var own := AttrsOf(m);
    ghost var length: nat := 0;
    if password != [] {
      length := |AttrsBytes(own)| + 24;
      buf := SetLength(buf, m, 0, AttrsBytes(own), |buf| - 20 + 24);
      var mac := hmac(password, buf);
      buf := Append(buf, Header(m.messageType, length, m.transactionId), own, MESSAGE_INTEGRITY, mac);
    }
    ghost var covered := Covered(hmac, m, password);
    AttrsBytesConcat(own, IntegrityAttrs(hmac, m, password));
    Unit(own);
    assert buf == Header(m.messageType, length, m.transactionId) + covered;
    buf := SetLength(buf, m, length, covered, |buf| - 20 + 8);
    var crc := Crc32.Compute(buf);
    CoveredLength(hmac, m, password);
    buf := AppendAttr(buf, FINGERPRINT, BE32(Xor32(crc, FINGERPRINT_MASK)));
  }

  lemma CoveredLength(hmac: Hmac, m: Message, password: seq<byte>)
    ensures |Covered(hmac, m, password)| % 4 == 0
  {
    hide AttrsOf, IntegrityAttrs, Spans, AttrsBytes;
    AttrsBytesLength(AttrsOf(m));
    AttrsBytesLength(IntegrityAttrs(hmac, m, password));
  }

  // ---------------------------------------------------------------------------
  // Reading
  // ---------------------------------------------------------------------------

  /** What is left behind a cursor, which padding may carry past the end. */
  function Rest(s: seq<byte>, p: nat): seq<byte> {
    if p <= |s| then s[p..] else []
  }

  /** One step of the scan in the coordinates of the whole buffer. */
  lemma ScanHere(s: seq<byte>, p: nat)
    requires p + 4 <= |s|
    ensures
      var len := Read16(s, p + 2);
      Scan(Rest(s, p))
      == if p + 4 + len > |s| then Scanned([], false)
         else
           var a := Attr(Read16(s, p), s[p + 4..p + 4 + len]);
           var rest := Scan(Rest(s, p + Span(a)));
           Scanned([a] + rest.attrs, rest.complete)
  {
    hide Padding, Read16;
    RestFields(s, p);
    if p + 4 + Read16(s, p + 2) <= |s| {
      RestSlices(s, p, Attr(Read16(s, p), s[p + 4..p + 4 + Read16(s, p + 2)]));
    }
  }

  lemma RestFields(s: seq<byte>, p: nat)
    requires p + 4 <= |s|
    ensures Read16(s[p..], 0) == Read16(s, p) && Read16(s[p..], 2) == Read16(s, p + 2)
  {
  }

  lemma RestSlices(s: seq<byte>, p: nat, a: Attr)
    requires p + 4 + |a.value| <= |s| && a.value == s[p + 4..p + 4 + |a.value|]
    ensures s[p..][4..4 + |a.value|] == a.value
    ensures Rest(s, p + Span(a)) == if Span(a) <= |s[p..]| then s[p..][Span(a)..] else []
  {
    hide Padding;
    var n := |a.value|;
    DropDrop(s, p, 4);
    TakeDrop(s[p..], 4, n);
    TakeDrop(s, p + 4, n);
    if Span(a) <= |s[p..]| {
      DropDrop(s, p, Span(a));
    }
  }

  lemma ScanEnd(s: seq<byte>, p: nat)
    requires p + 4 > |s|
    ensures Scan(Rest(s, p)) == Scanned([], true)
  {
  }

  /** The distance to the next attribute. */
  method Advance(len: nat) returns (advance: nat)
    ensures advance == 4 + len + Padding(len)
  {
    advance := 4 + len;
    while advance % 4 != 0
      invariant 4 + len <= advance <= 4 + len + Padding(len)
      decreases 4 + len + Padding(len) - advance
    {
      advance := advance + 1;
    }
  }

  method Decode(data: seq<byte>) returns (out: Option<Message>)
    ensures out == Decoded(data)
  {
    hide Apply, Read16, Read32, Scan;
    if |data| < 20 {
      return None;
    }
    var attrLen := Read16(data, 2);
    if Read32(data, 4) != MAGIC_COOKIE {
      return None;
    }
    if 20 + attrLen > |data| {
      return None;
    }
    var m := Blank(Read16(data, 0), data[8..20]);
    var region := data[20..20 + attrLen];
    var p := 0;
    assert Rest(region, 0) == region;
    ghost var all := Scan(region);
    while p + 4 <= |region|
      invariant Decoded(data)
             == if all.complete then Some(ApplyAll(m, Scan(Rest(region, p)).attrs)) else None
      invariant all.complete == Scan(Rest(region, p)).complete
      decreases |region| - p
    {
      var kind, len := Read16(region, p), Read16(region, p + 2);
      ScanHere(region, p);
      if p + 4 + len > |region| {
        return None;
      }
      var a := Attr(kind, region[p + 4..p + 4 + len]);
      var advance := Advance(len);
      ApplyFirst(m, a, Scan(Rest(region, p + advance)).attrs);
      m := Apply(m, a);
      p := p + advance;
    }
    ScanEnd(region, p);
    out := Some(m);
  }

  lemma ApplyFirst(m: Message, a: Attr, rest: seq<Attr>)
    ensures ApplyAll(m, [a] + rest) == ApplyAll(Apply(m, a), rest)
  {
    hide Apply;
    Cons(a, rest);
  }

  method VerifyMessageIntegrity(hmac: Hmac, data: seq<byte>, password: seq<byte>) returns (ok: bool)
    ensures ok == IntegrityVerified(hmac, data, password)
  {
    hide Read16, Scan, WithLength, Padding, FirstIntegrity, Spans;
    NothingSeen();
    if |data| < 20 {
      return false;
    }
    var attrLen := Read16(data, 2);
    if 20 + attrLen > |data| {
      return false;
    }
    var region := data[20..20 + attrLen];
    ghost var all := Scan(region).attrs;
    ghost var seen: seq<Attr> := [];
    var p := 0;
    assert Rest(region, 0) == region;
    while p + 4 <= |region|
      invariant p == Spans(seen) && FirstIntegrity(seen) == |seen|
      invariant all == seen + Scan(Rest(region, p)).attrs
      decreases |region| - p
    {
      var kind, len := Read16(region, p), Read16(region, p + 2);
      ScanHere(region, p);
      if p + 4 + len > |region| {
        Unit(seen);
        return false;
      }
      var a := Attr(kind, region[p + 4..p + 4 + len]);
      ghost var rest := Scan(Rest(region, p + Span(a))).attrs;
      if kind == MESSAGE_INTEGRITY && len == 20 {
        FirstIs(seen, a, rest);
        assert data[20..20 + attrLen][..p] == data[20..20 + p];
        ok := CheckCode(hmac, data, p, password, a.value);
        return;
      }
      NotYet(seen, a);
      Assoc(seen, [a], rest);
      seen := seen + [a];
      var advance := Advance(len);
      p := p + advance;
    }
    ScanEnd(region, p);
    Unit(seen);
    ok := false;
  }

  /** The bytes before the code, under a length that includes it, are authenticated. */
  method CheckCode(hmac: Hmac, data: seq<byte>, p: nat, password: seq<byte>, code: seq<byte>) returns (ok: bool)
    requires 20 + p <= |data| && |code| == 20
    ensures ok <==> hmac(password, WithLength(data[..20 + p], p + 24)) == code
  {
    var tmp := data[..20 + p];
    tmp := WriteU16(tmp, 2, (p + 24) % 0x1_0000);
    var mac := hmac(password, tmp);
    var i := 0;
    while i < 20
      invariant 0 <= i <= 20 && mac[..i] == code[..i]
    {
      if mac[i] != code[i] {
        return false;
      }
      i := i + 1;
    }
    assert mac[..20] == mac && code[..20] == code;
    ok := true;
  }

  lemma NothingSeen()
    ensures FirstIntegrity([]) == 0 && Spans([]) == 0
  {
  }

  lemma FirstIs(seen: seq<Attr>, a: Attr, rest: seq<Attr>)
    requires FirstIntegrity(seen) == |seen|
    requires a.kind == MESSAGE_INTEGRITY && |a.value| == 20
    ensures
      var all := seen + ([a] + rest);
      FirstIntegrity(all) == |seen| < |all| && all[|seen|] == a && all[..|seen|] == seen
  {
    FirstIntegrityIn(seen, [a] + rest);
    DropPrefix(seen, [a] + rest);
  }

  lemma NotYet(seen: seq<Attr>, a: Attr)
    requires FirstIntegrity(seen) == |seen|
    requires !(a.kind == MESSAGE_INTEGRITY && |a.value| == 20)
    ensures FirstIntegrity(seen + [a]) == |seen| + 1
    ensures Spans(seen + [a]) == Spans(seen) + Span(a)
  {
    SpansConcat(seen, [a]);
    FirstIntegrityIn(seen, [a]);
    assert [a][1..] == [];
  }

  method VerifyFingerprint(data: seq<byte>) returns (ok: bool)
    ensures ok == FingerprintVerified(data)
  {
    hide Read16, Read32, Crc32.Crc;
    if |data| < 28 {
      return false;
    }
    var at := |data| - 8;
    if Read16(data, at) != FINGERPRINT {
      return false;
    }
    if Read16(data, at + 2) != 4 {
      return false;
    }
    var tmp := data[..at];
    tmp := WriteU16(tmp, 2, (at - 20 + 8) % 0x1_0000);
    var crc := Crc32.Compute(tmp);
    ok := Xor32(crc, FINGERPRINT_MASK) == Read32(data, at + 4);
  }
}
