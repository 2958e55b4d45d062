/**
  RTP headers written from their fields (section 5.1 of RFC 3550), and what SRTP protects of a
  packet: everything behind the header is masked, and all of it is authenticated.
*/
module RtpHeaders {
  import opened Bytes
  import opened SeqFacts
  import opened CounterMode
  import opened SrtpPacket

  datatype Extension = Extension(profile: u16, words: seq<u32>)

  datatype RtpHeader = RtpHeader(
    padding: bool, marker: bool, payloadType: nat, sequence: u16, timestamp: u32, ssrc: u32,
    csrcs: seq<u32>, extension: Option<Extension>)

  predicate WellFormed(h: RtpHeader) {
    h.payloadType < 128 && |h.csrcs| <= 15 && (h.extension.Some? ==> |h.extension.value.words| < 0x1_0000)
  }

  function Words(ws: seq<u32>): (s: seq<byte>)
    ensures |s| == 4 * |ws|
  {
    if ws == [] then [] else BE32(ws[0]) + Words(ws[1..])
  }

  /** Version 2, the padding and extension bits and the number of contributing sources. */
  function FirstByte(h: RtpHeader): byte
    requires WellFormed(h)
  {
    128 + (if h.padding then 32 else 0) + (if h.extension.Some? then 16 else 0) + |h.csrcs|
  }

  function FixedPart(h: RtpHeader): (s: seq<byte>)
    requires WellFormed(h)
    ensures |s| == 12
  {
    [FirstByte(h), (if h.marker then 128 else 0) + h.payloadType] + BE16(h.sequence) + BE32(h.timestamp) + BE32(h.ssrc)
  }

  function ExtensionPart(e: Option<Extension>): seq<byte>
    requires e.Some? ==> |e.value.words| < 0x1_0000
  {
    if e.None? then [] else BE16(e.value.profile) + BE16(|e.value.words|) + Words(e.value.words)
  }

  function HeaderBytes(h: RtpHeader): seq<byte>
    requires WellFormed(h)
  {
    FixedPart(h) + Words(h.csrcs) + ExtensionPart(h.extension)
  }

  lemma FirstByteFields(h: RtpHeader)
    requires WellFormed(h)
    ensures FirstByte(h) / 64 == 2 && FirstByte(h) % 16 == |h.csrcs|
    ensures FirstByte(h) / 16 % 2 == if h.extension.Some? then 1 else 0
  {
  }

  /** The header ends behind its CSRC list and its extension, whatever the payload is. */
  lemma HeaderEnds(h: RtpHeader, payload: seq<byte>)
    requires WellFormed(h)
    ensures LocatePayloadStart(HeaderBytes(h) + payload) == |HeaderBytes(h)|
    ensures Read16(HeaderBytes(h) + payload, 2) == h.sequence
  {
    hide BE16, BE32, Words, Read16, FirstByte;
    var fixed, csrcs, e := FixedPart(h), Words(h.csrcs), ExtensionPart(h.extension);
    var p := HeaderBytes(h) + payload;
    FirstByteFields(h);
    Assoc(fixed + csrcs, e, payload);
    Assoc(fixed, csrcs, e + payload);
    assert p[0] == fixed[0];
    SequenceField(h, csrcs + (e + payload));
    if h.extension.Some? {
      var x := h.extension.value;
      Assoc(BE16(x.profile) + BE16(|x.words|), Words(x.words), payload);
      HasAtIn(fixed + csrcs + BE16(x.profile), BE16(|x.words|), Words(x.words) + payload);
      Assoc(fixed + csrcs + BE16(x.profile), BE16(|x.words|), Words(x.words) + payload);
      Assoc(fixed + csrcs, BE16(x.profile), BE16(|x.words|) + (Words(x.words) + payload));
      Assoc(BE16(x.profile), BE16(|x.words|), Words(x.words) + payload);
      Read16At(p, 12 + 4 * |h.csrcs| + 2, |x.words|);
    }
  }

  lemma SequenceField(h: RtpHeader, rest: seq<byte>)
    requires WellFormed(h)
    ensures Read16(FixedPart(h) + rest, 2) == h.sequence
  {
    hide BE16, BE32, Read16, FirstByte;
    var front := [FirstByte(h), (if h.marker then 128 else 0) + h.payloadType];
    var back := BE32(h.timestamp) + BE32(h.ssrc);
    Assoc(front + BE16(h.sequence), BE32(h.timestamp), BE32(h.ssrc));
    Assoc(front + BE16(h.sequence), back, rest);
    HasAtIn(front, BE16(h.sequence), back + rest);
    Read16At(FixedPart(h) + rest, 2, h.sequence);
  }

  // ---------------------------------------------------------------------------
  // Every packet that is not refused has such a header
  // ---------------------------------------------------------------------------

  function ReadWords(s: seq<byte>): seq<u32>
    requires |s| % 4 == 0
  {
    if s == [] then [] else [Read32(s, 0)] + ReadWords(s[4..])
  }

  lemma {:induction false} ReadWordsWritten(s: seq<byte>)
    requires |s| % 4 == 0
    ensures Words(ReadWords(s)) == s
    decreases |s|
  {
    hide BE32, Read32;
    if s != [] {
      ReadWordsWritten(s[4..]);
      BE32Read32(s, 0);
      Cons(Read32(s, 0), ReadWords(s[4..]));
      SplitAt(s, 4);
      assert s[0..4] == s[..4];
    }
  }

  function ReadExtension(s: seq<byte>): Option<Extension>
    requires |s| % 4 == 0
  {
    if s == [] then None else Some(Extension(Read16(s, 0), ReadWords(s[4..])))
  }

  /** The header of a packet whose extension starts at `behind` and whose payload starts at `at`. */
  function HeaderOf(p: seq<byte>, behind: nat, at: nat): RtpHeader
    requires 12 <= behind <= at <= |p| && (behind - 12) % 4 == 0 && (at - behind) % 4 == 0
  {
    RtpHeader(p[0] / 32 % 2 == 1, p[1] >= 128, p[1] as int % 128, Read16(p, 2), Read32(p, 4), Read32(p, 8),
              ReadWords(p[12..behind]), ReadExtension(p[behind..at]))
  }

  lemma FixedOf(p: seq<byte>, h: RtpHeader)
    requires |p| >= 12 && WellFormed(h) && p[0] == FirstByte(h)
    requires h.marker == (p[1] >= 128) && h.payloadType == p[1] % 128
    requires h.sequence == Read16(p, 2) && h.timestamp == Read32(p, 4) && h.ssrc == Read32(p, 8)
    ensures FixedPart(h) == p[..12]
  {
    hide BE16, BE32, Read16, Read32, FirstByte;
    BE16Read16(p, 2);
    BE32Read32(p, 4);
    BE32Read32(p, 8);
    assert [p[0], p[1]] == p[..2];
    assert p[..12] == p[..2] + p[2..4] + p[4..8] + p[8..12];
  }

  lemma BE16Read16(s: seq<byte>, at: nat)
    requires at + 2 <= |s|
    ensures BE16(Read16(s, at)) == s[at..at + 2]
  {
    var v := Read16(s, at);
    assert v / 0x100 == s[at] && v % 0x100 == s[at + 1];
  }

  lemma ExtensionOf(s: seq<byte>)
    requires |s| % 4 == 0 && (s != [] ==> Read16(s, 2) == (|s| - 4) / 4)
    ensures
      var e := ReadExtension(s);
      (e.Some? ==> |e.value.words| < 0x1_0000) && ExtensionPart(e) == s
  {
    hide BE16, Read16;
    if s != [] {
      BE16Read16(s, 0);
      BE16Read16(s, 2);
      ReadWordsWritten(s[4..]);
      assert |Words(ReadWords(s[4..]))| == |s| - 4;
      assert s == s[0..2] + s[2..4] + s[4..];
    }
  }

  lemma ByteParts(b: byte)
    requires b / 64 == 2
    ensures b == 128 + 32 * (b / 32 % 2) + 16 * (b / 16 % 2) + b % 16
  {
  }

  lemma FirstByteOf(b: byte, h: RtpHeader)
    requires b / 64 == 2 && WellFormed(h)
    requires h.padding == (b / 32 % 2 == 1) && |h.csrcs| == b % 16 && h.extension.Some? == (b / 16 % 2 == 1)
    ensures FirstByte(h) == b
  {
    ByteParts(b);
  }

  /** Where the parts of a packet lie whose payload was located. */
  lemma LocatedParts(p: seq<byte>)
    requires LocatePayloadStart(p) > 0
    ensures
      var at, behind := LocatePayloadStart(p), 12 + 4 * (p[0] % 16) as int;
      && |p| >= 12 && p[0] / 64 == 2
      && 12 <= behind <= at <= |p| && (at - behind) % 4 == 0
      && (at > behind <==> p[0] / 16 % 2 == 1)
      && (at > behind ==> at >= behind + 4 && Read16(p[behind..at], 2) == (at - behind - 4) / 4)
  {
  }

  lemma WordCount(s: seq<byte>)
    requires |s| % 4 == 0
    ensures 4 * |ReadWords(s)| == |s|
  {
    hide Words;
    ReadWordsWritten(s);
  }

  lemma HeaderFits(p: seq<byte>, behind: nat, at: nat)
    requires 12 <= behind <= at <= |p| && (at - behind) % 4 == 0
    requires behind == 12 + 4 * (p[0] % 16) as int
    requires at > behind ==> Read16(p[behind..at], 2) == (at - behind - 4) / 4
    ensures WellFormed(HeaderOf(p, behind, at)) && |HeaderOf(p, behind, at).csrcs| == p[0] % 16
    ensures Words(HeaderOf(p, behind, at).csrcs) == p[12..behind]
    ensures ExtensionPart(HeaderOf(p, behind, at).extension) == p[behind..at]
    ensures HeaderOf(p, behind, at).extension.Some? <==> at > behind
  {
    hide Words, ReadWords, ExtensionPart, Read16, Read32;
    WordCount(p[12..behind]);
    ReadWordsWritten(p[12..behind]);
    ExtensionOf(p[behind..at]);
  }

  /** Conversely a payload is located only behind a header with these fields. */
  lemma LocatedHeader(p: seq<byte>) returns (h: RtpHeader)
    requires LocatePayloadStart(p) > 0
    ensures WellFormed(h) && p[..LocatePayloadStart(p)] == HeaderBytes(h)
  {
    LocatedParts(p);
    hide LocatePayloadStart, Words, ReadWords, FixedPart, FirstByte, ExtensionPart, ReadExtension, Read16, Read32;
    var at := LocatePayloadStart(p);
    var behind := 12 + 4 * (p[0] % 16) as int;
    HeaderFits(p, behind, at);
    h := HeaderOf(p, behind, at);
    FirstByteOf(p[0], h);
    FixedOf(p, h);
    ThreeSlices(p, behind, at);
  }

  lemma ThreeSlices(p: seq<byte>, behind: nat, at: nat)
    requires 12 <= behind <= at <= |p|
    ensures p[..at] == p[..12] + p[12..behind] + p[behind..at]
  {
  }

  /** The parts of a packet: some header from its fields, and a payload. */
  ghost predicate IsPacket(p: seq<byte>, h: RtpHeader, payload: seq<byte>) {
    WellFormed(h) && p == HeaderBytes(h) + payload
  }

  // ---------------------------------------------------------------------------
  // What is protected
  // ---------------------------------------------------------------------------

  /** The first counter block of section 4.1.1 of RFC 3711. */
  function FirstBlock(p: Params, sequence: u16): Block
    requires ValidParams(p)
  {
    XorBytes([0, 0, 0, 0] + BE32(p.ssrc) + BE48(0x1_0000 * p.rolloverCounter as int + sequence), p.salt) + [0, 0]
  }

  function Masked(c: Crypto, p: Params, sequence: u16, payload: seq<byte>): seq<byte>
    requires ValidParams(p)
  {
    XorBytes(payload, Keystream((block: Block) => c.aes(p.encrKey, block), FirstBlock(p, sequence), |payload|))
  }

  /** Ten bytes of the code over the packet and the rollover counter (section 4.2 of RFC 3711). */
  function Tag(c: Crypto, p: Params, packet: seq<byte>): seq<byte> {
    c.hmacSha1(p.authKey, packet + BE32(p.rolloverCounter))[..10]
  }

  lemma MaskedIs(c: Crypto, p: Params, sequence: u16, payload: seq<byte>)
    requires ValidParams(p)
    ensures PayloadCtr(c, p, sequence, payload) == Masked(c, p, sequence, payload)
  {
    assert Zeros(4) == [0, 0, 0, 0];
  }

  /**
    A protected packet is the header in the clear, exactly, the payload masked from its first
    byte on, and the tag over both and the rollover counter.
  */
  lemma ProtectLayout(c: Crypto, p: Params, h: RtpHeader, payload: seq<byte>)
    requires ValidParams(p) && WellFormed(h) && payload != []
    ensures
      var q, clear := Observe(p, h.sequence), HeaderBytes(h);
      var masked := Masked(c, q, h.sequence, payload);
      Protect(c, p, clear + payload, h.sequence) == (q, clear + masked + Tag(c, q, clear + masked))
  {
    hide LocatePayloadStart, HeaderBytes, Masked, PayloadCtr;
    HeaderEnds(h, payload);
    HeaderIsLong(h);
    DropPrefix(HeaderBytes(h), payload);
    MaskedIs(c, Observe(p, h.sequence), h.sequence, payload);
  }

  lemma HeaderIsLong(h: RtpHeader)
    requires WellFormed(h)
    ensures |HeaderBytes(h)| >= 12
  {
    hide Words, FixedPart;
  }

  /** Nothing is sent for a packet without such a header or without a payload. */
  lemma ProtectIff(c: Crypto, p: Params, rtp: seq<byte>, sequence: u16)
    requires ValidParams(p)
    ensures Protect(c, p, rtp, sequence).1 != []
       <==> exists h: RtpHeader, payload: seq<byte> :: payload != [] && IsPacket(rtp, h, payload)
    ensures Protect(c, p, rtp, sequence).1 == [] ==> Protect(c, p, rtp, sequence).0 == p
  {
    hide LocatePayloadStart, HeaderBytes, AuthTag, PayloadCtr;
    if HasPayload(rtp) {
      var at := LocatePayloadStart(rtp);
      var h := LocatedHeader(rtp);
      SplitAt(rtp, at);
      assert IsPacket(rtp, h, rtp[at..]);
    } else {
      forall h: RtpHeader, payload: seq<byte> | payload != [] && IsPacket(rtp, h, payload)
        ensures false
      {
        HeaderEnds(h, payload);
        HeaderIsLong(h);
      }
    }
  }

  /** The packet on the wire: header, masked payload and a tag of ten bytes that is right for them. */
  ghost predicate IsProtected(c: Crypto, p: Params, srtp: seq<byte>, h: RtpHeader, masked: seq<byte>) {
    WellFormed(h) && srtp == HeaderBytes(h) + masked + Tag(c, p, HeaderBytes(h) + masked)
  }

  /**
    Exactly the packets with such a header and the right tag are accepted, and the payload is
    unmasked under the header's own sequence number.
  */
  lemma UnprotectIff(c: Crypto, p: Params, srtp: seq<byte>)
    requires ValidParams(p)
    ensures Unprotect(c, p, srtp).Some? <==> exists h: RtpHeader, masked: seq<byte> :: IsProtected(c, p, srtp, h, masked)
  {
    hide LocatePayloadStart, HeaderBytes;
    if Unprotect(c, p, srtp).Some? {
      var body := srtp[..|srtp| - 10];
      var at := LocatePayloadStart(body);
      var h := LocatedHeader(body);
      SplitAt(body, at);
      SplitAt(srtp, |srtp| - 10);
      assert IsProtected(c, p, srtp, h, body[at..]);
    } else {
      forall h: RtpHeader, masked: seq<byte> | IsProtected(c, p, srtp, h, masked)
        ensures false
      {
        UnprotectLayout(c, p, h, masked);
      }
    }
  }

  lemma UnprotectLayout(c: Crypto, p: Params, h: RtpHeader, masked: seq<byte>)
    requires ValidParams(p) && WellFormed(h)
    ensures
      var clear := HeaderBytes(h);
      Unprotect(c, p, clear + masked + Tag(c, p, clear + masked)) == Some(clear + Masked(c, p, h.sequence, masked))
  {
    hide LocatePayloadStart, HeaderBytes, Masked, PayloadCtr, Read16;
    var body := HeaderBytes(h) + masked;
    var tag := Tag(c, p, body);
    HeaderEnds(h, masked);
    HeaderIsLong(h);
    DropPrefix(body, tag);
    assert |body + tag| - 10 == |body|;
    DropPrefix(HeaderBytes(h), masked);
    MaskedIs(c, p, h.sequence, masked);
  }
}
