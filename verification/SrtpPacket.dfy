/**
  SRTP packets: header location, the per-packet counter, protection and its inverse, and
  the rollover counter the sender keeps.
*/
module SrtpPacket {
  import opened Bytes
  import opened SeqFacts
  import opened CounterMode
  import opened SrtpKeys

  const HEADER_SIZE := 12
  const TAG_SIZE := 10

  type Mac = s: seq<byte> | |s| == 20 witness seq(20, _ => 0)

  /** The abstract primitives: AES-128 on a block and HMAC-SHA1 under a key. */
  datatype Crypto = Crypto(aes: Aes, hmacSha1: (seq<byte>, seq<byte>) -> Mac)

  datatype Params = Params(
    encrKey: seq<byte>, authKey: seq<byte>, salt: seq<byte>, ssrc: u32,
    rolloverCounter: u32, lastSequenceNumber: u16, hasLastSequenceNumber: bool)

  // ---------------------------------------------------------------------------
  // Where the payload starts
  // ---------------------------------------------------------------------------

  /** The offset behind the header, CSRC list and extension; 0 for a malformed header. */
  function LocatePayloadStart(p: seq<byte>): (at: nat)
    ensures at <= |p| && (at == 0 || at >= HEADER_SIZE)
  {
    if |p| < HEADER_SIZE || p[0] / 64 != 2 then 0
    else
      var offset := HEADER_SIZE + 4 * (p[0] % 16) as int;
      if offset > |p| then 0
      else if p[0] / 16 % 2 == 0 then offset
      else if offset + 4 > |p| then 0
      else
        var end := offset + 4 + 4 * Read16(p, offset + 2) as int;
        if end > |p| then 0 else end
  }

  /** Only the bytes before the payload decide where it starts. */
  lemma SameHeaderSameStart(p: seq<byte>, q: seq<byte>)
    requires |p| == |q| && LocatePayloadStart(p) > 0
    requires p[..LocatePayloadStart(p)] == q[..LocatePayloadStart(p)]
    ensures LocatePayloadStart(q) == LocatePayloadStart(p)
  {
    var n := LocatePayloadStart(p);
    forall k | 0 <= k < n
      ensures p[k] == q[k]
    {
      assert p[..n][k] == q[..n][k];
    }
  }

  // ---------------------------------------------------------------------------
  // The packet counter
  // ---------------------------------------------------------------------------

  function PacketIndex(roc: u32, sequenceNumber: u16): (i: nat)
    ensures i < 0x1_0000_0000_0000
  {
    0x1_0000 * roc as int + sequenceNumber
  }

  function IvPattern(ssrc: u32, index: nat): (s: seq<byte>)
    ensures |s| == 14
  {
    Zeros(4) + BE32(ssrc) + BE48(index)
  }

  /** Section 4.1.1 of RFC 3711: the salt mixed with SSRC and index; 16 low bits left for blocks. */
  function PacketIv(salt: seq<byte>, ssrc: u32, index: nat): Block
    requires |salt| == 14
  {
    XorBytes(IvPattern(ssrc, index), salt) + [0, 0]
  }

  method BuildPacketIv(salt: seq<byte>, ssrc: u32, index: nat) returns (iv: array<byte>)
    requires |salt| == 14
    ensures fresh(iv) && iv[..] == PacketIv(salt, ssrc, index)
  {
    var pattern := IvPattern(ssrc, index);
    iv := new byte[16](i requires 0 <= i < 16 => if i < 14 then pattern[i] else 0);
    var i := 0;
    while i < 14
      invariant 0 <= i <= 14 && iv.Length == 16 && fresh(iv)
      invariant forall k :: 0 <= k < i ==> iv[k] == XorByte(pattern[k], salt[k])
      invariant forall k :: i <= k < 14 ==> iv[k] == pattern[k]
      invariant iv[14] == 0 && iv[15] == 0
    {
      iv[i] := XorByte(iv[i], salt[i]);
      i := i + 1;
    }
    assert iv[..] == PacketIv(salt, ssrc, index);
  }

  // ---------------------------------------------------------------------------
  // Protection
  // ---------------------------------------------------------------------------

  /** As the code decides it: only a small backward step raises the counter. */
  function NextRoc(p: Params, sequenceNumber: u16): u32 {
    if p.hasLastSequenceNumber && p.lastSequenceNumber > sequenceNumber
       && p.lastSequenceNumber - sequenceNumber < 0x8000
    then Next32(p.rolloverCounter)
    else p.rolloverCounter
  }

  function Observe(p: Params, sequenceNumber: u16): Params {
    p.(rolloverCounter := NextRoc(p, sequenceNumber),
       lastSequenceNumber := sequenceNumber, hasLastSequenceNumber := true)
  }

  predicate ValidParams(p: Params) {
    |p.encrKey| == 16 && |p.authKey| == 20 && |p.salt| == 14
  }

  function AuthTag(c: Crypto, authKey: seq<byte>, packet: seq<byte>, roc: u32): (t: seq<byte>)
    ensures |t| == TAG_SIZE
  {
    c.hmacSha1(authKey, packet + BE32(roc))[..TAG_SIZE]
  }

  function PayloadCtr(c: Crypto, p: Params, sequenceNumber: u16, payload: seq<byte>): (r: seq<byte>)
    requires ValidParams(p)
    ensures |r| == |payload|
  {
    Ctr((block: Block) => c.aes(p.encrKey, block),
        PacketIv(p.salt, p.ssrc, PacketIndex(p.rolloverCounter, sequenceNumber)), payload)
  }

  predicate HasPayload(rtp: seq<byte>) {
    0 < LocatePayloadStart(rtp) < |rtp|
  }

  /** The packet on the wire, given the parameters after the sequence number was observed. */
  function Sealed(c: Crypto, p: Params, rtp: seq<byte>, sequenceNumber: u16): seq<byte>
    requires ValidParams(p) && HasPayload(rtp)
  {
    var at := LocatePayloadStart(rtp);
    var body := rtp[..at] + PayloadCtr(c, p, sequenceNumber, rtp[at..]);
    body + AuthTag(c, p.authKey, body, p.rolloverCounter)
  }

  /** `Encrypt`'s result and the parameters it leaves behind; empty for a packet without payload. */
  function Protect(c: Crypto, p: Params, rtp: seq<byte>, sequenceNumber: u16): (Params, seq<byte>)
    requires ValidParams(p)
  {
    if !HasPayload(rtp) then (p, [])
    else (Observe(p, sequenceNumber), Sealed(c, Observe(p, sequenceNumber), rtp, sequenceNumber))
  }

  function Unprotect(c: Crypto, p: Params, srtp: seq<byte>): Option<seq<byte>>
    requires ValidParams(p)
  {
    if |srtp| < HEADER_SIZE + TAG_SIZE then None
    else
      var body, tag := srtp[..|srtp| - TAG_SIZE], srtp[|srtp| - TAG_SIZE..];
      var at := LocatePayloadStart(body);
      if at == 0 || tag != AuthTag(c, p.authKey, body, p.rolloverCounter) then None
      else Some(body[..at] + PayloadCtr(c, p, Read16(body, 2), body[at..]))
  }

  class SrtpEncryptParams {
    var encrKey: seq<byte>
    var authKey: seq<byte>
    var salt: seq<byte>
    var ssrc: u32
    var rolloverCounter: u32
    var lastSequenceNumber: u16
    var hasLastSequenceNumber: bool

    function Value(): Params
      reads this
    {
      Params(encrKey, authKey, salt, ssrc, rolloverCounter, lastSequenceNumber, hasLastSequenceNumber)
    }

    constructor (p: Params)
      ensures Value() == p
    {
      encrKey, authKey, salt, ssrc := p.encrKey, p.authKey, p.salt, p.ssrc;
      rolloverCounter, lastSequenceNumber, hasLastSequenceNumber :=
        p.rolloverCounter, p.lastSequenceNumber, p.hasLastSequenceNumber;
    }
  }

  method Encrypt(c: Crypto, params: SrtpEncryptParams, rtp: seq<byte>, sequenceNumber: u16)
    returns (srtp: seq<byte>)
    requires ValidParams(params.Value())
    modifies params
    ensures (params.Value(), srtp) == Protect(c, old(params.Value()), rtp, sequenceNumber)
  {
    if rtp == [] {
      return [];
    }
    var payloadStart := LocatePayloadStart(rtp);
    if payloadStart == 0 || payloadStart >= |rtp| {
      return [];
    }
    if params.hasLastSequenceNumber {
      var prev := params.lastSequenceNumber;
      if prev > sequenceNumber && prev - sequenceNumber < 0x8000 {
        params.rolloverCounter := Next32(params.rolloverCounter);
      }
    }
    params.lastSequenceNumber := sequenceNumber;
    params.hasLastSequenceNumber := true;
    ghost var p := params.Value();
    assert p == Observe(old(params.Value()), sequenceNumber);
    var body := CryptPayload(c, params.Value(), rtp, payloadStart, sequenceNumber);
    srtp := body + AuthTag(c, params.authKey, body, params.rolloverCounter);
  }

  /** A copy of the packet with everything from `at` on run through the cipher, in place. */
  method CryptPayload(c: Crypto, p: Params, packet: seq<byte>, at: nat, sequenceNumber: u16)
    returns (out: seq<byte>)
    requires ValidParams(p) && at <= |packet|
    ensures out == packet[..at] + PayloadCtr(c, p, sequenceNumber, packet[at..])
  {
    var iv := BuildPacketIv(p.salt, p.ssrc, PacketIndex(p.rolloverCounter, sequenceNumber));
    var buffer := new byte[|packet|](i requires 0 <= i < |packet| => packet[i]);
    assert buffer[..] == packet;
    assert buffer[at..at + (|packet| - at)] == packet[at..];
    CounterMode.Encrypt((block: Block) => c.aes(p.encrKey, block), iv[..], buffer, at, buffer, at, |packet| - at);
    out := buffer[..];
    assert out[..at] == packet[..at];
    assert out == out[..at] + out[at..at + (|packet| - at)];
  }

  method Decrypt(c: Crypto, params: SrtpEncryptParams, srtp: seq<byte>) returns (ok: bool, outRtp: seq<byte>)
    requires ValidParams(params.Value())
    ensures ok == Unprotect(c, params.Value(), srtp).Some?
    ensures outRtp == if ok then Unprotect(c, params.Value(), srtp).value else []
  {
    outRtp := [];
    if |srtp| < HEADER_SIZE + TAG_SIZE {
      return false, outRtp;
    }
    var bodyLen := |srtp| - TAG_SIZE;
    var body := srtp[..bodyLen];
    var payloadStart := LocatePayloadStart(body);
    if payloadStart == 0 || payloadStart > bodyLen {
      return false, outRtp;
    }
    var expectedTag := AuthTag(c, params.authKey, body, params.rolloverCounter);
    if expectedTag != srtp[bodyLen..] {
      return false, outRtp;
    }
    outRtp := CryptPayload(c, params.Value(), body, payloadStart, Read16(body, 2));
    ok := true;
  }

  // ---------------------------------------------------------------------------
  // Round trip
  // ---------------------------------------------------------------------------

  /** What the receiver makes of a packet that was masked under some number: the tag verifies. */
  lemma UnprotectSealed(c: Crypto, p: Params, rtp: seq<byte>, sequenceNumber: u16)
    requires ValidParams(p) && HasPayload(rtp)
    ensures
      var at := LocatePayloadStart(rtp);
      Unprotect(c, p, Sealed(c, p, rtp, sequenceNumber))
      == Some(rtp[..at] + PayloadCtr(c, p, Read16(rtp, 2), PayloadCtr(c, p, sequenceNumber, rtp[at..])))
  {
    hide AuthTag, PayloadCtr;
    var at := LocatePayloadStart(rtp);
    var masked := PayloadCtr(c, p, sequenceNumber, rtp[at..]);
    var body := rtp[..at] + masked;
    var tag := AuthTag(c, p.authKey, body, p.rolloverCounter);
    SameHeaderSameStart(rtp, body);
    assert body[2] == rtp[2] && body[3] == rtp[3];
    hide LocatePayloadStart;
    DropPrefix(body, tag);
    assert |body + tag| - TAG_SIZE == |body|;
    DropPrefix(rtp[..at], masked);
  }

  lemma SamePayload(front: seq<byte>, a: seq<byte>, b: seq<byte>)
    ensures front + a == front + b <==> a == b
  {
    DropPrefix(front, a);
    DropPrefix(front, b);
  }

  /**
    With the keys, SSRC and rollover counter that the sender used, the receiver accepts every
    packet with a payload, with any CSRCs and extension. It gets back exactly the packet that
    was sent if the sender passed the header's own sequence number, and for another number
    if and only if both numbers mask this payload alike.
  */
  lemma UnprotectProtect(c: Crypto, p: Params, rtp: seq<byte>, sequenceNumber: u16)
    requires ValidParams(p) && HasPayload(rtp)
    ensures
      var (p', srtp) := Protect(c, p, rtp, sequenceNumber);
      var payload := rtp[LocatePayloadStart(rtp)..];
      && Unprotect(c, p', srtp).Some?
      && (Read16(rtp, 2) == sequenceNumber ==> Unprotect(c, p', srtp) == Some(rtp))
      && (Unprotect(c, p', srtp) == Some(rtp)
          <==> PayloadCtr(c, p', Read16(rtp, 2), payload) == PayloadCtr(c, p', sequenceNumber, payload))
  {
    hide LocatePayloadStart, Unprotect, PayloadCtr, Sealed;
    var p' := Observe(p, sequenceNumber);
    var at, number := LocatePayloadStart(rtp), Read16(rtp, 2);
    var masked := PayloadCtr(c, p', sequenceNumber, rtp[at..]);
    UnprotectSealed(c, p', rtp, sequenceNumber);
    PayloadInvolution(c, p', number, rtp[at..]);
    PayloadInvolution(c, p', number, masked);
    SplitAt(rtp, at);
    SamePayload(rtp[..at], PayloadCtr(c, p', number, masked), rtp[at..]);
  }

  lemma PayloadInvolution(c: Crypto, p: Params, sequenceNumber: u16, payload: seq<byte>)
    requires ValidParams(p)
    ensures PayloadCtr(c, p, sequenceNumber, PayloadCtr(c, p, sequenceNumber, payload)) == payload
  {
    CtrInvolution((block: Block) => c.aes(p.encrKey, block),
                  PacketIv(p.salt, p.ssrc, PacketIndex(p.rolloverCounter, sequenceNumber)), payload);
  }
}
