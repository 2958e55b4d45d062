/**
  An audio frame on its way to the peer: stream packet, control packet, relay packet; and
  the receive loop's way back to the playout buffer.
*/
module MediaChain {
  import opened Bytes
  import opened SeqFacts
  import opened PacketCrypto
  import opened MediaPackets
  import opened MediaReading
  import JitterBuffer
  import JitterSpec

  /** What both directions of one side use. */
  datatype Link = Link(sharedKey: seq<byte>, localIsOutgoing: bool, peerTag: seq<byte>)

  datatype Sender = Sender(next: u32, lastRemote: u32, timestamp: u32)

  const AUDIO_STREAM_ID: byte := 1
  const FRAME_DURATION_MS := 60

  predicate ValidLink(l: Link) {
    |l.sharedKey| == SHARED_KEY_BYTES && |l.peerTag| == PEER_TAG_BYTES
  }

  /** The other end of a call: same key, other direction. */
  function Peer(l: Link): Link {
    l.(localIsOutgoing := !l.localIsOutgoing)
  }

  // ---------------------------------------------------------------------------
  // Sequence numbers
  // ---------------------------------------------------------------------------

  /** Zero means "none" and is never used. */
  function Taken(next: u32): u32 {
    if next == 0 then 1 else next
  }

  function AfterTaking(next: u32): u32 {
    if Taken(next) == 0xFFFF_FFFF then 1 else Taken(next) + 1
  }

  /** The counter after `k` sequence numbers were taken. */
  function AfterTakes(next: u32, k: nat): u32 {
    if k == 0 then next else AfterTaking(AfterTakes(next, k - 1))
  }

  const CYCLE := 0xFFFF_FFFF

  /** Sequence numbers run cyclically through 1 to 2^32 - 1. */
  lemma {:induction false} TakenIs(next: u32, k: nat)
    ensures Taken(AfterTakes(next, k)) == 1 + (Taken(next) - 1 + k) % CYCLE
  {
    if k > 0 {
      TakenIs(next, k - 1);
      CycleStep(Taken(next) - 1 + k - 1);
    }
  }

  lemma CycleStep(x: nat)
    ensures (x + 1) % CYCLE == if x % CYCLE == CYCLE - 1 then 0 else x % CYCLE + 1
  {
  }

  /** So any 2^32 - 1 consecutive packets carry different, non-zero numbers. */
  lemma TakenDistinct(next: u32, i: nat, j: nat)
    requires i < j < i + CYCLE
    ensures Taken(AfterTakes(next, i)) != Taken(AfterTakes(next, j))
    ensures Taken(AfterTakes(next, i)) != 0
  {
    TakenIs(next, i);
    TakenIs(next, j);
    var x := Taken(next) - 1 + i;
    var q, r := x / CYCLE, (x + (j - i)) / CYCLE;
    assert x == CYCLE * q + x % CYCLE && x + (j - i) == CYCLE * r + (x + (j - i)) % CYCLE;
  }

  // ---------------------------------------------------------------------------
  // Sending
  // ---------------------------------------------------------------------------

  function Control(s: Sender, payload: seq<byte>): ControlPacket {
    ControlPacket(STREAM_DATA, s.lastRemote, Taken(s.next), 0, 0, payload)
  }

  /** The sequence number is spent as soon as the stream packet exists. */
  function Sent(c: Crypto, l: Link, s: Sender, opus: seq<byte>, random: nat -> byte, socketOk: bool)
    : (Sender, Option<seq<byte>>)
  {
    var payload := AudioBytes(StreamPacket(AUDIO_STREAM_ID, s.timestamp, opus));
    if payload.None? then (s, None)
    else
      var spent := s.(next := AfterTaking(s.next));
      var packet := ControlBytes(Control(s, payload.value));
      if packet.None? then (spent, None)
      else
        var encrypted := Encrypted(c, l.sharedKey, l.localIsOutgoing, l.peerTag, packet.value, random);
        if encrypted.None? || !socketOk then (spent, None)
        else (spent.(timestamp := (s.timestamp + FRAME_DURATION_MS) % 0x1_0000_0000), encrypted)
  }

  // ---------------------------------------------------------------------------
  // Receiving
  // ---------------------------------------------------------------------------

  datatype Arrival = Arrival(sequence: u32, timestamp: u32, opus: seq<byte>)

  function UpdateLast(last: u32, sequence: u32): u32 {
    if sequence != 0 && (last == 0 || sequence > last) then sequence else last
  }

  /** A datagram's effect on the newest remote sequence number, and the frame it carries. */
  function Received(c: Crypto, l: Link, last: u32, bytes: seq<byte>): (u32, Option<Arrival>) {
    var plain := Decrypted(c, l.sharedKey, l.localIsOutgoing, l.peerTag, bytes);
    if plain.None? then (last, None)
    else
      var packet := ControlDecoded(plain.value);
      if packet.None? then (last, None)
      else
        var updated := UpdateLast(last, packet.value.sequence);
        if packet.value.kind != STREAM_DATA then (updated, None)
        else
          var stream := AudioDecoded(packet.value.payload);
          if stream.None? then (updated, None)
          else (updated, Some(Arrival(packet.value.sequence, stream.value.timestamp, stream.value.opus)))
  }

  // ---------------------------------------------------------------------------
  // The code
  // ---------------------------------------------------------------------------

  class MediaContext {
    const crypto: Crypto
    const link: Link
    const jitter: JitterBuffer.VoipJitterBuffer
    var nextLocalSequence: u32
    var lastRemoteSequence: u32
    var audioTimestampOut: u32

    ghost function Model(): Sender
      reads this
    {
      Sender(nextLocalSequence, lastRemoteSequence, audioTimestampOut)
    }

    constructor (crypto: Crypto, link: Link, jitter: JitterBuffer.VoipJitterBuffer)
      ensures Model() == Sender(1, 0, 0)
      ensures this.crypto == crypto && this.link == link && this.jitter == jitter
    {
      this.crypto, this.link, this.jitter := crypto, link, jitter;
      nextLocalSequence, lastRemoteSequence, audioTimestampOut := 1, 0, 0;
    }

    method TakeNextSequence() returns (sequence: u32)
      modifies this`nextLocalSequence
      ensures sequence == Taken(old(nextLocalSequence)) && nextLocalSequence == AfterTaking(old(nextLocalSequence))
    {
      sequence := nextLocalSequence;
      if sequence == 0 {
        sequence := 1;
      }
      nextLocalSequence := Next32(sequence);
      if nextLocalSequence == 0 {
        nextLocalSequence := 1;
      }
    }

    /** From an encoded Opus frame to the datagram handed to the socket. */
    method EncodeAndSendAudioFrame(opus: seq<byte>, random: nat -> byte, socketOk: bool) returns (sent: Option<seq<byte>>)
      modifies this`nextLocalSequence, this`audioTimestampOut
      ensures (Model(), sent) == Sent(crypto, link, old(Model()), opus, random, socketOk)
    {
      hide AudioBytes, ControlBytes, Encrypted, Taken, AfterTaking;
      var payload := EncodeAudio(AUDIO_STREAM_ID, audioTimestampOut, opus);
      if payload.None? {
        return None;
      }
      var sequence := TakeNextSequence();
      var packet := EncodeShort(
        ControlPacket(STREAM_DATA, lastRemoteSequence, sequence, 0, 0, payload.value));
      if packet.None? {
        return None;
      }
      var encrypted := EncryptRelayPacket(
        crypto, link.sharedKey, link.localIsOutgoing, link.peerTag, packet.value, random);
      if encrypted.None? {
        return None;
      }
      if !socketOk {
        return None;
      }
      audioTimestampOut := (audioTimestampOut + FRAME_DURATION_MS) % 0x1_0000_0000;
      sent := encrypted;
    }

    /** One received datagram; a frame goes into the playout buffer under 16 bits of its number. */
    method OnDatagram(bytes: seq<byte>, nowMs: int)
      requires jitter.Valid()
      modifies this`lastRemoteSequence, jitter
      ensures jitter.Valid()
      ensures
        var (last, arrival) := Received(crypto, link, old(lastRemoteSequence), bytes);
        && lastRemoteSequence == last
        && jitter.model == if arrival.None? then old(jitter.model)
                           else JitterSpec.Insert(old(jitter.model), jitter.frameMs, arrival.value.sequence % 0x1_0000,
                                                  arrival.value.timestamp, arrival.value.opus, nowMs).0
    {
      hide AudioDecoded, ControlDecoded, Decrypted, JitterSpec.Insert;
      var plain := DecryptRelayPacket(crypto, link.sharedKey, link.localIsOutgoing, link.peerTag, bytes);
      if plain.None? {
        return;
      }
      var decoded := DecodeShort(plain.value);
      if decoded.None? {
        return;
      }
      var packet := decoded.value;
      if packet.sequence != 0 && (lastRemoteSequence == 0 || packet.sequence > lastRemoteSequence) {
        lastRemoteSequence := packet.sequence;
      }
      if packet.kind == STREAM_DATA {
        var stream := DecodeOne(packet.payload);
        if stream.Some? {
          var outcome := jitter.Insert(packet.sequence % 0x1_0000, stream.value.timestamp, stream.value.opus, nowMs);
        }
      }
    }
  }

  method EncodeShort(p: ControlPacket) returns (r: Option<seq<byte>>)
    ensures r == ControlBytes(p)
  {
    if !IsKnownType(p.kind) {
      return None;
    }
    if |p.payload| > MAX_PAYLOAD_BYTES {
      return None;
    }
    var bytes: seq<byte> := [p.kind];
    bytes := bytes + LE32(p.ackSequence);
    bytes := bytes + LE32(p.sequence);
    bytes := bytes + LE32(p.ackMask);
    bytes := bytes + [p.extraFlags];
    bytes := bytes + p.payload;
    r := Some(bytes);
  }

  method DecodeShort(b: seq<byte>) returns (r: Option<ControlPacket>)
    ensures r == ControlDecoded(b)
  {
    hide ReadLE32;
    if |b| < HEADER_BYTES {
      return None;
    }
    if !IsKnownType(b[0]) {
      return None;
    }
    r := Some(ControlPacket(b[0], ReadLE32(b, 1), ReadLE32(b, 5), ReadLE32(b, 9), b[13], b[HEADER_BYTES..]));
  }

  // ---------------------------------------------------------------------------
  // End to end
  // ---------------------------------------------------------------------------

  const MAX_SENDABLE := 1093

  lemma AudioLength(p: StreamPacket)
    requires AudioBytes(p).Some?
    ensures |AudioBytes(p).value| == |p.opus| + if |p.opus| > 255 then 7 else 6
  {
    hide LE32, LE16;
  }

  /**
    A frame goes out exactly if it has 1 to 1093 bytes and the socket takes the datagram, and
    only then does the time stamp move on. Frames of 1094 to 1100 bytes pass the stream packet's
    own limit, are refused by the control packet, and still use up a sequence number, as does a
    socket that fails.
  */
  lemma SendsIff(c: Crypto, l: Link, s: Sender, opus: seq<byte>, random: nat -> byte, socketOk: bool)
    requires ValidLink(l)
    ensures
      var (after, sent) := Sent(c, l, s, opus, random, socketOk);
      && (sent.Some? <==> socketOk && 1 <= |opus| <= 1093)
      && after.next == (if 1 <= |opus| <= 1100 then AfterTaking(s.next) else s.next)
      && after.timestamp == (if sent.Some? then (s.timestamp + 60) % 0x1_0000_0000 else s.timestamp)
      && after.lastRemote == s.lastRemote
  {
    hide Encrypted, ControlHead, LE32, AudioHead, AfterTaking;
    var p := StreamPacket(AUDIO_STREAM_ID, s.timestamp, opus);
    if AudioBytes(p).Some? {
      AudioLength(p);
      var packet := ControlBytes(Control(s, AudioBytes(p).value));
      if packet.Some? {
        EncryptedIff(c, l, packet.value, random);
      }
    }
  }

  lemma EncryptedIff(c: Crypto, l: Link, plain: seq<byte>, random: nat -> byte)
    requires ValidLink(l)
    ensures Encrypted(c, l.sharedKey, l.localIsOutgoing, l.peerTag, plain, random).Some? <==> 1 <= |plain| <= MAX_PLAIN_BYTES
  {
    hide Inner, IgeEncrypted, Kdf2, MessageKey;
  }

  /** What a datagram says in the clear: a control packet of type 4 that acknowledges the newest remote number. */
  ghost predicate Says(plain: seq<byte>, s: Sender, opus: seq<byte>) {
    exists audio ::
      && plain == ControlText(ControlPacket(4, s.lastRemote, Taken(s.next), 0, 0, audio))
      && AudioText(audio, StreamPacket(1, s.timestamp, opus))
  }

  /** Whatever is sent, the peer recovers: sequence number, timestamp and every payload byte. */
  lemma EndToEnd(c: Crypto, l: Link, s: Sender, opus: seq<byte>, random: nat -> byte, last: u32)
    requires Inverse(c) && ValidLink(l) && 1 <= |opus| <= MAX_SENDABLE
    ensures
      var sent := Sent(c, l, s, opus, random, true).1;
      && sent.Some?
      && Received(c, Peer(l), last, sent.value)
         == (UpdateLast(last, Taken(s.next)), Some(Arrival(Taken(s.next), s.timestamp, opus)))
      && Decrypted(c, l.sharedKey, !l.localIsOutgoing, l.peerTag, sent.value).Some?
      && Says(Decrypted(c, l.sharedKey, !l.localIsOutgoing, l.peerTag, sent.value).value, s, opus)
  {
    hide Encrypted, Decrypted, AudioDecoded, ControlDecoded, ControlHead, AudioHead, Inverse, LE32, UpdateLast, Taken,
      AudioText, ControlText;
    SendsIff(c, l, s, opus, random, true);
    var p := StreamPacket(AUDIO_STREAM_ID, s.timestamp, opus);
    var audio := AudioBytes(p).value;
    var packet := Control(s, audio);
    AudioRoundTrip(p, []);
    Unit(audio);
    AudioReadIff(audio, p);
    ControlRoundTrip(packet);
    ControlReadIff([], packet);
    AudioLength(p);
    DecryptEncrypt(c, l.sharedKey, l.localIsOutgoing, l.peerTag, ControlBytes(packet).value, random, l.peerTag);
  }

  /** A frame in a control packet of type 4 whose payload begins with the text of a stream packet. */
  ghost predicate Frames(plain: seq<byte>, k: ControlPacket, p: StreamPacket) {
    && k.kind == 4 && plain == ControlText(k) && AudioText(k.payload, p)
  }

  ghost predicate Carries(plain: seq<byte>, a: Arrival) {
    exists k, p :: Frames(plain, k, p) && a == Arrival(k.sequence, p.timestamp, p.opus)
  }

  /** A datagram hands a frame to the playout buffer if and only if it opens and carries it. */
  lemma FrameIff(c: Crypto, l: Link, last: u32, bytes: seq<byte>, a: Arrival)
    ensures
      var plain := Decrypted(c, l.sharedKey, l.localIsOutgoing, l.peerTag, bytes);
      Received(c, l, last, bytes).1 == Some(a) <==> plain.Some? && Carries(plain.value, a)
  {
    hide Decrypted, ControlDecoded, AudioDecoded, ControlText, AudioText, Numbered;
    var plain := Decrypted(c, l.sharedKey, l.localIsOutgoing, l.peerTag, bytes);
    if plain.Some? {
      if Carries(plain.value, a) {
        var k, p :| Frames(plain.value, k, p) && a == Arrival(k.sequence, p.timestamp, p.opus);
        Four(k);
        ControlReadIff(plain.value, k);
        AudioReadIff(k.payload, p);
      }
      if Received(c, l, last, bytes).1 == Some(a) {
        var k := ControlDecoded(plain.value).value;
        var p := AudioDecoded(k.payload).value;
        ControlReadIff(plain.value, k);
        AudioReadIff(k.payload, p);
        assert Frames(plain.value, k, p);
      }
    }
  }

  lemma Four(k: ControlPacket)
    requires k.kind == 4
    ensures Numbered(k.kind)
  {
  }

  // ---------------------------------------------------------------------------
  // The newest remote number over a run
  // ---------------------------------------------------------------------------

  /** The number of the control packet in a datagram; none if the datagram is refused. */
  function NumberOf(c: Crypto, l: Link, bytes: seq<byte>): Option<u32> {
    var plain := Decrypted(c, l.sharedKey, l.localIsOutgoing, l.peerTag, bytes);
    if plain.None? then None
    else
      var packet := ControlDecoded(plain.value);
      if packet.None? then None else Some(packet.value.sequence)
  }

  /** The newest remote number after any datagrams have arrived, whoever made them. */
  function LastAfter(c: Crypto, l: Link, last: u32, datagrams: seq<seq<byte>>): u32
    decreases |datagrams|
  {
    if datagrams == [] then last
    else LastAfter(c, l, Received(c, l, last, datagrams[0]).0, datagrams[1..])
  }

  /** A refused datagram changes nothing and hands out no frame; another one moves the number up at most. */
  lemma ReceivedNumber(c: Crypto, l: Link, last: u32, bytes: seq<byte>)
    ensures
      var number := NumberOf(c, l, bytes);
      if number.None? then Received(c, l, last, bytes) == (last, None)
      else Received(c, l, last, bytes).0 == if number.value > last then number.value else last
  {
    hide Decrypted, ControlDecoded, AudioDecoded;
  }

  /**
    After any run it is the maximum of the number at the start and the numbers of all
    datagrams that were not refused, in whatever order they arrived.
  */
  lemma {:induction false} LastIsMaximum(c: Crypto, l: Link, last: u32, datagrams: seq<seq<byte>>)
    ensures
      var r := LastAfter(c, l, last, datagrams);
      && r >= last
      && (forall i :: 0 <= i < |datagrams| && NumberOf(c, l, datagrams[i]).Some? ==>
            r >= NumberOf(c, l, datagrams[i]).value)
      && (r == last || exists i :: 0 <= i < |datagrams| && NumberOf(c, l, datagrams[i]) == Some(r))
    decreases |datagrams|
  {
    hide Received, NumberOf;
    if datagrams != [] {
      var first, rest := datagrams[0], datagrams[1..];
      var next := Received(c, l, last, first).0;
      ReceivedNumber(c, l, last, first);
      LastIsMaximum(c, l, next, rest);
      var r := LastAfter(c, l, next, rest);
      forall i | 0 <= i < |datagrams| && NumberOf(c, l, datagrams[i]).Some?
        ensures r >= NumberOf(c, l, datagrams[i]).value
      {
        if i > 0 {
          assert datagrams[i] == rest[i - 1];
        }
      }
      if r != last && r == next {
        assert NumberOf(c, l, datagrams[0]) == Some(r);
      } else if r != last {
        var i :| 0 <= i < |rest| && NumberOf(c, l, rest[i]) == Some(r);
        assert datagrams[i + 1] == rest[i];
      }
    }
  }
}
