/** The two packet formats inside a relay packet: control packets and stream data packets. */
module MediaPackets {
  import opened Bytes
  import opened SeqFacts

  // ---------------------------------------------------------------------------
  // Stream data
  // ---------------------------------------------------------------------------

  const MAX_OPUS_BYTES := 1100

  datatype StreamPacket = StreamPacket(streamId: byte, timestamp: u32, opus: seq<byte>)

  function AudioBytes(p: StreamPacket): Option<seq<byte>> {
    if p.streamId == 0 || p.streamId > 0x3F || p.opus == [] || |p.opus| > MAX_OPUS_BYTES then None
    else Some(AudioHead(p.streamId, |p.opus|) + LE32(p.timestamp) + p.opus)
  }

  /** The stream id, bit 6 if the length takes two bytes, and the length. */
  function AudioHead(streamId: byte, len: nat): seq<byte>
    requires streamId <= 0x3F && len <= MAX_OPUS_BYTES
  {
    if len > 255 then [streamId + 0x40] + LE16(len) else [streamId, len]
  }

  function AudioDecoded(b: seq<byte>): Option<StreamPacket> {
    if |b| < 6 then None
    else
      var streamId := b[0] % 0x40;
      if streamId == 0 || b[0] / 0x80 == 1 then None
      else if b[0] / 0x40 % 2 == 1 then
        if |b| < 7 || ReadLE16(b, 1) / 0x4000 % 2 == 1 || ReadLE16(b, 1) / 0x2000 % 2 == 1 then None
        else Payload(b, 3, streamId, ReadLE16(b, 1) % 0x800)
      else Payload(b, 2, streamId, b[1])
  }

  /** Timestamp and payload from `offset` on; further bytes are ignored. */
  function Payload(b: seq<byte>, offset: nat, streamId: byte, len: nat): Option<StreamPacket> {
    if len == 0 || len > MAX_OPUS_BYTES || |b| < offset + 4 + len then None
    else Some(StreamPacket(streamId, ReadLE32(b, offset), b[offset + 4..offset + 4 + len]))
  }

  method EncodeAudio(streamId: byte, timestamp: u32, opus: seq<byte>) returns (r: Option<seq<byte>>)
    ensures r == AudioBytes(StreamPacket(streamId, timestamp, opus))
  {
    if streamId == 0 || streamId > 0x3F {
      return None;
    }
    if |opus| == 0 {
      return None;
    }
    if |opus| > MAX_OPUS_BYTES {
      return None;
    }
    var bytes: seq<byte> := [];
    if |opus| > 255 {
      bytes := bytes + [streamId + 0x40];
      bytes := bytes + LE16(|opus|);
    } else {
      bytes := bytes + [streamId];
      bytes := bytes + [|opus|];
    }
    assert bytes == AudioHead(streamId, |opus|);
    bytes := bytes + LE32(timestamp);
    bytes := bytes + opus;
    r := Some(bytes);
  }

  method DecodeOne(b: seq<byte>) returns (r: Option<StreamPacket>)
    ensures r == AudioDecoded(b)
  {
    if |b| < 6 {
      return None;
    }
    var offset := 1;
    var streamId := b[0] % 0x40;
    if streamId == 0 {
      return None;
    }
    if b[0] / 0x80 == 1 {
      return None;
    }
    var len: nat;
    if b[0] / 0x40 % 2 == 1 {
      if |b| < offset + 2 + 4 {
        return None;
      }
      len := ReadLE16(b, offset);
      offset := offset + 2;
      if len / 0x4000 % 2 == 1 {
        return None;
      }
      if len / 0x2000 % 2 == 1 {
        return None;
      }
      len := len % 0x800;
    } else {
      len := b[offset];
      offset := offset + 1;
    }
    if len == 0 {
      return None;
    }
    if len > MAX_OPUS_BYTES {
      return None;
    }
    if |b| < offset + 4 + len {
      return None;
    }
    r := Some(StreamPacket(streamId, ReadLE32(b, offset), b[offset + 4..offset + 4 + len]));
  }

  lemma PayloadOf(head: seq<byte>, p: StreamPacket, tail: seq<byte>)
    requires 1 <= |p.opus| <= MAX_OPUS_BYTES
    ensures Payload(head + LE32(p.timestamp) + p.opus + tail, |head|, p.streamId, |p.opus|) == Some(p)
  {
    hide LE32, ReadLE32;
    var t := LE32(p.timestamp);
    var b := head + t + p.opus + tail;
    Slice(head + t, p.opus, tail);
    Assoc(head + t, p.opus, tail);
    HasAtIn(head, t, p.opus + tail);
    ReadLE32At(b, |head|, p.timestamp);
  }

  lemma AudioHeadFields(streamId: byte, len: nat, rest: seq<byte>)
    requires 1 <= streamId <= 0x3F && len <= MAX_OPUS_BYTES
    ensures
      var b := AudioHead(streamId, len) + rest;
      if len > 255 then b[0] == streamId + 0x40 && ReadLE16(b, 1) == len
      else b[0] == streamId && b[1] == len
  {
    hide LE16, ReadLE16;
    if len > 255 {
      HasAtIn([streamId + 0x40], LE16(len), rest);
      ReadLE16At(AudioHead(streamId, len) + rest, 1, len);
    }
  }

  /** Every encodable packet is decoded to itself, whatever follows it. */
  lemma AudioRoundTrip(p: StreamPacket, tail: seq<byte>)
    requires AudioBytes(p).Some?
    ensures AudioDecoded(AudioBytes(p).value + tail) == Some(p)
  {
    hide LE32, ReadLE16, Payload;
    var head := AudioHead(p.streamId, |p.opus|);
    PayloadOf(head, p, tail);
    Assoc(head + LE32(p.timestamp), p.opus, tail);
    Assoc(head, LE32(p.timestamp), p.opus + tail);
    AudioHeadFields(p.streamId, |p.opus|, LE32(p.timestamp) + (p.opus + tail));
  }

  // ---------------------------------------------------------------------------
  // Control
  // ---------------------------------------------------------------------------

  const INIT: byte := 1
  const INIT_ACK: byte := 2
  const STREAM_DATA: byte := 4
  const PING: byte := 6
  const HEADER_BYTES := 14
  const MAX_PAYLOAD_BYTES := 1100

  datatype ControlPacket = ControlPacket(
    kind: byte, ackSequence: u32, sequence: u32, ackMask: u32, extraFlags: byte, payload: seq<byte>)

  predicate IsKnownType(kind: byte) {
    1 <= kind <= 14 || kind == 17
  }

  function ControlBytes(p: ControlPacket): Option<seq<byte>> {
    if !IsKnownType(p.kind) || |p.payload| > MAX_PAYLOAD_BYTES then None
    else Some(ControlHead(p) + p.payload)
  }

  function ControlHead(p: ControlPacket): (s: seq<byte>)
    ensures |s| == HEADER_BYTES
  {
    [p.kind] + LE32(p.ackSequence) + LE32(p.sequence) + LE32(p.ackMask) + [p.extraFlags]
  }

  function ControlDecoded(b: seq<byte>): Option<ControlPacket> {
    if |b| < HEADER_BYTES || !IsKnownType(b[0]) then None
    else Some(ControlPacket(b[0], ReadLE32(b, 1), ReadLE32(b, 5), ReadLE32(b, 9), b[13], b[HEADER_BYTES..]))
  }

  lemma ControlFields(p: ControlPacket)
    ensures
      var b := ControlHead(p) + p.payload;
      && b[0] == p.kind && ReadLE32(b, 1) == p.ackSequence && ReadLE32(b, 5) == p.sequence
      && ReadLE32(b, 9) == p.ackMask && b[13] == p.extraFlags && b[HEADER_BYTES..] == p.payload
  {
    hide LE32, ReadLE32;
    var a, s, m := LE32(p.ackSequence), LE32(p.sequence), LE32(p.ackMask);
    var b := ControlHead(p) + p.payload;
    DropPrefix(ControlHead(p), p.payload);
    HasAtIn([], [p.kind] + a + s + m + [p.extraFlags], p.payload);
    Unit(ControlHead(p));
    HasAtParts(b, 0, [p.kind] + a + s + m, [p.extraFlags]);
    HasAtParts(b, 0, [p.kind] + a + s, m);
    HasAtParts(b, 0, [p.kind] + a, s);
    HasAtParts(b, 0, [p.kind], a);
    ReadLE32At(b, 1, p.ackSequence);
    ReadLE32At(b, 5, p.sequence);
    ReadLE32At(b, 9, p.ackMask);
  }

  lemma ControlRoundTrip(p: ControlPacket)
    requires ControlBytes(p).Some?
    ensures ControlDecoded(ControlBytes(p).value) == Some(p)
  {
    hide ControlHead, ReadLE32;
    ControlFields(p);
  }

  /** What the decoder accepts, short enough to be sent, is its own encoding. */
  lemma ControlDecodeUnique(b: seq<byte>)
    requires ControlDecoded(b).Some? && |b| <= HEADER_BYTES + MAX_PAYLOAD_BYTES
    ensures ControlBytes(ControlDecoded(b).value) == Some(b)
  {
    hide LE32, ReadLE32;
    LE32Read(b, 1);
    LE32Read(b, 5);
    LE32Read(b, 9);
    assert b == [b[0]] + b[1..5] + b[5..9] + b[9..13] + [b[13]] + b[HEADER_BYTES..];
  }

  lemma LE32Read(b: seq<byte>, at: nat)
    requires at + 4 <= |b|
    ensures LE32(ReadLE32(b, at)) == b[at..at + 4]
  {
    var low, high := ReadLE16(b, at), ReadLE16(b, at + 2);
    assert ReadLE32(b, at) % 0x1_0000 == low && ReadLE32(b, at) / 0x1_0000 == high;
    assert LE16(low) == b[at..at + 2] && LE16(high) == b[at + 2..at + 4];
  }

  // ---------------------------------------------------------------------------
  // The peer's answer to the opening
  // ---------------------------------------------------------------------------

  const PROTOCOL_VERSION := 9
  const MIN_PROTOCOL_VERSION := 3
  const CODEC_OPUS: u32 := 0x4F50_5553

  datatype StreamInfo = StreamInfo(id: byte, kind: byte, codec: u32, frameDuration: u16, enabled: byte)

  datatype InitAck = InitAck(
    peerVersion: u32, peerMinVersion: u32, hasAudioOpus: bool, audioStreamId: byte, frameDurationMs: u16)

  function StreamBytes(s: StreamInfo): (r: seq<byte>)
    ensures |r| == 9
  {
    [s.id, s.kind] + LE32(s.codec) + LE16(s.frameDuration) + [s.enabled]
  }

  function StreamsBytes(streams: seq<StreamInfo>): seq<byte> {
    if streams == [] then [] else StreamBytes(streams[0]) + StreamsBytes(streams[1..])
  }

  predicate Usable(s: StreamInfo) {
    s.kind == 1 && s.codec == CODEC_OPUS && s.enabled != 0
  }

  /** A usable stream replaces the one found before. */
  function Adopt(ack: InitAck, s: StreamInfo): InitAck {
    if Usable(s) then ack.(hasAudioOpus := true, audioStreamId := s.id, frameDurationMs := s.frameDuration) else ack
  }

  function AdoptAll(ack: InitAck, streams: seq<StreamInfo>): InitAck
    decreases |streams|
  {
    if streams == [] then ack else AdoptAll(Adopt(ack, streams[0]), streams[1..])
  }

  function StreamAt(b: seq<byte>, at: nat): StreamInfo
    requires at + 9 <= |b|
  {
    StreamInfo(b[at], b[at + 1], ReadLE32(b, at + 2), ReadLE16(b, at + 6), b[at + 8])
  }

  /** `count` descriptors from `at` on, if they are all there. */
  function ReadStreams(b: seq<byte>, at: nat, count: nat): Option<seq<StreamInfo>>
    decreases count
  {
    if count == 0 then Some([])
    else if at + 9 > |b| then None
    else
      var rest := ReadStreams(b, at + 9, count - 1);
      if rest.None? then None else Some([StreamAt(b, at)] + rest.value)
  }

  function InitAckParsed(b: seq<byte>): Option<InitAck> {
    if |b| < 9 || ReadLE32(b, 4) > PROTOCOL_VERSION || ReadLE32(b, 0) < MIN_PROTOCOL_VERSION then None
    else
      var streams := ReadStreams(b, 9, b[8]);
      if streams.None? then None
      else Some(AdoptAll(InitAck(ReadLE32(b, 0), ReadLE32(b, 4), false, 0, 0), streams.value))
  }

  function InitAckBytes(version: u32, minVersion: u32, streams: seq<StreamInfo>): seq<byte>
    requires |streams| <= 255
  {
    LE32(version) + LE32(minVersion) + [|streams|] + StreamsBytes(streams)
  }

  method ParseInitAckPayload(b: seq<byte>) returns (r: Option<InitAck>)
    ensures r == InitAckParsed(b)
  {
    hide ReadLE32, ReadLE16, Adopt;
    if |b| < 9 {
      return None;
    }
    var ack := InitAck(ReadLE32(b, 0), ReadLE32(b, 4), false, 0, 0);
    if ack.peerMinVersion > PROTOCOL_VERSION || ack.peerVersion < MIN_PROTOCOL_VERSION {
      return None;
    }
    var offset := 9;
    var streamCount := b[8];
    ghost var all := ReadStreams(b, 9, streamCount);
    ghost var start := ack;
    for i := 0 to streamCount
      invariant offset == 9 + 9 * i
      invariant all.Some? <==> ReadStreams(b, offset, streamCount - i).Some?
      invariant all.Some? ==>
                  AdoptAll(start, all.value) == AdoptAll(ack, ReadStreams(b, offset, streamCount - i).value)
    {
      if offset > |b| || 9 > |b| - offset {
        return None;
      }
      AdoptFirst(ack, b, offset, streamCount - i);
      ack := Adopt(ack, StreamAt(b, offset));
      offset := offset + 9;
    }
    r := Some(ack);
  }

  lemma AdoptFirst(ack: InitAck, b: seq<byte>, at: nat, count: nat)
    requires count > 0 && at + 9 <= |b|
    ensures ReadStreams(b, at, count).Some? <==> ReadStreams(b, at + 9, count - 1).Some?
    ensures ReadStreams(b, at, count).Some? ==>
              AdoptAll(ack, ReadStreams(b, at, count).value)
              == AdoptAll(Adopt(ack, StreamAt(b, at)), ReadStreams(b, at + 9, count - 1).value)
  {
    hide StreamAt, Adopt;
    var rest := ReadStreams(b, at + 9, count - 1);
    if rest.Some? {
      Cons(StreamAt(b, at), rest.value);
    }
  }

  lemma StreamAtOf(b: seq<byte>, at: nat, s: StreamInfo)
    requires HasAt(b, at, StreamBytes(s))
    ensures StreamAt(b, at) == s
  {
    hide LE32, LE16, ReadLE32, ReadLE16;
    HasAtParts(b, at, [s.id, s.kind] + LE32(s.codec) + LE16(s.frameDuration), [s.enabled]);
    HasAtParts(b, at, [s.id, s.kind] + LE32(s.codec), LE16(s.frameDuration));
    HasAtParts(b, at, [s.id, s.kind], LE32(s.codec));
    ReadLE32At(b, at + 2, s.codec);
    ReadLE16At(b, at + 6, s.frameDuration);
    assert b[at + 0] == [s.id, s.kind][0] && b[at + 1] == [s.id, s.kind][1] && b[at + 8 + 0] == [s.enabled][0];
  }

  lemma {:induction false} ReadStreamsOf(front: seq<byte>, streams: seq<StreamInfo>, tail: seq<byte>)
    ensures ReadStreams(front + (StreamsBytes(streams) + tail), |front|, |streams|) == Some(streams)
    decreases |streams|
  {
    hide StreamAt, StreamBytes;
    if streams != [] {
      var first, rest := StreamBytes(streams[0]), StreamsBytes(streams[1..]) + tail;
      Assoc(first, StreamsBytes(streams[1..]), tail);
      Assoc(front, first, rest);
      HasAtIn(front, first, rest);
      StreamAtOf(front + first + rest, |front|, streams[0]);
      ReadStreamsOf(front + first, streams[1..], tail);
      FirstRest(streams);
    }
  }

  /** An enabled audio stream whose codec's four bytes spell OPUS from the last to the first. */
  predicate OffersOpus(s: StreamInfo) {
    s.kind == 1 && LE32(s.codec) == [0x53, 0x55, 0x50, 0x4F] && s.enabled >= 1
  }

  lemma UsableMeans(s: StreamInfo)
    ensures Usable(s) <==> OffersOpus(s)
  {
    hide LE32, ReadLE32;
    var letters: seq<byte> := [0x53, 0x55, 0x50, 0x4F];
    Letters(letters);
    Unit(LE32(s.codec));
    HasAtIn([], LE32(s.codec), []);
    ReadLE32At(LE32(s.codec), 0, s.codec);
  }

  lemma Letters(letters: seq<byte>)
    requires letters == [0x53, 0x55, 0x50, 0x4F]
    ensures LE32(CODEC_OPUS) == letters && ReadLE32(letters, 0) == CODEC_OPUS
  {
    assert LE16(0x5553) == [0x53, 0x55] && LE16(0x4F50) == [0x50, 0x4F];
  }

  /** The last stream that offers it, if there is one. */
  function LastOpus(streams: seq<StreamInfo>): Option<StreamInfo> {
    if streams == [] then None
    else if OffersOpus(streams[|streams| - 1]) then Some(streams[|streams| - 1])
    else LastOpus(streams[..|streams| - 1])
  }

  lemma {:induction false} AdoptSnoc(ack: InitAck, streams: seq<StreamInfo>, s: StreamInfo)
    ensures AdoptAll(ack, streams + [s]) == Adopt(AdoptAll(ack, streams), s)
    decreases |streams|
  {
    hide Adopt;
    if streams == [] {
      assert [s][1..] == [];
      Unit([s]);
    } else {
      assert (streams + [s])[1..] == streams[1..] + [s];
      AdoptSnoc(Adopt(ack, streams[0]), streams[1..], s);
    }
  }

  lemma {:induction false} AdoptsLast(ack: InitAck, streams: seq<StreamInfo>)
    ensures AdoptAll(ack, streams)
         == var s := LastOpus(streams);
            if s.None? then ack
            else ack.(hasAudioOpus := true, audioStreamId := s.value.id, frameDurationMs := s.value.frameDuration)
  {
    if streams != [] {
      AdoptSnoc(ack, streams[..|streams| - 1], streams[|streams| - 1]);
      FrontLast(streams);
      UsableMeans(streams[|streams| - 1]);
      AdoptsLast(ack, streams[..|streams| - 1]);
    }
  }

  /**
    From a peer of compatible version the last stream that offers Opus is taken, out of at
    most 255; what follows the streams is ignored.
  */
  lemma InitAckRoundTrip(version: u32, minVersion: u32, streams: seq<StreamInfo>, tail: seq<byte>)
    requires |streams| <= 255
    ensures InitAckParsed(InitAckBytes(version, minVersion, streams) + tail)
         == if minVersion > 9 || version < 3 then None
            else
              var s := LastOpus(streams);
              if s.None? then Some(InitAck(version, minVersion, false, 0, 0))
              else Some(InitAck(version, minVersion, true, s.value.id, s.value.frameDuration))
  {
    hide LE32, ReadLE32, StreamsBytes, ReadStreams, AdoptAll, LastOpus;
    var head := LE32(version) + LE32(minVersion) + [|streams|];
    Assoc(head, StreamsBytes(streams), tail);
    InitAckFields(version, minVersion, |streams|, StreamsBytes(streams) + tail);
    ReadStreamsOf(head, streams, tail);
    AdoptsLast(InitAck(version, minVersion, false, 0, 0), streams);
  }

  /** Read at all: nine bytes, as many streams as the ninth says, and compatible versions. */
  lemma InitAckReadIff(b: seq<byte>)
    ensures InitAckParsed(b).Some?
       <==> |b| >= 9 && |b| >= 9 + 9 * (b[8] as int) && ReadLE32(b, 0) >= 3 && ReadLE32(b, 4) <= 9
  {
    hide ReadLE32, AdoptAll;
    if |b| >= 9 {
      StreamsFit(b, 9, b[8]);
    }
  }

  lemma {:induction false} StreamsFit(b: seq<byte>, at: nat, count: nat)
    ensures ReadStreams(b, at, count).Some? <==> count == 0 || |b| >= at + 9 * count
    decreases count
  {
    hide StreamAt;
    if count > 0 {
      StreamsFit(b, at + 9, count - 1);
    }
  }

  lemma InitAckFields(version: u32, minVersion: u32, n: byte, rest: seq<byte>)
    ensures
      var b := LE32(version) + LE32(minVersion) + [n] + rest;
      ReadLE32(b, 0) == version && ReadLE32(b, 4) == minVersion && b[8] == n
  {
    hide LE32, ReadLE32;
    var x, y := LE32(version), LE32(minVersion);
    var b := x + y + [n] + rest;
    HasAtIn([], x + y + [n], rest);
    Unit(x + y + [n]);
    HasAtParts(b, 0, x + y, [n]);
    HasAtParts(b, 0, x, y);
    ReadLE32At(b, 0, version);
    ReadLE32At(b, 4, minVersion);
    assert b[8 + 0] == [n][0];
  }
}
