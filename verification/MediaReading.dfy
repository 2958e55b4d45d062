/**
  Exactly which bytes the readers of media packets accept, and what they read: stream data,
  control packets and the peer's answer to the opening.
*/
module MediaReading {
  import opened Bytes
  import opened SeqFacts
  import opened MediaPackets

  // ---------------------------------------------------------------------------
  // Stream data
  // ---------------------------------------------------------------------------

  /** The five bits of the word above the length: the second and the third from the top are clear. */
  predicate Spare(k: nat) {
    k in {0, 1, 2, 3, 16, 17, 18, 19}
  }

  /** The id, the length in one byte, the time stamp and the payload. */
  function ShortAudio(p: StreamPacket): seq<byte>
    requires |p.opus| <= 255
  {
    [p.streamId, |p.opus|] + LE32(p.timestamp) + p.opus
  }

  /** The length in the eleven low bits of two bytes. */
  function LongAudio(p: StreamPacket, k: nat): seq<byte>
    requires p.streamId <= 63 && |p.opus| <= 1100 && Spare(k)
  {
    [p.streamId + 64] + LE16(|p.opus| + 2048 * k) + LE32(p.timestamp) + p.opus
  }

  ghost predicate StartsWithLong(b: seq<byte>, p: StreamPacket)
    requires p.streamId <= 63 && |p.opus| <= 1100
  {
    exists k :: Spare(k) && LongAudio(p, k) <= b
  }

  ghost predicate AudioText(b: seq<byte>, p: StreamPacket) {
    && 1 <= p.streamId <= 63 && 1 <= |p.opus| <= 1100
    && ((|p.opus| <= 255 && ShortAudio(p) <= b) || StartsWithLong(b, p))
  }

  lemma SpareBits(len: nat, k: nat)
    requires len <= 1100 && Spare(k)
    ensures
      var word := len + 2048 * k;
      word <= 0xFFFF && word % 0x800 == len && word / 0x4000 % 2 == 0 && word / 0x2000 % 2 == 0
  {
  }

  lemma SpareOf(word: u16)
    requires word / 0x4000 % 2 == 0 && word / 0x2000 % 2 == 0
    ensures Spare(word / 0x800) && word == word % 0x800 + 2048 * (word / 0x800)
  {
  }

  /** Every text of a packet is read as that packet. */
  lemma AudioIsRead(b: seq<byte>, p: StreamPacket)
    requires AudioText(b, p)
    ensures AudioDecoded(b) == Some(p)
  {
    hide LE32, LE16, ReadLE16, Payload, LongAudio, ShortAudio, Spare;
    if StartsWithLong(b, p) {
      var k :| Spare(k) && LongAudio(p, k) <= b;
      LongIsRead(b, p, k);
    } else {
      ShortIsRead(b, p);
    }
  }

  lemma ShortIsRead(b: seq<byte>, p: StreamPacket)
    requires 1 <= p.streamId <= 63 && 1 <= |p.opus| <= 255 && ShortAudio(p) <= b
    ensures AudioDecoded(b) == Some(p)
  {
    hide LE32, ReadLE16, Payload;
    var head, rest := [p.streamId, |p.opus| as byte], b[|ShortAudio(p)|..];
    SplitAt(b, |ShortAudio(p)|);
    assert b == head + LE32(p.timestamp) + p.opus + rest;
    PayloadOf(head, p, rest);
    assert b[0] == head[0] && b[1] == head[1];
  }

  lemma LongIsRead(b: seq<byte>, p: StreamPacket, k: nat)
    requires 1 <= p.streamId <= 63 && 1 <= |p.opus| <= 1100 && Spare(k) && LongAudio(p, k) <= b
    ensures AudioDecoded(b) == Some(p)
  {
    hide LE32, LE16, ReadLE16, Payload, Spare;
    SpareBits(|p.opus|, k);
    var word: u16 := |p.opus| + 2048 * k;
    var head, rest := [(p.streamId + 64) as byte] + LE16(word), b[|LongAudio(p, k)|..];
    SplitAt(b, |LongAudio(p, k)|);
    assert b == head + LE32(p.timestamp) + p.opus + rest;
    PayloadOf(head, p, rest);
    Assoc(head, LE32(p.timestamp), p.opus);
    Assoc(head, LE32(p.timestamp) + p.opus, rest);
    HasAtIn([(p.streamId + 64) as byte], LE16(word), LE32(p.timestamp) + p.opus + rest);
    Assoc([(p.streamId + 64) as byte], LE16(word), LE32(p.timestamp) + p.opus + rest);
    ReadLE16At(b, 1, word);
    assert b[0] == p.streamId + 64;
  }

  /** And what is read stands there in one of the two forms, whatever follows it. */
  lemma AudioWasThere(b: seq<byte>)
    requires AudioDecoded(b).Some?
    ensures AudioText(b, AudioDecoded(b).value)
  {
    hide ReadLE16, Payload, ShortAudio, LongAudio, Spare;
    var p := AudioDecoded(b).value;
    if b[0] / 0x40 % 2 == 1 {
      var word := ReadLE16(b, 1);
      PayloadWasThere(b, 3, b[0] % 0x40, word % 0x800);
      LongWasThere(b, p, word);
    } else {
      PayloadWasThere(b, 2, b[0] % 0x40, b[1]);
      ShortWasThere(b, p);
    }
  }

  lemma PayloadWasThere(b: seq<byte>, offset: nat, streamId: byte, len: nat)
    requires Payload(b, offset, streamId, len).Some?
    ensures
      var p := Payload(b, offset, streamId, len).value;
      && p.streamId == streamId && 1 <= |p.opus| <= 1100 && |p.opus| == len && |b| >= offset + 4 + len
      && LE32(p.timestamp) + p.opus == b[offset..offset + 4 + len]
  {
    hide LE32, ReadLE32;
    LE32Read(b, offset);
    assert b[offset..offset + 4] + b[offset + 4..offset + 4 + len] == b[offset..offset + 4 + len];
  }

  lemma ShortWasThere(b: seq<byte>, p: StreamPacket)
    requires |b| >= 6 + |p.opus| && b[0] == p.streamId && b[1] == |p.opus|
    requires LE32(p.timestamp) + p.opus == b[2..6 + |p.opus|]
    ensures ShortAudio(p) <= b
  {
    hide LE32;
    assert ShortAudio(p) == [b[0], b[1]] + (LE32(p.timestamp) + p.opus);
    assert [b[0], b[1]] + b[2..6 + |p.opus|] == b[..6 + |p.opus|];
  }

  lemma LongWasThere(b: seq<byte>, p: StreamPacket, word: u16)
    requires |p.opus| <= 1100 && |b| >= 7 + |p.opus| && p.streamId <= 63 && b[0] == p.streamId + 64
    requires word == ReadLE16(b, 1) && word % 0x800 == |p.opus|
    requires word / 0x4000 % 2 == 0 && word / 0x2000 % 2 == 0
    requires LE32(p.timestamp) + p.opus == b[3..7 + |p.opus|]
    ensures StartsWithLong(b, p)
  {
    hide LE32, LE16, ReadLE16, Spare;
    SpareOf(word);
    LE16Read(b, 1);
    assert LongAudio(p, word / 0x800) == [b[0]] + b[1..3] + (LE32(p.timestamp) + p.opus);
    assert [b[0]] + b[1..3] + b[3..7 + |p.opus|] == b[..7 + |p.opus|];
    assert LongAudio(p, word / 0x800) <= b;
  }

  lemma LE16Read(b: seq<byte>, at: nat)
    requires at + 2 <= |b|
    ensures LE16(ReadLE16(b, at)) == b[at..at + 2]
  {
  }

  lemma AudioReadIff(b: seq<byte>, p: StreamPacket)
    ensures AudioDecoded(b) == Some(p) <==> AudioText(b, p)
  {
    hide AudioDecoded, AudioText;
    if AudioText(b, p) {
      AudioIsRead(b, p);
    }
    if AudioDecoded(b) == Some(p) {
      AudioWasThere(b);
    }
  }

  // ---------------------------------------------------------------------------
  // Control
  // ---------------------------------------------------------------------------

  predicate Numbered(kind: byte) {
    kind in {1, 2, 3, 4, 5, 6, 7, 8, 9, 10, 11, 12, 13, 14, 17}
  }

  function ControlText(p: ControlPacket): seq<byte> {
    [p.kind] + LE32(p.ackSequence) + LE32(p.sequence) + LE32(p.ackMask) + [p.extraFlags] + p.payload
  }

  /** A control packet of any length is read if its type has a number; only up to 1100 bytes are written. */
  lemma ControlReadIff(b: seq<byte>, p: ControlPacket)
    ensures ControlDecoded(b) == Some(p) <==> Numbered(p.kind) && b == ControlText(p)
    ensures ControlBytes(p) == if Numbered(p.kind) && |p.payload| <= 1100 then Some(ControlText(p)) else None
  {
    hide LE32, ReadLE32;
    ControlFields(p);
    if ControlDecoded(b) == Some(p) {
      LE32Read(b, 1);
      LE32Read(b, 5);
      LE32Read(b, 9);
      assert b == [b[0]] + b[1..5] + b[5..9] + b[9..13] + [b[13]] + b[14..];
    }
  }
}
