/** DTLS 1.2 records (section 4.1 of RFC 6347). */
module DtlsRecord {
  import opened Bytes
  import opened SeqFacts

  const CHANGE_CIPHER_SPEC: byte := 20
  const ALERT: byte := 21
  const HANDSHAKE: byte := 22
  const APPLICATION_DATA: byte := 23
  const VERSION_12: u16 := 0xFEFD
  const RECORD_HEADER := 13
  const SEQ_LIMIT := 0x1_0000_0000_0000

  datatype Record = Record(kind: byte, version: u16, epoch: u16, sequence: u64, payload: seq<byte>)

  /** What fits the header's 48-bit sequence number and 16-bit length. */
  predicate Fits(r: Record) {
    r.sequence < SEQ_LIMIT && |r.payload| < 0x1_0000
  }

  function RecordHead(r: Record): (s: seq<byte>)
    ensures |s| == RECORD_HEADER
  {
    [r.kind] + BE16(r.version) + BE16(r.epoch) + BE48(r.sequence % SEQ_LIMIT) + BE16(|r.payload| % 0x1_0000)
  }

  function RecordBytes(r: Record): seq<byte> {
    RecordHead(r) + r.payload
  }

  datatype Decoded = Decoded(record: Record, consumed: nat)

  function ReadRecord(s: seq<byte>): (d: Option<Decoded>)
    ensures d.Some? ==> RECORD_HEADER <= d.value.consumed <= |s| && Fits(d.value.record)
  {
    if |s| < RECORD_HEADER || |s| < RECORD_HEADER + Read16(s, 11) then None
    else
      var end := RECORD_HEADER + Read16(s, 11);
      Some(Decoded(Record(s[0], Read16(s, 1), Read16(s, 3), Read48(s, 5), s[RECORD_HEADER..end]), end))
  }

  method Encode(r: Record) returns (out: seq<byte>)
    ensures out == RecordBytes(r)
  {
    var size := RECORD_HEADER + |r.payload|;
    var buffer := new byte[size](_ => 0);
    var version, epoch, length := BE16(r.version), BE16(r.epoch), BE16(|r.payload| % 0x1_0000);
    var sequence := BE48(r.sequence % SEQ_LIMIT);
    hide BE16, BE48;
    buffer[0] := r.kind;
    Store(buffer, 1, version);
    Store(buffer, 3, epoch);
    Store(buffer, 5, sequence);
    Store(buffer, 11, length);
    Store(buffer, RECORD_HEADER, r.payload);
    out := buffer[..];
    assert out == buffer[..RECORD_HEADER + |r.payload|];
  }

  method Store(buffer: array<byte>, at: nat, s: seq<byte>)
    requires at + |s| <= buffer.Length
    modifies buffer
    ensures buffer[..at + |s|] == old(buffer[..at]) + s
  {
    forall k | 0 <= k < |s| {
      buffer[at + k] := s[k];
    }
  }

  method Decode(s: seq<byte>) returns (d: Option<Decoded>)
    ensures d == ReadRecord(s)
  {
    hide Read48;
    if |s| < RECORD_HEADER {
      return None;
    }
    var length := Read16(s, 11);
    if |s| < RECORD_HEADER + length {
      return None;
    }
    var record := Record(s[0], Read16(s, 1), Read16(s, 3), Read48(s, 5), s[RECORD_HEADER..RECORD_HEADER + length]);
    d := Some(Decoded(record, RECORD_HEADER + length));
  }

  /** The header's fields, whatever follows; the sequence number modulo 2^48. */
  lemma RecordFields(r: Record, rest: seq<byte>)
    ensures
      var s := RecordHead(r) + rest;
      && s[0] == r.kind && Read16(s, 1) == r.version && Read16(s, 3) == r.epoch
      && Read48(s, 5) == r.sequence % SEQ_LIMIT && Read16(s, 11) == |r.payload| % 0x1_0000
  {
    hide BE16, BE48, Read16, Read48;
    var k, v, e := [r.kind], BE16(r.version), BE16(r.epoch);
    var q, l := BE48(r.sequence % SEQ_LIMIT), BE16(|r.payload| % 0x1_0000);
    var s := RecordHead(r) + rest;
    HasAtIn([], k + v + e + q + l, rest);
    Unit(k + v + e + q + l);
    HasAtParts(s, 0, k + v + e + q, l);
    HasAtParts(s, 0, k + v + e, q);
    HasAtParts(s, 0, k + v, e);
    HasAtParts(s, 0, k, v);
    assert s[0 + 0] == k[0];
    Read16At(s, 1, r.version);
    Read16At(s, 3, r.epoch);
    Read48At(s, 5, r.sequence % SEQ_LIMIT);
    Read16At(s, 11, |r.payload| % 0x1_0000);
  }

  /** A record that fits is read back from the front of any datagram. */
  lemma RecordRoundTrip(r: Record, rest: seq<byte>)
    requires Fits(r)
    ensures ReadRecord(RecordBytes(r) + rest) == Some(Decoded(r, |RecordBytes(r)|))
  {
    hide RecordHead, Read16, Read48;
    RecordFields(r, r.payload + rest);
    Assoc(RecordHead(r), r.payload, rest);
    Slice(RecordHead(r), r.payload, rest);
  }

  /** Conversely, what is read was written: a record's bytes are determined by its fields. */
  lemma ReadRecordUnique(s: seq<byte>)
    requires ReadRecord(s).Some?
    ensures RecordBytes(ReadRecord(s).value.record) == s[..ReadRecord(s).value.consumed]
  {
    hide BE16, BE48, Read16, Read48;
    BE16Read16(s, 1);
    BE16Read16(s, 3);
    BE48Read48(s, 5);
    BE16Read16(s, 11);
    Pieces(s, ReadRecord(s).value.consumed);
  }

  lemma Pieces(s: seq<byte>, end: nat)
    requires RECORD_HEADER <= end <= |s|
    ensures [s[0]] + s[1..3] + s[3..5] + s[5..11] + s[11..13] + s[13..end] == s[..end]
    ensures |s[13..end]| == end - 13
  {
  }

  lemma BE48Read48(s: seq<byte>, at: nat)
    requires at + 6 <= |s|
    ensures BE48(Read48(s, at)) == s[at..at + 6]
  {
    BE16Read16(s, at);
    BE32Read32(s, at + 2);
    assert Read48(s, at) / 0x1_0000_0000 % 0x1_0000 == Read16(s, at);
    assert Read48(s, at) % 0x1_0000_0000 == Read32(s, at + 2);
    assert s[at..at + 6] == s[at..at + 2] + s[at + 2..at + 6];
  }
}
