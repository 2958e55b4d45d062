/**
  What the STUN reader makes of any message: each field comes from the last attribute of its
  type that has the right size; and exactly which messages carry a right fingerprint.
*/
module StunReading {
  import opened Bytes
  import opened SeqFacts
  import opened StunSpec
  import opened StunLaws
  import Crc32

  // ---------------------------------------------------------------------------
  // Fields
  // ---------------------------------------------------------------------------

  /** The value of the last attribute of a type that has between `lo` and `hi` bytes. */
  function LastOf(attrs: seq<Attr>, kind: u16, lo: nat, hi: nat): (v: Option<seq<byte>>)
    ensures v.Some? ==> lo <= |v.value| <= hi
  {
    if attrs == [] then None
    else
      var a := attrs[|attrs| - 1];
      if a.kind == kind && lo <= |a.value| <= hi then Some(a.value) else LastOf(attrs[..|attrs| - 1], kind, lo, hi)
  }

  const ANY := 0xFFFF

  function OrEmpty(v: Option<seq<byte>>): seq<byte> {
    if v.Some? then v.value else []
  }

  function Number32(v: Option<seq<byte>>): Option<u32>
    requires v.Some? ==> |v.value| == 4
  {
    if v.Some? then Some(Read32(v.value, 0)) else None
  }

  function Number64(v: Option<seq<byte>>): Option<u64>
    requires v.Some? ==> |v.value| == 8
  {
    if v.Some? then Some(Read64(v.value, 0)) else None
  }

  /** The value of the last mapped address that is an IPv4 address. */
  function LastIpv4(attrs: seq<Attr>): (v: Option<seq<byte>>)
    ensures v.Some? ==> |v.value| >= 8
  {
    if attrs == [] then None
    else
      var a := attrs[|attrs| - 1];
      if a.kind == 0x0020 && |a.value| >= 8 && a.value[1] == 1 then Some(a.value)
      else LastIpv4(attrs[..|attrs| - 1])
  }

  /** Family and port of the last mapped address; the bytes of the last one of family IPv4. */
  function MappedOf(attrs: seq<Attr>): Option<Mapped> {
    var v := LastOf(attrs, 0x0020, 8, ANY);
    if v.None? then None
    else
      var ipv4 := LastIpv4(attrs);
      var address: Address :=
        (if ipv4.Some? then BE32(Xor32(Read32(ipv4.value, 4), 0x2112_A442)) else [0, 0, 0, 0]) + Zeros(12);
      Some(Mapped(v.value[1], address, Xor16(Read16(v.value, 2), 0x2112)))
  }

  ghost predicate FieldsOf(m: Message, attrs: seq<Attr>) {
    && m.username == OrEmpty(LastOf(attrs, 0x0006, 0, ANY))
    && m.messageIntegrity == OrEmpty(LastOf(attrs, 0x0008, 20, 20))
    && m.priority == Number32(LastOf(attrs, 0x0024, 4, 4))
    && m.useCandidate == LastOf(attrs, 0x0025, 0, ANY).Some?
    && m.fingerprint == Number32(LastOf(attrs, 0x8028, 4, 4))
    && m.iceControlled == Number64(LastOf(attrs, 0x8029, 8, 8))
    && m.iceControlling == Number64(LastOf(attrs, 0x802A, 8, 8))
    && m.mapped == MappedOf(attrs)
  }

  lemma LastSnoc(attrs: seq<Attr>, a: Attr, kind: u16, lo: nat, hi: nat)
    ensures LastOf(attrs + [a], kind, lo, hi)
         == if a.kind == kind && lo <= |a.value| <= hi then Some(a.value) else LastOf(attrs, kind, lo, hi)
  {
    Snoc(attrs, a);
  }

  lemma {:induction false} Ipv4IsMapped(attrs: seq<Attr>)
    requires LastOf(attrs, 0x0020, 8, ANY).None? && forall i :: 0 <= i < |attrs| ==> |attrs[i].value| <= ANY
    ensures LastIpv4(attrs).None?
  {
    if attrs != [] {
      Ipv4IsMapped(attrs[..|attrs| - 1]);
    }
  }

  lemma MappedSnoc(attrs: seq<Attr>, a: Attr)
    requires |a.value| <= ANY && forall i :: 0 <= i < |attrs| ==> |attrs[i].value| <= ANY
    ensures MappedOf(attrs + [a])
         == if a.kind == 0x0020 && |a.value| >= 8 then Some(ReadMapped(a.value, MappedOf(attrs))) else MappedOf(attrs)
  {
    hide Read16, Read32, Xor16, Xor32, BE32;
    Snoc(attrs, a);
    LastSnoc(attrs, a, 0x0020, 8, ANY);
    if LastOf(attrs, 0x0020, 8, ANY).None? {
      Ipv4IsMapped(attrs);
    }
    assert Zeros(16) == [0, 0, 0, 0] + Zeros(12);
    assert Zeros(16)[4..] == Zeros(12);
  }

  lemma ApplyFields(m: Message, attrs: seq<Attr>, a: Attr)
    requires FieldsOf(m, attrs) && |a.value| <= ANY && forall i :: 0 <= i < |attrs| ==> |attrs[i].value| <= ANY
    ensures FieldsOf(Apply(m, a), attrs + [a])
  {
    hide LastOf, MappedOf, ReadMapped, Read32, Read64;
    LastSnoc(attrs, a, 0x0006, 0, ANY);
    LastSnoc(attrs, a, 0x0008, 20, 20);
    LastSnoc(attrs, a, 0x0024, 4, 4);
    LastSnoc(attrs, a, 0x0025, 0, ANY);
    LastSnoc(attrs, a, 0x8028, 4, 4);
    LastSnoc(attrs, a, 0x8029, 8, 8);
    LastSnoc(attrs, a, 0x802A, 8, 8);
    MappedSnoc(attrs, a);
  }

  lemma {:induction false} AllFields(messageType: u16, transactionId: TransactionId, attrs: seq<Attr>)
    requires forall i :: 0 <= i < |attrs| ==> |attrs[i].value| <= ANY
    ensures
      var m := ApplyAll(Blank(messageType, transactionId), attrs);
      m.messageType == messageType && m.transactionId == transactionId && FieldsOf(m, attrs)
  {
    hide Apply, FieldsOf;
    var blank := Blank(messageType, transactionId);
    if attrs == [] {
      NoFields(blank);
    } else {
      var front, last := attrs[..|attrs| - 1], attrs[|attrs| - 1];
      FrontLast(attrs);
      AllFields(messageType, transactionId, front);
      ApplyConcat(blank, front, [last]);
      ApplyOne(ApplyAll(blank, front), last);
      ApplyFields(ApplyAll(blank, front), front, last);
      ApplyKeepsHead(ApplyAll(blank, front), last);
    }
  }

  lemma NoFields(blank: Message)
    requires blank == Blank(blank.messageType, blank.transactionId)
    ensures FieldsOf(blank, [])
  {
  }

  lemma ApplyKeepsHead(m: Message, a: Attr)
    ensures Apply(m, a).messageType == m.messageType && Apply(m, a).transactionId == m.transactionId
  {
    hide ReadMapped, Read32, Read64;
  }

  lemma {:induction false} ValuesFit(attrs: seq<Attr>)
    requires |AttrsBytes(attrs)| < 0x1_0000
    ensures forall i :: 0 <= i < |attrs| ==> |attrs[i].value| <= ANY
  {
    hide BE16;
    if attrs != [] {
      ValuesFit(attrs[1..]);
    }
  }

  /**
    A message with any attributes, known or not, in any order and number, is read as: each field
    from the last attribute of its type and size, and no field without one.
  */
  lemma ReadsLast(messageType: u16, transactionId: TransactionId, attrs: seq<Attr>)
    requires |AttrsBytes(attrs)| < 0x1_0000
    ensures
      var data := Header(messageType, |AttrsBytes(attrs)|, transactionId) + AttrsBytes(attrs);
      && Decoded(data).Some?
      && Decoded(data).value.messageType == messageType && Decoded(data).value.transactionId == transactionId
      && FieldsOf(Decoded(data).value, attrs)
  {
    hide AttrsBytes, ApplyAll, Scan, Region, Read16, Read32, FieldsOf;
    RegionOfLayout(messageType, transactionId, attrs);
    ValuesFit(attrs);
    AllFields(messageType, transactionId, attrs);
  }

  /** Attributes one after the other, none cut short; less than four bytes may be left over. */
  predicate IsList(s: seq<byte>)
    decreases |s|
  {
    if |s| < 4 then true
    else
      var n := 4 + Read16(s, 2);
      n <= |s| && IsList(if n + (4 - n % 4) % 4 <= |s| then s[n + (4 - n % 4) % 4..] else [])
  }

  lemma {:induction false} ScanComplete(s: seq<byte>)
    ensures Scan(s).complete == IsList(s)
    decreases |s|
  {
    hide Read16;
    if |s| >= 4 && 4 + Read16(s, 2) <= |s| {
      var n := 4 + Read16(s, 2);
      PaddingIs(Read16(s, 2));
      ScanComplete(if n + (4 - n % 4) % 4 <= |s| then s[n + (4 - n % 4) % 4..] else []);
    }
  }

  lemma PaddingIs(n: nat)
    ensures Padding(n) == (4 - (4 + n) % 4) % 4
  {
  }

  /** Exactly the messages with the magic cookie and a whole list of attributes are read. */
  lemma ReadIff(data: seq<byte>)
    ensures Decoded(data).Some? <==>
              && |data| >= 20 && data[4..8] == [0x21, 0x12, 0xA4, 0x42]
              && 20 + Read16(data, 2) <= |data| && IsList(data[20..20 + Read16(data, 2)])
  {
    hide Scan, IsList, ApplyAll, Read16;
    if Region(data).Some? {
      ScanComplete(Region(data).value);
      CookieBytes(data);
    }
  }

  lemma CookieBytes(data: seq<byte>)
    requires |data| >= 20
    ensures Read32(data, 4) == 0x2112_A442 <==> data[4..8] == [0x21, 0x12, 0xA4, 0x42]
  {
    BE32Read32(data, 4);
    assert BE32(0x2112_A442) == [0x21, 0x12, 0xA4, 0x42];
    if data[4..8] == [0x21, 0x12, 0xA4, 0x42] {
      Read32At(data[4..8], 0, 0x2112_A442);
      assert Read32(data[4..8], 0) == Read32(data, 4);
    }
  }

  // ---------------------------------------------------------------------------
  // The fingerprint
  // ---------------------------------------------------------------------------

  /** The message up to the fingerprint, under the length that includes it (section 15.5 of RFC 5389). */
  function UnderLength(front: seq<byte>): seq<byte>
    requires |front| >= 20
  {
    front[..2] + BE16((|front| - 12) % 0x1_0000) + front[4..]
  }

  ghost predicate IsFingerprinted(data: seq<byte>, front: seq<byte>) {
    && |front| >= 20
    && data == front + [0x80, 0x28, 0x00, 0x04] + BE32(Xor32(Crc32.Crc(UnderLength(front)), 0x5354_554E))
  }

  lemma UnderLengthIs(front: seq<byte>)
    requires |front| >= 20
    ensures WithLength(front, |front| - 20 + 8) == UnderLength(front)
  {
  }

  lemma FingerprintFound(data: seq<byte>)
    requires FingerprintVerified(data)
    ensures |data| >= 28 && IsFingerprinted(data, data[..|data| - 8])
  {
    hide Crc32.Crc, Xor32, WithLength, UnderLength, Read16, Read32, BE32;
    var at := |data| - 8;
    TailBytes(data);
    BE32Read32(data, at + 4);
    UnderLengthIs(data[..at]);
    assert data == data[..at] + data[at..at + 4] + data[at + 4..at + 8];
  }

  lemma FingerprintHolds(data: seq<byte>, front: seq<byte>)
    requires IsFingerprinted(data, front)
    ensures FingerprintVerified(data)
  {
    hide Crc32.Crc, Xor32, WithLength, UnderLength, Read16, Read32, BE32;
    var head: seq<byte> := [0x80, 0x28, 0x00, 0x04];
    var crc := Xor32(Crc32.Crc(UnderLength(front)), 0x5354_554E);
    var at := |front|;
    UnderLengthIs(front);
    Assoc(front, head, BE32(crc));
    DropPrefix(front, head + BE32(crc));
    assert data[at..at + 4] == head;
    TailBytes(data);
    HasAtIn(front + head, BE32(crc), []);
    Unit(data);
    Read32At(data, at + 4, crc);
  }

  /** Exactly the data that end with the fingerprint of what precedes it are accepted. */
  lemma FingerprintIff(data: seq<byte>)
    ensures FingerprintVerified(data) <==> exists front: seq<byte> :: IsFingerprinted(data, front)
  {
    hide FingerprintVerified, IsFingerprinted;
    if FingerprintVerified(data) {
      FingerprintFound(data);
    }
    forall front: seq<byte> | IsFingerprinted(data, front)
      ensures FingerprintVerified(data)
    {
      FingerprintHolds(data, front);
    }
  }

  lemma TailBytes(data: seq<byte>)
    requires |data| >= 28
    ensures
      var at := |data| - 8;
      Read16(data, at) == 0x8028 && Read16(data, at + 2) == 4 <==> data[at..at + 4] == [0x80, 0x28, 0x00, 0x04]
  {
    var at := |data| - 8;
    var s := data[at..at + 4];
    assert s[0] == data[at] && s[1] == data[at + 1] && s[2] == data[at + 2] && s[3] == data[at + 3];
    assert s == [s[0], s[1], s[2], s[3]];
  }
}
