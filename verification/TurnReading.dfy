/**
  What the TURN reader makes of any message: each field comes from the last attribute of its
  type that has the right size, and the peer addresses from all of theirs.
*/
module TurnReading {
  import opened Bytes
  import opened SeqFacts
  import opened StunSpec
  import opened StunLaws
  import opened StunReading
  import opened Turn = TurnMessage

  // ---------------------------------------------------------------------------
  // Addresses
  // ---------------------------------------------------------------------------

  /** The value of an address of either family as section 15.2 of RFC 5389 lays it out. */
  function StandardValue(a: Turn.Address, transactionId: TransactionId): seq<byte>
    requires IsAddress(a)
  {
    [0, a.family] + BE16(Xor16(a.port, 0x2112))
    + if a.family == 1 then BE32(Xor32(Read32(a.bytes, 0), 0x2112_A442))
      else XorBytes(a.bytes, BE32(0x2112_A442) + transactionId)
  }

  lemma Ipv6IsRead(port: u16, bytes: seq<byte>, transactionId: TransactionId)
    requires |bytes| == 16
    ensures DecodedAddress([0, 2] + BE16(Xor16(port, 0x2112)) + XorBytes(bytes, Mask(transactionId)), transactionId)
         == Some(Turn.Address(2, port, bytes))
  {
    var p, masked := BE16(Xor16(port, 0x2112)), XorBytes(bytes, Mask(transactionId));
    hide XorBytes, Read16, BE16, Mask;
    var v := [0, 2] + p + masked;
    HasAtIn([0, 2], p, masked);
    Read16At(v, 2, Xor16(port, 0x2112));
    XorCancel(port, 0x2112);
    assert v[1] == 2 && |v| == 20 && v[4..20] == masked;
    XorBytesCancel(bytes, Mask(transactionId));
  }

  /** Addresses that a peer lays out by the standard are read back in both families. */
  lemma StandardIsRead(a: Turn.Address, transactionId: TransactionId)
    requires IsAddress(a)
    ensures DecodedAddress(StandardValue(a, transactionId), transactionId) == Some(a)
  {
    hide XorBytes, Xor16, Xor32, Read16, Read32, BE16, BE32, DecodedAddress;
    if a.family == 1 {
      AddressRoundTrip(a, transactionId);
    } else {
      Ipv6IsRead(a.port, a.bytes, transactionId);
    }
  }

  /** Written by the standard in IPv4 and, but for four zeros at the front, in IPv6; otherwise not at all. */
  lemma AddressWritten(kind: u16, a: Turn.Address, transactionId: TransactionId)
    ensures AddressAttrs(kind, a, transactionId)
         == if a.family == 1 && |a.bytes| == 4 then [Attr(kind, StandardValue(a, transactionId))]
            else if a.family == 2 && |a.bytes| == 16 then [Attr(kind, [0, 0, 0, 0] + StandardValue(a, transactionId)[4..])]
            else []
  {
    hide XorBytes, Xor16, Xor32, Read16, Read32, BE16, BE32;
  }

  /** An address is read exactly from a value of IPv4 of eight bytes or of IPv6 of twenty, or longer. */
  lemma AddressIff(v: seq<byte>, transactionId: TransactionId)
    ensures DecodedAddress(v, transactionId).Some? <==> (|v| >= 8 && v[1] == 1) || (|v| >= 20 && v[1] == 2)
  {
    hide Xor16, Xor32, XorBytes, Read16, Read32, BE32;
  }

  // ---------------------------------------------------------------------------
  // Fields
  // ---------------------------------------------------------------------------

  /** The last address of a type that can be read. */
  function LastAddress(attrs: seq<Attr>, kind: u16, transactionId: TransactionId): Option<Turn.Address> {
    if attrs == [] then None
    else
      var a := attrs[|attrs| - 1];
      if a.kind == kind && DecodedAddress(a.value, transactionId).Some? then DecodedAddress(a.value, transactionId)
      else LastAddress(attrs[..|attrs| - 1], kind, transactionId)
  }

  /** All peer addresses that can be read, in order. */
  function PeersOf(attrs: seq<Attr>, transactionId: TransactionId): seq<Turn.Address> {
    if attrs == [] then []
    else
      var a := attrs[|attrs| - 1];
      PeersOf(attrs[..|attrs| - 1], transactionId)
      + if a.kind == 0x0012 && DecodedAddress(a.value, transactionId).Some?
        then [DecodedAddress(a.value, transactionId).value] else []
  }

  /** Hundreds in the low three bits of the third byte, the rest in the fourth (section 15.6 of RFC 5389). */
  function CodeOf(v: Option<seq<byte>>): Option<int>
    requires v.Some? ==> |v.value| >= 4
  {
    if v.Some? then Some(100 * (v.value[2] as int % 8) + v.value[3] as int) else None
  }

  ghost predicate TextsOf(m: TurnMessage, attrs: seq<Attr>) {
    && m.username == LastOf(attrs, 0x0006, 0, ANY)
    && m.realm == LastOf(attrs, 0x0014, 0, ANY)
    && m.nonce == LastOf(attrs, 0x0015, 0, ANY)
    && m.data == LastOf(attrs, 0x0013, 0, ANY)
    && m.messageIntegrity == LastOf(attrs, 0x0008, 20, 20)
  }

  ghost predicate NumbersOf(m: TurnMessage, attrs: seq<Attr>) {
    && m.lifetime == Number32(LastOf(attrs, 0x000D, 4, 4))
    && m.protocol == (var v := LastOf(attrs, 0x0019, 4, 4); if v.Some? then Some(v.value[0]) else None)
    && m.errorCode == CodeOf(LastOf(attrs, 0x0009, 4, ANY))
    && m.errorReason == (var v := LastOf(attrs, 0x0009, 5, ANY); if v.Some? then v.value[4..] else [])
  }

  ghost predicate AddressesOf(m: TurnMessage, attrs: seq<Attr>) {
    && m.xorMapped == LastAddress(attrs, 0x0020, m.transactionId)
    && m.xorRelayed == LastAddress(attrs, 0x0016, m.transactionId)
    && m.xorPeers == PeersOf(attrs, m.transactionId)
  }

  lemma ApplyTexts(m: TurnMessage, attrs: seq<Attr>, a: Attr)
    requires TextsOf(m, attrs) && |a.value| <= ANY
    ensures TextsOf(Turn.Apply(m, a), attrs + [a])
  {
    hide LastOf, DecodedAddress, Read32;
    LastSnoc(attrs, a, 0x0006, 0, ANY);
    LastSnoc(attrs, a, 0x0014, 0, ANY);
    LastSnoc(attrs, a, 0x0015, 0, ANY);
    LastSnoc(attrs, a, 0x0013, 0, ANY);
    LastSnoc(attrs, a, 0x0008, 20, 20);
  }

  lemma ApplyNumbers(m: TurnMessage, attrs: seq<Attr>, a: Attr)
    requires NumbersOf(m, attrs) && |a.value| <= ANY
    ensures NumbersOf(Turn.Apply(m, a), attrs + [a])
  {
    hide LastOf, DecodedAddress, Read32;
    LastSnoc(attrs, a, 0x000D, 4, 4);
    LastSnoc(attrs, a, 0x0019, 4, 4);
    LastSnoc(attrs, a, 0x0009, 4, ANY);
    LastSnoc(attrs, a, 0x0009, 5, ANY);
  }

  lemma ApplyAddresses(m: TurnMessage, attrs: seq<Attr>, a: Attr)
    requires AddressesOf(m, attrs)
    ensures AddressesOf(Turn.Apply(m, a), attrs + [a])
  {
    hide DecodedAddress, Read32;
    Snoc(attrs, a);
    Unit(m.xorPeers);
  }

  lemma ApplyKeepsHead(m: TurnMessage, a: Attr)
    ensures
      var t := Turn.Apply(m, a);
      t.kind == m.kind && t.transactionId == m.transactionId && t.raw == m.raw
  {
    hide DecodedAddress, Read32;
  }

  lemma {:induction false} AllFields(kind: u16, transactionId: TransactionId, raw: seq<byte>, attrs: seq<Attr>)
    requires forall i :: 0 <= i < |attrs| ==> |attrs[i].value| <= ANY
    ensures
      var m := Turn.ApplyAll(NewMessage(kind, transactionId, raw), attrs);
      && m.kind == kind && m.transactionId == transactionId && m.raw == raw
      && TextsOf(m, attrs) && NumbersOf(m, attrs) && AddressesOf(m, attrs)
  {
    hide Turn.Apply, TextsOf, NumbersOf, AddressesOf;
    var blank := NewMessage(kind, transactionId, raw);
    if attrs == [] {
      NoFields(blank);
    } else {
      var front, last := attrs[..|attrs| - 1], attrs[|attrs| - 1];
      FrontLast(attrs);
      AllFields(kind, transactionId, raw, front);
      Turn.ApplyConcat(blank, front, [last]);
      var m := Turn.ApplyAll(blank, front);
      Turn.ApplyOne(m, last);
      ApplyTexts(m, front, last);
      ApplyNumbers(m, front, last);
      ApplyAddresses(m, front, last);
      ApplyKeepsHead(m, last);
    }
  }

  lemma NoFields(m: TurnMessage)
    requires m == NewMessage(m.kind, m.transactionId, m.raw)
    ensures TextsOf(m, []) && NumbersOf(m, []) && AddressesOf(m, [])
  {
  }

  /**
    A TURN message with any attributes, in any order and number, is read as: each field from the
    last attribute of its type and size, the peers from all of theirs, and no field without one.
  */
  lemma ReadsLast(kind: u16, transactionId: TransactionId, attrs: seq<Attr>)
    requires kind < 0x400 && |AttrsBytes(attrs)| < 0x1_0000
    ensures
      var data := Laid(kind, transactionId, attrs);
      && Turn.Decoded(data).Some?
      && var m := Turn.Decoded(data).value;
         && m.kind == kind && m.transactionId == transactionId && m.raw == data
         && TextsOf(m, attrs) && NumbersOf(m, attrs) && AddressesOf(m, attrs)
  {
    hide AttrsBytes, Turn.ApplyAll, Turn.Decoded, TextsOf, NumbersOf, AddressesOf, Laid;
    DecodeLaid(kind, transactionId, attrs);
    ValuesFit(attrs);
    AllFields(kind, transactionId, Laid(kind, transactionId, attrs), attrs);
  }

  /** Exactly the messages of the lower types with the cookie and a whole list of attributes are read. */
  lemma ReadIff(data: seq<byte>)
    ensures Turn.Decoded(data).Some? <==>
              && |data| >= 20 && data[0] <= 3 && data[4..8] == [0x21, 0x12, 0xA4, 0x42]
              && 20 + Read16(data, 2) <= |data| && IsList(data[20..20 + Read16(data, 2)])
  {
    hide Scan, IsList, Turn.ApplyAll, Read16;
    if Region(data).Some? {
      ScanComplete(Region(data).value);
      CookieBytes(data);
    }
  }
}
