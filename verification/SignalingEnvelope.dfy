/**
  A signaling packet as the call sends it: messages are serialized to JSON, each becomes a
  frame, the frames are joined and the body is encrypted; the peer walks the same layers
  backwards.
*/
module SignalingEnvelope {
  import opened Bytes
  import opened SeqFacts
  import opened JsonSpec
  import opened SignalingCodec
  import opened SignalingFrames
  import opened SignalingMessages
  import opened SignalingRoundTrip

  // ---------------------------------------------------------------------------
  // Text and bytes
  // ---------------------------------------------------------------------------

  /** Text whose characters are bytes, as every `std::string` is. */
  predicate IsByteText(s: string) {
    forall i :: 0 <= i < |s| ==> s[i] as int < 0x100
  }

  function BytesOf(s: string): (r: seq<byte>)
    ensures |r| == |s|
  {
    seq(|s|, i requires 0 <= i < |s| => s[i] as int % 0x100)
  }

  function TextOf(b: seq<byte>): (r: string)
    ensures |r| == |b| && IsByteText(r)
  {
    seq(|b|, i requires 0 <= i < |b| => b[i] as char)
  }

  lemma TextOfBytesOf(s: string)
    requires IsByteText(s)
    ensures TextOf(BytesOf(s)) == s
  {
  }

  // ---------------------------------------------------------------------------
  // The layers
  // ---------------------------------------------------------------------------

  const SINGLE_BIT := 0x8000_0000
  const ACK_BIT := 0x4000_0000

  function WithSingle(v: u32): u32 {
    if v / SINGLE_BIT == 1 then v else v + SINGLE_BIT
  }

  function WithAck(v: u32): u32 {
    if v / ACK_BIT % 2 == 1 then v else v + ACK_BIT
  }

  function OuterSeq(outgoingSeq: u32, single: bool): u32 {
    WithAck(if single then WithSingle(outgoingSeq) else outgoingSeq)
  }

  /** Later frames count on from the packet's sequence number. */
  function FrameSeq(outgoingSeq: u32, single: bool, i: nat): u32 {
    if i == 0 then OuterSeq(outgoingSeq, single) else WithAck(Wrap32(outgoingSeq + i))
  }

  function FrameOf(outgoingSeq: u32, messages: seq<Message>, i: nat): Frame
    requires i < |messages|
  {
    MakeFrame(FrameSeq(outgoingSeq, |messages| == 1, i), TAG_CUSTOM, BytesOf(Serialize(messages[i])))
  }

  function FramesOf(outgoingSeq: u32, messages: seq<Message>): (r: seq<Frame>)
    ensures |r| == |messages|
    ensures forall i :: 0 <= i < |r| ==> r[i] == FrameOf(outgoingSeq, messages, i)
  {
    seq(|messages|, i requires 0 <= i < |messages| => FrameOf(outgoingSeq, messages, i))
  }

  function Sealed(c: Crypto, sharedKey: seq<byte>, isOutgoing: bool, outgoingSeq: u32, messages: seq<Message>)
    : seq<byte>
  {
    if messages == [] then []
    else Encrypted(c, sharedKey, isOutgoing, OuterSeq(outgoingSeq, |messages| == 1),
                   JoinFrames(FramesOf(outgoingSeq, messages)))
  }

  /** Frames of other kinds, and empty ones, carry no message. */
  function MessageIn(f: Frame): seq<Message> {
    if f.tag != TAG_CUSTOM || f.payload == [] then [] else [Parse(TextOf(f.payload))]
  }

  function MessagesIn(frames: seq<Frame>): seq<Message> {
    if frames == [] then [] else MessageIn(frames[0]) + MessagesIn(frames[1..])
  }

  function Opened(c: Crypto, sharedKey: seq<byte>, isOutgoing: bool, bytes: seq<byte>): seq<Message> {
    if bytes == [] then []
    else
      var packet := Decrypted(c, sharedKey, isOutgoing, bytes);
      if packet.None? then [] else MessagesIn(SplitFrames(packet.value.sequence, packet.value.plain))
  }

  // ---------------------------------------------------------------------------
  // The code
  // ---------------------------------------------------------------------------

  method Encrypt(c: Crypto, sharedKey: seq<byte>, isOutgoing: bool, outgoingSeq: u32, messages: seq<Message>)
    returns (result: seq<byte>)
    ensures result == Sealed(c, sharedKey, isOutgoing, outgoingSeq, messages)
  {
    hide Serialize, WithAck, WithSingle, JoinFrames, Encrypted;
    if messages == [] {
      return [];
    }
    var frames: seq<Frame> := [];
    var single := |messages| == 1;
    var outerSeq := WithAck(if single then WithSingle(outgoingSeq) else outgoingSeq);
    var i := 0;
    while i < |messages|
      invariant 0 <= i <= |messages|
      invariant frames == FramesOf(outgoingSeq, messages)[..i]
    {
      var json := Serialize(messages[i]);
      var frameSeq := if i == 0 then outerSeq else WithAck(Wrap32(outgoingSeq + i));
      frames := frames + [MakeFrame(frameSeq, TAG_CUSTOM, BytesOf(json))];
      i := i + 1;
    }
    assert frames == FramesOf(outgoingSeq, messages);
    var body := Join(frames);
    result := SignalingCodec.Encrypt(c, sharedKey, isOutgoing, outerSeq, body);
  }

  method Decrypt(c: Crypto, sharedKey: seq<byte>, isOutgoing: bool, bytes: seq<byte>) returns (out: seq<Message>)
    ensures out == Opened(c, sharedKey, isOutgoing, bytes)
  {
    hide Parse, SplitFrames, Decrypted;
    out := [];
    if bytes == [] {
      return;
    }
    var packet := SignalingCodec.Decrypt(c, sharedKey, isOutgoing, bytes);
    if packet.None? {
      return;
    }
    var frames := Split(packet.value.sequence, packet.value.plain);
    var i := 0;
    while i < |frames|
      invariant 0 <= i <= |frames|
      invariant MessagesIn(frames) == out + MessagesIn(frames[i..])
    {
      var f := frames[i];
      i := i + 1;
      DropDrop(frames, i - 1, 1);
      Assoc(out, MessageIn(f), MessagesIn(frames[i..]));
      if f.tag != TAG_CUSTOM {
        continue;
      }
      if f.payload == [] {
        continue;
      }
      out := out + [Parse(TextOf(f.payload))];
    }
    assert frames[i..] == [];
  }

  // ---------------------------------------------------------------------------
  // Round trip
  // ---------------------------------------------------------------------------

  /** The JSON text of a message is a byte string whose length fits its 32-bit prefix. */
  predicate Sendable(m: Message) {
    IsByteText(Serialize(m)) && |Serialize(m)| < 0x1_0000_0000
  }

  /** A lone message this short makes a packet below the codec's 32-byte minimum. */
  predicate TooShort(messages: seq<Message>) {
    |messages| == 1 && |Serialize(messages[0])| < 7
  }

  /** Messages up to the first over-long one, leaving out those whose text is empty. */
  function Delivered(messages: seq<Message>): seq<Message> {
    if messages == [] || |Serialize(messages[0])| > 0x10_0000 then []
    else (if Serialize(messages[0]) == "" then [] else [Parse(Serialize(messages[0]))]) + Delivered(messages[1..])
  }

  lemma {:induction false} DeliveredFrames(frames: seq<Frame>, messages: seq<Message>)
    requires |frames| == |messages|
    requires forall i :: 0 <= i < |messages| ==>
               Sendable(messages[i]) && frames[i].tag == TAG_CUSTOM && frames[i].payload == BytesOf(Serialize(messages[i]))
    ensures MessagesIn(Accepted(frames)) == Delivered(messages)
  {
    hide Serialize, Parse;
    if frames != [] {
      TextOfBytesOf(Serialize(messages[0]));
      DeliveredFrames(frames[1..], messages[1..]);
      Cons(frames[0], Accepted(frames[1..]));
    }
  }

  lemma {:induction false} JoinedLength(frames: seq<Frame>)
    requires forall i :: 0 <= i < |frames| ==> frames[i].tag == TAG_CUSTOM
    ensures |JoinMore(frames)| >= 9 * |frames|
  {
    hide BE32;
    if frames != [] {
      JoinedLength(frames[1..]);
    }
  }

  lemma BodyLength(outgoingSeq: u32, messages: seq<Message>)
    requires messages != []
    ensures |JoinFrames(FramesOf(outgoingSeq, messages))| < 12 <==> TooShort(messages)
  {
    hide Serialize, BE32;
    var frames := FramesOf(outgoingSeq, messages);
    assert frames[0].tag == TAG_CUSTOM && |frames[0].payload| == |Serialize(messages[0])|;
    JoinedLength(frames[1..]);
    if |messages| == 1 {
      assert frames[1..] == [];
    }
  }

  lemma FramesWellFormed(outgoingSeq: u32, messages: seq<Message>)
    requires forall i :: 0 <= i < |messages| ==> Sendable(messages[i])
    ensures forall i :: 0 <= i < |messages| ==> WellFormed(FramesOf(outgoingSeq, messages)[i])
  {
    hide Serialize;
    var frames := FramesOf(outgoingSeq, messages);
    forall i | 0 <= i < |messages|
      ensures WellFormed(frames[i])
    {
      assert frames[i] == FrameOf(outgoingSeq, messages, i);
      assert Sendable(messages[i]);
    }
  }

  /** The check for an empty packet is only a shortcut. */
  lemma OpenedIsDecrypted(c: Crypto, sharedKey: seq<byte>, isOutgoing: bool, bytes: seq<byte>)
    ensures
      var packet := Decrypted(c, sharedKey, isOutgoing, bytes);
      Opened(c, sharedKey, isOutgoing, bytes)
      == if packet.None? then [] else MessagesIn(SplitFrames(packet.value.sequence, packet.value.plain))
  {
    hide SplitFrames, MessagesIn, Xcrypt, MessageKey;
  }

  lemma DeliveredBody(outgoingSeq: u32, messages: seq<Message>)
    requires messages != [] && forall i :: 0 <= i < |messages| ==> Sendable(messages[i])
    ensures
      var outer := OuterSeq(outgoingSeq, |messages| == 1);
      MessagesIn(SplitFrames(outer, JoinFrames(FramesOf(outgoingSeq, messages)))) == Delivered(messages)
  {
    hide Serialize, SplitFrames, JoinFrames, Accepted, MessagesIn, Delivered;
    var frames := FramesOf(outgoingSeq, messages);
    FramesWellFormed(outgoingSeq, messages);
    SplitJoin(OuterSeq(outgoingSeq, |messages| == 1), frames);
    DeliveredFrames(frames, messages);
    FirstKeepsItsSeq(outgoingSeq, messages);
  }

  /**
    For every list of messages: the peer gets, in order, what each message's JSON parses
    to. Nothing arrives behind a JSON text over 1 MiB, empty texts are skipped, and a lone
    text under 7 bytes is lost with its packet.
  */
  lemma OpenedSealed(c: Crypto, sharedKey: seq<byte>, isOutgoing: bool, outgoingSeq: u32, messages: seq<Message>)
    requires |sharedKey| == SHARED_KEY_BYTES
    requires forall i :: 0 <= i < |messages| ==> Sendable(messages[i])
    ensures Opened(c, sharedKey, !isOutgoing, Sealed(c, sharedKey, isOutgoing, outgoingSeq, messages))
         == if TooShort(messages) then [] else Delivered(messages)
  {
    hide Serialize, Encrypted, Decrypted, Opened, SplitFrames, JoinFrames, MessagesIn, FramesOf, TooShort, OuterSeq;
    if messages != [] {
      var outer, body := OuterSeq(outgoingSeq, |messages| == 1), JoinFrames(FramesOf(outgoingSeq, messages));
      var bytes := Encrypted(c, sharedKey, isOutgoing, outer, body);
      OpenedIsDecrypted(c, sharedKey, !isOutgoing, bytes);
      DecryptEncrypt(c, sharedKey, isOutgoing, outer, body);
      BodyLength(outgoingSeq, messages);
      DeliveredBody(outgoingSeq, messages);
    } else {
      OpenedNothing(c, sharedKey, !isOutgoing);
    }
  }

  lemma OpenedNothing(c: Crypto, sharedKey: seq<byte>, isOutgoing: bool)
    ensures Opened(c, sharedKey, isOutgoing, []) == [] && !TooShort([])
  {
  }

  lemma FirstKeepsItsSeq(outgoingSeq: u32, messages: seq<Message>)
    requires messages != []
    ensures
      var frames := Accepted(FramesOf(outgoingSeq, messages));
      WithOuterSeq(OuterSeq(outgoingSeq, |messages| == 1), frames) == frames
  {
    hide Serialize, BytesOf, OuterSeq;
    var all := FramesOf(outgoingSeq, messages);
    assert all[0] == FrameOf(outgoingSeq, messages, 0);
    if Accepted(all) != [] {
      FirstRest(Accepted(all));
    }
  }

  // ---------------------------------------------------------------------------
  // Sequence words and frames
  // ---------------------------------------------------------------------------

  /**
    The low 30 bits count on from frame to frame, bit 30 is always set, and bit 31 is set for a
    lone message or if the count has it.
  */
  lemma FrameSeqBits(outgoingSeq: u32, single: bool, i: nat)
    ensures
      var count, word := (outgoingSeq + i) % 0x1_0000_0000, FrameSeq(outgoingSeq, single, i);
      && word % 0x4000_0000 == count % 0x4000_0000 && word / 0x4000_0000 % 2 == 1
      && (word / 0x8000_0000 == 1 <==> (i == 0 && single) || count / 0x8000_0000 == 1)
  {
    hide WithAck, WithSingle;
    var count := (outgoingSeq + i) % 0x1_0000_0000;
    AckBits(count);
    SingleBits(count);
    AckBits(WithSingle(count));
  }

  lemma AckBits(v: u32)
    ensures
      && WithAck(v) % 0x4000_0000 == v % 0x4000_0000 && WithAck(v) / 0x4000_0000 % 2 == 1
      && WithAck(v) / 0x8000_0000 == v / 0x8000_0000
  {
  }

  lemma SingleBits(v: u32)
    ensures WithSingle(v) % 0x4000_0000 == v % 0x4000_0000 && WithSingle(v) / 0x8000_0000 == 1
  {
  }

  /** A packet carries the word of its first frame. */
  lemma SealedSequence(c: Crypto, sharedKey: seq<byte>, isOutgoing: bool, outgoingSeq: u32, messages: seq<Message>)
    requires |sharedKey| == SHARED_KEY_BYTES && messages != [] && !TooShort(messages)
    ensures
      var packet := Decrypted(c, sharedKey, !isOutgoing, Sealed(c, sharedKey, isOutgoing, outgoingSeq, messages));
      packet.Some? && packet.value.sequence == FrameSeq(outgoingSeq, |messages| == 1, 0)
  {
    hide Serialize, Encrypted, Decrypted, JoinFrames, FramesOf, OuterSeq, TooShort;
    var outer, body := OuterSeq(outgoingSeq, |messages| == 1), JoinFrames(FramesOf(outgoingSeq, messages));
    BodyLength(outgoingSeq, messages);
    DecryptEncrypt(c, sharedKey, isOutgoing, outer, body);
  }

  lemma {:induction false} MessagesConcat(a: seq<Frame>, b: seq<Frame>)
    ensures MessagesIn(a + b) == MessagesIn(a) + MessagesIn(b)
  {
    hide MessageIn;
    if a == [] {
      Unit(b);
      Unit(MessagesIn(b));
    } else {
      assert (a + b)[1..] == a[1..] + b;
      MessagesConcat(a[1..], b);
      Assoc(MessageIn(a[0]), MessagesIn(a[1..]), MessagesIn(b));
    }
  }

  /** A frame brings a message if it has the tag of messages and is not empty; any other frame nothing. */
  lemma EachFrame(before: seq<Frame>, f: Frame, after: seq<Frame>)
    ensures MessagesIn(before + [f] + after)
         == MessagesIn(before)
            + (if f.tag == 127 && |f.payload| > 0 then [Parse(TextOf(f.payload))] else [])
            + MessagesIn(after)
  {
    hide Parse;
    MessagesConcat(before + [f], after);
    MessagesConcat(before, [f]);
    assert [f][1..] == [];
    Unit(MessageIn(f));
  }

  // ---------------------------------------------------------------------------
  // Structured messages
  // ---------------------------------------------------------------------------

  function ReceivedAll(messages: seq<Message>): seq<Message>
    requires forall i :: 0 <= i < |messages| ==> Structured(messages[i])
  {
    if messages == [] then []
    else [Received(messages[0], Serialize(messages[0]))] + ReceivedAll(messages[1..])
  }

  lemma TypedTreeLength(fields: seq<Field>)
    requires fields != [] && fields[0].key == "@type"
    ensures |Print(Object(fields))| >= 7
  {
    hide EscapeJson, Quoted;
    NameNeedsNoEscape("@type");
    assert |Quoted(fields[0].key)| == 7;
    assert |PrintField(fields[0])| >= 7;
    assert |PrintFields(fields)| >= 7;
  }

  lemma StructuredLength(m: Message)
    requires Structured(m)
    ensures |Serialize(m)| >= 7
  {
    hide Serialize, Print;
    SerializedIsPrinted(m);
    TypedTreeLength(Tree(m).fields);
  }

  lemma {:induction false} DeliveredStructured(messages: seq<Message>)
    requires forall i :: 0 <= i < |messages| ==> Structured(messages[i]) && |Serialize(messages[i])| <= 0x10_0000
    ensures Delivered(messages) == ReceivedAll(messages)
  {
    hide Serialize, Parse, Structured;
    if messages != [] {
      var m := messages[0];
      StructuredLength(m);
      ParseSerialize(m, "");
      assert Serialize(m) + "" == Serialize(m);
      DeliveredStructured(messages[1..]);
    }
  }

  /** Every packet of structured messages of at most 1 MiB each arrives completely. */
  lemma StructuredArrive(c: Crypto, sharedKey: seq<byte>, isOutgoing: bool, outgoingSeq: u32, messages: seq<Message>)
    requires |sharedKey| == SHARED_KEY_BYTES
    requires forall i :: 0 <= i < |messages| ==>
               Structured(messages[i]) && Sendable(messages[i]) && |Serialize(messages[i])| <= 0x10_0000
    ensures Opened(c, sharedKey, !isOutgoing, Sealed(c, sharedKey, isOutgoing, outgoingSeq, messages))
         == ReceivedAll(messages)
  {
    hide Serialize, Structured, Opened, Sealed, Delivered, ReceivedAll, Received;
    OpenedSealed(c, sharedKey, isOutgoing, outgoingSeq, messages);
    DeliveredStructured(messages);
    if messages != [] {
      StructuredLength(messages[0]);
    }
  }
}
