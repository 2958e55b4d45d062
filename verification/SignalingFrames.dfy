/**
  Several frames in one signaling packet: splitting a plaintext body into frames and
  joining frames into a body.
*/
module SignalingFrames {
  import opened Bytes
  import opened SeqFacts

  const TAG_CUSTOM: byte := 0x7F
  const TAG_EMPTY: byte := 0xFE
  const TAG_ACK: byte := 0xFF
  const MAX_PAYLOAD := 0x10_0000

  datatype Frame = Frame(
    sequence: u32, tag: byte, single: bool, requiresAck: bool, counter: u32, payload: seq<byte>)

  /** A frame whose flags and counter are read off its sequence word. */
  function MakeFrame(seqWord: u32, tag: byte, payload: seq<byte>): Frame {
    Frame(seqWord, tag, seqWord / 0x8000_0000 == 1, seqWord / 0x4000_0000 % 2 == 1, seqWord % 0x4000_0000, payload)
  }

  // ---------------------------------------------------------------------------
  // Splitting
  // ---------------------------------------------------------------------------

  /** From a tag byte on, for the frame with this sequence word. */
  function SplitFrames(seqWord: u32, s: seq<byte>): seq<Frame>
    decreases |s|
  {
    if s == [] then []
    else if s[0] == TAG_ACK || s[0] == TAG_EMPTY then [MakeFrame(seqWord, s[0], [])] + SplitMore(s[1..])
    else if s[0] != TAG_CUSTOM then [MakeFrame(seqWord, s[0], [])]
    else if |s| < 5 || Read32(s, 1) > MAX_PAYLOAD || 5 + Read32(s, 1) > |s| then []
    else
      var len := Read32(s, 1);
      [MakeFrame(seqWord, s[0], s[5..5 + len])] + SplitMore(s[5 + len..])
  }

  /** Later frames carry their own sequence word. */
  function SplitMore(s: seq<byte>): seq<Frame>
    decreases |s|
  {
    if |s| < 4 then [] else SplitFrames(Read32(s, 0), s[4..])
  }

  /** The same step in the coordinates of the whole body. */
  lemma SplitHere(seqWord: u32, body: seq<byte>, pos: nat)
    requires pos < |body|
    ensures SplitFrames(seqWord, body[pos..])
         == if body[pos] == TAG_ACK || body[pos] == TAG_EMPTY
            then [MakeFrame(seqWord, body[pos], [])] + SplitMore(body[pos + 1..])
            else if body[pos] != TAG_CUSTOM then [MakeFrame(seqWord, body[pos], [])]
            else SplitCustom(seqWord, body, pos + 1)
  {
    hide SplitMore, Read32, MakeFrame;
    var s := body[pos..];
    DropDrop(body, pos, 1);
    if s[0] == TAG_CUSTOM && |s| >= 5 {
      Read32Shift(body, pos, 1);
      var len := Read32(s, 1);
      if 5 + len <= |s| {
        DropDrop(body, pos, 5 + len);
        DropDrop(body, pos, 5);
        TakeDrop(s, 5, len);
        TakeDrop(body, pos + 5, len);
      }
    }
  }

  function SplitCustom(seqWord: u32, body: seq<byte>, pos: nat): seq<Frame> {
    if |body| < pos + 4 || Read32(body, pos) > MAX_PAYLOAD || pos + 4 + Read32(body, pos) > |body| then []
    else
      var next := pos + 4 + Read32(body, pos);
      [MakeFrame(seqWord, TAG_CUSTOM, body[pos + 4..next])] + SplitMore(body[next..])
  }

  lemma Read32Shift(s: seq<byte>, at: nat, i: nat)
    requires at + i + 4 <= |s|
    ensures Read32(s[at..], i) == Read32(s, at + i)
  {
  }

  lemma SplitMoreAt(body: seq<byte>, pos: nat)
    requires pos + 4 <= |body|
    ensures SplitMore(body[pos..]) == SplitFrames(Read32(body, pos), body[pos + 4..])
  {
    Read32Shift(body, pos, 0);
    DropDrop(body, pos, 4);
  }

  lemma SplitNothing(seqWord: u32)
    ensures SplitFrames(seqWord, []) == []
  {
  }

  lemma SplitShort(s: seq<byte>)
    requires |s| < 4
    ensures SplitMore(s) == []
  {
  }

  /** What the loop in `Split` still has to produce. */
  function Remaining(first: bool, seqWord: u32, body: seq<byte>, pos: nat): seq<Frame>
    requires pos <= |body|
  {
    if first then SplitFrames(seqWord, body[pos..]) else SplitMore(body[pos..])
  }

  method Push(ghost goal: seq<Frame>, out: seq<Frame>, f: Frame, ghost rest: seq<Frame>) returns (more: seq<Frame>)
    requires goal == out + ([f] + rest)
    ensures more == out + [f] && goal == more + rest
  {
    Assoc(out, [f], rest);
    more := out + [f];
  }

  method Split(outerSeq: u32, body: seq<byte>) returns (out: seq<Frame>)
    ensures out == SplitFrames(outerSeq, body)
  {
    hide SplitFrames, SplitMore, MakeFrame, Read32;
    out := [];
    var pos := 0;
    var n := |body|;
    var currentSeq := outerSeq;
    var first := true;
    assert body[0..] == body;
    ghost var goal := SplitFrames(outerSeq, body);
    while pos < n
      invariant 0 <= pos <= n
      invariant goal == out + Remaining(first, currentSeq, body, pos)
      decreases n - pos
    {
      if !first {
        if pos + 4 > n {
          SplitShort(body[pos..]);
          return;
        }
        currentSeq := Read32(body, pos);
        SplitMoreAt(body, pos);
        pos := pos + 4;
      }
      first := false;
      if pos + 1 > n {
        assert body[pos..] == [];
        SplitNothing(currentSeq);
        return;
      }
      SplitHere(currentSeq, body, pos);
      var tag := body[pos];
      pos := pos + 1;
      if tag == TAG_ACK || tag == TAG_EMPTY {
        out := Push(goal, out, MakeFrame(currentSeq, tag, []), SplitMore(body[pos..]));
        continue;
      }
      if tag != TAG_CUSTOM {
        out := out + [MakeFrame(currentSeq, tag, [])];
        return;
      }
      if pos + 4 > n {
        return;
      }
      var len := Read32(body, pos);
      pos := pos + 4;
      if len > MAX_PAYLOAD {
        return;
      }
      if pos + len > n {
        return;
      }
      out := Push(goal, out, MakeFrame(currentSeq, tag, body[pos..pos + len]), SplitMore(body[pos + len..]));
      pos := pos + len;
    }
    assert body[pos..] == [];
    SplitNothing(currentSeq);
    SplitShort([]);
  }

  // ---------------------------------------------------------------------------
  // Joining
  // ---------------------------------------------------------------------------

  function FrameBytes(f: Frame): seq<byte> {
    if f.tag == TAG_EMPTY || f.tag == TAG_ACK then [f.tag]
    else [f.tag] + BE32(|f.payload| % 0x1_0000_0000) + f.payload
  }

  /** The first frame's sequence word is left to the packet around it. */
  function JoinFrames(frames: seq<Frame>): seq<byte> {
    if frames == [] then [] else FrameBytes(frames[0]) + JoinMore(frames[1..])
  }

  function JoinMore(frames: seq<Frame>): seq<byte> {
    if frames == [] then [] else BE32(frames[0].sequence) + FrameBytes(frames[0]) + JoinMore(frames[1..])
  }

  method Join(frames: seq<Frame>) returns (out: seq<byte>)
    ensures out == JoinFrames(frames)
  {
    hide FrameBytes;
    out := [];
    var i := 0;
    while i < |frames|
      invariant 0 <= i <= |frames|
      invariant i == 0 ==> out == []
      invariant i > 0 ==> JoinFrames(frames) == out + JoinMore(frames[i..])
    {
      var f := frames[i];
      JoinMoreAt(frames, i);
      if i != 0 {
        Append(out, BE32(f.sequence), FrameBytes(f), JoinMore(frames[i + 1..]));
        out := out + BE32(f.sequence);
      }
      out := out + FrameBytes(f);
      i := i + 1;
    }
    assert frames[i..] == [];
  }

  lemma JoinMoreAt(frames: seq<Frame>, i: nat)
    requires i < |frames|
    ensures JoinMore(frames[i..]) == BE32(frames[i].sequence) + FrameBytes(frames[i]) + JoinMore(frames[i + 1..])
    ensures i == 0 ==> JoinFrames(frames) == FrameBytes(frames[i]) + JoinMore(frames[i + 1..])
  {
    DropDrop(frames, i, 1);
  }

  lemma Append(out: seq<byte>, a: seq<byte>, b: seq<byte>, rest: seq<byte>)
    ensures out + (a + b + rest) == out + a + b + rest
  {
    Assoc(a, b, rest);
    Assoc(out, a, b + rest);
    Assoc(out + a, b, rest);
  }

  /** A sequence word is the single bit, the acknowledgement bit and a counter of 30 bits. */
  lemma FlagsAre(seqWord: u32, tag: byte, payload: seq<byte>)
    ensures
      var f := MakeFrame(seqWord, tag, payload);
      && f.counter < 0x4000_0000
      && seqWord == (if f.single then 0x8000_0000 else 0) + (if f.requiresAck then 0x4000_0000 else 0) + f.counter
  {
  }

  /** A tag alone, or a tag, a length of four bytes and the payload. */
  lemma FrameIs(f: Frame)
    ensures FrameBytes(f)
         == if f.tag == 0xFE || f.tag == 0xFF then [f.tag]
            else [f.tag] + ToBE(|f.payload| % 0x1_0000_0000, 4) + f.payload
  {
    hide ToBE, BE32;
    FourBytes(|f.payload| % 0x1_0000_0000);
  }

  // ---------------------------------------------------------------------------
  // Each undoes the other
  // ---------------------------------------------------------------------------

  predicate KnownTag(tag: byte) {
    tag == 0x7F || tag == 0xFE || tag == 0xFF
  }

  /** A frame that can be put on the wire and whose fields agree. */
  predicate WellFormed(f: Frame) {
    && KnownTag(f.tag)
    && f == MakeFrame(f.sequence, f.tag, f.payload)
    && |f.payload| < 0x1_0000_0000
    && (f.tag != TAG_CUSTOM ==> f.payload == [])
  }

  /** The frames before the first one that is too long to be accepted. */
  function Accepted(frames: seq<Frame>): seq<Frame> {
    if frames == [] || |frames[0].payload| > 0x10_0000 then [] else [frames[0]] + Accepted(frames[1..])
  }

  /** The receiver takes the first frame's sequence word from the packet. */
  function WithOuterSeq(outerSeq: u32, frames: seq<Frame>): seq<Frame> {
    if frames == [] then [] else [MakeFrame(outerSeq, frames[0].tag, frames[0].payload)] + frames[1..]
  }

  lemma CustomFrameFields(payload: seq<byte>, rest: seq<byte>)
    requires |payload| < 0x1_0000_0000
    ensures
      var s := [TAG_CUSTOM] + BE32(|payload|) + payload + rest;
      && s[0] == TAG_CUSTOM
      && Read32(s, 1) == |payload|
      && s[5..5 + |payload|] == payload
      && s[5 + |payload|..] == rest
  {
    var head := [TAG_CUSTOM] + BE32(|payload|);
    var s := head + payload + rest;
    Assoc(head, payload, rest);
    HasAtIn([TAG_CUSTOM], BE32(|payload|), payload + rest);
    Read32At(s, 1, |payload|);
    Slice(head, payload, rest);
    DropPrefix(head + payload, rest);
  }

  lemma SplitCustomJoined(seqWord: u32, payload: seq<byte>, rest: seq<byte>)
    requires |payload| < 0x1_0000_0000
    ensures SplitCustom(seqWord, [TAG_CUSTOM] + BE32(|payload|) + payload + rest, 1)
         == if |payload| > MAX_PAYLOAD then [] else [MakeFrame(seqWord, TAG_CUSTOM, payload)] + SplitMore(rest)
  {
    hide SplitMore, Read32, BE32, MakeFrame;
    CustomFrameFields(payload, rest);
  }

  lemma SplitOne(seqWord: u32, f: Frame, rest: seq<byte>)
    requires WellFormed(f)
    ensures SplitFrames(seqWord, FrameBytes(f) + rest)
         == if |f.payload| > MAX_PAYLOAD then [] else [MakeFrame(seqWord, f.tag, f.payload)] + SplitMore(rest)
  {
    hide SplitFrames, SplitMore, SplitCustom, BE32;
    var s := FrameBytes(f) + rest;
    SplitHere(seqWord, s, 0);
    assert s[0..] == s;
    if f.tag == TAG_CUSTOM {
      SplitCustomJoined(seqWord, f.payload, rest);
    } else {
      Cons(f.tag, rest);
    }
  }

  lemma {:induction false} SplitMoreJoined(frames: seq<Frame>)
    requires forall i :: 0 <= i < |frames| ==> WellFormed(frames[i])
    ensures SplitMore(JoinMore(frames)) == Accepted(frames)
  {
    if frames != [] {
      var f, more := frames[0], JoinMore(frames[1..]);
      Assoc(BE32(f.sequence), FrameBytes(f), more);
      DropPrefix(BE32(f.sequence), FrameBytes(f) + more);
      HasAtIn([], BE32(f.sequence), FrameBytes(f) + more);
      assert [] + BE32(f.sequence) + (FrameBytes(f) + more) == JoinMore(frames);
      Read32At(JoinMore(frames), 0, f.sequence);
      SplitOne(f.sequence, f, more);
      SplitMoreJoined(frames[1..]);
    }
  }

  /**
    Splitting what was joined gives back the frames, up to the first one whose payload is
    over the receiver's limit; nothing behind that one arrives.
  */
  lemma SplitJoin(outerSeq: u32, frames: seq<Frame>)
    requires forall i :: 0 <= i < |frames| ==> WellFormed(frames[i])
    ensures SplitFrames(outerSeq, JoinFrames(frames)) == WithOuterSeq(outerSeq, Accepted(frames))
  {
    if frames != [] {
      SplitOne(outerSeq, frames[0], JoinMore(frames[1..]));
      SplitMoreJoined(frames[1..]);
      Cons(frames[0], Accepted(frames[1..]));
    }
  }

  // ---------------------------------------------------------------------------
  // When joining what was split gives a prefix of the body
  // ---------------------------------------------------------------------------

  /**
    The scan of this body meets no unknown tag, or the four bytes behind it are present and
    zero: those are the bytes of the empty length that joining writes after such a tag.
  */
  predicate Rejoinable(s: seq<byte>)
    decreases |s|
  {
    if s == [] then true
    else if s[0] == TAG_ACK || s[0] == TAG_EMPTY then RejoinableMore(s[1..])
    else if s[0] != TAG_CUSTOM then |s| >= 5 && s[1..5] == [0, 0, 0, 0]
    else if |s| < 5 || Read32(s, 1) > MAX_PAYLOAD || 5 + Read32(s, 1) > |s| then true
    else RejoinableMore(s[5 + Read32(s, 1)..])
  }

  predicate RejoinableMore(s: seq<byte>)
    decreases |s|
  {
    |s| < 4 || Rejoinable(s[4..])
  }

  lemma PrefixThrough(a: seq<byte>, b: seq<byte>, rest: seq<byte>)
    ensures a + b <= a + rest <==> b <= rest
  {
    DropPrefix(a, b);
    DropPrefix(a, rest);
    if a + b <= a + rest {
      forall k | 0 <= k < |b|
        ensures b[k] == rest[k]
      {
        assert (a + b)[|a| + k] == (a + rest)[|a| + k];
      }
    }
  }

  /** The frame at the front: where it ends, what it was made of, and whether the rest matters. */
  lemma FirstFrame(seqWord: u32, s: seq<byte>)
    requires SplitFrames(seqWord, s) != [] && KnownTag(s[0])
    ensures
      var f := SplitFrames(seqWord, s)[0];
      var n := |FrameBytes(f)|;
      && 0 < n <= |s| && FrameBytes(f) == s[..n]
      && f.sequence == seqWord
      && SplitFrames(seqWord, s)[1..] == SplitMore(s[n..])
      && Rejoinable(s) == RejoinableMore(s[n..])
  {
    hide SplitMore, RejoinableMore, Read32, BE32;
    if s[0] == TAG_CUSTOM {
      var len := Read32(s, 1);
      BE32Read32(s, 1);
      assert s[..5 + len] == [s[0]] + s[1..5] + s[5..5 + len];
    } else {
      assert s[..1] == [s[0]];
    }
  }

  /** An unknown tag ends the scan, and is written back with an empty length behind it. */
  lemma UnknownFrame(seqWord: u32, s: seq<byte>)
    requires s != [] && !KnownTag(s[0])
    ensures SplitFrames(seqWord, s) == [MakeFrame(seqWord, s[0], [])]
    ensures JoinFrames(SplitFrames(seqWord, s)) == [s[0], 0, 0, 0, 0]
    ensures JoinFrames(SplitFrames(seqWord, s)) <= s <==> Rejoinable(s)
  {
    var f := MakeFrame(seqWord, s[0], []);
    assert [f][1..] == [];
    assert FrameBytes(f) == [s[0], 0, 0, 0, 0];
    Unit(FrameBytes(f));
    if |s| >= 5 {
      assert s[..5] == [s[0]] + s[1..5];
      assert [s[0], 0, 0, 0, 0][1..] == [0, 0, 0, 0];
    }
  }

  lemma NothingScanned(seqWord: u32, s: seq<byte>)
    requires SplitFrames(seqWord, s) == []
    ensures Rejoinable(s)
  {
  }

  lemma {:induction false} RejoinedIff(seqWord: u32, s: seq<byte>)
    ensures JoinFrames(SplitFrames(seqWord, s)) <= s <==> Rejoinable(s)
    ensures SplitFrames(seqWord, s) != [] ==> SplitFrames(seqWord, s)[0].sequence == seqWord
    decreases |s|, 0
  {
    hide SplitFrames, SplitMore, Rejoinable, RejoinableMore, JoinMore, FrameBytes;
    var frames := SplitFrames(seqWord, s);
    if frames == [] {
      NothingScanned(seqWord, s);
    } else if s == [] {
      SplitNothing(seqWord);
    } else if KnownTag(s[0]) {
      var n := |FrameBytes(frames[0])|;
      FirstFrame(seqWord, s);
      RejoinedMoreIff(s[n..]);
      PrefixThrough(s[..n], JoinMore(SplitMore(s[n..])), s[n..]);
      SplitAt(s, n);
    } else {
      UnknownFrame(seqWord, s);
    }
  }

  lemma {:induction false} RejoinedMoreIff(s: seq<byte>)
    ensures JoinMore(SplitMore(s)) <= s <==> RejoinableMore(s)
    decreases |s|, 1
  {
    hide SplitFrames, Rejoinable, FrameBytes, BE32, Read32;
    if |s| >= 4 {
      var seqWord := Read32(s, 0);
      var frames := SplitMore(s);
      RejoinedIff(seqWord, s[4..]);
      if frames != [] {
        BE32Read32(s, 0);
        Assoc(BE32(seqWord), FrameBytes(frames[0]), JoinMore(frames[1..]));
        PrefixThrough(s[..4], JoinFrames(frames), s[4..]);
        SplitAt(s, 4);
      } else {
        assert Rejoinable(s[4..]) by { NothingScanned(seqWord, s[4..]); }
      }
    }
  }

  /**
    Joining what was split gives a prefix of the body if and only if the scan meets no
    unknown tag, or meets one that four zero bytes follow.
  */
  lemma JoinSplitIff(outerSeq: u32, body: seq<byte>)
    ensures JoinFrames(SplitFrames(outerSeq, body)) <= body <==> Rejoinable(body)
  {
    RejoinedIff(outerSeq, body);
  }

  ghost predicate AllKnown(frames: seq<Frame>) {
    forall i :: 0 <= i < |frames| ==> KnownTag(frames[i].tag)
  }

  lemma {:induction false} KnownIsRejoinable(seqWord: u32, s: seq<byte>)
    requires AllKnown(SplitFrames(seqWord, s))
    ensures Rejoinable(s)
    decreases |s|
  {
    var frames := SplitFrames(seqWord, s);
    if frames != [] {
      assert KnownTag(frames[0].tag);
      FirstFrame(seqWord, s);
      var rest := s[|FrameBytes(frames[0])|..];
      forall i | 0 <= i < |frames| - 1
        ensures KnownTag(frames[1..][i].tag)
      {
        assert frames[1..][i] == frames[i + 1];
      }
      if |rest| >= 4 {
        KnownIsRejoinable(Read32(rest, 0), rest[4..]);
      }
    } else {
      NothingScanned(seqWord, s);
    }
  }

  /** In particular as long as no unknown tag occurs among the frames. */
  lemma JoinSplit(outerSeq: u32, body: seq<byte>)
    requires AllKnown(SplitFrames(outerSeq, body))
    ensures JoinFrames(SplitFrames(outerSeq, body)) <= body
  {
    KnownIsRejoinable(outerSeq, body);
    RejoinedIff(outerSeq, body);
  }

  /** An unknown tag in a body of two bytes is not rejoined; one before four zeros is. */
  lemma UnknownTagIsNotRejoined()
    ensures SplitFrames(0, [1, 2]) == [MakeFrame(0, 1, [])]
    ensures !(JoinFrames(SplitFrames(0, [1, 2])) <= [1, 2])
    ensures JoinFrames(SplitFrames(0, [1, 0, 0, 0, 0])) <= [1, 0, 0, 0, 0]
  {
    UnknownFrame(0, [1, 2]);
    JoinSplitIff(0, [1, 2]);
    JoinSplitIff(0, [1, 0, 0, 0, 0]);
    assert [1, 0, 0, 0, 0][1..5] == [0, 0, 0, 0];
  }
}
