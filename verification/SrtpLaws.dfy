/**
  Key-stream separation and the rollover counter: which packets of one key can ever be
  masked with the same counter blocks.
*/
module SrtpLaws {
  import opened Bytes
  import opened SeqFacts
  import opened CounterMode
  import opened SrtpPacket

  const MAX_BLOCKS := 0x1_0000

  // ---------------------------------------------------------------------------
  // Counter blocks of one packet
  // ---------------------------------------------------------------------------

  /** Block `j` of a packet differs from its first block in the two low bytes only. */
  lemma {:induction false} LowCounter(prefix: seq<byte>, j: nat)
    requires |prefix| == 14 && j < MAX_BLOCKS
    ensures Advance(prefix + [0, 0], j) == prefix + BE16(j)
  {
    if j > 0 {
      LowCounter(prefix, j - 1);
      IncrementLow(prefix, j - 1);
    } else {
      assert BE16(0) == [0, 0];
    }
  }

  lemma IncrementLow(prefix: seq<byte>, j: nat)
    requires j + 1 < MAX_BLOCKS
    ensures Increment(prefix + BE16(j)) == prefix + BE16(j + 1)
  {
    var hi, lo := j / 0x100, j % 0x100;
    var s := prefix + [hi, lo];
    assert s[..|s| - 1] == prefix + [hi];
    if lo == 0xFF {
      Snoc(prefix, hi);
      assert (j + 1) / 0x100 == hi + 1 && (j + 1) % 0x100 == 0;
      assert Increment(prefix + [hi]) == prefix + [hi + 1];
      assert prefix + [hi + 1] + [0] == prefix + [hi + 1, 0];
    } else {
      assert (j + 1) / 0x100 == hi && (j + 1) % 0x100 == lo + 1;
      assert prefix + [hi] + [lo + 1] == prefix + [hi, lo + 1];
    }
  }

  lemma BE16Injective(i: u16, j: u16)
    requires BE16(i) == BE16(j)
    ensures i == j
  {
    assert BE16(i)[0] == BE16(j)[0] && BE16(i)[1] == BE16(j)[1];
  }

  lemma BE32Injective(i: u32, j: u32)
    requires BE32(i) == BE32(j)
    ensures i == j
  {
    Read32At(BE32(i), 0, i);
    Read32At(BE32(j), 0, j);
  }

  lemma BE48Injective(i: nat, j: nat)
    requires i < 0x1_0000_0000_0000 && j < 0x1_0000_0000_0000 && BE48(i) == BE48(j)
    ensures i == j
  {
    Read48At(BE48(i), 0, i);
    Read48At(BE48(j), 0, j);
  }

  lemma PatternInjective(ssrc: u32, index: nat, ssrc': u32, index': nat)
    requires index < 0x1_0000_0000_0000 && index' < 0x1_0000_0000_0000
    requires IvPattern(ssrc, index) == IvPattern(ssrc', index')
    ensures ssrc == ssrc' && index == index'
  {
    DropPrefix(Zeros(4) + BE32(ssrc), BE48(index));
    DropPrefix(Zeros(4) + BE32(ssrc'), BE48(index'));
    DropPrefix(Zeros(4), BE32(ssrc));
    DropPrefix(Zeros(4), BE32(ssrc'));
    BE32Injective(ssrc, ssrc');
    BE48Injective(index, index');
  }

  /** The counter of block `j` of the packet with this SSRC and index. */
  function PacketBlock(salt: seq<byte>, ssrc: u32, index: nat, j: nat): Block
    requires |salt| == 14
  {
    Advance(PacketIv(salt, ssrc, index), j)
  }

  /**
    For payloads of at most 65536 blocks (2^20 bytes), two packets of one salt share a
    counter block only if they are the same packet and the same block of it.
  */
  lemma CounterBlocksDisjoint(salt: seq<byte>, ssrc: u32, index: nat, j: nat,
                              ssrc': u32, index': nat, j': nat)
    requires |salt| == 14 && j < MAX_BLOCKS && j' < MAX_BLOCKS
    requires index < 0x1_0000_0000_0000 && index' < 0x1_0000_0000_0000
    ensures PacketBlock(salt, ssrc, index, j) == PacketBlock(salt, ssrc', index', j')
            <==> ssrc == ssrc' && index == index' && j == j'
  {
    var a, b := XorBytes(IvPattern(ssrc, index), salt), XorBytes(IvPattern(ssrc', index'), salt);
    LowCounter(a, j);
    LowCounter(b, j');
    DropPrefix(a, BE16(j));
    DropPrefix(b, BE16(j'));
    if PacketBlock(salt, ssrc, index, j) == PacketBlock(salt, ssrc', index', j') {
      XorBytesInjective(IvPattern(ssrc, index), IvPattern(ssrc', index'), salt);
      PatternInjective(ssrc, index, ssrc', index');
      BE16Injective(j, j');
    }
  }

  /** The bound is exact: block 65536 of a packet can be block 0 of the next one. */
  lemma BlockBoundIsExact(ssrc: u32)
    ensures PacketBlock(Zeros(14), ssrc, 0, MAX_BLOCKS) == PacketBlock(Zeros(14), ssrc, 1, 0)
  {
    var a, b := XorBytes(IvPattern(ssrc, 0), Zeros(14)), XorBytes(IvPattern(ssrc, 1), Zeros(14));
    XorZeros(IvPattern(ssrc, 0));
    XorZeros(IvPattern(ssrc, 1));
    LowCounter(a, MAX_BLOCKS - 1);
    var front := Zeros(4) + BE32(ssrc) + [0, 0, 0, 0, 0];
    assert BE48(0) == [0, 0, 0, 0, 0] + [0] && BE48(1) == [0, 0, 0, 0, 0] + [1];
    assert a == front + [0] && b == front + [1];
    CarryIntoIndex(front);
  }

  lemma XorZeros(s: seq<byte>)
    ensures XorBytes(s, Zeros(|s|)) == s
  {
    forall i | 0 <= i < |s|
      ensures XorByte(s[i], 0) == s[i]
    {
      XorZero(s[i]);
    }
  }

  lemma CarryIntoIndex(front: seq<byte>)
    requires |front| == 13
    ensures Increment(front + [0] + BE16(0xFFFF)) == front + [1] + [0, 0]
  {
    var s := front + [0] + [0xFF, 0xFF];
    assert s[..14] == front + [0] && s[14] == 0xFF && s[15] == 0xFF;
    IncrementCarry(s, 14);
    Snoc(front, 0);
    assert Increment(front + [0]) == front + [1];
    assert Zeros(2) == [0, 0];
  }

  // ---------------------------------------------------------------------------
  // The rollover counter
  // ---------------------------------------------------------------------------

  /** One less, modulo 2^32. */
  function Previous32(c: u32): u32 {
    if c == 0 then 0xFFFF_FFFF else c - 1
  }

  /**
    The rollover counter that section 3.3.1 of RFC 3711 gives a packet, from the counter and
    the sequence number of the packet before it: one less if the number lies more than half
    the space above, one more if it lies more than half the space below.
  */
  function IntendedRoc(p: Params, sequenceNumber: u16): u32 {
    if !p.hasLastSequenceNumber then p.rolloverCounter
    else if p.lastSequenceNumber < 0x8000 then
      if sequenceNumber - p.lastSequenceNumber > 0x8000 then Previous32(p.rolloverCounter) else p.rolloverCounter
    else
      if p.lastSequenceNumber - 0x8000 > sequenceNumber then Next32(p.rolloverCounter) else p.rolloverCounter
  }

  /**
    The code's test for a wrap is inverted: it agrees with the standard exactly when the
    number rose by at most half the space, stayed, or fell by exactly half of it. At a wrap the
    counter stays, on a small backward step it rises, and it never falls.
  */
  lemma RocCorrectIff(p: Params, sequenceNumber: u16)
    ensures NextRoc(p, sequenceNumber) == IntendedRoc(p, sequenceNumber)
            <==> (p.hasLastSequenceNumber ==>
                    || 0 <= sequenceNumber - p.lastSequenceNumber <= 0x8000
                    || p.lastSequenceNumber - sequenceNumber == 0x8000)
  {
  }

  /**
    For a sender that moves forward by less than half the space: the counter is right exactly
    if the step does not cross a multiple of 65536.
  */
  lemma ForwardStepIff(p: Params, step: nat)
    requires p.hasLastSequenceNumber && step < 0x8000
    ensures
      var next := (p.lastSequenceNumber + step) % 0x1_0000;
      NextRoc(p, next) == IntendedRoc(p, next) <==> p.lastSequenceNumber + step < 0x1_0000
    ensures
      var next := (p.lastSequenceNumber + step) % 0x1_0000;
      IntendedRoc(p, next)
      == if p.lastSequenceNumber + step < 0x1_0000 then p.rolloverCounter else Next32(p.rolloverCounter)
  {
    RocCorrectIff(p, (p.lastSequenceNumber + step) % 0x1_0000);
  }

  /** A sender that has just sent 0xFFFF sends 0 under the same counter; the standard raises it. */
  lemma WrapDoesNotRaiseRoc(p: Params)
    requires p.hasLastSequenceNumber && p.lastSequenceNumber == 0xFFFF
    ensures NextRoc(p, 0) == p.rolloverCounter && IntendedRoc(p, 0) == Next32(p.rolloverCounter) != p.rolloverCounter
  {
  }

  /** The parameters after `n` packets with consecutive sequence numbers from `first` on. */
  function AfterRun(p: Params, first: u16, n: nat): Params {
    if n == 0 then p else Observe(AfterRun(p, first, n - 1), (first + n - 1) % 0x1_0000)
  }

  /** The index that packet `i` of such a run is encrypted under. */
  function RunIndex(p: Params, first: u16, i: nat): nat {
    PacketIndex(AfterRun(p, first, i + 1).rolloverCounter, (first + i) % 0x1_0000)
  }

  lemma {:induction false} RunKeepsRoc(p: Params, first: u16, n: nat)
    requires n > 0
    ensures
      var r := AfterRun(p, first, n);
      && r.rolloverCounter == NextRoc(p, first)
      && r.hasLastSequenceNumber
      && r.lastSequenceNumber == (first + n - 1) % 0x1_0000
  {
    if n > 1 {
      RunKeepsRoc(p, first, n - 1);
      ConsecutiveKeepsRoc(AfterRun(p, first, n - 1), (first + n - 2) % 0x1_0000, (first + n - 1) % 0x1_0000);
    } else {
      assert AfterRun(p, first, 0) == p;
    }
  }

  lemma ConsecutiveKeepsRoc(p: Params, last: u16, next: u16)
    requires p.lastSequenceNumber == last && next == (last + 1) % 0x1_0000
    ensures NextRoc(p, next) == p.rolloverCounter
  {
  }

  /**
    On a run of consecutive sequence numbers, packets `i` and `j` are encrypted under the
    same index exactly when they lie a multiple of 65536 apart: up to 65536 packets all
    indices are distinct, and the next packet repeats the first one's.
  */
  lemma RunIndexRepeatsIff(p: Params, first: u16, i: nat, j: nat)
    ensures RunIndex(p, first, i) == RunIndex(p, first, j) <==> i % 0x1_0000 == j % 0x1_0000
  {
    RunKeepsRoc(p, first, i + 1);
    RunKeepsRoc(p, first, j + 1);
    SameResidue(first, i, j);
  }

  lemma SameResidue(first: nat, i: nat, j: nat)
    ensures (first + i) % 0x1_0000 == (first + j) % 0x1_0000 <==> i % 0x1_0000 == j % 0x1_0000
  {
  }

  /**
    Key-stream safety of a run, exactly: two packets of a run of consecutive sequence
    numbers share a counter block if and only if they are 65536 packets apart (or a
    multiple of that) and the block has the same position.
  */
  lemma RunSharesBlockIff(p: Params, first: u16, i: nat, a: nat, j: nat, b: nat)
    requires ValidParams(p) && a < MAX_BLOCKS && b < MAX_BLOCKS
    ensures PacketBlock(p.salt, p.ssrc, RunIndex(p, first, i), a) == PacketBlock(p.salt, p.ssrc, RunIndex(p, first, j), b)
            <==> i % 0x1_0000 == j % 0x1_0000 && a == b
  {
    RunIndexRepeatsIff(p, first, i, j);
    CounterBlocksDisjoint(p.salt, p.ssrc, RunIndex(p, first, i), a, p.ssrc, RunIndex(p, first, j), b);
  }
}
