/**
  MD5 as the TURN credential code streams it: a context that absorbs data in pieces, proved
  equal to one fold of the compression function over the padded message (section 3 of
  RFC 1321). The compression function itself is a parameter.
*/
module Md5 {
  import opened Bytes
  import opened SeqFacts

  type State = s: seq<u32> | |s| == 4 witness [0, 0, 0, 0]
  type Chunk = s: seq<byte> | |s| == 64 witness seq(64, _ => 0)
  type Transform = (State, Chunk) -> State

  const INITIAL: State := [0x67452301, 0xefcdab89, 0x98badcfe, 0x10325476]

  // ---------------------------------------------------------------------------
  // Reference
  // ---------------------------------------------------------------------------

  /** The compression function over the whole 64-byte blocks of `data`. */
  function Fold(t: Transform, st: State, data: seq<byte>): State
    decreases |data|
  {
    if |data| < 64 then st else Fold(t, t(st, data[..64]), data[64..])
  }

  function LE64(v: u64): (s: seq<byte>)
    ensures |s| == 8
  {
    LE32(v % 0x1_0000_0000) + LE32(v / 0x1_0000_0000)
  }

  function BitLength(n: nat): u64 {
    8 * n % 0x1_0000_0000_0000_0000
  }

  /** A one bit, zeros up to 8 bytes below a block boundary, and the length in bits. */
  function Padded(message: seq<byte>): seq<byte> {
    message + ([0x80] + Zeros((55 - |message|) % 64)) + LE64(BitLength(|message|))
  }

  function StateBytes(st: State): (s: seq<byte>)
    ensures |s| == 16
  {
    LE32(st[0]) + LE32(st[1]) + LE32(st[2]) + LE32(st[3])
  }

  function MD5(t: Transform, message: seq<byte>): seq<byte> {
    StateBytes(Fold(t, INITIAL, Padded(message)))
  }

  lemma {:induction false} FoldAppend(t: Transform, st: State, a: seq<byte>, b: seq<byte>)
    requires |a| % 64 == 0
    ensures Fold(t, st, a + b) == Fold(t, Fold(t, st, a), b)
    decreases |a|
  {
    if a == [] {
      Unit(b);
    } else {
      assert (a + b)[..64] == a[..64];
      assert (a + b)[64..] == a[64..] + b;
      FoldAppend(t, t(st, a[..64]), a[64..], b);
    }
  }

  /** A tail shorter than a block changes nothing. */
  lemma FoldTail(t: Transform, st: State, a: seq<byte>, tail: seq<byte>)
    requires |a| % 64 == 0 && |tail| < 64
    ensures Fold(t, st, a + tail) == Fold(t, st, a)
  {
    FoldAppend(t, st, a, tail);
  }

  lemma FoldBlock(t: Transform, st: State, a: seq<byte>, block: Chunk)
    requires |a| % 64 == 0
    ensures Fold(t, st, a + block) == t(Fold(t, st, a), block)
  {
    FoldAppend(t, st, a, block);
    assert block[..64] == block && block[64..] == [];
  }

  lemma PaddedLength(message: seq<byte>)
    ensures |Padded(message)| % 64 == 0
  {
    hide LE64, BitLength;
    var n := |message|;
    assert |Padded(message)| == n + 9 + (55 - n) % 64;
    RoundsUp(n);
  }

  lemma RoundsUp(n: nat)
    ensures (n + 9 + (55 - n) % 64) % 64 == 0
  {
  }

  lemma LE64Injective(v: u64, w: u64)
    requires LE64(v) == LE64(w)
    ensures v == w
  {
    hide LE32, ReadLE32;
    assert LE64(v)[..4] == LE64(w)[..4] && LE64(v)[4..] == LE64(w)[4..];
    LE32Injective(v % 0x1_0000_0000, w % 0x1_0000_0000);
    LE32Injective(v / 0x1_0000_0000, w / 0x1_0000_0000);
  }

  lemma LE32Injective(v: u32, w: u32)
    requires LE32(v) == LE32(w)
    ensures v == w
  {
    HasAtIn([], LE32(v), []);
    Unit(LE32(v));
    ReadLE32At(LE32(v), 0, v);
    ReadLE32At(LE32(w), 0, w);
  }

  /** Padding is unambiguous below 2^61 bytes. */
  lemma PaddedInjective(a: seq<byte>, b: seq<byte>)
    requires |a| < 0x2000_0000_0000_0000 && |b| < 0x2000_0000_0000_0000
    requires Padded(a) == Padded(b)
    ensures a == b
  {
    hide LE64;
    var p := Padded(a);
    assert p[|p| - 8..] == LE64(BitLength(|a|)) && p[|p| - 8..] == LE64(BitLength(|b|));
    LE64Injective(BitLength(|a|), BitLength(|b|));
    assert |a| == |b|;
    assert a == p[..|a|] && b == p[..|b|];
  }

  /** The registers start with the digits counting up and down (section 3.3 of RFC 1321). */
  lemma InitialBytes()
    ensures StateBytes(INITIAL)
         == [0x01, 0x23, 0x45, 0x67, 0x89, 0xAB, 0xCD, 0xEF, 0xFE, 0xDC, 0xBA, 0x98, 0x76, 0x54, 0x32, 0x10]
  {
    assert LE32(0x67452301) == [0x01, 0x23, 0x45, 0x67] && LE32(0xefcdab89) == [0x89, 0xAB, 0xCD, 0xEF];
    assert LE32(0x98badcfe) == [0xFE, 0xDC, 0xBA, 0x98] && LE32(0x10325476) == [0x76, 0x54, 0x32, 0x10];
    hide LE32;
  }

  /**
    The message, the byte 128, the fewest zeros that complete a block, and eight bytes that count
    the message's bits, least significant first.
  */
  lemma PaddedIs(message: seq<byte>)
    ensures
      var p, n := Padded(message), |message|;
      && |p| % 64 == 0 && n + 9 <= |p| < n + 73
      && p[..n] == message && p[n] == 128
      && (forall k :: n < k < |p| - 8 ==> p[k] == 0)
      && ReadLE32(p, |p| - 8) == 8 * n % 0x1_0000_0000_0000_0000 % 0x1_0000_0000
      && ReadLE32(p, |p| - 4) == 8 * n % 0x1_0000_0000_0000_0000 / 0x1_0000_0000
  {
    hide LE32, ReadLE32;
    PaddedLength(message);
    PadFront(message);
    var v := BitLength(|message|);
    var front := message + ([0x80] + Zeros((55 - |message|) % 64));
    LengthField(front, v % 0x1_0000_0000, v / 0x1_0000_0000);
  }

  lemma PadFront(message: seq<byte>)
    ensures
      var front, n := message + ([0x80] + Zeros((55 - |message|) % 64)), |message|;
      && front[..n] == message && front[n] == 128 && |front| < n + 65 && forall k :: n < k < |front| ==> front[k] == 0
  {
  }

  lemma LengthField(front: seq<byte>, low: u32, high: u32)
    ensures
      var p := front + (LE32(low) + LE32(high));
      && |p| == |front| + 8 && p[..|front|] == front
      && ReadLE32(p, |front|) == low && ReadLE32(p, |front| + 4) == high
  {
    hide LE32, ReadLE32;
    Assoc(front, LE32(low), LE32(high));
    HasAtIn(front, LE32(low), LE32(high));
    HasAtIn(front + LE32(low), LE32(high), []);
    Unit(front + LE32(low) + LE32(high));
    ReadLE32At(front + (LE32(low) + LE32(high)), |front|, low);
    ReadLE32At(front + (LE32(low) + LE32(high)), |front| + 4, high);
  }
}
