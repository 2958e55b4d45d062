/** The streaming context, and the long-term credential key computed with it. */
module Md5Context {
  import opened Bytes
  import opened SeqFacts
  import opened Md5

  class Md5Ctx {
    const transform: Transform
    const buffer: array<byte>
    var state: State
    var bitCount: u64
    /** Everything given to `Update` so far. */
    ghost var absorbed: seq<byte>

    ghost predicate Valid()
      reads this, buffer
    {
      && buffer.Length == 64
      && bitCount == BitLength(|absorbed|)
      && state == Fold(transform, INITIAL, absorbed)
      && buffer[..|absorbed| % 64] == absorbed[|absorbed| - |absorbed| % 64..]
    }

    constructor (transform: Transform)
      ensures Valid() && absorbed == [] && this.transform == transform && fresh(buffer)
    {
      this.transform := transform;
      buffer := new byte[64](_ => 0);
      state := INITIAL;
      bitCount := 0;
      absorbed := [];
    }

    method Copy(at: nat, s: seq<byte>)
      requires at + |s| <= buffer.Length
      modifies buffer
      ensures buffer[..at + |s|] == old(buffer[..at]) + s
    {
      forall k | 0 <= k < |s| {
        buffer[at + k] := s[k];
      }
    }

    /** Complete the buffered block and compress whole blocks; `i` bytes are used up. */
    method Compress(data: seq<byte>, bufferIndex: nat) returns (i: nat)
      requires Valid() && bufferIndex == |absorbed| % 64 && |data| >= 64 - bufferIndex
      modifies this`state, buffer
      ensures i <= |data| < i + 64 && (|absorbed| + i) % 64 == 0
      ensures state == Fold(transform, INITIAL, absorbed + data[..i])
    {
      hide Fold, BitLength;
      var partLen := 64 - bufferIndex;
      ghost var cut := |absorbed| - bufferIndex;
      Copy(bufferIndex, data[..partLen]);
      SplitAt(absorbed, cut);
      CompleteBlock(transform, absorbed[..cut], absorbed[cut..], data[..partLen]);
      assert buffer[..] == buffer[..64];
      state := transform(state, buffer[..]);
      i := partLen;
      while i + 63 < |data|
        invariant partLen <= i <= |data| && (|absorbed| + i) % 64 == 0
        invariant state == Fold(transform, INITIAL, absorbed + data[..i])
      {
        NextBlock(transform, absorbed, data, i);
        state := transform(state, data[i..i + 64]);
        i := i + 64;
      }
    }

    /** Whatever the pieces, the context stands for their concatenation. */
    method Update(data: seq<byte>)
      requires Valid()
      modifies this`state, this`bitCount, this`absorbed, buffer
      ensures Valid() && absorbed == old(absorbed) + data
    {
      hide Fold, BitLength;
      ghost var was := absorbed;
      CountedBytes(|was|, |data|);
      var bufferIndex := bitCount / 8 % 64;
      var i := 0;
      if |data| >= 64 - bufferIndex {
        i := Compress(data, bufferIndex);
        bufferIndex := 0;
        Leftover(transform, was, data, i);
      } else {
        ShortPiece(transform, was, data);
      }
      bitCount := (bitCount + 8 * |data|) % 0x1_0000_0000_0000_0000;
      if i < |data| {
        Copy(bufferIndex, data[i..]);
      }
      absorbed := was + data;
    }

    method Final() returns (digest: seq<byte>)
      requires Valid()
      modifies this`state, this`bitCount, this`absorbed, buffer
      ensures digest == MD5(transform, old(absorbed))
    {
      hide Fold, LE64, BitLength;
      ghost var message := absorbed;
      var bits := LE64(bitCount);
      CountedBytes(|message|, 0);
      var index := bitCount / 8 % 64;
      var padLen := if index < 56 then 56 - index else 120 - index;
      PadLength(|message|, padLen);
      Update([0x80] + Zeros(padLen - 1));
      Update(bits);
      digest := StateBytes(state);
    }
  }

  lemma CountedBytes(n: nat, more: nat)
    ensures BitLength(n) / 8 % 64 == n % 64
    ensures (BitLength(n) + 8 * more) % 0x1_0000_0000_0000_0000 == BitLength(n + more)
  {
    CountedIndex(n);
    WrapAdd(8 * n, 8 * more);
    hide BitLength;
    assert 8 * (n + more) == 8 * n + 8 * more;
    BitLengthIs(n);
    BitLengthIs(n + more);
  }

  lemma BitLengthIs(n: nat)
    ensures BitLength(n) == 8 * n % 0x1_0000_0000_0000_0000
  {
  }

  lemma WrapAdd(x: nat, y: nat)
    ensures (x % 0x1_0000_0000_0000_0000 + y) % 0x1_0000_0000_0000_0000 == (x + y) % 0x1_0000_0000_0000_0000
  {
  }

  lemma CountedIndex(n: nat)
    ensures BitLength(n) / 8 % 64 == n % 64
  {
    var q := 8 * n / 0x1_0000_0000_0000_0000;
    assert BitLength(n) / 8 == n - 64 * (0x80_0000_0000_0000 * q);
    hide BitLength;
    LessMultiple(n, 0x80_0000_0000_0000 * q);
  }

  lemma LessMultiple(n: nat, k: nat)
    requires n >= 64 * k
    ensures (n - 64 * k) % 64 == n % 64
  {
  }

  lemma PadLength(n: nat, padLen: nat)
    requires padLen == if n % 64 < 56 then 56 - n % 64 else 120 - n % 64
    ensures padLen - 1 == (55 - n) % 64
  {
  }

  /** The buffered tail and the first bytes of the data make up one block. */
  lemma CompleteBlock(t: Transform, blocks: seq<byte>, tail: seq<byte>, more: seq<byte>)
    requires |blocks| % 64 == 0 && |tail| + |more| == 64 && more != []
    ensures Fold(t, INITIAL, blocks + tail + more) == t(Fold(t, INITIAL, blocks + tail), tail + more)
  {
    hide Fold;
    FoldTail(t, INITIAL, blocks, tail);
    FoldBlock(t, INITIAL, blocks, tail + more);
    Assoc(blocks, tail, more);
  }

  lemma NextBlock(t: Transform, was: seq<byte>, data: seq<byte>, i: nat)
    requires i + 64 <= |data| && (|was| + i) % 64 == 0
    ensures Fold(t, INITIAL, was + data[..i + 64]) == t(Fold(t, INITIAL, was + data[..i]), data[i..i + 64])
  {
    hide Fold;
    FoldBlock(t, INITIAL, was + data[..i], data[i..i + 64]);
    assert data[..i + 64] == data[..i] + data[i..i + 64];
    Assoc(was, data[..i], data[i..i + 64]);
  }

  lemma Leftover(t: Transform, was: seq<byte>, data: seq<byte>, i: nat)
    requires i <= |data| < i + 64 && (|was| + i) % 64 == 0
    ensures
      var all := was + data;
      && Fold(t, INITIAL, all) == Fold(t, INITIAL, was + data[..i])
      && |all| % 64 == |data| - i && all[|all| - |all| % 64..] == data[i..]
  {
    hide Fold;
    SplitAt(data, i);
    Assoc(was, data[..i], data[i..]);
    FoldTail(t, INITIAL, was + data[..i], data[i..]);
    DropPrefix(was + data[..i], data[i..]);
  }

  lemma ShortPiece(t: Transform, was: seq<byte>, data: seq<byte>)
    requires |was| % 64 + |data| < 64
    ensures
      var all := was + data;
      && Fold(t, INITIAL, all) == Fold(t, INITIAL, was)
      && |all| % 64 == |was| % 64 + |data|
      && all[|all| - |all| % 64..] == was[|was| - |was| % 64..] + data
  {
    hide Fold;
    var cut := |was| - |was| % 64;
    SplitAt(was, cut);
    FoldTail(t, INITIAL, was[..cut], was[cut..]);
    FoldTail(t, INITIAL, was[..cut], was[cut..] + data);
    Assoc(was[..cut], was[cut..], data);
    DropPrefix(was[..cut], was[cut..] + data);
  }

  /** Section 15.4 of RFC 5389: the digest of `username:realm:password`. */
  method DeriveLongTermKey(t: Transform, username: seq<byte>, realm: seq<byte>, password: seq<byte>)
    returns (key: seq<byte>)
    ensures key == MD5(t, username + [0x3A] + realm + [0x3A] + password)
  {
    hide MD5, Fold, BitLength;
    var ctx := new Md5Ctx(t);
    Unit([0x3A]);
    Unit(username + [0x3A]);
    Unit(username + [0x3A] + realm + [0x3A]);
    if username != [] {
      ctx.Update(username);
      Unit(username);
    }
    ctx.Update([0x3A]);
    if realm != [] {
      ctx.Update(realm);
    }
    ctx.Update([0x3A]);
    if password != [] {
      ctx.Update(password);
    }
    key := ctx.Final();
  }
}
