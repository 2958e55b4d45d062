/**
  SRTP session key derivation (section 4.3 of RFC 3711): labelled counters and a key stream
  produced 32 bytes at a time.
*/
module SrtpKeys {
  import opened Bytes
  import opened SeqFacts
  import opened CounterMode

  /** AES-128: a key and a block to a block. */
  type Aes = (seq<byte>, Block) -> Block

  datatype Master = Master(key: seq<byte>, salt: seq<byte>)

  const LABEL_ENCRYPTION: byte := 0
  const LABEL_AUTHENTICATION: byte := 1
  const LABEL_SALT: byte := 2
  const CHUNK := 32

  predicate ValidMaster(m: Master) {
    |m.key| == 16 && |m.salt| == 14
  }

  /** The label is mixed into byte 7 of the salt; the block counter starts at zero. */
  function KdfCounter(m: Master, tag: byte): Block
    requires ValidMaster(m)
  {
    m.salt[..7] + [XorByte(m.salt[7], tag)] + m.salt[8..] + [0, 0]
  }

  method BuildKdfCounter(m: Master, tag: byte) returns (counter: array<byte>)
    requires ValidMaster(m)
    ensures fresh(counter) && counter[..] == KdfCounter(m, tag)
  {
    counter := new byte[16](i requires 0 <= i < 16 => if i < 14 then m.salt[i] else 0);
    counter[7] := XorByte(counter[7], tag);
    assert counter[..] == KdfCounter(m, tag);
  }

  /** What derivation means: a prefix of the master key's key stream from the label's counter. */
  function Derived(aes: Aes, m: Master, tag: byte, length: nat): (s: seq<byte>)
    requires ValidMaster(m)
    ensures |s| == length
  {
    Keystream((block: Block) => aes(m.key, block), KdfCounter(m, tag), length)
  }

  method AdvanceBlocks(counter: array<byte>, blocks: nat)
    requires counter.Length == 16
    modifies counter
    ensures counter[..] == Advance(old(counter[..]), blocks)
  {
    var b := 0;
    while b < blocks
      invariant 0 <= b <= blocks && counter.Length == 16
      invariant counter[..] == Advance(old(counter[..]), b)
    {
      IncrementCounter(counter);
      b := b + 1;
    }
  }

  /** The chunked path gives the one-shot key stream for every length. */
  method DeriveBytes(aes: Aes, m: Master, tag: byte, length: nat) returns (out: array<byte>)
    requires ValidMaster(m)
    ensures fresh(out) && out[..] == Derived(aes, m, tag, length)
  {
    var cipher := (block: Block) => aes(m.key, block);
    var counter := BuildKdfCounter(m, tag);
    ghost var start: Block := counter[..];
    assert Advance(start, 0) == start && Keystream(cipher, start, 0) == [];
    hide Advance, Keystream, Ctr;
    var zero := new byte[CHUNK](_ => 0);
    out := new byte[length];
    if length <= CHUNK {
      ProduceAll(cipher, counter[..], zero, out);
      return;
    }
    var produced := 0;
    ghost var blocks: nat := 0;
    while produced < length
      invariant 0 <= produced <= length == out.Length && fresh(out) && fresh(counter)
      invariant out != zero && out != counter && zero != counter && counter.Length == 16
      invariant zero[..] == Zeros(CHUNK)
      invariant produced == 16 * blocks || produced == length
      invariant counter[..] == Advance(start, blocks)
      invariant out[..produced] == Keystream(cipher, start, produced)
    {
      var take := length - produced;
      if take > CHUNK {
        take := CHUNK;
      }
      ProduceChunk(cipher, counter, zero, out, produced, take, start, blocks);
      produced := produced + take;
      blocks := blocks + (take + 15) / 16;
    }
    assert out[..] == out[..length];
  }

  /** The short path: all bytes from one call. */
  method ProduceAll(cipher: Cipher, counter: Block, zero: array<byte>, out: array<byte>)
    requires out != zero && out.Length <= zero.Length && zero[..] == Zeros(zero.Length)
    modifies out
    ensures out[..] == Keystream(cipher, counter, out.Length)
  {
    hide Keystream, Ctr;
    assert zero[0..out.Length] == Zeros(out.Length);
    Encrypt(cipher, counter, zero, 0, out, 0, out.Length);
    CtrOfZeros(cipher, counter, out.Length);
    assert out[..] == out[0..out.Length];
  }

  /** One pass of the chunk loop. */
  method ProduceChunk(cipher: Cipher, counter: array<byte>, zero: array<byte>, out: array<byte>,
                      produced: nat, take: nat, ghost start: Block, ghost blocks: nat)
    requires out != zero && out != counter && zero != counter && counter.Length == 16
    requires produced + take <= out.Length && take <= zero.Length && zero[..] == Zeros(zero.Length)
    requires produced == 16 * blocks && counter[..] == Advance(start, blocks)
    requires out[..produced] == Keystream(cipher, start, produced)
    modifies counter, out
    ensures counter[..] == Advance(start, blocks + (take + 15) / 16)
    ensures out[..produced + take] == Keystream(cipher, start, produced + take)
  {
    ghost var done := out[..produced];
    assert zero[0..take] == Zeros(take);
    Encrypt(cipher, counter[..], zero, 0, out, produced, take);
    CtrOfZeros(cipher, Advance(start, blocks), take);
    KeystreamSplit(cipher, start, blocks, take);
    assert out[..produced] == done;
    assert out[..produced + take] == done + out[produced..produced + take];
    var steps := (take + 15) / 16;
    AdvanceAdd(start, blocks, steps);
    AdvanceBlocks(counter, steps);
  }

  /** Masking zeros yields the key stream itself. */
  lemma CtrOfZeros(e: Cipher, counter: Block, n: nat)
    ensures Ctr(e, counter, Zeros(n)) == Keystream(e, counter, n)
  {
    var stream := Keystream(e, counter, n);
    forall k | 0 <= k < n
      ensures XorByte(0, stream[k]) == stream[k]
    {
      XorZero(stream[k]);
    }
  }

  /** Different labels select different counters, so the three session secrets differ in origin. */
  lemma LabelsSeparate(m: Master, a: byte, b: byte)
    requires ValidMaster(m) && KdfCounter(m, a) == KdfCounter(m, b)
    ensures a == b
  {
    assert KdfCounter(m, a)[7] == XorByte(m.salt[7], a);
    assert KdfCounter(m, b)[7] == XorByte(m.salt[7], b);
    XorCancel(a, m.salt[7]);
    XorCancel(b, m.salt[7]);
  }

  /** The label stands at the eighth of the salt's fourteen bytes (section 4.3.1 of RFC 3711). */
  lemma KdfCounterIs(m: Master, tag: byte)
    requires ValidMaster(m)
    ensures KdfCounter(m, tag) == XorBytes(m.salt, [0, 0, 0, 0, 0, 0, 0, tag, 0, 0, 0, 0, 0, 0]) + [0, 0]
  {
    var mask: seq<byte> := [0, 0, 0, 0, 0, 0, 0, tag, 0, 0, 0, 0, 0, 0];
    forall k | 0 <= k < 14 && k != 7
      ensures XorByte(m.salt[k], mask[k]) == m.salt[k]
    {
      XorZero(m.salt[k]);
      XorComm(m.salt[k], 0);
    }
  }

  /** The session keys and the session salt, in the lengths that SRTP uses. */
  method DeriveSessionKeys(aes: Aes, m: Master) returns (encrKey: array<byte>, authKey: array<byte>, salt: array<byte>)
    requires ValidMaster(m)
    ensures encrKey[..] == Derived(aes, m, 0, 16) && authKey[..] == Derived(aes, m, 1, 20)
    ensures salt[..] == Derived(aes, m, 2, 14)
  {
    hide Derived;
    encrKey := DeriveBytes(aes, m, LABEL_ENCRYPTION, 16);
    authKey := DeriveBytes(aes, m, LABEL_AUTHENTICATION, 20);
    salt := DeriveBytes(aes, m, LABEL_SALT, 14);
  }
}
