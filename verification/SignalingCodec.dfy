/**
  Encryption of a signaling packet: a message key taken from the hash of the plaintext, and
  counter mode under a key and counter derived from it. The two directions of a call use
  different slices of the shared key.
*/
module SignalingCodec {
  import opened Bytes
  import opened SeqFacts
  import opened CounterMode

  /** SHA-256 and AES-256 on one block, uninterpreted. */
  datatype Crypto = Crypto(sha256: seq<byte> -> Digest, aes: (seq<byte>, Block) -> Block)

  datatype Packet = Packet(sequence: u32, plain: seq<byte>)

  const SHARED_KEY_BYTES := 256
  const SIGNALING_X := 128

  /** Where in the shared key a direction's slices start. */
  function SendOffset(isOutgoing: bool): nat {
    (if isOutgoing then 0 else 8) + SIGNALING_X
  }

  function ReceiveOffset(isOutgoing: bool): nat {
    (if isOutgoing then 8 else 0) + SIGNALING_X
  }

  function MessageKey(c: Crypto, sharedKey: seq<byte>, x: nat, plaintext: seq<byte>): Block
    requires |sharedKey| == SHARED_KEY_BYTES && 88 + x + 32 <= SHARED_KEY_BYTES
  {
    c.sha256(sharedKey[88 + x..88 + x + 32] + plaintext)[8..24]
  }

  function DeriveKey(c: Crypto, sharedKey: seq<byte>, msgKey: Block, x: nat): (k: seq<byte>)
    requires |sharedKey| == SHARED_KEY_BYTES && 76 + x <= SHARED_KEY_BYTES
    ensures |k| == 32
  {
    var a := c.sha256(msgKey + sharedKey[x..x + 36]);
    var b := c.sha256(sharedKey[40 + x..76 + x] + msgKey);
    a[..8] + b[8..24] + a[24..]
  }

  function DeriveIv(c: Crypto, sharedKey: seq<byte>, msgKey: Block, x: nat): Block
    requires |sharedKey| == SHARED_KEY_BYTES && 76 + x <= SHARED_KEY_BYTES
  {
    var a := c.sha256(msgKey + sharedKey[x..x + 36]);
    var b := c.sha256(sharedKey[40 + x..76 + x] + msgKey);
    b[..4] + a[8..16] + b[24..28]
  }

  function Xcrypt(c: Crypto, sharedKey: seq<byte>, msgKey: Block, x: nat, data: seq<byte>): (r: seq<byte>)
    requires |sharedKey| == SHARED_KEY_BYTES && 76 + x <= SHARED_KEY_BYTES
    ensures |r| == |data|
  {
    var key := DeriveKey(c, sharedKey, msgKey, x);
    Ctr((block: Block) => c.aes(key, block), DeriveIv(c, sharedKey, msgKey, x), data)
  }

  function Encrypted(c: Crypto, sharedKey: seq<byte>, isOutgoing: bool, outerSeq: u32, body: seq<byte>): seq<byte> {
    if |sharedKey| != SHARED_KEY_BYTES then []
    else
      var plaintext := BE32(outerSeq) + body;
      var x := SendOffset(isOutgoing);
      var msgKey := MessageKey(c, sharedKey, x, plaintext);
      msgKey + Xcrypt(c, sharedKey, msgKey, x, plaintext)
  }

  function Decrypted(c: Crypto, sharedKey: seq<byte>, isOutgoing: bool, bytes: seq<byte>): Option<Packet> {
    if |sharedKey| != SHARED_KEY_BYTES || |bytes| < 32 then None
    else
      var msgKey, x := bytes[..16], ReceiveOffset(isOutgoing);
      var plaintext := Xcrypt(c, sharedKey, msgKey, x, bytes[16..]);
      if msgKey != MessageKey(c, sharedKey, x, plaintext) then None
      else Some(Packet(Read32(plaintext, 0), plaintext[4..]))
  }

  // ---------------------------------------------------------------------------
  // The code
  // ---------------------------------------------------------------------------

  /** Counter blocks are encrypted one by one and masked over the input. */
  method AesCtrXcrypt(e: Cipher, iv: Block, input: seq<byte>) returns (out: seq<byte>)
    ensures out == Ctr(e, iv, input)
  {
    var counter := new byte[16](i requires 0 <= i < 16 => iv[i]);
    assert counter[..] == iv;
    out := [];
    var offset := 0;
    ghost var blocks: nat := 0;
    while offset < |input|
      invariant 0 <= offset <= |input|
      invariant offset == 16 * blocks || offset == |input|
      invariant counter.Length == 16 && counter[..] == Advance(iv, blocks)
      invariant out == Ctr(e, iv, input[..offset])
    {
      var keystream := e(counter[..]);
      var take := |input| - offset;
      if take > 16 {
        take := 16;
      }
      CtrAppend(e, iv, input, blocks, take);
      out := out + XorBytes(input[offset..offset + take], keystream[..take]);
      offset := offset + take;
      IncrementCounter(counter);
      blocks := blocks + 1;
    }
    assert input[..offset] == input;
  }

  lemma CtrAppend(e: Cipher, iv: Block, input: seq<byte>, blocks: nat, take: nat)
    requires take <= 16 && 16 * blocks + take <= |input|
    ensures
      var at := 16 * blocks;
      Ctr(e, iv, input[..at + take])
      == Ctr(e, iv, input[..at]) + XorBytes(input[at..at + take], e(Advance(iv, blocks))[..take])
  {
    var at := 16 * blocks;
    KeystreamSplit(e, iv, blocks, take);
    assert Keystream(e, Advance(iv, blocks), take) == e(Advance(iv, blocks))[..take] by {
      FirstBlock(e, Advance(iv, blocks), take);
    }
  }

  lemma FirstBlock(e: Cipher, c: Block, take: nat)
    requires take <= 16
    ensures Keystream(e, c, take) == e(c)[..take]
  {
    forall k | 0 <= k < take
      ensures Keystream(e, c, take)[k] == e(c)[k]
    {
      assert Advance(c, 0) == c && k / 16 == 0;
    }
  }

  method Encrypt(c: Crypto, sharedKey: seq<byte>, isOutgoing: bool, outerSeq: u32, body: seq<byte>)
    returns (result: seq<byte>)
    ensures result == Encrypted(c, sharedKey, isOutgoing, outerSeq, body)
  {
    if |sharedKey| != SHARED_KEY_BYTES {
      return [];
    }
    var plaintext := BE32(outerSeq) + body;
    var x := SendOffset(isOutgoing);
    var msgKey := c.sha256(sharedKey[88 + x..88 + x + 32] + plaintext)[8..24];
    var key, iv := DeriveKey(c, sharedKey, msgKey, x), DeriveIv(c, sharedKey, msgKey, x);
    var encrypted := AesCtrXcrypt((block: Block) => c.aes(key, block), iv, plaintext);
    result := msgKey + encrypted;
  }

  method Decrypt(c: Crypto, sharedKey: seq<byte>, isOutgoing: bool, bytes: seq<byte>)
    returns (result: Option<Packet>)
    ensures result == Decrypted(c, sharedKey, isOutgoing, bytes)
  {
    if |sharedKey| != SHARED_KEY_BYTES || |bytes| < 32 {
      return None;
    }
    var msgKey, x := bytes[..16], ReceiveOffset(isOutgoing);
    var key, iv := DeriveKey(c, sharedKey, msgKey, x), DeriveIv(c, sharedKey, msgKey, x);
    var decrypted := AesCtrXcrypt((block: Block) => c.aes(key, block), iv, bytes[16..]);
    if msgKey != c.sha256(sharedKey[88 + x..88 + x + 32] + decrypted)[8..24] {
      return None;
    }
    result := Some(Packet(Read32(decrypted, 0), decrypted[4..]));
  }

  // ---------------------------------------------------------------------------
  // Round trip
  // ---------------------------------------------------------------------------

  /**
    The peer, whose direction flag is the opposite one, decrypts every packet to the same
    sequence word and body, except that a body of fewer than 12 bytes makes a packet
    shorter than the 32 bytes the receiver insists on.
  */
  lemma DecryptEncrypt(c: Crypto, sharedKey: seq<byte>, isOutgoing: bool, outerSeq: u32, body: seq<byte>)
    requires |sharedKey| == SHARED_KEY_BYTES
    ensures
      Decrypted(c, sharedKey, !isOutgoing, Encrypted(c, sharedKey, isOutgoing, outerSeq, body))
      == if |body| < 12 then None else Some(Packet(outerSeq, body))
  {
    var plaintext := BE32(outerSeq) + body;
    var x := SendOffset(isOutgoing);
    assert x == ReceiveOffset(!isOutgoing);
    var msgKey := MessageKey(c, sharedKey, x, plaintext);
    var ciphertext := Xcrypt(c, sharedKey, msgKey, x, plaintext);
    DropPrefix(msgKey, ciphertext);
    var key := DeriveKey(c, sharedKey, msgKey, x);
    CtrInvolution((block: Block) => c.aes(key, block), DeriveIv(c, sharedKey, msgKey, x), plaintext);
    DropPrefix(BE32(outerSeq), body);
    HasAtIn([], BE32(outerSeq), body);
    assert [] + BE32(outerSeq) + body == plaintext;
    Read32At(plaintext, 0, outerSeq);
  }
}
