/**
  Relay packets by their layout: what the sender's bytes are, block by block, and that the
  receiver accepts exactly the packets of this layout.
*/
module RelayLayout {
  import opened Bytes
  import opened SeqFacts
  import opened PacketCrypto

  // ---------------------------------------------------------------------------
  // Chaining, block by block
  // ---------------------------------------------------------------------------

  /** Block `i`, where block -1 is the initial one. */
  function BlockAt(initial: Block, data: seq<byte>, i: int): Block
    requires -1 <= i < |data| / 16
  {
    if i < 0 then initial else data[16 * i..16 * i + 16]
  }

  /**
    Infinite garble extension: every ciphertext block is the encryption of the plaintext block
    masked with the ciphertext block before it, masked with the plaintext block before it.
  */
  ghost predicate Chained(c: Crypto, key: seq<byte>, c0: Block, p0: Block, plain: seq<byte>, cipher: seq<byte>) {
    && |plain| == |cipher| && |plain| % 16 == 0
    && forall i :: 0 <= i < |plain| / 16 ==>
         BlockAt(c0, cipher, i)
         == XorBytes(c.encryptBlock(key, XorBytes(BlockAt(p0, plain, i), BlockAt(c0, cipher, i - 1))), BlockAt(p0, plain, i - 1))
  }

  lemma BlockBehind(initial: Block, data: seq<byte>, i: nat)
    requires |data| % 16 == 0 && 0 < i < |data| / 16
    ensures data[16..][16 * (i - 1)..16 * (i - 1) + 16] == data[16 * i..16 * i + 16]
    ensures BlockAt(data[..16], data[16..], i - 1) == BlockAt(initial, data, i)
    ensures BlockAt(data[..16], data[16..], i - 2) == BlockAt(initial, data, i - 1)
  {
    if i > 1 {
      assert data[16..][16 * (i - 2)..16 * (i - 2) + 16] == data[16 * (i - 1)..16 * (i - 1) + 16];
    }
  }

  lemma {:induction false} IgeChains(c: Crypto, key: seq<byte>, c0: Block, p0: Block, plain: seq<byte>)
    requires |plain| % 16 == 0
    ensures Chained(c, key, c0, p0, plain, IgeEncrypted(c, key, c0, p0, plain))
    decreases |plain|
  {
    hide XorBytes;
    if plain != [] {
      var cipher := IgeEncrypted(c, key, c0, p0, plain);
      var block := XorBlock(c.encryptBlock(key, XorBlock(plain[..16], c0)), p0);
      var rest := IgeEncrypted(c, key, block, plain[..16], plain[16..]);
      IgeChains(c, key, block, plain[..16], plain[16..]);
      DropPrefix(block, rest);
      assert cipher[..16] == block && cipher[16..] == rest;
      forall i | 0 <= i < |plain| / 16
        ensures BlockAt(c0, cipher, i)
             == XorBytes(c.encryptBlock(key, XorBytes(BlockAt(p0, plain, i), BlockAt(c0, cipher, i - 1))), BlockAt(p0, plain, i - 1))
      {
        if i > 0 {
          BlockBehind(p0, plain, i);
          BlockBehind(c0, cipher, i);
          assert BlockAt(block, rest, i - 1)
              == XorBytes(c.encryptBlock(key, XorBytes(BlockAt(plain[..16], plain[16..], i - 1), BlockAt(block, rest, i - 2))),
                          BlockAt(plain[..16], plain[16..], i - 2));
        } else {
          assert plain[16 * 0..16 * 0 + 16] == plain[..16];
        }
      }
    }
  }

  // ---------------------------------------------------------------------------
  // Encryption undoes decryption
  // ---------------------------------------------------------------------------

  /** The other direction of the block cipher's law. */
  ghost predicate Onto(c: Crypto) {
    forall key: seq<byte>, block: Block :: c.encryptBlock(key, c.decryptBlock(key, block)) == block
  }

  lemma BlockBack(c: Crypto, key: seq<byte>, prevC: Block, prevP: Block, cipher: Block)
    requires Onto(c)
    ensures
      var block := XorBlock(c.decryptBlock(key, XorBlock(cipher, prevP)), prevC);
      XorBlock(c.encryptBlock(key, XorBlock(block, prevC)), prevP) == cipher
  {
    XorBytesCancel(c.decryptBlock(key, XorBlock(cipher, prevP)), prevC);
    XorBytesCancel(cipher, prevP);
    hide XorBytes;
  }

  lemma {:induction false} IgeBack(c: Crypto, key: seq<byte>, prevC: Block, prevP: Block, data: seq<byte>)
    requires Onto(c) && |data| % 16 == 0
    ensures IgeEncrypted(c, key, prevC, prevP, IgeDecrypted(c, key, prevC, prevP, data)) == data
    decreases |data|
  {
    hide XorBlock, Onto;
    if data != [] {
      var block := XorBlock(c.decryptBlock(key, XorBlock(data[..16], prevP)), prevC);
      var rest := IgeDecrypted(c, key, data[..16], block, data[16..]);
      BlockBack(c, key, prevC, prevP, data[..16]);
      IgeBack(c, key, data[..16], block, data[16..]);
      DropPrefix(block, rest);
      SplitAt(data, 16);
    }
  }

  // ---------------------------------------------------------------------------
  // Layout
  // ---------------------------------------------------------------------------

  /** Length, plaintext and at least 14 more bytes, up to a block boundary. */
  predicate IsInner(inner: seq<byte>, plain: seq<byte>, pad: seq<byte>) {
    && 1 <= |plain| < 0x1_0000 && |pad| >= 14 && |inner| % 16 == 0
    && inner == [|plain| % 256, |plain| / 256] + plain + pad
  }

  /** The side that made the call sends under the front slices of the key, the other one under those 8 bytes on. */
  function Slice8(senderMadeCall: bool): nat {
    if senderMadeCall then 0 else 8
  }

  function PacketKey(c: Crypto, sharedKey: seq<byte>, x: nat, inner: seq<byte>): Block
    requires |sharedKey| == 256 && x <= 8
  {
    c.sha256(sharedKey[88 + x..120 + x] + inner)[8..24]
  }

  function AesKey(c: Crypto, sharedKey: seq<byte>, x: nat, k: Block): (r: seq<byte>)
    requires |sharedKey| == 256 && x <= 8
    ensures |r| == 32
  {
    var a, b := c.sha256(k + sharedKey[x..x + 36]), c.sha256(sharedKey[40 + x..76 + x] + k);
    a[..8] + b[8..24] + a[24..32]
  }

  function AesIv(c: Crypto, sharedKey: seq<byte>, x: nat, k: Block): (r: seq<byte>)
    requires |sharedKey| == 256 && x <= 8
    ensures |r| == 32
  {
    var a, b := c.sha256(k + sharedKey[x..x + 36]), c.sha256(sharedKey[40 + x..76 + x] + k);
    b[..8] + a[8..24] + b[24..32]
  }

  /** The relay's tag, the key made from the plaintext, and the ciphertext. */
  ghost predicate IsRelayPacket(c: Crypto, sharedKey: seq<byte>, senderMadeCall: bool, bytes: seq<byte>,
                                tag: seq<byte>, plain: seq<byte>, inner: seq<byte>, pad: seq<byte>)
  {
    && |sharedKey| == 256 && |tag| == 16 && IsInner(inner, plain, pad)
    && var x := Slice8(senderMadeCall);
       var k := PacketKey(c, sharedKey, x, inner);
       var iv := AesIv(c, sharedKey, x, k);
       bytes == tag + k + IgeEncrypted(c, AesKey(c, sharedKey, x, k), iv[..16], iv[16..], inner)
  }

  /** A packet of the other side with the expected tag; without an expectation any tag will do. */
  ghost predicate IsExpectedPacket(c: Crypto, sharedKey: seq<byte>, localIsOutgoing: bool, expected: seq<byte>,
                                   bytes: seq<byte>, tag: seq<byte>, plain: seq<byte>, inner: seq<byte>, pad: seq<byte>)
  {
    && (expected == [] || expected == tag)
    && IsRelayPacket(c, sharedKey, !localIsOutgoing, bytes, tag, plain, inner, pad)
  }

  lemma SameKeys(c: Crypto, sharedKey: seq<byte>, x: nat, k: Block, inner: seq<byte>)
    requires |sharedKey| == 256 && x <= 8
    ensures MessageKey(c, sharedKey, x, inner) == PacketKey(c, sharedKey, x, inner)
    ensures Kdf2(c, sharedKey, k, x) == Keys(AesKey(c, sharedKey, x, k), AesIv(c, sharedKey, x, k))
  {
    var a, b := c.sha256(k + sharedKey[x..x + 36]), c.sha256(sharedKey[40 + x..76 + x] + k);
    assert a[24..] == a[24..32] && b[24..] == b[24..32];
    assert 88 + x + 32 == 120 + x && 40 + x + 36 == 76 + x;
  }

  /** What is sent has this layout, with 16 to 31 random bytes; nothing is sent for other sizes. */
  lemma EncryptedLayout(c: Crypto, sharedKey: seq<byte>, localIsOutgoing: bool, tag: seq<byte>, plain: seq<byte>,
                        random: nat -> byte)
    ensures
      var bytes := Encrypted(c, sharedKey, localIsOutgoing, tag, plain, random);
      && (bytes.Some? <==> |sharedKey| == 256 && |tag| == 16 && 1 <= |plain| <= 1200)
      && (bytes.Some? ==> exists inner: seq<byte>, pad: seq<byte> ::
            16 <= |pad| <= 31 && IsRelayPacket(c, sharedKey, localIsOutgoing, bytes.value, tag, plain, inner, pad))
  {
    hide IgeEncrypted, MessageKey, Kdf2, PacketKey, AesKey, AesIv;
    if Encryptable(sharedKey, tag, plain) {
      var inner, pad := Inner(plain, random), RandomBytes(random, PadLength(2 + |plain|));
      PaddingBounds(2 + |plain|);
      InnerLength(plain, random);
      var x := Slice8(localIsOutgoing);
      var k := MessageKey(c, sharedKey, x, inner);
      SameKeys(c, sharedKey, x, k, inner);
      assert IsInner(inner, plain, pad);
      assert IsRelayPacket(c, sharedKey, localIsOutgoing,
                           Encrypted(c, sharedKey, localIsOutgoing, tag, plain, random).value, tag, plain, inner, pad);
    }
  }

  lemma UnpackedIff(inner: seq<byte>, plain: seq<byte>)
    requires |inner| % 16 == 0 && |inner| >= 16
    ensures Unpacked(inner) == Some(plain) <==> exists pad: seq<byte> :: IsInner(inner, plain, pad)
  {
    if Unpacked(inner) == Some(plain) {
      var n := |plain|;
      var pad := inner[2 + n..];
      assert [n % 256, n / 256] == inner[..2];
      assert inner == inner[..2] + inner[2..2 + n] + pad;
      assert IsInner(inner, plain, pad);
    }
    forall pad: seq<byte> | IsInner(inner, plain, pad)
      ensures Unpacked(inner) == Some(plain)
    {
      Slice([|plain| % 256, |plain| / 256], plain, pad);
      assert inner[0] == |plain| % 256 && inner[1] == |plain| / 256;
    }
  }

  /**
    The receiver accepts exactly the packets that the other side of the call makes under the same
    key, with the expected tag, and takes their plaintext.
  */
  lemma DecryptedIff(c: Crypto, sharedKey: seq<byte>, localIsOutgoing: bool, expected: seq<byte>, bytes: seq<byte>,
                     plain: seq<byte>)
    requires Inverse(c) && Onto(c)
    ensures Decrypted(c, sharedKey, localIsOutgoing, expected, bytes) == Some(plain)
       <==> exists tag: seq<byte>, inner: seq<byte>, pad: seq<byte> ::
              IsExpectedPacket(c, sharedKey, localIsOutgoing, expected, bytes, tag, plain, inner, pad)
  {
    hide IgeEncrypted, IgeDecrypted, Unpacked, Inverse, Onto, IsInner, MessageKey, PacketKey, Kdf2, AesKey, AesIv;
    if Decrypted(c, sharedKey, localIsOutgoing, expected, bytes) == Some(plain) {
      var tag, k := bytes[..16], bytes[16..32];
      var x := Slice8(!localIsOutgoing);
      var keys := Kdf2(c, sharedKey, k, x);
      var inner := IgeDecrypted(c, keys.key, keys.iv[..16], keys.iv[16..], bytes[32..]);
      SameKeys(c, sharedKey, x, k, inner);
      IgeBack(c, keys.key, keys.iv[..16], keys.iv[16..], bytes[32..]);
      UnpackedIff(inner, plain);
      var pad: seq<byte> :| IsInner(inner, plain, pad);
      assert bytes == tag + k + bytes[32..];
      assert IsExpectedPacket(c, sharedKey, localIsOutgoing, expected, bytes, tag, plain, inner, pad);
    }
    forall tag: seq<byte>, inner: seq<byte>, pad: seq<byte> |
      IsExpectedPacket(c, sharedKey, localIsOutgoing, expected, bytes, tag, plain, inner, pad)
      ensures Decrypted(c, sharedKey, localIsOutgoing, expected, bytes) == Some(plain)
    {
      PacketIsOpened(c, sharedKey, localIsOutgoing, expected, bytes, plain, tag, inner, pad);
    }
  }

  lemma InnerSize(inner: seq<byte>, plain: seq<byte>, pad: seq<byte>)
    requires IsInner(inner, plain, pad)
    ensures |inner| >= 16 && |inner| % 16 == 0
  {
  }

  lemma PacketIsOpened(c: Crypto, sharedKey: seq<byte>, localIsOutgoing: bool, expected: seq<byte>, bytes: seq<byte>,
                       plain: seq<byte>, tag: seq<byte>, inner: seq<byte>, pad: seq<byte>)
    requires Inverse(c) && (expected == [] || expected == tag)
    requires IsRelayPacket(c, sharedKey, !localIsOutgoing, bytes, tag, plain, inner, pad)
    ensures Decrypted(c, sharedKey, localIsOutgoing, expected, bytes) == Some(plain)
  {
    hide IgeEncrypted, IgeDecrypted, Unpacked, Inverse, IsInner, MessageKey, PacketKey, Kdf2, AesKey, AesIv;
    InnerSize(inner, plain, pad);
    var x := Slice8(!localIsOutgoing);
    var k := PacketKey(c, sharedKey, x, inner);
    var iv := AesIv(c, sharedKey, x, k);
    SameKeys(c, sharedKey, x, k, inner);
    var cipher := IgeEncrypted(c, AesKey(c, sharedKey, x, k), iv[..16], iv[16..], inner);
    PacketParts(tag, k, cipher);
    IgeRoundTrip(c, AesKey(c, sharedKey, x, k), iv[..16], iv[16..], inner);
    UnpackedIff(inner, plain);
  }
}
