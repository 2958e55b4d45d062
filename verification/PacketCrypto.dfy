/**
  Relay packets: AES in infinite garble extension mode over an abstract block cipher, keys
  derived from a hash of the padded plaintext, and one key slice per direction.
*/
module PacketCrypto {
  import opened Bytes
  import opened SeqFacts

  /** SHA-256 and AES-256 on one block in both directions, uninterpreted. */
  datatype Crypto = Crypto(
    sha256: seq<byte> -> Digest,
    encryptBlock: (seq<byte>, Block) -> Block,
    decryptBlock: (seq<byte>, Block) -> Block)

  /** The one law needed of the block cipher. */
  ghost predicate Inverse(c: Crypto) {
    forall key: seq<byte>, block: Block :: c.decryptBlock(key, c.encryptBlock(key, block)) == block
  }

  const SHARED_KEY_BYTES := 256
  const PEER_TAG_BYTES := 16
  const MAX_PLAIN_BYTES := 1200

  // ---------------------------------------------------------------------------
  // Chaining
  // ---------------------------------------------------------------------------

  function XorBlock(a: Block, b: Block): Block {
    XorBytes(a, b)
  }

  /** Each block is masked with the previous ciphertext before and the previous plaintext after. */
  function IgeEncrypted(c: Crypto, key: seq<byte>, prevC: Block, prevP: Block, data: seq<byte>): (r: seq<byte>)
    requires |data| % 16 == 0
    ensures |r| == |data|
    decreases |data|
  {
    if data == [] then []
    else
      var block := XorBlock(c.encryptBlock(key, XorBlock(data[..16], prevC)), prevP);
      block + IgeEncrypted(c, key, block, data[..16], data[16..])
  }

  function IgeDecrypted(c: Crypto, key: seq<byte>, prevC: Block, prevP: Block, data: seq<byte>): (r: seq<byte>)
    requires |data| % 16 == 0
    ensures |r| == |data|
    decreases |data|
  {
    if data == [] then []
    else
      var block := XorBlock(c.decryptBlock(key, XorBlock(data[..16], prevP)), prevC);
      block + IgeDecrypted(c, key, data[..16], block, data[16..])
  }

  lemma BlockRoundTrip(c: Crypto, key: seq<byte>, prevC: Block, prevP: Block, block: Block)
    requires Inverse(c)
    ensures
      var cipher := XorBlock(c.encryptBlock(key, XorBlock(block, prevC)), prevP);
      XorBlock(c.decryptBlock(key, XorBlock(cipher, prevP)), prevC) == block
  {
    XorBytesCancel(c.encryptBlock(key, XorBlock(block, prevC)), prevP);
    XorBytesCancel(block, prevC);
    hide XorBytes;
  }

  /** Decryption undoes encryption for every block-aligned text. */
  lemma {:induction false} IgeRoundTrip(c: Crypto, key: seq<byte>, prevC: Block, prevP: Block, data: seq<byte>)
    requires Inverse(c) && |data| % 16 == 0
    ensures IgeDecrypted(c, key, prevC, prevP, IgeEncrypted(c, key, prevC, prevP, data)) == data
    decreases |data|
  {
    hide XorBlock, Inverse;
    if data != [] {
      var block := XorBlock(c.encryptBlock(key, XorBlock(data[..16], prevC)), prevP);
      BlockRoundTrip(c, key, prevC, prevP, data[..16]);
      DropPrefix(block, IgeEncrypted(c, key, block, data[..16], data[16..]));
      IgeRoundTrip(c, key, block, data[..16], data[16..]);
      SplitAt(data, 16);
    }
  }

  /** The loop over blocks, writing into `out`. */
  method EncryptIge(c: Crypto, key: seq<byte>, iv: seq<byte>, input: seq<byte>, out: array<byte>) returns (ok: bool)
    requires |iv| == 32 && out.Length == |input|
    modifies out
    ensures ok <==> input != [] && |input| % 16 == 0
    ensures ok ==> out[..] == IgeEncrypted(c, key, iv[..16], iv[16..], input)
  {
    hide XorBlock;
    if |input| == 0 || |input| % 16 != 0 {
      return false;
    }
    var prevC: Block, prevP: Block := iv[..16], iv[16..];
    var b := 0;
    assert input[0..] == input;
    ghost var goal := IgeEncrypted(c, key, prevC, prevP, input);
    while 16 * b < |input|
      invariant 16 * b <= |input|
      invariant goal == out[..16 * b] + IgeEncrypted(c, key, prevC, prevP, input[16 * b..])
    {
      var curP: Block := input[16 * b..16 * b + 16];
      var block := XorBlock(c.encryptBlock(key, XorBlock(curP, prevC)), prevP);
      assert input[16 * b..][..16] == curP;
      DropDrop(input, 16 * b, 16);
      Assoc(out[..16 * b], block, IgeEncrypted(c, key, block, curP, input[16 * b + 16..]));
      WriteBlock(out, 16 * b, block);
      prevC := block;
      prevP := curP;
      b := b + 1;
    }
    ok := true;
    assert input[16 * b..] == [] && out[..16 * b] == out[..];
    Unit(out[..]);
  }

  method DecryptIge(c: Crypto, key: seq<byte>, iv: seq<byte>, input: seq<byte>, out: array<byte>) returns (ok: bool)
    requires |iv| == 32 && out.Length == |input|
    modifies out
    ensures ok <==> input != [] && |input| % 16 == 0
    ensures ok ==> out[..] == IgeDecrypted(c, key, iv[..16], iv[16..], input)
  {
    hide XorBlock;
    if |input| == 0 || |input| % 16 != 0 {
      return false;
    }
    var prevC: Block, prevP: Block := iv[..16], iv[16..];
    var b := 0;
    assert input[0..] == input;
    ghost var goal := IgeDecrypted(c, key, prevC, prevP, input);
    while 16 * b < |input|
      invariant 16 * b <= |input|
      invariant goal == out[..16 * b] + IgeDecrypted(c, key, prevC, prevP, input[16 * b..])
    {
      var curC: Block := input[16 * b..16 * b + 16];
      var block := XorBlock(c.decryptBlock(key, XorBlock(curC, prevP)), prevC);
      assert input[16 * b..][..16] == curC;
      DropDrop(input, 16 * b, 16);
      Assoc(out[..16 * b], block, IgeDecrypted(c, key, curC, block, input[16 * b + 16..]));
      WriteBlock(out, 16 * b, block);
      prevC := curC;
      prevP := block;
      b := b + 1;
    }
    ok := true;
    assert input[16 * b..] == [] && out[..16 * b] == out[..];
    Unit(out[..]);
  }

  method WriteBlock(out: array<byte>, at: nat, block: Block)
    requires at + 16 <= out.Length
    modifies out
    ensures out[..at + 16] == old(out[..at]) + block
  {
    forall k | 0 <= k < 16 {
      out[at + k] := block[k];
    }
  }

  // ---------------------------------------------------------------------------
  // Packets
  // ---------------------------------------------------------------------------

  /** The caller and the callee send under different slices of the shared key. */
  function DirectionOffset(localIsOutgoing: bool, sending: bool): nat {
    if sending == localIsOutgoing then 0 else 8
  }

  datatype Keys = Keys(key: seq<byte>, iv: seq<byte>)

  function Kdf2(c: Crypto, sharedKey: seq<byte>, msgKey: Block, x: nat): (k: Keys)
    requires |sharedKey| == SHARED_KEY_BYTES && x <= 8
    ensures |k.key| == 32 && |k.iv| == 32
  {
    var a := c.sha256(msgKey + sharedKey[x..x + 36]);
    var b := c.sha256(sharedKey[40 + x..40 + x + 36] + msgKey);
    Keys(a[..8] + b[8..24] + a[24..], b[..8] + a[8..24] + b[24..])
  }

  function MessageKey(c: Crypto, sharedKey: seq<byte>, x: nat, inner: seq<byte>): Block
    requires |sharedKey| == SHARED_KEY_BYTES && x <= 8
  {
    c.sha256(sharedKey[88 + x..88 + x + 32] + inner)[8..24]
  }

  /** How much random padding follows `n` bytes. */
  function PadLength(n: nat): nat {
    var padLen := 16 - n % 16;
    if padLen < 16 then padLen + 16 else padLen
  }

  /** Padding is 16 to 31 bytes and ends on a block boundary. */
  lemma PaddingBounds(n: nat)
    ensures 16 <= PadLength(n) <= 31 && (n + PadLength(n)) % 16 == 0
  {
  }

  function RandomBytes(random: nat -> byte, n: nat): (r: seq<byte>)
    ensures |r| == n
  {
    seq(n, i requires 0 <= i => random(i))
  }

  /** Length, plaintext and padding. */
  function Inner(plain: seq<byte>, random: nat -> byte): seq<byte> {
    LE16(|plain| % 0x1_0000) + plain + RandomBytes(random, PadLength(2 + |plain|))
  }

  predicate Encryptable(sharedKey: seq<byte>, peerTag: seq<byte>, plain: seq<byte>) {
    |sharedKey| == SHARED_KEY_BYTES && |peerTag| == PEER_TAG_BYTES && 1 <= |plain| <= MAX_PLAIN_BYTES
  }

  function Encrypted(c: Crypto, sharedKey: seq<byte>, localIsOutgoing: bool, peerTag: seq<byte>,
                     plain: seq<byte>, random: nat -> byte): Option<seq<byte>> {
    if !Encryptable(sharedKey, peerTag, plain) then None
    else
      var inner := Inner(plain, random);
      var x := DirectionOffset(localIsOutgoing, true);
      var msgKey := MessageKey(c, sharedKey, x, inner);
      var keys := Kdf2(c, sharedKey, msgKey, x);
      PaddingBounds(2 + |plain|);
      Some(peerTag + msgKey + IgeEncrypted(c, keys.key, keys.iv[..16], keys.iv[16..], inner))
  }

  /** An empty expectation accepts every tag. */
  predicate SamePeerTag(bytes: seq<byte>, expected: seq<byte>)
    requires |bytes| >= PEER_TAG_BYTES
  {
    expected == [] || bytes[..PEER_TAG_BYTES] == expected
  }

  function Unpacked(decrypted: seq<byte>): Option<seq<byte>>
    requires |decrypted| >= 2
  {
    var plainLen := ReadLE16(decrypted, 0);
    if plainLen == 0 || plainLen > |decrypted| - 2 || |decrypted| - plainLen < 16 then None
    else Some(decrypted[2..2 + plainLen])
  }

  function Decrypted(c: Crypto, sharedKey: seq<byte>, localIsOutgoing: bool, expectedPeerTag: seq<byte>,
                     bytes: seq<byte>): Option<seq<byte>> {
    if |sharedKey| != SHARED_KEY_BYTES || |bytes| < 48 || !SamePeerTag(bytes, expectedPeerTag)
       || (|bytes| - 32) % 16 != 0 then None
    else
      var msgKey: Block := bytes[16..32];
      var x := DirectionOffset(localIsOutgoing, false);
      var keys := Kdf2(c, sharedKey, msgKey, x);
      var decrypted := IgeDecrypted(c, keys.key, keys.iv[..16], keys.iv[16..], bytes[32..]);
      if msgKey != MessageKey(c, sharedKey, x, decrypted) then None else Unpacked(decrypted)
  }

  method EncryptRelayPacket(c: Crypto, sharedKey: seq<byte>, localIsOutgoing: bool, peerTag: seq<byte>,
                            plain: seq<byte>, random: nat -> byte) returns (r: Option<seq<byte>>)
    ensures r == Encrypted(c, sharedKey, localIsOutgoing, peerTag, plain, random)
  {
    hide IgeEncrypted, LE16;
    if |sharedKey| != SHARED_KEY_BYTES || |peerTag| != PEER_TAG_BYTES {
      return None;
    }
    if plain == [] || |plain| > MAX_PLAIN_BYTES {
      return None;
    }
    var inner := LE16(|plain| % 0x1_0000) + plain;
    var padLen := 16 - |inner| % 16;
    if padLen < 16 {
      padLen := padLen + 16;
    }
    PaddingBounds(|inner|);
    inner := inner + RandomBytes(random, padLen);
    var x := DirectionOffset(localIsOutgoing, true);
    var msgKey := MessageKey(c, sharedKey, x, inner);
    var keys := Kdf2(c, sharedKey, msgKey, x);
    var encrypted := new byte[|inner|](_ => 0);
    var ok := EncryptIge(c, keys.key, keys.iv, inner, encrypted);
    if !ok {
      return None;
    }
    r := Some(peerTag + msgKey + encrypted[..]);
  }

  method DecryptRelayPacket(c: Crypto, sharedKey: seq<byte>, localIsOutgoing: bool, expectedPeerTag: seq<byte>,
                            bytes: seq<byte>) returns (r: Option<seq<byte>>)
    ensures r == Decrypted(c, sharedKey, localIsOutgoing, expectedPeerTag, bytes)
  {
    hide IgeDecrypted, Unpacked;
    if |sharedKey| != SHARED_KEY_BYTES {
      return None;
    }
    if |bytes| < 48 {
      return None;
    }
    if expectedPeerTag != [] && !SamePeerTag(bytes, expectedPeerTag) {
      return None;
    }
    if (|bytes| - 32) % 16 != 0 {
      return None;
    }
    var msgKey: Block := bytes[16..32];
    var x := DirectionOffset(localIsOutgoing, false);
    var keys := Kdf2(c, sharedKey, msgKey, x);
    var decrypted := new byte[|bytes| - 32](_ => 0);
    var ok := DecryptIge(c, keys.key, keys.iv, bytes[32..], decrypted);
    if !ok {
      return None;
    }
    if msgKey != MessageKey(c, sharedKey, x, decrypted[..]) {
      return None;
    }
    r := Unpacked(decrypted[..]);
  }

  // ---------------------------------------------------------------------------
  // Round trip
  // ---------------------------------------------------------------------------

  lemma UnpackInner(plain: seq<byte>, random: nat -> byte)
    requires 1 <= |plain| <= MAX_PLAIN_BYTES
    ensures Unpacked(Inner(plain, random)) == Some(plain)
  {
    hide LE16, ReadLE16;
    var l, pad := LE16(|plain|), RandomBytes(random, PadLength(2 + |plain|));
    PaddingBounds(2 + |plain|);
    Slice(l, plain, pad);
    Assoc(l, plain, pad);
    HasAtIn([], l, plain + pad);
    assert [] + l + (plain + pad) == Inner(plain, random);
    ReadLE16At(Inner(plain, random), 0, |plain|);
  }

  lemma PacketParts(peerTag: seq<byte>, msgKey: Block, ciphertext: seq<byte>)
    requires |peerTag| == PEER_TAG_BYTES
    ensures
      var bytes := peerTag + msgKey + ciphertext;
      bytes[..16] == peerTag && bytes[16..32] == msgKey && bytes[32..] == ciphertext
  {
  }

  /**
    The peer recovers every plaintext of 1 to 1200 bytes, whatever the padding, exactly if
    it expects this packet's tag or none.
  */
  lemma DecryptEncrypt(c: Crypto, sharedKey: seq<byte>, localIsOutgoing: bool, peerTag: seq<byte>,
                       plain: seq<byte>, random: nat -> byte, expectedPeerTag: seq<byte>)
    requires Inverse(c) && Encryptable(sharedKey, peerTag, plain)
    ensures
      var bytes := Encrypted(c, sharedKey, localIsOutgoing, peerTag, plain, random);
      bytes.Some? && Decrypted(c, sharedKey, !localIsOutgoing, expectedPeerTag, bytes.value)
                     == if expectedPeerTag == [] || expectedPeerTag == peerTag then Some(plain) else None
  {
    hide IgeEncrypted, IgeDecrypted, Inner, Unpacked, Inverse, Kdf2, MessageKey;
    var inner := Inner(plain, random);
    InnerLength(plain, random);
    var x := DirectionOffset(localIsOutgoing, true);
    var msgKey := MessageKey(c, sharedKey, x, inner);
    var keys := Kdf2(c, sharedKey, msgKey, x);
    PacketParts(peerTag, msgKey, IgeEncrypted(c, keys.key, keys.iv[..16], keys.iv[16..], inner));
    IgeRoundTrip(c, keys.key, keys.iv[..16], keys.iv[16..], inner);
    UnpackInner(plain, random);
  }

  lemma InnerLength(plain: seq<byte>, random: nat -> byte)
    ensures |Inner(plain, random)| == 2 + |plain| + PadLength(2 + |plain|)
    ensures |Inner(plain, random)| % 16 == 0 && |Inner(plain, random)| >= 18 + |plain|
  {
    PaddingBounds(2 + |plain|);
  }
}
