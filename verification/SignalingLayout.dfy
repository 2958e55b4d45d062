/**
  Signaling packets by their layout: exactly the packets that the other side makes under the
  same key are accepted.
*/
module SignalingLayout {
  import opened Bytes
  import opened SeqFacts
  import opened CounterMode
  import opened SignalingCodec

  /** The side that made the call sends under the slices from byte 128 on, the other from byte 136 on. */
  function SliceStart(senderMadeCall: bool): nat {
    if senderMadeCall then 128 else 136
  }

  /** The middle of the hash of a slice of the shared key and the plaintext. */
  function PacketKey(c: Crypto, sharedKey: seq<byte>, x: nat, plaintext: seq<byte>): Block
    requires |sharedKey| == 256 && x <= 136
  {
    c.sha256(sharedKey[88 + x..120 + x] + plaintext)[8..24]
  }

  function AesKey(c: Crypto, sharedKey: seq<byte>, x: nat, k: Block): (r: seq<byte>)
    requires |sharedKey| == 256 && x <= 136
    ensures |r| == 32
  {
    var a, b := c.sha256(k + sharedKey[x..x + 36]), c.sha256(sharedKey[40 + x..76 + x] + k);
    a[..8] + b[8..24] + a[24..32]
  }

  function AesIv(c: Crypto, sharedKey: seq<byte>, x: nat, k: Block): Block
    requires |sharedKey| == 256 && x <= 136
  {
    var a, b := c.sha256(k + sharedKey[x..x + 36]), c.sha256(sharedKey[40 + x..76 + x] + k);
    b[..4] + a[8..16] + b[24..28]
  }

  /** The packet key and the masked sequence word and body. */
  function PacketBytes(c: Crypto, sharedKey: seq<byte>, senderMadeCall: bool, sequence: u32, body: seq<byte>): seq<byte>
    requires |sharedKey| == 256
  {
    var x := SliceStart(senderMadeCall);
    var k := PacketKey(c, sharedKey, x, BE32(sequence) + body);
    var key := AesKey(c, sharedKey, x, k);
    k + Ctr((block: Block) => c.aes(key, block), AesIv(c, sharedKey, x, k), BE32(sequence) + body)
  }

  lemma SameSlices(c: Crypto, sharedKey: seq<byte>, x: nat, k: Block, plaintext: seq<byte>)
    requires |sharedKey| == 256 && x <= 136
    ensures MessageKey(c, sharedKey, x, plaintext) == PacketKey(c, sharedKey, x, plaintext)
    ensures DeriveKey(c, sharedKey, k, x) == AesKey(c, sharedKey, x, k)
    ensures DeriveIv(c, sharedKey, k, x) == AesIv(c, sharedKey, x, k)
  {
    var a := c.sha256(k + sharedKey[x..x + 36]);
    assert a[24..] == a[24..32] && 88 + x + 32 == 120 + x;
  }

  /** What is sent has this layout; nothing is sent under a key of another size. */
  lemma EncryptedLayout(c: Crypto, sharedKey: seq<byte>, isOutgoing: bool, sequence: u32, body: seq<byte>)
    ensures Encrypted(c, sharedKey, isOutgoing, sequence, body)
         == if |sharedKey| == 256 then PacketBytes(c, sharedKey, isOutgoing, sequence, body) else []
  {
    if |sharedKey| == 256 {
      var x := SliceStart(isOutgoing);
      var k := PacketKey(c, sharedKey, x, BE32(sequence) + body);
      SameSlices(c, sharedKey, x, k, BE32(sequence) + body);
    }
  }

  /**
    A packet is accepted if and only if it is the other side's packet for some sequence word and
    a body of at least 12 bytes, and these are what is read.
  */
  lemma DecryptedIff(c: Crypto, sharedKey: seq<byte>, isOutgoing: bool, bytes: seq<byte>, p: Packet)
    requires |sharedKey| == 256
    ensures Decrypted(c, sharedKey, isOutgoing, bytes) == Some(p)
       <==> |p.plain| >= 12 && bytes == PacketBytes(c, sharedKey, !isOutgoing, p.sequence, p.plain)
  {
    EncryptedLayout(c, sharedKey, !isOutgoing, p.sequence, p.plain);
    DecryptEncrypt(c, sharedKey, !isOutgoing, p.sequence, p.plain);
    if Decrypted(c, sharedKey, isOutgoing, bytes) == Some(p) {
      OpenedIsSealed(c, sharedKey, isOutgoing, bytes, p);
    }
  }

  lemma OpenedIsSealed(c: Crypto, sharedKey: seq<byte>, isOutgoing: bool, bytes: seq<byte>, p: Packet)
    requires |sharedKey| == 256 && Decrypted(c, sharedKey, isOutgoing, bytes) == Some(p)
    ensures |p.plain| >= 12 && bytes == Encrypted(c, sharedKey, !isOutgoing, p.sequence, p.plain)
  {
    hide DeriveKey, DeriveIv, MessageKey, Ctr;
    var x := ReceiveOffset(isOutgoing);
    assert x == SendOffset(!isOutgoing);
    var k := bytes[..16];
    var plaintext := Xcrypt(c, sharedKey, k, x, bytes[16..]);
    var key := DeriveKey(c, sharedKey, k, x);
    CtrInvolution((block: Block) => c.aes(key, block), DeriveIv(c, sharedKey, k, x), bytes[16..]);
    BE32Read32(plaintext, 0);
    SplitAt(plaintext, 4);
    assert plaintext[0..4] == plaintext[..4];
    SplitAt(bytes, 16);
  }
}
