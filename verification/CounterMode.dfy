/**
  Counter mode over an abstract block cipher: the ripple-carry counter, the key stream it
  selects, and the encryption loop, which also works in place.
*/
module CounterMode {
  import opened Bytes
  import opened SeqFacts

  /** A block cipher under a fixed key. */
  type Cipher = Block -> Block

  // ---------------------------------------------------------------------------
  // The counter
  // ---------------------------------------------------------------------------

  /** Add one, carrying from the last byte towards the first. */
  function Increment(s: seq<byte>): (r: seq<byte>)
    ensures |r| == |s|
  {
    if s == [] then []
    else if s[|s| - 1] < 0xFF then s[..|s| - 1] + [s[|s| - 1] + 1]
    else Increment(s[..|s| - 1]) + [0]
  }

  function Advance(c: Block, k: nat): Block {
    if k == 0 then c else Increment(Advance(c, k - 1))
  }

  /** The counter is a big-endian integer modulo 256^n. */
  lemma {:induction false} IncrementValue(s: seq<byte>)
    ensures FromBE(Increment(s)) == if FromBE(s) + 1 == Pow256(|s|) then 0 else FromBE(s) + 1
  {
    FromBEBound(s);
    if s != [] {
      var front, last := s[..|s| - 1], s[|s| - 1];
      FromBEBound(front);
      if last < 0xFF {
        Snoc(front, last + 1);
      } else {
        IncrementValue(front);
        Snoc(Increment(front), 0);
      }
    }
  }

  lemma {:induction false} AdvanceModulo(c: Block, v: nat, k: nat, m: nat)
    requires m == Pow256(|c|) && v == FromBE(c) && v < m
    ensures FromBE(Advance(c, k)) == (v + k) % m
  {
    hide FromBE, Increment, Pow256;
    if k == 0 {
      SmallModulo(v, m);
    } else {
      AdvanceModulo(c, v, k - 1, m);
      IncrementModulo(Advance(c, k - 1), v + (k - 1), m);
    }
  }

  /** `k` steps on, the counter is `k` larger modulo 2^128. */
  lemma AdvanceValue(c: Block, k: nat)
    ensures FromBE(Advance(c, k)) == (FromBE(c) + k) % Pow256(|c|)
  {
    hide FromBE, Pow256, Advance;
    FromBEBound(c);
    AdvanceModulo(c, FromBE(c), k, Pow256(|c|));
  }

  lemma IncrementModulo(s: seq<byte>, x: nat, m: nat)
    requires m == Pow256(|s|) && FromBE(s) == x % m
    ensures FromBE(Increment(s)) == (x + 1) % m
  {
    IncrementValue(s);
    StepModulo(x, m);
  }

  lemma SmallModulo(x: nat, m: nat)
    requires x < m
    ensures x % m == x
  {
  }

  lemma StepModulo(x: nat, m: nat)
    requires m > 0
    ensures (x + 1) % m == if x % m + 1 == m then 0 else x % m + 1
  {
    var q, r := x / m, x % m;
    if r + 1 == m {
      assert m * (q + 1) == m * q + m;
      RemainderUnique(m, (x + 1) / m, (x + 1) % m, q + 1, 0);
    } else {
      RemainderUnique(m, (x + 1) / m, (x + 1) % m, q, r + 1);
    }
  }

  lemma RemainderUnique(m: nat, q: nat, r: nat, q': nat, r': nat)
    requires r < m && r' < m && m * q + r == m * q' + r'
    ensures q == q' && r == r'
  {
    if q > q' {
      MultipleGap(m, q', q);
    } else if q' > q {
      MultipleGap(m, q, q');
    }
  }

  lemma MultipleGap(m: nat, a: nat, b: nat)
    requires a < b
    ensures m * b >= m * a + m
  {
    var d := b - a - 1;
    assert m * b == m * a + m + m * d;
  }

  lemma {:induction false} AdvanceAdd(c: Block, i: nat, j: nat)
    ensures Advance(Advance(c, i), j) == Advance(c, i + j)
  {
    hide Increment;
    if j > 0 {
      AdvanceAdd(c, i, j - 1);
    }
  }

  /** A carry out of the low bytes leaves zeros there. */
  lemma {:induction false} IncrementCarry(s: seq<byte>, n: nat)
    requires n <= |s| && forall k :: n <= k < |s| ==> s[k] == 0xFF
    ensures Increment(s) == Increment(s[..n]) + Zeros(|s| - n)
    decreases |s|
  {
    if n == |s| {
      assert s[..n] == s;
    } else {
      var front := s[..|s| - 1];
      IncrementCarry(front, n);
      assert front[..n] == s[..n];
      assert Zeros(|s| - n) == Zeros(|front| - n) + [0];
    }
  }

  method IncrementCounter(counter: array<byte>)
    modifies counter
    ensures counter[..] == Increment(old(counter[..]))
  {
    ghost var was := counter[..];
    var i := counter.Length;
    while i > 0
      invariant 0 <= i <= counter.Length
      invariant counter[..i] == was[..i]
      invariant forall k :: i <= k < counter.Length ==> was[k] == 0xFF && counter[k] == 0
    {
      i := i - 1;
      counter[i] := if counter[i] == 0xFF then 0 else counter[i] + 1;
      if counter[i] != 0 {
        IncrementCarry(was, i + 1);
        Snoc(was[..i], was[i]);
        assert was[..i + 1] == was[..i] + [was[i]];
        assert counter[..] == was[..i] + [was[i] + 1] + Zeros(|was| - i - 1);
        return;
      }
    }
    IncrementCarry(was, 0);
    assert was[..0] == [];
    assert counter[..] == Zeros(|was|);
  }

  // ---------------------------------------------------------------------------
  // The key stream
  // ---------------------------------------------------------------------------

  /** Byte `k` of the key stream comes from the block `k / 16` counter steps on. */
  function Keystream(e: Cipher, counter: Block, n: nat): (s: seq<byte>)
    ensures |s| == n
  {
    seq(n, k requires 0 <= k < n => e(Advance(counter, k / 16))[k % 16])
  }

  function Ctr(e: Cipher, counter: Block, data: seq<byte>): (r: seq<byte>)
    ensures |r| == |data|
  {
    XorBytes(data, Keystream(e, counter, |data|))
  }

  lemma CtrInvolution(e: Cipher, counter: Block, data: seq<byte>)
    ensures Ctr(e, counter, Ctr(e, counter, data)) == data
  {
    XorBytesCancel(data, Keystream(e, counter, |data|));
  }

  /** The key stream continues at the block a whole number of blocks further on. */
  lemma KeystreamSplit(e: Cipher, counter: Block, m: nat, n: nat)
    ensures Keystream(e, counter, 16 * m + n) == Keystream(e, counter, 16 * m) + Keystream(e, Advance(counter, m), n)
  {
    var s, a, b := Keystream(e, counter, 16 * m + n), Keystream(e, counter, 16 * m), Keystream(e, Advance(counter, m), n);
    forall k | 0 <= k < 16 * m + n
      ensures s[k] == (a + b)[k]
    {
      if k >= 16 * m {
        var j := k - 16 * m;
        assert k / 16 == m + j / 16 && k % 16 == j % 16;
        AdvanceAdd(counter, m, j / 16);
      }
    }
  }

  /** Its blocks are the encryptions of the counter, of the number behind it, and so on modulo 2^128. */
  lemma StreamIsBlocks(e: Cipher, counter: Block, n: nat, i: nat)
    requires 16 * i + 16 <= n
    ensures Keystream(e, counter, n)[16 * i..16 * i + 16] == e(ToBE((FromBE(counter) + i) % Pow256(16), 16))
  {
    hide FromBE, ToBE, Advance, Pow256;
    AdvanceValue(counter, i);
    ToBEFromBE(Advance(counter, i));
    StreamBlock(e, counter, n, i, 16);
  }

  // ---------------------------------------------------------------------------
  // The loop
  // ---------------------------------------------------------------------------

  /**
    Encrypt (or decrypt) `length` bytes. The two ranges may lie in the same buffer, unless
    the output starts behind the input and overlaps it: each byte is read before it is written.
  */
  method Encrypt(e: Cipher, iv: Block, input: array<byte>, inAt: nat,
                 out: array<byte>, outAt: nat, length: nat)
    requires inAt + length <= input.Length && outAt + length <= out.Length
    requires input != out || outAt <= inAt || inAt + length <= outAt
    modifies out
    ensures out[outAt..outAt + length] == Ctr(e, iv, old(input[inAt..inAt + length]))
    ensures forall k :: 0 <= k < out.Length && !(outAt <= k < outAt + length) ==> out[k] == old(out[k])
  {
    hide Increment, XorByte;
    ghost var data := input[inAt..inAt + length];
    ghost var stream := Keystream(e, iv, length);
    var counter := new byte[16](i requires 0 <= i < 16 => iv[i]);
    assert counter[..] == iv;
    var produced := 0;
    ghost var blocks := 0;
    while produced < length
      invariant 0 <= produced <= length
      invariant produced == 16 * blocks || produced == length
      invariant counter.Length == 16 && fresh(counter) && counter[..] == Advance(iv, blocks)
      invariant forall k :: outAt <= k < outAt + produced ==> out[k] == XorByte(data[k - outAt], stream[k - outAt])
      invariant forall k :: inAt + produced <= k < inAt + length ==> input[k] == data[k - inAt]
      invariant forall k :: 0 <= k < out.Length && !(outAt <= k < outAt + produced) ==> out[k] == old(out[k])
    {
      var take := length - produced;
      if take > 16 {
        take := 16;
      }
      XorBlock(input, inAt + produced, e(counter[..]), out, outAt + produced, take);
      StreamBlock(e, iv, length, blocks, take);
      produced := produced + take;
      IncrementCounter(counter);
      blocks := blocks + 1;
    }
    assert out[outAt..outAt + length] == XorBytes(data, stream);
  }

  /** The inner loop: up to one block of `input` masked into `out`. */
  method XorBlock(input: array<byte>, inAt: nat, mask: Block, out: array<byte>, outAt: nat, take: nat)
    requires take <= 16 && inAt + take <= input.Length && outAt + take <= out.Length
    requires input != out || outAt <= inAt || inAt + take <= outAt
    modifies out
    ensures forall k :: outAt <= k < outAt + take ==>
              out[k] == XorByte(old(input[inAt + (k - outAt)]), mask[k - outAt])
    ensures forall k :: 0 <= k < out.Length && !(outAt <= k < outAt + take) ==> out[k] == old(out[k])
  {
    var i := 0;
    while i < take
      invariant 0 <= i <= take
      invariant forall k :: outAt <= k < outAt + i ==> out[k] == XorByte(old(input[inAt + (k - outAt)]), mask[k - outAt])
      invariant forall k :: inAt + i <= k < inAt + take ==> input[k] == old(input[k])
      invariant forall k :: 0 <= k < out.Length && !(outAt <= k < outAt + i) ==> out[k] == old(out[k])
    {
      out[outAt + i] := XorByte(input[inAt + i], mask[i]);
      i := i + 1;
    }
  }

  lemma StreamBlock(e: Cipher, iv: Block, length: nat, blocks: nat, take: nat)
    requires take <= 16 && 16 * blocks + take <= length
    ensures forall k :: 16 * blocks <= k < 16 * blocks + take ==>
              Keystream(e, iv, length)[k] == e(Advance(iv, blocks))[k - 16 * blocks]
  {
    forall k | 16 * blocks <= k < 16 * blocks + take
      ensures Keystream(e, iv, length)[k] == e(Advance(iv, blocks))[k - 16 * blocks]
    {
      assert k / 16 == blocks && k % 16 == k - 16 * blocks;
    }
  }
}
