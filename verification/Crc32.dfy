/**
  The CRC-32 of the STUN FINGERPRINT attribute (section 15.5 of RFC 5389): a byte-wise,
  table-driven update, proved equal to the division that feeds one message bit at a time
  into the reflected polynomial.
*/
module Crc32 {
  import opened Bytes

  const POLYNOMIAL: u32 := 0xEDB8_8320
  const ALL_ONES: u32 := 0xFFFF_FFFF

  type bit = x: int | 0 <= x < 2

  // ---------------------------------------------------------------------------
  // Reference: one bit at a time, least significant bit of each byte first
  // ---------------------------------------------------------------------------

  function LowBits(d: nat, n: nat): seq<bit> {
    if n == 0 then [] else [d % 2] + LowBits(d / 2, n - 1)
  }

  function MessageBits(data: seq<byte>): seq<bit> {
    if data == [] then [] else MessageBits(data[..|data| - 1]) + LowBits(data[|data| - 1], 8)
  }

  function FeedBit(c: nat, b: bit): nat {
    if c % 2 != b then Xor(POLYNOMIAL, c / 2) else c / 2
  }

  function FeedBits(c: nat, bits: seq<bit>): nat
    decreases |bits|
  {
    if bits == [] then c else FeedBits(FeedBit(c, bits[0]), bits[1..])
  }

  function Crc(data: seq<byte>): u32 {
    FeedBitsBound(ALL_ONES, MessageBits(data));
    Xor32(FeedBits(ALL_ONES, MessageBits(data)), ALL_ONES)
  }

  lemma FeedBitBound(c: u32, b: bit)
    ensures FeedBit(c, b) < 0x1_0000_0000
  {
    Pow2Values();
    XorBound(POLYNOMIAL, c / 2, 32);
  }

  lemma {:induction false} FeedBitsBound(c: u32, bits: seq<bit>)
    ensures FeedBits(c, bits) < 0x1_0000_0000
    decreases |bits|
  {
    if bits != [] {
      FeedBitBound(c, bits[0]);
      FeedBitsBound(FeedBit(c, bits[0]), bits[1..]);
    }
  }

  // ---------------------------------------------------------------------------
  // The table and the byte-wise update
  // ---------------------------------------------------------------------------

  /** The register after `n` shifts with no message bit. */
  function Shift(c: nat, n: nat): nat {
    if n == 0 then c else FeedBit(Shift(c, n - 1), 0)
  }

  ghost predicate IsTable(v: seq<u32>) {
    |v| == 256 && forall i :: 0 <= i < 256 ==> v[i] == Shift(i, 8)
  }

  class Crc32Table {
    var v: array<u32>

    constructor ()
      ensures fresh(v) && IsTable(v[..])
    {
      var table := new u32[256];
      v := table;
      new;
      var i := 0;
      while i < 256
        invariant 0 <= i <= 256 && v == table
        invariant forall k :: 0 <= k < i ==> table[k] == Shift(k, 8)
      {
        var c: u32 := i;
        var j := 0;
        while j < 8
          invariant 0 <= j <= 8 && c == Shift(i, j)
        {
          if c % 2 == 1 {
            c := Xor32(POLYNOMIAL, c / 2);
          } else {
            c := c / 2;
          }
          j := j + 1;
        }
        table[i] := c;
        i := i + 1;
      }
    }
  }

  method Compute(data: seq<byte>) returns (crc: u32)
    ensures crc == Crc(data)
  {
    var table := new Crc32Table();
    var c: u32 := ALL_ONES;
    var i := 0;
    while i < |data|
      invariant 0 <= i <= |data| && IsTable(table.v[..])
      invariant c == FeedBits(ALL_ONES, MessageBits(data[..i]))
    {
      var index := Xor(c, data[i]) % 256;
      FeedBitsBound(ALL_ONES, MessageBits(data[..i + 1]));
      ByteStep(c, data[i]);
      FeedBitsAppend(ALL_ONES, MessageBits(data[..i]), LowBits(data[i], 8));
      assert data[..i + 1][..i] == data[..i];
      c := Xor32(table.v[..][index], c / 256);
      i := i + 1;
    }
    assert data[..i] == data;
    crc := Xor32(c, ALL_ONES);
  }

  // ---------------------------------------------------------------------------
  // Proof that eight bit steps are one table step
  // ---------------------------------------------------------------------------

  lemma {:induction false} FeedBitsAppend(c: nat, a: seq<bit>, b: seq<bit>)
    ensures FeedBits(c, a + b) == FeedBits(FeedBits(c, a), b)
    decreases |a|
  {
    if a == [] {
      assert a + b == b;
    } else {
      assert (a + b)[1..] == a[1..] + b;
      FeedBitsAppend(FeedBit(c, a[0]), a[1..], b);
    }
  }

  /** A bit step on the exclusive or `h` of `c` and another word, given its two halves. */
  lemma FeedBitOf(c: nat, h: nat, q: nat, b: bit, b': bit)
    requires h / 2 == Xor(c / 2, q) && (h % 2 != b <==> c % 2 != b')
    ensures FeedBit(h, b) == Xor(FeedBit(c, b'), q)
  {
    var x := Xor(c / 2, q);
    if c % 2 != b' {
      assert FeedBit(h, b) == Xor(POLYNOMIAL, x);
      assert FeedBit(c, b') == Xor(POLYNOMIAL, c / 2);
      XorAssoc(POLYNOMIAL, c / 2, q);
    } else {
      assert FeedBit(h, b) == x;
      assert FeedBit(c, b') == c / 2;
    }
  }

  /** Exclusive or of a shifted register with a mask whose low bit is clear. */
  lemma FeedBitLinear(c: nat, m: nat, b: bit)
    ensures FeedBit(Xor(c, 2 * m), b) == Xor(FeedBit(c, b), m)
  {
    XorDouble(c, m);
    FeedBitOf(c, Xor(c, 2 * m), m, b, b);
  }

  lemma XorDouble(c: nat, m: nat)
    ensures Xor(c, 2 * m) / 2 == Xor(c / 2, m)
    ensures Xor(c, 2 * m) % 2 == c % 2
  {
    var e := 2 * m;
    assert e / 2 == m && e % 2 == 0;
    XorHalf(c, e);
  }

  /** Feeding bit `d % 2` is shifting the register that already holds all of `d`. */
  lemma FeedLowBit(c: nat, d: nat)
    ensures FeedBit(Xor(c, d), 0) == Xor(FeedBit(c, d % 2), d / 2)
  {
    XorHalf(c, d);
    FeedBitOf(c, Xor(c, d), d / 2, 0, d % 2);
  }

  lemma {:induction false} FeedLowBits(c: nat, d: nat, n: nat)
    requires d < Pow2(n)
    ensures FeedBits(c, LowBits(d, n)) == ShiftTail(Xor(c, d), n)
    decreases n
  {
    if n == 0 {
      XorZero(c);
    } else {
      FeedLowBit(c, d);
      FeedLowBits(FeedBit(c, d % 2), d / 2, n - 1);
      assert LowBits(d, n)[1..] == LowBits(d / 2, n - 1);
    }
  }

  /** The same `n` shifts, counted from the other end. */
  function ShiftTail(c: nat, n: nat): nat
    decreases n
  {
    if n == 0 then c else ShiftTail(FeedBit(c, 0), n - 1)
  }

  lemma {:induction false} ShiftTailIsShift(c: nat, n: nat)
    ensures ShiftTail(c, n) == Shift(c, n)
    decreases n
  {
    if n > 0 {
      ShiftTailIsShift(FeedBit(c, 0), n - 1);
      ShiftFirst(c, n);
    }
  }

  lemma {:induction false} ShiftFirst(c: nat, n: nat)
    requires n > 0
    ensures Shift(c, n) == Shift(FeedBit(c, 0), n - 1)
  {
    if n > 1 {
      ShiftFirst(c, n - 1);
    }
  }

  /** Linearity: bits that lie `k` places up fall through `k` shifts unchanged. */
  lemma {:induction false} ShiftLinear(u: nat, h: nat, k: nat)
    ensures ShiftTail(Xor(u, Pow2(k) * h), k) == Xor(ShiftTail(u, k), h)
    decreases k
  {
    if k > 0 {
      var m := Pow2(k - 1) * h;
      Doubled(k, h, m);
      FeedBitLinear(u, m, 0);
      ShiftLinear(FeedBit(u, 0), h, k - 1);
    }
  }

  lemma Doubled(k: nat, h: nat, m: nat)
    requires k > 0 && m == Pow2(k - 1) * h
    ensures Pow2(k) * h == 2 * m
  {
  }

  lemma {:induction false} XorDisjoint(lo: nat, h: nat, k: nat)
    requires lo < Pow2(k)
    ensures Xor(lo, Pow2(k) * h) == lo + Pow2(k) * h
    decreases k
  {
    if k == 0 {
      XorZero(h);
    } else {
      var m := Pow2(k - 1) * h;
      Doubled(k, h, m);
      XorDisjoint(lo / 2, h, k - 1);
      XorDouble(lo, m);
    }
  }

  /** One table step is eight bit steps. */
  lemma ByteStep(c: nat, d: byte)
    ensures FeedBits(c, LowBits(d, 8)) == Xor(Shift(Xor(c, d) % 256, 8), c / 256)
  {
    assert d < Pow2(8) by {
      Pow2Values();
    }
    FeedLowBits(c, d, 8);
    ShiftByLowByte(Xor(c, d));
    HighPart(c, d);
  }

  /** Eight shifts of a register are a table entry and the rest moved down. */
  lemma ShiftByLowByte(x: nat)
    ensures ShiftTail(x, 8) == Xor(Shift(x % 256, 8), x / 256)
  {
    LowPart(x);
    ShiftLinear(x % 256, x / 256, 8);
    ShiftTailIsShift(x % 256, 8);
  }

  lemma LowPart(x: nat)
    ensures x == Xor(x % 256, Pow2(8) * (x / 256))
  {
    Pow2Values();
    XorDisjoint(x % 256, x / 256, 8);
  }

  lemma HighPart(c: nat, d: byte)
    ensures Xor(c, d) / 256 == c / 256
  {
    var lo, rest := c % 256, Pow2(8) * (c / 256);
    LowPart(c);
    XorAssoc(lo, rest, d);
    XorComm(rest, d);
    XorAssoc(lo, d, rest);
    XorByteBound(lo, d);
    JoinedHighPart(Xor(lo, d), c / 256);
  }

  lemma JoinedHighPart(lo: nat, h: nat)
    requires lo < 256
    ensures Xor(lo, Pow2(8) * h) / 256 == h
  {
    Pow2Values();
    XorDisjoint(lo, h, 8);
  }

  /** The powers of x in the polynomial, below the leading one (the generator of ITU-T V.42). */
  const POWERS: seq<nat> := [26, 23, 22, 16, 12, 11, 10, 8, 7, 5, 4, 2, 1, 0]

  /** Reflected: the power k stands at bit 31 - k. */
  function Reflected(powers: seq<nat>): nat {
    if powers == [] then 0 else Pow2(if powers[0] <= 31 then 31 - powers[0] else 0) + Reflected(powers[1..])
  }

  lemma PolynomialIs()
    ensures Reflected(POWERS) == POLYNOMIAL
  {
    hide Reflected;
    var a: seq<nat>, b: seq<nat> := [26, 23, 22, 16, 12, 11, 10], [8, 7, 5, 4, 2, 1, 0];
    assert POWERS == a + b;
    ReflectedConcat(a, b);
    HighPowers();
    LowPowers();
  }

  lemma {:induction false} ReflectedConcat(a: seq<nat>, b: seq<nat>)
    ensures Reflected(a + b) == Reflected(a) + Reflected(b)
  {
    hide Pow2;
    if a == [] {
      assert a + b == b;
    } else {
      assert (a + b)[1..] == a[1..] + b;
      ReflectedConcat(a[1..], b);
    }
  }

  lemma HighPowers()
    ensures Reflected([26, 23, 22, 16, 12, 11, 10]) == 0x0038_8320
  {
    assert Pow2(5) == 32 && Pow2(8) == 256 && Pow2(9) == 512 && Pow2(15) == 0x8000;
    assert Pow2(19) == 0x8_0000 && Pow2(20) == 0x10_0000 && Pow2(21) == 0x20_0000;
    hide Pow2;
    assert Reflected([12, 11, 10]) == 0x38_0000;
  }

  lemma LowPowers()
    ensures Reflected([8, 7, 5, 4, 2, 1, 0]) == 0xED80_0000
  {
    assert Pow2(8) == 256;
    assert Pow2(16) == 0x1_0000;
    assert Pow2(23) == 0x80_0000 && Pow2(24) == 0x100_0000 && Pow2(26) == 0x400_0000 && Pow2(27) == 0x800_0000;
    assert Pow2(29) == 0x2000_0000 && Pow2(30) == 0x4000_0000 && Pow2(31) == 0x8000_0000;
    hide Pow2;
    assert Reflected([2, 1, 0]) == 0xE000_0000;
  }
}
