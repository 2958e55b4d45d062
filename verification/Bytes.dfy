/**
  Bytes, fixed-width unsigned integers, big- and little-endian layouts and exclusive or.

  The program's `uint8_t`, `uint16_t`, ... are subset types of `int`; a wrap-around
  or a truncating cast is written out where the program relies on it.
*/
module Bytes {

  type byte = x: int | 0 <= x < 0x100
  type u16 = x: int | 0 <= x < 0x1_0000
  type u32 = x: int | 0 <= x < 0x1_0000_0000
  type u64 = x: int | 0 <= x < 0x1_0000_0000_0000_0000
  type Block = s: seq<byte> | |s| == 16 witness seq(16, _ => 0)
  type Digest = s: seq<byte> | |s| == 32 witness seq(32, _ => 0)

  datatype Option<+T> = None | Some(value: T)

  /** A 32-bit counter that has been incremented `n` times. */
  function Wrap32(n: nat): u32 {
    n % 0x1_0000_0000
  }

  /** `++` on a 32-bit counter. */
  function Next32(c: u32): u32 {
    if c == 0xFFFF_FFFF then 0 else c + 1
  }

  lemma WrapNext(n: nat)
    ensures Next32(Wrap32(n)) == Wrap32(n + 1)
  {
  }

  /** `n` zero bytes. */
  function Zeros(n: nat): (s: seq<byte>)
    ensures |s| == n
  {
    seq(n, _ => 0)
  }

  // ---------------------------------------------------------------------------
  // Fixed-width layouts
  // ---------------------------------------------------------------------------

  function BE16(v: u16): (s: seq<byte>)
    ensures |s| == 2
  {
    [v / 0x100, v % 0x100]
  }

  function BE24(v: nat): (s: seq<byte>)
    ensures |s| == 3
  {
    [v / 0x1_0000 % 0x100] + BE16(v % 0x1_0000)
  }

  function BE32(v: u32): (s: seq<byte>)
    ensures |s| == 4
  {
    BE16(v / 0x1_0000) + BE16(v % 0x1_0000)
  }

  function BE48(v: nat): (s: seq<byte>)
    ensures |s| == 6
  {
    BE16(v / 0x1_0000_0000 % 0x1_0000) + BE32(v % 0x1_0000_0000)
  }

  function BE64(v: u64): (s: seq<byte>)
    ensures |s| == 8
  {
    BE32(v / 0x1_0000_0000) + BE32(v % 0x1_0000_0000)
  }

  function Read16(s: seq<byte>, at: nat): u16
    requires at + 2 <= |s|
  {
    0x100 * s[at] as int + s[at + 1]
  }

  function Read24(s: seq<byte>, at: nat): (v: nat)
    requires at + 3 <= |s|
    ensures v < 0x100_0000
  {
    0x1_0000 * s[at] as int + Read16(s, at + 1)
  }

  function Read32(s: seq<byte>, at: nat): u32
    requires at + 4 <= |s|
  {
    0x1_0000 * Read16(s, at) as int + Read16(s, at + 2)
  }

  function Read48(s: seq<byte>, at: nat): (v: nat)
    requires at + 6 <= |s|
    ensures v < 0x1_0000_0000_0000
  {
    0x1_0000_0000 * Read16(s, at) as int + Read32(s, at + 2)
  }

  function Read64(s: seq<byte>, at: nat): u64
    requires at + 8 <= |s|
  {
    0x1_0000_0000 * Read32(s, at) as int + Read32(s, at + 4)
  }

  function LE16(v: u16): (s: seq<byte>)
    ensures |s| == 2
  {
    [v % 0x100, v / 0x100]
  }

  function LE32(v: u32): (s: seq<byte>)
    ensures |s| == 4
  {
    LE16(v % 0x1_0000) + LE16(v / 0x1_0000)
  }

  function ReadLE16(s: seq<byte>, at: nat): u16
    requires at + 2 <= |s|
  {
    s[at] as int + 0x100 * s[at + 1] as int
  }

  function ReadLE32(s: seq<byte>, at: nat): u32
    requires at + 4 <= |s|
  {
    ReadLE16(s, at) as int + 0x1_0000 * ReadLE16(s, at + 2) as int
  }

  /** A field that was laid out at `at` is read back from there, whatever surrounds it. */
  predicate HasAt(s: seq<byte>, at: nat, field: seq<byte>) {
    at + |field| <= |s| && forall k :: 0 <= k < |field| ==> s[at + k] == field[k]
  }

  lemma HasAtIn(before: seq<byte>, field: seq<byte>, after: seq<byte>)
    ensures HasAt(before + field + after, |before|, field)
  {
  }

  lemma HasAtParts(s: seq<byte>, at: nat, a: seq<byte>, b: seq<byte>)
    requires HasAt(s, at, a + b)
    ensures HasAt(s, at, a) && HasAt(s, at + |a|, b)
  {
    forall k | 0 <= k < |a|
      ensures s[at + k] == a[k]
    {
      assert (a + b)[k] == a[k];
    }
    forall k | 0 <= k < |b|
      ensures s[at + |a| + k] == b[k]
    {
      assert (a + b)[|a| + k] == b[k];
    }
  }

  lemma Read16At(s: seq<byte>, at: nat, v: u16)
    requires HasAt(s, at, BE16(v))
    ensures Read16(s, at) == v
  {
    assert s[at + 0] == BE16(v)[0] && s[at + 1] == BE16(v)[1];
  }

  lemma Read24At(s: seq<byte>, at: nat, v: nat)
    requires v < 0x100_0000 && HasAt(s, at, BE24(v))
    ensures Read24(s, at) == v
  {
    HasAtParts(s, at, [v / 0x1_0000 % 0x100], BE16(v % 0x1_0000));
    assert s[at + 0] == [v / 0x1_0000 % 0x100][0];
    Read16At(s, at + 1, v % 0x1_0000);
  }

  lemma Read32At(s: seq<byte>, at: nat, v: u32)
    requires HasAt(s, at, BE32(v))
    ensures Read32(s, at) == v
  {
    HasAtParts(s, at, BE16(v / 0x1_0000), BE16(v % 0x1_0000));
    Read16At(s, at, v / 0x1_0000);
    Read16At(s, at + 2, v % 0x1_0000);
  }

  lemma Read48At(s: seq<byte>, at: nat, v: nat)
    requires v < 0x1_0000_0000_0000 && HasAt(s, at, BE48(v))
    ensures Read48(s, at) == v
  {
    HasAtParts(s, at, BE16(v / 0x1_0000_0000 % 0x1_0000), BE32(v % 0x1_0000_0000));
    Read16At(s, at, v / 0x1_0000_0000 % 0x1_0000);
    Read32At(s, at + 2, v % 0x1_0000_0000);
  }

  lemma Read64At(s: seq<byte>, at: nat, v: u64)
    requires HasAt(s, at, BE64(v))
    ensures Read64(s, at) == v
  {
    HasAtParts(s, at, BE32(v / 0x1_0000_0000), BE32(v % 0x1_0000_0000));
    Read32At(s, at, v / 0x1_0000_0000);
    Read32At(s, at + 4, v % 0x1_0000_0000);
  }

  lemma ReadLE16At(s: seq<byte>, at: nat, v: u16)
    requires HasAt(s, at, LE16(v))
    ensures ReadLE16(s, at) == v
  {
    assert s[at + 0] == LE16(v)[0] && s[at + 1] == LE16(v)[1];
  }

  lemma ReadLE32At(s: seq<byte>, at: nat, v: u32)
    requires HasAt(s, at, LE32(v))
    ensures ReadLE32(s, at) == v
  {
    HasAtParts(s, at, LE16(v % 0x1_0000), LE16(v / 0x1_0000));
    ReadLE16At(s, at, v % 0x1_0000);
    ReadLE16At(s, at + 2, v / 0x1_0000);
  }

  /** And the other way: two bytes read as a number are that number's layout. */
  lemma BE16Read16(s: seq<byte>, at: nat)
    requires at + 2 <= |s|
    ensures BE16(Read16(s, at)) == s[at..at + 2]
  {
  }

  lemma BE32Read32(s: seq<byte>, at: nat)
    requires at + 4 <= |s|
    ensures BE32(Read32(s, at)) == s[at..at + 4]
  {
    BE16Read16(s, at);
    BE16Read16(s, at + 2);
    assert s[at..at + 4] == s[at..at + 2] + s[at + 2..at + 4];
  }

  // ---------------------------------------------------------------------------
  // Big-endian numerals of any length
  // ---------------------------------------------------------------------------

  function Pow256(n: nat): (p: nat)
    ensures p >= 1
  {
    if n == 0 then 1 else 256 * Pow256(n - 1)
  }

  /** The low `n` bytes of `v`, most significant first. */
  function ToBE(v: nat, n: nat): (s: seq<byte>)
    ensures |s| == n
  {
    if n == 0 then [] else ToBE(v / 256, n - 1) + [v % 256]
  }

  function FromBE(s: seq<byte>): nat {
    if s == [] then 0 else 256 * FromBE(s[..|s| - 1]) + s[|s| - 1]
  }

  lemma {:induction false} FromBEBound(s: seq<byte>)
    ensures FromBE(s) < Pow256(|s|)
  {
    if s != [] {
      FromBEBound(s[..|s| - 1]);
    }
  }

  lemma {:induction false} ToBEFromBE(s: seq<byte>)
    ensures ToBE(FromBE(s), |s|) == s
  {
    if s != [] {
      ToBEFromBE(s[..|s| - 1]);
    }
  }

  lemma {:induction false} FromBEToBE(v: nat, n: nat)
    requires v < Pow256(n)
    ensures FromBE(ToBE(v, n)) == v
  {
    if n > 0 {
      FromBEToBE(v / 256, n - 1);
      assert ToBE(v, n)[..n - 1] == ToBE(v / 256, n - 1);
    }
  }

  lemma FourBytes(v: u32)
    ensures ToBE(v, 4) == BE32(v)
  {
    hide FromBE, ToBE, BE32;
    BE32Value(v);
    ToBEFromBE(BE32(v));
  }

  lemma BE32Value(v: u32)
    ensures FromBE(BE32(v)) == v
  {
    var s := BE32(v);
    assert s[..3][..2][..1][..0] == [];
    assert FromBE(s[..3][..2][..1]) == s[0];
    assert FromBE(s[..3][..2]) == 256 * (s[0] as int) + s[1];
    assert FromBE(s[..3]) == 256 * FromBE(s[..3][..2]) + s[2];
    assert 256 * (s[0] as int) + s[1] == v / 0x1_0000 && 256 * (s[2] as int) + s[3] == v % 0x1_0000;
  }

  /** Leading zero bytes do not change the value. */
  lemma {:induction false} FromBELeadingZero(s: seq<byte>)
    ensures FromBE([0] + s) == FromBE(s)
  {
    if s == [] {
      assert FromBE([0]) == 256 * FromBE([0][..0]) + 0;
    } else {
      FromBELeadingZero(s[..|s| - 1]);
      assert ([0] + s)[..|s|] == [0] + s[..|s| - 1];
    }
  }

  // ---------------------------------------------------------------------------
  // Exclusive or, bit by bit from the low end
  // ---------------------------------------------------------------------------

  function Xor(a: nat, b: nat): nat
    decreases a + b
  {
    if a == 0 && b == 0 then 0 else 2 * Xor(a / 2, b / 2) + Differ(a, b)
  }

  /** The exclusive or of the lowest bits. */
  function Differ(a: nat, b: nat): nat {
    if a % 2 == b % 2 then 0 else 1
  }

  function Pow2(n: nat): (p: nat)
    ensures p >= 1
  {
    if n == 0 then 1 else 2 * Pow2(n - 1)
  }

  lemma {:induction false} XorBound(a: nat, b: nat, k: nat)
    requires a < Pow2(k) && b < Pow2(k)
    ensures Xor(a, b) < Pow2(k)
    decreases k
  {
    if k > 0 {
      XorBound(a / 2, b / 2, k - 1);
    }
  }

  lemma {:induction false} XorSelf(a: nat)
    ensures Xor(a, a) == 0
  {
    if a > 0 {
      XorSelf(a / 2);
    }
  }

  lemma {:induction false} XorZero(a: nat)
    ensures Xor(a, 0) == a && Xor(0, a) == a
  {
    if a > 0 {
      XorZero(a / 2);
    }
  }

  lemma {:induction false} XorHalf(a: nat, b: nat)
    ensures Xor(a, b) / 2 == Xor(a / 2, b / 2)
    ensures Xor(a, b) % 2 == Differ(a, b)
  {
  }

  lemma {:induction false} XorComm(a: nat, b: nat)
    ensures Xor(a, b) == Xor(b, a)
    decreases a + b
  {
    if a + b > 0 {
      XorComm(a / 2, b / 2);
    }
  }

  lemma {:induction false} XorAssoc(a: nat, b: nat, c: nat)
    ensures Xor(Xor(a, b), c) == Xor(a, Xor(b, c))
    decreases a + b + c
  {
    if a + b + c > 0 {
      XorAssoc(a / 2, b / 2, c / 2);
      XorHalf(a, b);
      XorHalf(b, c);
      XorHalf(Xor(a, b), c);
      XorHalf(a, Xor(b, c));
      var x, y := Xor(Xor(a, b), c), Xor(a, Xor(b, c));
      assert x == 2 * (x / 2) + x % 2 && y == 2 * (y / 2) + y % 2;
    }
  }

  /** Two applications of the same mask undo each other. */
  lemma XorCancel(a: nat, b: nat)
    ensures Xor(Xor(a, b), b) == a
    ensures Xor(b, Xor(b, a)) == a
  {
    XorAssoc(a, b, b);
    XorAssoc(b, b, a);
    XorSelf(b);
    XorZero(a);
  }

  lemma XorInjective(a: nat, b: nat, m: nat)
    requires Xor(a, m) == Xor(b, m)
    ensures a == b
  {
    XorCancel(a, m);
    XorCancel(b, m);
  }

  function XorByte(a: byte, b: byte): byte {
    XorByteBound(a, b);
    Xor(a, b)
  }

  lemma XorByteBound(a: byte, b: byte)
    ensures Xor(a, b) < 0x100
  {
    assert Pow2(8) == 0x100;
    XorBound(a, b, 8);
  }

  function Xor16(a: u16, b: u16): u16 {
    Pow2Values();
    XorBound(a, b, 16);
    Xor(a, b)
  }

  function Xor32(a: u32, b: u32): u32 {
    Pow2Values();
    XorBound(a, b, 32);
    Xor(a, b)
  }

  lemma Pow2Values()
    ensures Pow2(8) == 0x100 && Pow2(16) == 0x1_0000 && Pow2(32) == 0x1_0000_0000
  {
    assert Pow2(4) == 16;
    assert Pow2(8) == 0x100;
    assert Pow2(12) == 0x1000;
    assert Pow2(16) == 0x1_0000;
    assert Pow2(20) == 0x10_0000;
    assert Pow2(24) == 0x100_0000;
    assert Pow2(28) == 0x1000_0000;
  }

  /** Byte-wise exclusive or of two strings of the same length. */
  function XorBytes(a: seq<byte>, b: seq<byte>): (r: seq<byte>)
    requires |a| == |b|
    ensures |r| == |a|
  {
    seq(|a|, i requires 0 <= i < |a| => XorByte(a[i], b[i]))
  }

  lemma XorBytesCancel(a: seq<byte>, b: seq<byte>)
    requires |a| == |b|
    ensures XorBytes(XorBytes(a, b), b) == a
    ensures XorBytes(b, XorBytes(b, a)) == a
  {
    forall i | 0 <= i < |a|
      ensures XorByte(XorByte(a[i], b[i]), b[i]) == a[i]
      ensures XorByte(b[i], XorByte(b[i], a[i])) == a[i]
    {
      XorCancel(a[i], b[i]);
    }
  }

  lemma XorBytesInjective(a: seq<byte>, b: seq<byte>, m: seq<byte>)
    requires |a| == |b| == |m|
    requires XorBytes(a, m) == XorBytes(b, m)
    ensures a == b
  {
    XorBytesCancel(a, m);
    XorBytesCancel(b, m);
  }
}
