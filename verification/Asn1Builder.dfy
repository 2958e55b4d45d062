/** The builder as the program runs it: one output vector and a stack of offsets. */
module Asn1Builder {
  import opened Bytes
  import opened SeqFacts
  import opened Asn1Spec
  import opened Asn1Laws
  import Spec = Asn1Spec

  class Builder {
    var out: seq<byte>
    var pending: seq<nat>
    /** The trees the calls so far describe. */
    ghost var trees: Trees

    ghost predicate Valid()
      reads this
    {
      Represents(Machine(out, pending), trees)
    }

    constructor ()
      ensures Valid() && trees == NOTHING
    {
      out, pending := [], [];
      trees := NOTHING;
    }

    method WriteRaw(data: seq<byte>)
      requires Valid()
      modifies this`out, this`trees
      ensures Valid() && trees == BuildStep(old(trees), Raw(data)).value
    {
      hide Represents;
      LeafRepresents(Machine(out, pending), trees, Verbatim(data));
      out := out + data;
      trees := trees.(current := trees.current + [Verbatim(data)]);
    }

    method WriteBytes(tag: byte, data: seq<byte>)
      requires Valid() && |data| < SIZE_LIMIT
      modifies this`out, this`trees
      ensures Valid() && trees == BuildStep(old(trees), Value(tag, data)).value
    {
      hide Represents, Length;
      LeafRepresents(Machine(out, pending), trees, Primitive(tag, data));
      var length := EncodeLength(|data|);
      ghost var was := out;
      out := out + [tag];
      out := out + length;
      out := out + data;
      Assoc(was, [tag], length);
      Assoc(was, [tag] + length, data);
      trees := trees.(current := trees.current + [Primitive(tag, data)]);
    }

    /** An unsigned big-endian number. */
    method WriteInteger(data: seq<byte>)
      requires Valid() && |data| < SIZE_LIMIT - 1
      modifies this`out, this`trees
      ensures Valid() && trees == BuildStep(old(trees), Integer(data)).value
    {
      hide Represents, Stripped;
      var start := Strip(data);
      StrippedShort(data);
      var body: seq<byte> := [];
      if |data| == 0 {
        body := body + [0];
      } else {
        if data[start] >= 0x80 {
          body := body + [0];
        }
        body := body + data[start..];
      }
      assert body == IntegerBody(data);
      WriteBytes(TAG_INTEGER, body);
    }

    /** A 64-bit number; negative ones are then taken for unsigned. */
    method WriteIntegerSmall(value: int)
      requires Valid() && -0x8000_0000_0000_0000 <= value < 0x8000_0000_0000_0000
      modifies this`out, this`trees
      ensures Valid() && trees == BuildStep(old(trees), Small(value)).value
    {
      hide Represents, Stripped, StrippedNegative, ToBE, IntegerBody;
      var buf := ToBE(value % SIZE_LIMIT, 8);
      var start;
      if value < 0 {
        start := StripNegative(buf);
      } else {
        start := Strip(buf);
      }
      WriteInteger(buf[start..]);
    }

    method WriteBitString(bits: seq<byte>, unused: byte)
      requires Valid() && |bits| < SIZE_LIMIT - 1
      modifies this`out, this`trees
      ensures Valid() && trees == BuildStep(old(trees), BitString(bits, unused)).value
    {
      hide Represents;
      var body := [unused];
      body := body + bits;
      WriteBytes(TAG_BIT_STRING, body);
    }

    method WriteOctetString(octets: seq<byte>)
      requires Valid() && |octets| < SIZE_LIMIT
      modifies this`out, this`trees
      ensures Valid() && trees == BuildStep(old(trees), OctetString(octets)).value
    {
      hide Represents;
      WriteBytes(TAG_OCTET_STRING, octets);
    }

    method BeginConstructed(tag: byte) returns (depth: nat)
      requires Valid()
      modifies this
      ensures Valid() && trees == BuildStep(old(trees), Begin(tag)).value && depth == |pending|
    {
      hide Represents;
      BeginRepresents(Machine(out, pending), trees, tag);
      assert out + [tag] + [0] == out + [tag, 0];
      out := out + [tag];
      pending := pending + [|out|];
      out := out + [0];
      trees := Trees(trees.open + [Open(tag, trees.current)], []);
      depth := |pending|;
    }

    /** The placeholder is overwritten and further length bytes are inserted behind it. */
    method EndConstructed()
      requires Valid() && trees.open != [] && |out| < SIZE_LIMIT
      modifies this
      ensures Valid() && trees == BuildStep(old(trees), End).value
    {
      hide Represents, Length;
      EndRepresents(Machine(out, pending), trees);
      var lengthOffset := pending[|pending| - 1];
      pending := pending[..|pending| - 1];
      var contentLen := |out| - (lengthOffset + 1);
      var lenBytes := EncodeLength(contentLen);
      Patched(out, lengthOffset, lenBytes);
      if |lenBytes| == 1 {
        out := out[lengthOffset := lenBytes[0]];
      } else {
        out := out[lengthOffset := lenBytes[0]];
        out := out[..lengthOffset + 1] + lenBytes[1..] + out[lengthOffset + 1..];
      }
      trees := BuildStep(trees, End).value;
    }

    /** With every element closed, the output is the encoding of what was built. */
    method Take() returns (r: seq<byte>)
      requires Valid()
      ensures r == out && (trees.open == [] ==> r == EncodeAll(trees.current))
    {
      hide EncodeAll;
      Unit(EncodeAll(trees.current));
      r := out;
    }
  }

  method EncodeLength(len: nat) returns (out: seq<byte>)
    requires len < SIZE_LIMIT
    ensures out == Length(len)
  {
    hide ToBE, ByteCount, Reverse;
    out := [];
    if len < 0x80 {
      return out + [len];
    }
    ByteCount64(len);
    var bytes, n := LowBytes(len);
    out := out + [0x80 + n];
    out := AppendReversed(out, bytes[..n]);
  }

  method AppendReversed(front: seq<byte>, digits: seq<byte>) returns (out: seq<byte>)
    ensures out == front + Reverse(digits)
  {
    hide Reverse;
    out := front;
    var i: int := |digits| - 1;
    assert digits[..i + 1] == digits;
    while i >= 0
      invariant -1 <= i < |digits| && front + Reverse(digits) == out + Reverse(digits[..i + 1])
    {
      assert digits[..i + 1] == digits[..i] + [digits[i]];
      ReverseSnoc(digits[..i], digits[i]);
      Assoc(out, [digits[i]], Reverse(digits[..i]));
      out := out + [digits[i]];
      i := i - 1;
    }
    ReverseNothing();
    Unit(out);
  }

  /** The bytes of a number, least significant first. */
  method LowBytes(len: nat) returns (bytes: array<byte>, n: nat)
    requires len < SIZE_LIMIT
    ensures fresh(bytes) && bytes.Length == 8 && n == ByteCount(len) <= 8
    ensures Reverse(bytes[..n]) == ToBE(len, n) && (len > 0 ==> n > 0)
  {
    hide ToBE, Reverse;
    ByteCount64(len);
    bytes := new byte[8](_ => 0);
    n := 0;
    var v := len;
    ghost var total := ByteCount(len);
    ReverseNothing();
    assert bytes[..0] == [];
    Unit(ToBE(len, total));
    while v > 0
      invariant 0 <= n <= total && total == n + ByteCount(v)
      invariant ToBE(len, total) == ToBE(v, total - n) + Reverse(bytes[..n])
      decreases v
    {
      bytes[n] := v % 0x100;
      assert bytes[..n + 1] == bytes[..n] + [v % 0x100];
      ReverseSnoc(bytes[..n], v % 0x100);
      ToBEStep(v, total - n);
      Assoc(ToBE(v / 256, total - n - 1), [v % 0x100], Reverse(bytes[..n]));
      n := n + 1;
      v := v / 0x100;
    }
    ToBENothing(v);
    Unit(Reverse(bytes[..n]));
  }

  lemma ToBEStep(v: nat, n: nat)
    requires n > 0
    ensures ToBE(v, n) == ToBE(v / 256, n - 1) + [v % 0x100]
  {
  }

  lemma ToBENothing(v: nat)
    ensures ToBE(v, 0) == []
  {
  }

  function Reverse(s: seq<byte>): seq<byte> {
    if s == [] then [] else [s[|s| - 1]] + Reverse(s[..|s| - 1])
  }

  lemma ReverseSnoc(s: seq<byte>, x: byte)
    ensures Reverse(s + [x]) == [x] + Reverse(s)
  {
    Snoc(s, x);
  }

  lemma ReverseNothing()
    ensures Reverse([]) == []
  {
  }

  method Strip(data: seq<byte>) returns (start: nat)
    ensures start <= |data| && data[start..] == Stripped(data) && (data != [] ==> start < |data|)
  {
    hide Stripped;
    start := 0;
    assert data[0..] == data;
    while start + 1 < |data| && data[start] == 0 && data[start + 1] < 0x80
      invariant 0 <= start <= |data| && (data != [] ==> start < |data|)
      invariant Stripped(data[start..]) == Stripped(data)
    {
      StripOne(data, start);
      start := start + 1;
    }
    StripDone(data[start..]);
  }

  method StripNegative(data: seq<byte>) returns (start: nat)
    ensures start <= |data| && data[start..] == StrippedNegative(data) && (data != [] ==> start < |data|)
  {
    hide StrippedNegative;
    start := 0;
    assert data[0..] == data;
    while start + 1 < |data| && data[start] == 0xFF && data[start + 1] >= 0x80
      invariant 0 <= start <= |data| && (data != [] ==> start < |data|)
      invariant StrippedNegative(data[start..]) == StrippedNegative(data)
    {
      StripOneNegative(data, start);
      start := start + 1;
    }
    StripDoneNegative(data[start..]);
  }

  lemma Patched(out: seq<byte>, at: nat, lenBytes: seq<byte>)
    requires at < |out| && lenBytes != []
    ensures
      var patched := out[at := lenBytes[0]];
      patched[..at + 1] + lenBytes[1..] + patched[at + 1..] == out[..at] + lenBytes + out[at + 1..]
    ensures |lenBytes| == 1 ==> out[at := lenBytes[0]] == out[..at] + lenBytes + out[at + 1..]
  {
    var patched := out[at := lenBytes[0]];
    FirstRest(lenBytes);
    assert patched[..at + 1] == out[..at] + [lenBytes[0]];
    assert patched[at + 1..] == out[at + 1..];
    Assoc(out[..at], [lenBytes[0]], lenBytes[1..]);
  }

  lemma StripOne(data: seq<byte>, i: nat)
    requires i + 1 < |data| && data[i] == 0 && data[i + 1] < 0x80
    ensures Stripped(data[i..]) == Stripped(data[i + 1..])
  {
    DropDrop(data, i, 1);
  }

  lemma StripDone(s: seq<byte>)
    requires !(|s| >= 2 && s[0] == 0 && s[1] < 0x80)
    ensures Stripped(s) == s
  {
  }

  lemma StripOneNegative(data: seq<byte>, i: nat)
    requires i + 1 < |data| && data[i] == 0xFF && data[i + 1] >= 0x80
    ensures StrippedNegative(data[i..]) == StrippedNegative(data[i + 1..])
  {
    DropDrop(data, i, 1);
  }

  lemma StripDoneNegative(s: seq<byte>)
    requires !(|s| >= 2 && s[0] == 0xFF && s[1] >= 0x80)
    ensures StrippedNegative(s) == s
  {
  }

  method RawRsToDer(rawRs: seq<byte>) returns (der: seq<byte>)
    ensures der == Spec.RawRsToDer(rawRs)
  {
    hide Encode, EncodeAll, IntegerBody, Represents, MachineStep;
    if |rawRs| != 64 {
      return [];
    }
    var b := new Builder();
    var depth := b.BeginConstructed(TAG_SEQUENCE);
    b.WriteInteger(rawRs[..32]);
    b.WriteInteger(rawRs[32..64]);
    assert rawRs[32..64] == rawRs[32..];
    SmallOutput(b.out, b.pending, b.trees, rawRs);
    b.EndConstructed();
    EncodeSingle(SignatureTree(rawRs));
    der := b.Take();
  }

  lemma EncodeSingle(d: Der)
    ensures EncodeAll([] + [d]) == Encode(d)
  {
    hide Encode;
    EncodeAllSnoc([], d);
    EncodeNothing();
    Unit(Encode(d));
  }

  /** Before the end of the sequence the output is short. */
  lemma SmallOutput(out: seq<byte>, pending: seq<nat>, t: Trees, rs: seq<byte>)
    requires |rs| == 64 && Represents(Machine(out, pending), t)
    requires t == Trees([Open(TAG_SEQUENCE, [])], SignatureTree(rs).children)
    ensures |out| < SIZE_LIMIT
  {
    hide Stripped;
    var r, s := Leaf(Integer(rs[..32])), Leaf(Integer(rs[32..]));
    StrippedShort(rs[..32]);
    StrippedShort(rs[32..]);
    EncodedLength(r.tag, r.value);
    EncodedLength(s.tag, s.value);
    hide Encode, IntegerBody;
    EncodeAllSnoc([r], s);
    EncodeAllSnoc([], r);
    EncodeNothing();
    assert [r] + [s] == [r, s] && [] + [r] == [r];
    assert t.open[..0] == [];
    assert OpenBytes([]) == [];
    assert |OpenBytes(t.open)| == 2;
  }
}
