/** Back-patching computes the recursive encoding, and the encoding can be read back. */
module Asn1Laws {
  import opened Bytes
  import opened SeqFacts
  import opened Asn1Spec

  // ---------------------------------------------------------------------------
  // The machine refines the tree builder
  // ---------------------------------------------------------------------------

  lemma {:induction false} EncodeAllAppend(a: seq<Der>, b: seq<Der>)
    ensures EncodeAll(a + b) == EncodeAll(a) + EncodeAll(b)
    decreases |a|
  {
    hide Encode;
    if a == [] {
      Unit(b);
    } else {
      assert (a + b)[1..] == a[1..] + b;
      EncodeAllAppend(a[1..], b);
      Assoc(Encode(a[0]), EncodeAll(a[1..]), EncodeAll(b));
    }
  }

  lemma EncodeAllSnoc(a: seq<Der>, d: Der)
    ensures EncodeAll(a + [d]) == EncodeAll(a) + Encode(d)
  {
    hide Encode;
    EncodeAllAppend(a, [d]);
    assert [d][1..] == [];
  }

  /** The output that open elements have produced: their tag and a placeholder. */
  function OpenBytes(open: seq<Open>): seq<byte> {
    if open == [] then []
    else
      var last := open[|open| - 1];
      OpenBytes(open[..|open| - 1]) + EncodeAll(last.before) + [last.tag, 0]
  }

  function Offsets(open: seq<Open>): seq<nat>
    decreases |open|
  {
    if open == [] then []
    else
      OpenBytesGrow(open);
      Offsets(open[..|open| - 1]) + [|OpenBytes(open)| - 1]
  }

  lemma OpenBytesGrow(open: seq<Open>)
    requires open != []
    ensures |OpenBytes(open)| >= 2
  {
  }

  ghost predicate Represents(m: Machine, t: Trees) {
    m.out == OpenBytes(t.open) + EncodeAll(t.current) && m.pending == Offsets(t.open)
  }

  lemma PatchLength(front: seq<byte>, tag: byte, content: seq<byte>)
    ensures
      var out := front + [tag, 0] + content;
      var at := |front| + 1;
      out[..at] + Length(|out| - (at + 1)) + out[at + 1..] == front + ([tag] + Length(|content|) + content)
  {
    hide Length;
    var out := front + [tag, 0] + content;
    var l := Length(|content|);
    DropPrefix(front + [tag, 0], content);
    assert out[..|front| + 1] == front + [tag];
    Assoc(front, [tag], l);
    Assoc(front, [tag] + l, content);
  }

  lemma BeginRepresents(m: Machine, t: Trees, tag: byte)
    requires Represents(m, t)
    ensures
      var t' := Trees(t.open + [Open(tag, t.current)], []);
      Represents(Machine(m.out + [tag, 0], m.pending + [|m.out| + 1]), t')
  {
    Snoc(t.open, Open(tag, t.current));
    Unit(m.out + [tag, 0]);
  }

  lemma EndRepresents(m: Machine, t: Trees)
    requires Represents(m, t) && t.open != []
    ensures MachineStep(m, End).Some? && Represents(MachineStep(m, End).value, BuildStep(t, End).value)
  {
    hide EncodeAll, Encode, Length;
    var last, front := t.open[|t.open| - 1], t.open[..|t.open| - 1];
    var before := OpenBytes(front) + EncodeAll(last.before);
    PatchLength(before, last.tag, EncodeAll(t.current));
    EncodeConstructed(last.tag, t.current);
    EncodeAllSnoc(last.before, Constructed(last.tag, t.current));
    Assoc(OpenBytes(front), EncodeAll(last.before), Encode(Constructed(last.tag, t.current)));
    Snoc(Offsets(front), |OpenBytes(t.open)| - 1);
  }

  lemma EncodeConstructed(tag: byte, children: seq<Der>)
    ensures Encode(Constructed(tag, children)) == [tag] + Length(|EncodeAll(children)|) + EncodeAll(children)
  {
  }

  lemma LeafRepresents(m: Machine, t: Trees, leaf: Der)
    requires Represents(m, t)
    ensures Represents(Machine(m.out + Encode(leaf), m.pending), Trees(t.open, t.current + [leaf]))
  {
    hide OpenBytes, Encode, EncodeAll, Offsets;
    EncodeAllSnoc(t.current, leaf);
    Assoc(OpenBytes(t.open), EncodeAll(t.current), Encode(leaf));
  }

  lemma StepRepresents(m: Machine, t: Trees, c: Command)
    requires Represents(m, t)
    ensures MachineStep(m, c).Some? <==> BuildStep(t, c).Some?
    ensures MachineStep(m, c).Some? ==> Represents(MachineStep(m, c).value, BuildStep(t, c).value)
  {
    hide Encode, EncodeAll, OpenBytes, Length, Leaf;
    match c
    case Begin(tag) => BeginRepresents(m, t, tag);
    case End =>
      if t.open != [] {
        hide Represents;
        EndRepresents(m, t);
      }
    case _ => LeafRepresents(m, t, Leaf(c));
  }

  /** After any commands the patched output is that of the trees built so far. */
  lemma {:induction false} RunRepresents(m: Machine, t: Trees, commands: seq<Command>)
    requires Represents(m, t)
    ensures RunMachine(m, commands).Some? <==> Build(t, commands).Some?
    ensures RunMachine(m, commands).Some? ==> Represents(RunMachine(m, commands).value, Build(t, commands).value)
    decreases |commands|
  {
    hide Represents, MachineStep, BuildStep;
    if commands != [] {
      StepRepresents(m, t, commands[0]);
      if BuildStep(t, commands[0]).Some? {
        RunRepresents(MachineStep(m, commands[0]).value, BuildStep(t, commands[0]).value, commands[1..]);
      }
    }
  }

  lemma {:induction false} DepthIsOpen(t: Trees, commands: seq<Command>)
    ensures Build(t, commands).Some? <==> Depth(|t.open|, commands).Some?
    ensures Build(t, commands).Some? ==> |Build(t, commands).value.open| == Depth(|t.open|, commands).value
    decreases |commands|
  {
    hide Leaf;
    if commands != [] && BuildStep(t, commands[0]).Some? {
      DepthIsOpen(BuildStep(t, commands[0]).value, commands[1..]);
    }
  }

  /**
    For every well-nested command sequence the machine ends with no length missing, and its
    output is the recursive encoding of the trees the commands describe.
  */
  lemma PatchingEncodes(commands: seq<Command>)
    requires WellNested(commands)
    ensures
      var built := Build(NOTHING, commands);
      && built.Some? && built.value.open == []
      && RunMachine(IDLE, commands) == Some(Machine(EncodeAll(built.value.current), []))
  {
    hide RunMachine, Build, Depth, EncodeAll;
    EncodeNothing();
    DepthIsOpen(NOTHING, commands);
    RunRepresents(IDLE, NOTHING, commands);
    Unit(EncodeAll(Build(NOTHING, commands).value.current));
  }

  lemma EncodeNothing()
    ensures EncodeAll([]) == []
  {
  }

  // ---------------------------------------------------------------------------
  // Lengths
  // ---------------------------------------------------------------------------

  lemma {:induction false} ByteCountHolds(v: nat)
    ensures v < Pow256(ByteCount(v))
    ensures v > 0 ==> v >= Pow256(ByteCount(v) - 1)
  {
    if v > 0 {
      ByteCountHolds(v / 256);
    }
  }

  lemma {:induction false} ByteCountBound(v: nat, n: nat)
    requires v < Pow256(n)
    ensures ByteCount(v) <= n
  {
    if v > 0 {
      ByteCountBound(v / 256, n - 1);
    }
  }

  /** No shorter string of bytes holds the length: the encoding is minimal. */
  lemma LengthIsMinimal(len: nat, n: nat)
    requires len >= 0x80 && n < |Length(len)| - 1
    ensures Pow256(n) <= len
  {
    ByteCountHolds(len);
    PowGrows(n, ByteCount(len) - 1);
  }

  lemma {:induction false} PowGrows(m: nat, n: nat)
    requires m <= n
    ensures Pow256(m) <= Pow256(n)
  {
    if m < n {
      PowGrows(m, n - 1);
    }
  }

  const SIZE_LIMIT := 0x1_0000_0000_0000_0000

  lemma ByteCount64(len: nat)
    requires len < SIZE_LIMIT
    ensures ByteCount(len) <= 8
  {
    assert Pow256(4) == 0x1_0000_0000;
    assert Pow256(6) == 0x1_0000_0000_0000;
    assert Pow256(8) == SIZE_LIMIT;
    ByteCountBound(len, 8);
  }

  lemma ReadLengthOf(len: nat, rest: seq<byte>)
    requires len < SIZE_LIMIT
    ensures ReadLength(Length(len) + rest) == Some(Prefix(len, |Length(len)|))
  {
    hide ToBE, FromBE;
    if len >= 0x80 {
      var n := ByteCount(len);
      ByteCount64(len);
      ByteCountHolds(len);
      FromBEToBE(len, n);
      DropPrefix([(0x80 + n) % 0x100], ToBE(len, n));
      assert (Length(len) + rest)[1..1 + n] == ToBE(len, n);
    }
  }

  // ---------------------------------------------------------------------------
  // Reading trees back
  // ---------------------------------------------------------------------------

  /** Tags tell primitive from constructed elements, and nothing is written verbatim. */
  ghost predicate Tagged(d: Der)
    decreases d
  {
    match d
    case Primitive(tag, value) => !IsConstructed(tag)
    case Constructed(tag, children) =>
      IsConstructed(tag) && forall i :: 0 <= i < |children| ==> Tagged(children[i])
    case Verbatim(bytes) => false
  }

  lemma ParseFirst(tag: byte, content: seq<byte>, rest: seq<byte>)
    requires |content| < SIZE_LIMIT
    ensures
      var s := [tag] + Length(|content|) + content + rest;
      var head := 1 + |Length(|content|)|;
      && s[0] == tag && ReadLength(s[1..]) == Some(Prefix(|content|, head - 1))
      && s[head..head + |content|] == content && s[head + |content|..] == rest
  {
    hide Length, ReadLength;
    var l := Length(|content|);
    var s := [tag] + l + content + rest;
    Slice([tag] + l, content, rest);
    DropPrefix([tag] + l + content, rest);
    Assoc([tag] + l, content, rest);
    Assoc([tag], l, content + rest);
    DropPrefix([tag], l + (content + rest));
    ReadLengthOf(|content|, content + rest);
  }

  lemma ParsePrimitive(tag: byte, value: seq<byte>, rest: seq<byte>)
    requires !IsConstructed(tag) && |value| < SIZE_LIMIT
    ensures
      ParseAll(Encode(Primitive(tag, value)) + rest)
      == var r := ParseAll(rest); if r.None? then None else Some([Primitive(tag, value)] + r.value)
  {
    hide Length, ReadLength;
    ParseFirst(tag, value, rest);
  }

  lemma ParseConstructed(tag: byte, children: seq<Der>, rest: seq<byte>)
    requires IsConstructed(tag) && |EncodeAll(children)| < SIZE_LIMIT
    requires ParseAll(EncodeAll(children)) == Some(children)
    ensures
      ParseAll(Encode(Constructed(tag, children)) + rest)
      == var r := ParseAll(rest); if r.None? then None else Some([Constructed(tag, children)] + r.value)
  {
    hide Length, ReadLength, EncodeAll;
    ParseFirst(tag, EncodeAll(children), rest);
  }

  /** Every tagged forest is read back from its encoding. */
  lemma {:induction false} ParseEncode(ds: seq<Der>)
    requires |EncodeAll(ds)| < SIZE_LIMIT
    requires forall i :: 0 <= i < |ds| ==> Tagged(ds[i])
    ensures ParseAll(EncodeAll(ds)) == Some(ds)
    decreases ds
  {
    hide ParseAll, Length;
    if ds == [] {
      ParseNothing();
    } else {
      var d, rest := ds[0], EncodeAll(ds[1..]);
      assert Tagged(d);
      ParseEncode(ds[1..]);
      FirstRest(ds);
      match d
      case Primitive(tag, value) => ParsePrimitive(tag, value, rest);
      case Constructed(tag, children) =>
        ParseEncode(children);
        ParseConstructed(tag, children, rest);
    }
  }

  lemma ParseNothing()
    ensures ParseAll([]) == Some([])
  {
  }

  // ---------------------------------------------------------------------------
  // Integers
  // ---------------------------------------------------------------------------

  /** At least one byte, non-negative, and no byte could be dropped. */
  predicate IsMinimal(body: seq<byte>) {
    body != [] && body[0] < 0x80 && (|body| >= 2 && body[0] == 0 ==> body[1] >= 0x80)
  }

  lemma {:induction false} StrippedKeeps(data: seq<byte>)
    ensures FromBE(Stripped(data)) == FromBE(data)
    ensures (Stripped(data) == []) == (data == [])
    ensures |Stripped(data)| >= 2 && Stripped(data)[0] == 0 ==> Stripped(data)[1] >= 0x80
  {
    hide FromBE;
    if |data| >= 2 && data[0] == 0 && data[1] < 0x80 {
      StrippedKeeps(data[1..]);
      FromBELeadingZero(data[1..]);
      FirstRest(data);
    }
  }

  /** An INTEGER's contents are minimal and mean the unsigned value of the bytes given. */
  lemma IntegerBodyMeans(data: seq<byte>)
    ensures IsMinimal(IntegerBody(data))
    ensures SignedValue(IntegerBody(data)) == FromBE(data)
  {
    hide FromBE, Stripped;
    StrippedKeeps(data);
    var s := Stripped(data);
    if s == [] {
      EmptyIsZero();
    } else if s[0] >= 0x80 {
      FromBELeadingZero(s);
    }
  }

  lemma EmptyIsZero()
    ensures FromBE([]) == 0 && FromBE([0]) == 0
  {
    assert [0][..0] == [];
  }

  lemma {:induction false} FromBEFirst(s: seq<byte>)
    requires s != []
    ensures FromBE(s) == s[0] * Pow256(|s| - 1) + FromBE(s[1..])
  {
    if |s| == 1 {
      assert s[..0] == [] && s[1..] == [];
    } else {
      var front, last := s[..|s| - 1], s[|s| - 1];
      FromBEFirst(front);
      assert s[1..][..|s| - 2] == front[1..];
      assert FromBE(s[1..]) == 256 * FromBE(front[1..]) + last;
    }
  }

  /** The length of minimal contents follows from the value, so DER integers are canonical. */
  lemma MinimalLength(body: seq<byte>)
    requires IsMinimal(body) && |body| >= 2
    ensures 2 * FromBE(body) >= Pow256(|body| - 1)
    ensures 2 * FromBE(body) < Pow256(|body|)
  {
    hide FromBE, Pow256;
    var p, q := Pow256(|body| - 1), Pow256(|body| - 2);
    PowStep(|body| - 1);
    PowStep(|body| - 2);
    FromBEFirst(body);
    FromBEFirst(body[1..]);
    FromBEBound(body[1..]);
    if body[0] == 0 {
      Product(body[1], 0x80, q);
    } else {
      Product(body[0], 1, p);
    }
    Product(0x7F, body[0], p);
  }

  lemma PowStep(n: nat)
    ensures Pow256(n + 1) == 256 * Pow256(n)
  {
  }

  lemma Product(a: nat, b: nat, p: nat)
    requires a >= b
    ensures a * p >= b * p
  {
  }

  lemma MinimalUnique(a: seq<byte>, b: seq<byte>)
    requires IsMinimal(a) && IsMinimal(b) && FromBE(a) == FromBE(b)
    ensures a == b
  {
    hide FromBE, Pow256;
    if |a| < |b| {
      MinimalShorter(a, b);
    } else if |b| < |a| {
      MinimalShorter(b, a);
    }
    ToBEFromBE(a);
    ToBEFromBE(b);
  }

  lemma MinimalShorter(a: seq<byte>, b: seq<byte>)
    requires IsMinimal(a) && IsMinimal(b) && |a| < |b|
    ensures FromBE(a) != FromBE(b)
  {
    hide FromBE, Pow256;
    MinimalLength(b);
    PowGrows(|a|, |b| - 1);
    if |a| >= 2 {
      MinimalLength(a);
    } else {
      OneByte(a);
    }
  }

  lemma OneByte(a: seq<byte>)
    requires |a| == 1
    ensures FromBE(a) == a[0] && Pow256(1) == 256
  {
    assert a[..0] == [];
  }

  lemma StrippedSmall(value: int)
    requires 0 <= value < SIZE_LIMIT
    ensures FromBE(Stripped(ToBE(value % SIZE_LIMIT, 8))) == value
  {
    hide FromBE, ToBE, Stripped, Pow256;
    Pow256Of8();
    FromBEToBE(value, 8);
    StrippedKeeps(ToBE(value % SIZE_LIMIT, 8));
  }

  lemma Pow256Of8()
    ensures Pow256(8) == SIZE_LIMIT
  {
    assert Pow256(4) == 0x1_0000_0000;
    assert Pow256(6) == 0x1_0000_0000_0000;
  }

  /** A 64-bit number is encoded with its value exactly if it is not negative. */
  lemma SmallMeansIff(value: int)
    requires -0x8000_0000_0000_0000 <= value < 0x8000_0000_0000_0000
    ensures SignedValue(SmallBody(value)) == value <==> value >= 0
  {
    hide FromBE, ToBE, Stripped, StrippedNegative, IntegerBody, SignedValue;
    var data := ToBE(value % SIZE_LIMIT, 8);
    if value >= 0 {
      StrippedSmall(value);
      IntegerBodyMeans(Stripped(data));
    } else {
      IntegerBodyMeans(StrippedNegative(data));
    }
  }

  /** A first byte with the sign bit, and no byte could be dropped. */
  predicate IsMinimalNegative(body: seq<byte>) {
    body != [] && body[0] >= 0x80 && (|body| >= 2 && body[0] == 0xFF ==> body[1] < 0x80)
  }

  lemma {:induction false} StrippedNegativeKeeps(data: seq<byte>)
    requires data != [] && data[0] >= 0x80
    ensures
      var t := StrippedNegative(data);
      IsMinimalNegative(t) && FromBE(t) - Pow256(|t|) == FromBE(data) - Pow256(|data|)
  {
    hide FromBE, Pow256;
    if |data| >= 2 && data[0] == 0xFF && data[1] >= 0x80 {
      StrippedNegativeKeeps(data[1..]);
      FromBEFirst(data);
      PowStep(|data| - 1);
    }
  }

  lemma SignBitShows(value: int)
    requires -0x8000_0000_0000_0000 <= value < 0
    ensures
      var data := ToBE(value % SIZE_LIMIT, 8);
      FromBE(data) == value + SIZE_LIMIT && data[0] >= 0x80 && Pow256(|data|) == SIZE_LIMIT
  {
    hide FromBE, ToBE, Pow256;
    var data := ToBE(value % SIZE_LIMIT, 8);
    Pow256Of8();
    FromBEToBE(value % SIZE_LIMIT, 8);
    FromBEFirst(data);
    FromBEBound(data[1..]);
    PowStep(7);
    if data[0] < 0x80 {
      Product(0x7F, data[0], Pow256(7));
    }
  }

  /**
    A negative number comes out as its minimal two's complement with a zero byte in front, which
    makes it positive again.
  */
  lemma NegativeBody(value: int)
    requires -0x8000_0000_0000_0000 <= value < 0
    ensures
      var body := SmallBody(value);
      && body[0] == 0 && IsMinimalNegative(body[1..])
      && SignedValue(body[1..]) == value && SignedValue(body) == value + Pow256(|body| - 1)
  {
    hide FromBE, ToBE, Pow256, Stripped, StrippedNegative;
    var data := ToBE(value % SIZE_LIMIT, 8);
    SignBitShows(value);
    StrippedNegativeKeeps(data);
    var t := StrippedNegative(data);
    NothingToStrip(t);
    Cons(0, t);
    FromBELeadingZero(t);
  }

  lemma NothingToStrip(t: seq<byte>)
    requires t != [] && t[0] != 0
    ensures Stripped(t) == t
  {
  }

  /** Minus one comes out as 255. */
  lemma MinusOneBecomes255()
    ensures SmallBody(-1) == [0, 0xFF]
  {
    hide ToBE, StrippedNegative, Pow256;
    Pow256Of8();
    ToBEOnes(8);
    AllOnes(ToBE(SIZE_LIMIT - 1, 8));
    StrippedNothing();
  }

  lemma StrippedNothing()
    ensures Stripped([0xFF]) == [0xFF]
  {
  }

  function Ones(n: nat): seq<byte> {
    seq(n, _ => 0xFF)
  }

  lemma {:induction false} ToBEOnes(n: nat)
    ensures ToBE(Pow256(n) - 1, n) == Ones(n)
  {
    if n > 0 {
      ToBEOnes(n - 1);
      assert (Pow256(n) - 1) / 256 == Pow256(n - 1) - 1 && (Pow256(n) - 1) % 256 == 0xFF;
      assert Ones(n) == Ones(n - 1) + [0xFF];
    }
  }

  lemma {:induction false} AllOnes(data: seq<byte>)
    requires data != [] && forall i :: 0 <= i < |data| ==> data[i] == 0xFF
    ensures StrippedNegative(data) == [0xFF]
  {
    if |data| >= 2 {
      AllOnes(data[1..]);
    }
  }

  // ---------------------------------------------------------------------------
  // Signatures
  // ---------------------------------------------------------------------------

  function SignatureTree(rs: seq<byte>): Der
    requires |rs| == 64
  {
    Constructed(TAG_SEQUENCE, [Leaf(Integer(rs[..32])), Leaf(Integer(rs[32..]))])
  }

  lemma {:induction false} StrippedShort(data: seq<byte>)
    ensures |Stripped(data)| <= |data|
  {
    if |data| >= 2 && data[0] == 0 && data[1] < 0x80 {
      StrippedShort(data[1..]);
    }
  }

  lemma SignatureLength(rs: seq<byte>)
    requires |rs| == 64
    ensures |EncodeAll([SignatureTree(rs)])| < SIZE_LIMIT
  {
    hide Stripped;
    var r, s := Leaf(Integer(rs[..32])), Leaf(Integer(rs[32..]));
    StrippedShort(rs[..32]);
    StrippedShort(rs[32..]);
    EncodedLength(r.tag, r.value);
    EncodedLength(s.tag, s.value);
    hide Encode, IntegerBody;
    EncodeAllSnoc([r], s);
    EncodeAllSnoc([], r);
    EncodeNothing();
    assert [r] + [s] == [r, s] && [] + [r] == [r];
    EncodeConstructed(TAG_SEQUENCE, [r, s]);
    EncodeAllSnoc([], SignatureTree(rs));
    assert [] + [SignatureTree(rs)] == [SignatureTree(rs)];
  }

  lemma EncodedLength(tag: byte, value: seq<byte>)
    requires |value| < 0x80
    ensures |Encode(Primitive(tag, value))| == 2 + |value|
  {
  }

  /** A 64-byte signature reads back as a sequence of two minimal integers, `r` and `s`. */
  lemma SignatureRoundTrip(rs: seq<byte>)
    requires |rs| == 64
    ensures
      var r, s := IntegerBody(rs[..32]), IntegerBody(rs[32..]);
      && ParseAll(RawRsToDer(rs))
         == Some([Constructed(TAG_SEQUENCE, [Primitive(TAG_INTEGER, r), Primitive(TAG_INTEGER, s)])])
      && SignedValue(r) == FromBE(rs[..32]) && IsMinimal(r)
      && SignedValue(s) == FromBE(rs[32..]) && IsMinimal(s)
  {
    hide ParseAll, IntegerBody, SignedValue, FromBE, IsMinimal, Encode;
    var tree := SignatureTree(rs);
    SignatureLength(rs);
    assert Tagged(tree.children[0]) && Tagged(tree.children[1]);
    assert Tagged(tree);
    ParseEncode([tree]);
    EncodeAllSnoc([], tree);
    EncodeNothing();
    assert [] + [tree] == [tree];
    Unit(Encode(tree));
    IntegerBodyMeans(rs[..32]);
    IntegerBodyMeans(rs[32..]);
  }

  /** Different raw signatures have different encodings. */
  lemma SignaturesDistinct(a: seq<byte>, b: seq<byte>)
    requires |a| == 64 && |b| == 64 && RawRsToDer(a) == RawRsToDer(b)
    ensures a == b
  {
    hide RawRsToDer, ParseAll, IntegerBody, SignedValue, FromBE, IsMinimal;
    SignatureRoundTrip(a);
    SignatureRoundTrip(b);
    ToBEFromBE(a[..32]);
    ToBEFromBE(b[..32]);
    ToBEFromBE(a[32..]);
    ToBEFromBE(b[32..]);
    SplitAt(a, 32);
    SplitAt(b, 32);
  }
}
