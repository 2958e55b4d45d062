/**
  DER as a recursive encoding of trees (sections 8.1.3, 8.3 and 10.1 of X.690), and the
  builder's commands: as a machine that patches lengths in afterwards, and as a builder of
  trees.
*/
module Asn1Spec {
  import opened Bytes
  import opened SeqFacts

  // ---------------------------------------------------------------------------
  // Trees
  // ---------------------------------------------------------------------------

  datatype Der =
    | Primitive(tag: byte, value: seq<byte>)
    | Constructed(tag: byte, children: seq<Der>)
    | Verbatim(bytes: seq<byte>)

  /** The number of bytes of a number without leading zeros. */
  function ByteCount(v: nat): nat {
    if v == 0 then 0 else 1 + ByteCount(v / 256)
  }

  /** Short form below 128, otherwise the fewest bytes that hold the length. */
  function Length(len: nat): (s: seq<byte>)
    ensures |s| >= 1
  {
    if len < 0x80 then [len] else [(0x80 + ByteCount(len)) % 0x100] + ToBE(len, ByteCount(len))
  }

  function Encode(d: Der): seq<byte>
    decreases d, 1
  {
    match d
    case Primitive(tag, value) => [tag] + Length(|value|) + value
    case Constructed(tag, children) => [tag] + Length(|EncodeAll(children)|) + EncodeAll(children)
    case Verbatim(bytes) => bytes
  }

  function EncodeAll(ds: seq<Der>): seq<byte>
    decreases ds, 0
  {
    if ds == [] then [] else Encode(ds[0]) + EncodeAll(ds[1..])
  }

  // ---------------------------------------------------------------------------
  // Integers
  // ---------------------------------------------------------------------------

  /** Leading zeros dropped while the next byte still shows a non-negative number. */
  function Stripped(data: seq<byte>): seq<byte> {
    if |data| >= 2 && data[0] == 0 && data[1] < 0x80 then Stripped(data[1..]) else data
  }

  /** The contents of an INTEGER for an unsigned big-endian number. */
  function IntegerBody(data: seq<byte>): seq<byte> {
    var s := Stripped(data);
    if s == [] then [0] else if s[0] >= 0x80 then [0] + s else s
  }

  /** Leading 0xFF bytes dropped likewise for negative numbers. */
  function StrippedNegative(data: seq<byte>): seq<byte> {
    if |data| >= 2 && data[0] == 0xFF && data[1] >= 0x80 then StrippedNegative(data[1..]) else data
  }

  function SmallBody(value: int): seq<byte> {
    var data := ToBE(value % 0x1_0000_0000_0000_0000, 8);
    IntegerBody(if value < 0 then StrippedNegative(data) else Stripped(data))
  }

  /** What the contents of an INTEGER mean: two's complement. */
  function SignedValue(body: seq<byte>): int {
    if body != [] && body[0] >= 0x80 then FromBE(body) - Pow256(|body|) else FromBE(body)
  }

  // ---------------------------------------------------------------------------
  // Commands
  // ---------------------------------------------------------------------------

  datatype Command =
    | Begin(tag: byte) | End
    | Raw(bytes: seq<byte>) | Value(tag: byte, value: seq<byte>)
    | Integer(data: seq<byte>) | Small(number: int)
    | BitString(bits: seq<byte>, unused: byte) | OctetString(octets: seq<byte>)

  const TAG_INTEGER: byte := 0x02
  const TAG_BIT_STRING: byte := 0x03
  const TAG_OCTET_STRING: byte := 0x04
  const TAG_SEQUENCE: byte := 0x30

  /** What a writing command adds. */
  function Leaf(c: Command): Der
    requires !c.Begin? && !c.End?
  {
    match c
    case Raw(bytes) => Verbatim(bytes)
    case Value(tag, value) => Primitive(tag, value)
    case Integer(data) => Primitive(TAG_INTEGER, IntegerBody(data))
    case Small(number) => Primitive(TAG_INTEGER, SmallBody(number))
    case BitString(bits, unused) => Primitive(TAG_BIT_STRING, [unused] + bits)
    case OctetString(octets) => Primitive(TAG_OCTET_STRING, octets)
  }

  /** The builder of trees: open elements with what precedes them, and what is being collected. */
  datatype Open = Open(tag: byte, before: seq<Der>)
  datatype Trees = Trees(open: seq<Open>, current: seq<Der>)

  const NOTHING := Trees([], [])

  function BuildStep(t: Trees, c: Command): Option<Trees> {
    match c
    case Begin(tag) => Some(Trees(t.open + [Open(tag, t.current)], []))
    case End =>
      if t.open == [] then None
      else
        var last := t.open[|t.open| - 1];
        Some(Trees(t.open[..|t.open| - 1], last.before + [Constructed(last.tag, t.current)]))
    case _ => Some(Trees(t.open, t.current + [Leaf(c)]))
  }

  function Build(t: Trees, commands: seq<Command>): Option<Trees>
    decreases |commands|
  {
    if commands == [] then Some(t)
    else
      var next := BuildStep(t, commands[0]);
      if next.None? then None else Build(next.value, commands[1..])
  }

  /** The depth after the commands, if no End goes below the ground. */
  function Depth(d: nat, commands: seq<Command>): Option<nat>
    decreases |commands|
  {
    if commands == [] then Some(d)
    else if commands[0].Begin? then Depth(d + 1, commands[1..])
    else if commands[0].End? then if d == 0 then None else Depth(d - 1, commands[1..])
    else Depth(d, commands[1..])
  }

  predicate WellNested(commands: seq<Command>) {
    Depth(0, commands) == Some(0)
  }

  /** The machine: output so far and where lengths are still missing. */
  datatype Machine = Machine(out: seq<byte>, pending: seq<nat>)

  const IDLE := Machine([], [])

  function MachineStep(m: Machine, c: Command): Option<Machine> {
    match c
    case Begin(tag) => Some(Machine(m.out + [tag, 0], m.pending + [|m.out| + 1]))
    case End =>
      if m.pending == [] || m.pending[|m.pending| - 1] >= |m.out| then None
      else
        var at := m.pending[|m.pending| - 1];
        Some(Machine(m.out[..at] + Length(|m.out| - (at + 1)) + m.out[at + 1..], m.pending[..|m.pending| - 1]))
    case _ => Some(Machine(m.out + Encode(Leaf(c)), m.pending))
  }

  function RunMachine(m: Machine, commands: seq<Command>): Option<Machine>
    decreases |commands|
  {
    if commands == [] then Some(m)
    else
      var next := MachineStep(m, commands[0]);
      if next.None? then None else RunMachine(next.value, commands[1..])
  }

  function RawRsToDer(rs: seq<byte>): seq<byte> {
    if |rs| != 64 then []
    else Encode(Constructed(TAG_SEQUENCE, [Leaf(Integer(rs[..32])), Leaf(Integer(rs[32..]))]))
  }

  // ---------------------------------------------------------------------------
  // Reading
  // ---------------------------------------------------------------------------

  datatype Prefix = Prefix(len: nat, used: nat)

  function ReadLength(s: seq<byte>): (r: Option<Prefix>)
    ensures r.Some? ==> 1 <= r.value.used <= |s|
  {
    if s == [] then None
    else if s[0] < 0x80 then Some(Prefix(s[0], 1))
    else
      var n := s[0] - 0x80;
      if n == 0 || |s| < 1 + n then None else Some(Prefix(FromBE(s[1..1 + n]), 1 + n))
  }

  /** Bit 6 of the tag marks a constructed element. */
  predicate IsConstructed(tag: byte) {
    tag / 0x20 % 2 == 1
  }

  function ParseAll(s: seq<byte>): Option<seq<Der>>
    decreases |s|
  {
    if s == [] then Some([])
    else
      var p := ReadLength(s[1..]);
      if p.None? || 1 + p.value.used + p.value.len > |s| then None
      else
        var head := 1 + p.value.used;
        var content := s[head..head + p.value.len];
        var rest := ParseAll(s[head + p.value.len..]);
        if rest.None? then None
        else if !IsConstructed(s[0]) then Some([Primitive(s[0], content)] + rest.value)
        else
          var children := ParseAll(content);
          if children.None? then None else Some([Constructed(s[0], children.value)] + rest.value)
  }
}
