/** The handshake readers as the program runs them: a cursor over the body. */
module DtlsDecoders {
  import opened Bytes
  import opened SeqFacts
  import opened DtlsHandshake

  method WrapHandshakeUnfragmented(m: Message, messageSeq: u16) returns (out: seq<byte>)
    ensures out == Wrapped(m, messageSeq)
  {
    hide BE24, BE16;
    var h := Header(m.kind, |m.body|, messageSeq, 0, |m.body|);
    out := HeaderBytes(h);
    if m.body != [] {
      out := out + m.body;
    }
  }

  method DecodeHelloVerifyRequest(b: seq<byte>) returns (cookie: Option<seq<byte>>)
    ensures cookie == ReadCookie(b)
  {
    if |b| < 3 {
      return None;
    }
    var cookieLen := b[2];
    if 3 + cookieLen as int > |b| {
      return None;
    }
    cookie := Some(b[3..3 + cookieLen]);
  }

  method DecodeServerHello(b: seq<byte>) returns (out: Option<ServerHello>)
    ensures out == ReadServerHello(b)
  {
    hide Read16, ReadExtensions;
    var pos: nat := 0;
    if |b| < 2 + 32 + 1 {
      return None;
    }
    var version := Read16(b, pos);
    pos := pos + 2;
    var random := b[pos..pos + 32];
    pos := pos + 32;
    var sidLen := b[pos];
    pos := pos + 1;
    if pos + sidLen > |b| {
      return None;
    }
    var sessionId := b[pos..pos + sidLen];
    pos := pos + sidLen;
    if pos + 3 > |b| {
      return None;
    }
    var suite := Read16(b, pos);
    pos := pos + 2;
    var h := ServerHello(version, random, sessionId, suite, b[pos], false, None);
    pos := pos + 1;
    if pos == |b| {
      return Some(h);
    }
    if pos + 2 > |b| {
      return None;
    }
    var extsLen := Read16(b, pos);
    pos := pos + 2;
    if pos + extsLen > |b| {
      return None;
    }
    out := DecodeExtensions(h, b[pos..pos + extsLen]);
  }

  method DecodeExtensions(h: ServerHello, block: seq<byte>) returns (out: Option<ServerHello>)
    ensures out == ReadExtensions(h, block)
  {
    hide Read16, ApplyExtension, ReadExtensions;
    var hello := h;
    var pos := 0;
    assert block[0..] == block;
    while pos + 4 <= |block|
      invariant 0 <= pos <= |block|
      invariant ReadExtensions(h, block) == ReadExtensions(hello, block[pos..])
      decreases |block| - pos
    {
      ExtensionHere(hello, block, pos);
      var extType := Read16(block, pos);
      pos := pos + 2;
      var extLen := Read16(block, pos);
      pos := pos + 2;
      if pos + extLen > |block| {
        return None;
      }
      hello := ApplyExtension(hello, Extension(extType, block[pos..pos + extLen]));
      pos := pos + extLen;
    }
    ExtensionsEnd(hello, block[pos..]);
    out := Some(hello);
  }

  lemma ExtensionsEnd(h: ServerHello, s: seq<byte>)
    requires |s| < 4
    ensures ReadExtensions(h, s) == Some(h)
  {
  }

  lemma ReadShift(s: seq<byte>, at: nat, i: nat)
    requires at + i + 2 <= |s|
    ensures Read16(s[at..], i) == Read16(s, at + i)
  {
  }

  lemma ExtensionHere(h: ServerHello, s: seq<byte>, at: nat)
    requires at + 4 <= |s|
    ensures
      var end := at + 4 + Read16(s, at + 2);
      ReadExtensions(h, s[at..])
      == if end > |s| then None
         else ReadExtensions(ApplyExtension(h, Extension(Read16(s, at), s[at + 4..end])), s[end..])
  {
    hide Read16, ApplyExtension;
    ReadShift(s, at, 0);
    ReadShift(s, at, 2);
    var len: nat := Read16(s, at + 2);
    if at + 4 + len <= |s| {
      assert s[at..][4..4 + len] == s[at + 4..at + 4 + len];
      DropDrop(s, at, 4 + len);
    }
  }

  method DecodeCertificate(b: seq<byte>) returns (out: Option<seq<seq<byte>>>)
    ensures out == ReadCertificates(b)
  {
    hide Read24, ReadChain;
    if |b| < 3 {
      return None;
    }
    var listLen := Read24(b, 0);
    if 3 + listLen > |b| {
      return None;
    }
    var list := b[3..3 + listLen];
    var chain: seq<seq<byte>> := [];
    var pos := 0;
    assert list[0..] == list;
    ghost var all := ReadChain(list);
    while pos + 3 <= |list|
      invariant 0 <= pos <= |list|
      invariant all.Some? <==> ReadChain(list[pos..]).Some?
      invariant all.Some? ==> all.value == chain + ReadChain(list[pos..]).value
      decreases |list| - pos
    {
      ChainHere(list, pos);
      var certLen := Read24(list, pos);
      pos := pos + 3;
      if pos + certLen > |list| {
        return None;
      }
      var cert := list[pos..pos + certLen];
      pos := pos + certLen;
      ghost var rest := ReadChain(list[pos..]);
      if rest.Some? {
        Assoc(chain, [cert], rest.value);
      }
      chain := chain + [cert];
    }
    ChainEnd(list[pos..]);
    Unit(chain);
    out := Some(chain);
  }

  lemma ChainEnd(s: seq<byte>)
    requires |s| < 3
    ensures ReadChain(s) == Some([])
  {
  }

  lemma ChainHere(s: seq<byte>, at: nat)
    requires at + 3 <= |s|
    ensures
      var end := at + 3 + Read24(s, at);
      ReadChain(s[at..])
      == if end > |s| then None
         else
           var rest := ReadChain(s[end..]);
           if rest.None? then None else Some([s[at + 3..end]] + rest.value)
  {
    assert Read24(s[at..], 0) == Read24(s, at);
    hide Read24;
    var len := Read24(s, at);
    if at + 3 + len <= |s| {
      assert s[at..][3..3 + len] == s[at + 3..at + 3 + len];
      DropDrop(s, at, 3 + len);
    }
  }

  method DecodeServerKeyExchange(b: seq<byte>) returns (out: Option<KeyExchange>)
    ensures out == ReadKeyExchange(b)
  {
    hide Read16;
    if |b| < 4 {
      return None;
    }
    var pos: nat := 0;
    var curveType := b[pos];
    pos := pos + 1;
    if curveType != 3 {
      return None;
    }
    var namedCurve := Read16(b, pos);
    pos := pos + 2;
    var pointLen := b[pos];
    pos := pos + 1;
    if pos + pointLen > |b| {
      return None;
    }
    var point := b[pos..pos + pointLen];
    var signedParams := b[..pos + pointLen];
    pos := pos + pointLen;
    if pos + 2 > |b| {
      return None;
    }
    var hash, algorithm := b[pos], b[pos + 1];
    pos := pos + 2;
    if pos + 2 > |b| {
      return None;
    }
    var sigLen := Read16(b, pos);
    pos := pos + 2;
    if pos + sigLen > |b| {
      return None;
    }
    out := Some(KeyExchange(namedCurve, point, hash, algorithm, b[pos..pos + sigLen], signedParams));
  }
}
