/**
  DTLS records and handshake messages byte by byte (section 4 of RFC 6347, section 7.4 of RFC
  5246): exactly which bytes are read as which record or message, and what the client writes.
*/
module DtlsLayout {
  import opened Bytes
  import opened SeqFacts
  import opened DtlsRecord
  import opened DtlsHandshake

  // ---------------------------------------------------------------------------
  // Numbers, most significant byte first
  // ---------------------------------------------------------------------------

  lemma Numeral16(s: seq<byte>, at: nat)
    requires at + 2 <= |s|
    ensures FromBE(s[at..at + 2]) == Read16(s, at)
  {
    var t := s[at..at + 2];
    assert t[..1][..0] == [] && t[..1][0] == s[at];
    assert FromBE(t[..1]) == s[at];
  }

  lemma Numeral24(s: seq<byte>, at: nat)
    requires at + 3 <= |s|
    ensures FromBE(s[at..at + 3]) == Read24(s, at)
  {
    hide Read16;
    var t := s[at..at + 3];
    Numeral16(s, at);
    assert t[..2] == s[at..at + 2];
    assert Read24(s, at) == 0x100 * Read16(s, at) as int + s[at + 2] by {
      Shifted24(s, at);
    }
  }

  lemma Shifted24(s: seq<byte>, at: nat)
    requires at + 3 <= |s|
    ensures Read24(s, at) == 0x100 * Read16(s, at) as int + s[at + 2]
  {
  }

  lemma Numeral48(s: seq<byte>, at: nat)
    requires at + 6 <= |s|
    ensures FromBE(s[at..at + 6]) == Read48(s, at)
  {
    hide FromBE, Read24;
    Numeral24(s, at);
    Numeral24(s, at + 3);
    ThreeMore(s[at..at + 6]);
    assert s[at..at + 6][..3] == s[at..at + 3] && s[at..at + 6][3..] == s[at + 3..at + 6];
    Shifted48(s, at);
  }

  lemma Shifted48(s: seq<byte>, at: nat)
    requires at + 6 <= |s|
    ensures Read48(s, at) == 0x100_0000 * Read24(s, at) + Read24(s, at + 3)
  {
  }

  lemma ThreeMore(t: seq<byte>)
    requires |t| == 6
    ensures FromBE(t) == 0x100_0000 * FromBE(t[..3]) + FromBE(t[3..])
  {
    var a, b := t[..3], t[3..];
    assert t[..5][..4] == t[..4] && t[..4][..3] == a;
    assert FromBE(t[..4]) == 256 * FromBE(a) + t[3];
    assert FromBE(t[..5]) == 256 * FromBE(t[..4]) + t[4];
    assert b[..2][..1] == b[..1] && b[..1][..0] == [];
    assert FromBE(b[..1]) == t[3];
    assert FromBE(b[..2]) == 256 * FromBE(b[..1]) + t[4];
  }

  lemma Two(v: u16)
    ensures ToBE(v, 2) == BE16(v)
  {
    assert ToBE(v / 256, 1) == ToBE(v / 256 / 256, 0) + [v / 256 % 256];
  }

  lemma Three(v: nat)
    requires v < LIMIT24
    ensures ToBE(v, 3) == BE24(v)
  {
    hide ToBE;
    Last(v, 3);
    Two(v / 256);
    ThreeDigits(v);
  }

  lemma ThreeDigits(v: nat)
    requires v < LIMIT24
    ensures v / 256 / 256 == v / 0x1_0000 % 0x100
    ensures v / 256 % 256 == v % 0x1_0000 / 0x100 && v % 0x1_0000 % 0x100 == v % 256
  {
  }

  lemma Last(v: nat, n: nat)
    requires n > 0
    ensures ToBE(v, n) == ToBE(v / 256, n - 1) + [v % 256]
  {
  }

  // ---------------------------------------------------------------------------
  // Records
  // ---------------------------------------------------------------------------

  /** Type, version, epoch, sequence number, length, payload. */
  predicate RecordAt(s: seq<byte>, r: Record, end: nat) {
    && |s| >= 13 && end == 13 + FromBE(s[11..13]) && end <= |s|
    && r.kind == s[0] && r.version == FromBE(s[1..3]) && r.epoch == FromBE(s[3..5])
    && r.sequence == FromBE(s[5..11]) && r.payload == s[13..end]
  }

  lemma RecordReadIff(s: seq<byte>, r: Record, end: nat)
    ensures ReadRecord(s) == Some(Decoded(r, end)) <==> RecordAt(s, r, end)
  {
    hide FromBE, Read16, Read48;
    if |s| >= 13 {
      Numeral16(s, 1);
      Numeral16(s, 3);
      Numeral48(s, 5);
      Numeral16(s, 11);
    }
  }

  /** So this is what is written, as far as the header's fields reach. */
  lemma RecordWritten(r: Record)
    requires r.sequence < 0x1_0000_0000_0000 && |r.payload| < 0x1_0000
    ensures RecordAt(RecordBytes(r), r, |RecordBytes(r)|)
  {
    hide RecordBytes, RecordAt, ReadRecord;
    RecordRoundTrip(r, []);
    Unit(RecordBytes(r));
    RecordReadIff(RecordBytes(r), r, |RecordBytes(r)|);
  }

  // ---------------------------------------------------------------------------
  // Handshake headers and the transcript
  // ---------------------------------------------------------------------------

  /** Type, length, message number, offset and length of the fragment. */
  predicate HeaderAt(s: seq<byte>, h: Header) {
    && |s| >= 12 && h.kind == s[0] && h.length == FromBE(s[1..4]) && h.messageSeq == FromBE(s[4..6])
    && h.fragmentOffset == FromBE(s[6..9]) && h.fragmentLength == FromBE(s[9..12])
  }

  lemma HeaderReadIff(s: seq<byte>, h: Header)
    requires |s| >= 12
    ensures ReadHeader(s) == h <==> HeaderAt(s, h)
  {
    hide FromBE, Read16, Read24;
    Numeral24(s, 1);
    Numeral16(s, 4);
    Numeral24(s, 6);
    Numeral24(s, 9);
  }

  /** A message goes out in one piece behind such a header. */
  lemma MessageWritten(m: Message, number: u16)
    requires |m.body| < 0x100_0000
    ensures
      var s := Wrapped(m, number);
      && HeaderAt(s, Header(m.kind, |m.body|, number, 0, |m.body|))
      && s[12..] == m.body
  {
    hide HeaderBytes, ReadHeader, HeaderAt;
    var h := Header(m.kind, |m.body|, number, 0, |m.body|);
    HeaderRoundTrip(h, m.body);
    HeaderReadIff(HeaderBytes(h) + m.body, h);
    DropPrefix(HeaderBytes(h), m.body);
  }

  /** What is hashed: type and length, and the body, for one message after the other. */
  function Hashed(log: seq<Message>): seq<byte> {
    if log == [] then []
    else
      var m := log[|log| - 1];
      Hashed(log[..|log| - 1]) + ([m.kind] + ToBE(|m.body|, 3) + m.body)
  }

  lemma {:induction false} TranscriptIs(log: seq<Message>)
    requires forall i :: 0 <= i < |log| ==> |log[i].body| < 0x100_0000
    ensures Transcript(log) == Hashed(log)
  {
    hide ToBE, BE24, Transcript;
    if log != [] {
      var front, m := log[..|log| - 1], log[|log| - 1];
      TranscriptIs(front);
      Three(|m.body|);
      FrontLast(log);
      TranscriptAppend(front, m);
    } else {
      NothingHashed();
    }
  }

  lemma NothingHashed()
    ensures Transcript([]) == []
  {
  }

  // ---------------------------------------------------------------------------
  // What the client reads
  // ---------------------------------------------------------------------------

  lemma CookieReadIff(b: seq<byte>, cookie: seq<byte>)
    ensures ReadCookie(b) == Some(cookie) <==> |b| >= 3 + |cookie| && b[2] == |cookie| && b[3..3 + |cookie|] == cookie
  {
  }

  /** Extensions one after the other: type, length, value. */
  function ExtensionsLaid(es: seq<Extension>): seq<byte> {
    if es == [] then []
    else ToBE(es[0].kind, 2) + ToBE(|es[0].value|, 2) + es[0].value + ExtensionsLaid(es[1..])
  }

  predicate Values16(es: seq<Extension>) {
    forall i :: 0 <= i < |es| ==> |es[i].value| < 0x1_0000
  }

  lemma {:induction false} ExtensionsAreRead(h: ServerHello, es: seq<Extension>, tail: seq<byte>)
    requires Values16(es) && |tail| < 4
    ensures ReadExtensions(h, ExtensionsLaid(es) + tail) == Some(ApplyExtensions(h, es))
    decreases |es|
  {
    hide ApplyExtension, ToBE, BE16, Read16;
    if es == [] {
      Unit(tail);
    } else {
      var e, rest := es[0], ExtensionsLaid(es[1..]) + tail;
      Two(e.kind);
      Two(|e.value|);
      Assoc(ExtensionBytes(e), ExtensionsLaid(es[1..]), tail);
      ExtensionFields(e, rest);
      ExtensionsAreRead(ApplyExtension(h, e), es[1..], tail);
    }
  }

  lemma {:induction false} ExtensionsWereLaid(h: ServerHello, s: seq<byte>) returns (es: seq<Extension>, tail: seq<byte>)
    requires ReadExtensions(h, s).Some?
    ensures Values16(es) && |tail| < 4 && s == ExtensionsLaid(es) + tail
    decreases |s|
  {
    hide ApplyExtension, ToBE, BE16, Read16;
    if |s| < 4 {
      es, tail := [], s;
      Unit(s);
    } else {
      var end := 4 + Read16(s, 2);
      var e := Extension(Read16(s, 0), s[4..end]);
      var more;
      more, tail := ExtensionsWereLaid(ApplyExtension(h, e), s[end..]);
      es := [e] + more;
      Cons(e, more);
      FirstExtension(s, e, end);
      Assoc(ToBE(e.kind, 2) + ToBE(|e.value|, 2) + e.value, ExtensionsLaid(more), tail);
      SplitAt(s, end);
    }
  }

  lemma FirstExtension(s: seq<byte>, e: Extension, end: nat)
    requires |s| >= 4 && end == 4 + Read16(s, 2) && end <= |s| && e == Extension(Read16(s, 0), s[4..end])
    ensures ToBE(e.kind, 2) + ToBE(|e.value|, 2) + e.value == s[..end]
  {
    hide ToBE, BE16, Read16;
    Two(e.kind);
    Two(|e.value|);
    BE16Read16(s, 0);
    BE16Read16(s, 2);
    assert s[0..2] + s[2..4] + s[4..end] == s[..end];
  }

  ghost predicate ExtensionsOf(s: seq<byte>, es: seq<Extension>) {
    Values16(es) && exists tail :: |tail| < 4 && s == ExtensionsLaid(es) + tail
  }

  ghost predicate Offers(es: seq<Extension>, h: ServerHello) {
    && (h.extendedMasterSecret <==> exists i :: 0 <= i < |es| && es[i].kind == 0x0017)
    && h.srtpProfile == LastProfile(es)
  }

  /** The extensions behind the other fields: none at all, or a block with its length. */
  ghost predicate BlockAt(b: seq<byte>, at: nat, h: ServerHello)
    requires at <= |b|
  {
    if at == |b| then !h.extendedMasterSecret && h.srtpProfile == None
    else
      && at + 2 <= |b| && at + 2 + FromBE(b[at..at + 2]) <= |b|
      && exists es :: ExtensionsOf(b[at + 2..at + 2 + FromBE(b[at..at + 2])], es) && Offers(es, h)
  }

  /** Version, random, session id, cipher suite, compression; then the extensions. */
  ghost predicate ServerHelloAt(b: seq<byte>, h: ServerHello) {
    && |b| >= 38 && |b| >= 38 + b[34] as int
    && h.version == FromBE(b[0..2]) && h.random == b[2..34] && h.sessionId == b[35..35 + b[34] as int]
    && h.cipherSuite == FromBE(b[35 + b[34] as int..37 + b[34] as int]) && h.compression == b[37 + b[34] as int]
    && BlockAt(b, 38 + b[34] as int, h)
  }

  lemma ExtensionsReadIff(plain: ServerHello, s: seq<byte>, h: ServerHello)
    requires !plain.extendedMasterSecret && plain.srtpProfile == None
    ensures ReadExtensions(plain, s) == Some(h)
       <==> && h == plain.(extendedMasterSecret := h.extendedMasterSecret, srtpProfile := h.srtpProfile)
            && exists es :: ExtensionsOf(s, es) && Offers(es, h)
  {
    hide ReadExtensions, ApplyExtensions, ExtensionsLaid;
    if ReadExtensions(plain, s).Some? {
      var es, tail := ExtensionsWereLaid(plain, s);
      ExtensionsAreRead(plain, es, tail);
      Applied(plain, es);
      if ReadExtensions(plain, s) == Some(h) {
        assert ExtensionsOf(s, es) && Offers(es, h);
      }
    }
    forall es | ExtensionsOf(s, es) && Offers(es, h)
      ensures ReadExtensions(plain, s)
           == Some(plain.(extendedMasterSecret := h.extendedMasterSecret, srtpProfile := h.srtpProfile))
    {
      var tail :| |tail| < 4 && s == ExtensionsLaid(es) + tail;
      ExtensionsAreRead(plain, es, tail);
      Applied(plain, es);
    }
  }

  lemma Applied(plain: ServerHello, es: seq<Extension>)
    requires !plain.extendedMasterSecret && plain.srtpProfile == None
    ensures
      var h := ApplyExtensions(plain, es);
      Offers(es, h) && h == plain.(extendedMasterSecret := h.extendedMasterSecret, srtpProfile := h.srtpProfile)
  {
    hide LastProfile;
    ExtendedIff(plain, es);
    ProfileIsLast(plain, es);
    OthersStay(plain, es);
  }

  lemma {:induction false} OthersStay(h: ServerHello, es: seq<Extension>)
    ensures
      var t := ApplyExtensions(h, es);
      t == h.(extendedMasterSecret := t.extendedMasterSecret, srtpProfile := t.srtpProfile)
    decreases |es|
  {
    hide Read16;
    if es != [] {
      OthersStay(ApplyExtension(h, es[0]), es[1..]);
    }
  }

  lemma ServerHelloReadIff(b: seq<byte>, h: ServerHello)
    ensures ReadServerHello(b) == Some(h) <==> ServerHelloAt(b, h)
  {
    hide FromBE, Read16, ReadExtensions, ExtensionsOf, Offers;
    if |b| >= 38 && |b| >= 38 + b[34] as int {
      var pos := 35 + b[34] as nat;
      var plain := ServerHello(Read16(b, 0), b[2..34], b[35..pos], Read16(b, pos), b[pos + 2], false, None);
      Numeral16(b, 0);
      Numeral16(b, pos);
      if pos + 5 <= |b| {
        Numeral16(b, pos + 3);
        var end := pos + 5 + Read16(b, pos + 3);
        if end <= |b| {
          ExtensionsReadIff(plain, b[pos + 5..end], h);
        }
      }
    }
  }

  /** Certificates one after the other, each behind its length. */
  function ChainLaid(chain: seq<seq<byte>>): seq<byte> {
    if chain == [] then [] else ToBE(|chain[0]|, 3) + chain[0] + ChainLaid(chain[1..])
  }

  predicate Values24(chain: seq<seq<byte>>) {
    forall i :: 0 <= i < |chain| ==> |chain[i]| < 0x100_0000
  }

  lemma {:induction false} ChainIsRead(chain: seq<seq<byte>>, tail: seq<byte>)
    requires Values24(chain) && |tail| < 3
    ensures ReadChain(ChainLaid(chain) + tail) == Some(chain)
    decreases |chain|
  {
    hide ToBE, BE24, Read24;
    if chain == [] {
      Unit(tail);
    } else {
      var l, c, rest := BE24(|chain[0]|), chain[0], ChainLaid(chain[1..]) + tail;
      Three(|c|);
      Assoc(l + c, ChainLaid(chain[1..]), tail);
      ChainIsRead(chain[1..], tail);
      Slice(l, c, rest);
      DropPrefix(l + c, rest);
      Assoc(l, c, rest);
      HasAtIn([], l, c + rest);
      Unit(l);
      Read24At(l + c + rest, 0, |c|);
      FirstRest(chain);
    }
  }

  lemma {:induction false} ChainWasLaid(s: seq<byte>) returns (tail: seq<byte>)
    requires ReadChain(s).Some?
    ensures Values24(ReadChain(s).value) && |tail| < 3 && s == ChainLaid(ReadChain(s).value) + tail
    decreases |s|
  {
    hide ToBE, BE24, Read24;
    if |s| < 3 {
      tail := s;
      Unit(s);
    } else {
      var end := 3 + Read24(s, 0);
      tail := ChainWasLaid(s[end..]);
      var more := ReadChain(s[end..]).value;
      assert ReadChain(s).value == [s[3..end]] + more;
      FirstCertificate(s, end, more);
      Assoc(s[..end], ChainLaid(more), tail);
      SplitAt(s, end);
      hide ReadChain, ChainLaid;
    }
  }

  lemma FirstCertificate(s: seq<byte>, end: nat, more: seq<seq<byte>>)
    requires |s| >= 3 && end == 3 + Read24(s, 0) && end <= |s| && Values24(more)
    ensures Values24([s[3..end]] + more) && ChainLaid([s[3..end]] + more) == s[..end] + ChainLaid(more)
  {
    hide ToBE, BE24, Read24;
    Cons(s[3..end], more);
    Three(end - 3);
    Three24(s);
    assert s[0..3] + s[3..end] == s[..end];
  }

  lemma Three24(s: seq<byte>)
    requires |s| >= 3
    ensures BE24(Read24(s, 0)) == s[0..3]
  {
    BE16Read16(s, 1);
    assert Read24(s, 0) / 0x1_0000 == s[0] && Read24(s, 0) % 0x1_0000 == Read16(s, 1);
    assert s[0..3] == [s[0]] + s[1..3];
  }

  /** A chain is read from a list of its length, however few bytes are left over in the list. */
  ghost predicate ChainAt(b: seq<byte>, chain: seq<seq<byte>>) {
    && |b| >= 3 && 3 + FromBE(b[0..3]) <= |b| && Values24(chain)
    && exists tail :: |tail| < 3 && b[3..3 + FromBE(b[0..3])] == ChainLaid(chain) + tail
  }

  lemma CertificatesReadIff(b: seq<byte>, chain: seq<seq<byte>>)
    ensures ReadCertificates(b) == Some(chain) <==> ChainAt(b, chain)
  {
    hide FromBE, Read24, ReadChain, ChainLaid;
    if |b| >= 3 {
      Numeral24(b, 0);
      if 3 + Read24(b, 0) <= |b| {
        var s := b[3..3 + Read24(b, 0)];
        if ReadChain(s) == Some(chain) {
          var tail := ChainWasLaid(s);
        }
        if ChainAt(b, chain) {
          var tail :| |tail| < 3 && s == ChainLaid(chain) + tail;
          ChainIsRead(chain, tail);
        }
      }
    }
  }

  /** Curve type, curve, point, the two algorithms, signature; all but the last four are signed. */
  function ParamsLaid(curve: u16, point: seq<byte>): seq<byte>
    requires |point| < 0x100
  {
    [3] + ToBE(curve, 2) + [|point|] + point
  }

  function KeyExchangeLaid(k: KeyExchange): seq<byte>
    requires |k.publicPoint| < 0x100
  {
    ParamsLaid(k.namedCurve, k.publicPoint) + [k.hashAlgorithm, k.signatureAlgorithm]
    + ToBE(|k.signature|, 2) + k.signature
  }

  lemma KeyExchangeAt(b: seq<byte>, k: KeyExchange)
    ensures ReadKeyExchange(b) == Some(k)
       <==>
       && |k.publicPoint| < 0x100 && |k.signature| < 0x1_0000
       && k.signedParams == ParamsLaid(k.namedCurve, k.publicPoint) && KeyExchangeLaid(k) <= b
  {
    hide ReadKeyExchange, BE16, ToBE;
    KeyExchangeReadIff(b, k);
    if |k.publicPoint| < 0x100 && |k.signature| < 0x1_0000 {
      Two(k.namedCurve);
      Two(|k.signature|);
    }
  }

  // ---------------------------------------------------------------------------
  // What the client writes
  // ---------------------------------------------------------------------------

  /** One suite, ECDHE with ECDSA, AES-128-GCM and SHA-256; no compression; 35 bytes of extensions. */
  const SUITE_AND_COMPRESSION: seq<byte> := [0, 2, 0xC0, 0x2B, 1, 0, 0, 35]

  /** P-256, uncompressed points, ECDSA with SHA-256, AES-128 with an 80-bit tag, extended master secret. */
  const EXTENSIONS: seq<byte> :=
    [0, 10, 0, 4, 0, 2, 0, 23] + [0, 11, 0, 2, 1, 0] + [0, 13, 0, 4, 0, 2, 4, 3]
    + [0, 14, 0, 5, 0, 2, 0, 1, 0] + [0, 23, 0, 0]

  lemma ExtensionsWritten()
    ensures ClientExtensions() == EXTENSIONS && |EXTENSIONS| == 35
  {
    Pairs();
    hide BE16;
    assert BE16(0x000A) + BE16(4) + BE16(2) + BE16(SECP256R1) == [0, 10, 0, 4, 0, 2, 0, 23];
    assert BE16(0x000B) + BE16(2) + [1, 0] == [0, 11, 0, 2, 1, 0];
    assert BE16(0x000D) + BE16(4) + BE16(2) + BE16(0x0403) == [0, 13, 0, 4, 0, 2, 4, 3];
    assert BE16(EXT_USE_SRTP) + BE16(5) + BE16(2) + BE16(0x0001) + [0] == [0, 14, 0, 5, 0, 2, 0, 1, 0];
    assert BE16(EXT_EXTENDED_MASTER_SECRET) + BE16(0) == [0, 23, 0, 0];
  }

  /** The numbers that occur in it, in two bytes. */
  lemma Pairs()
    ensures BE16(0x000A) == [0, 10] && BE16(0x000B) == [0, 11] && BE16(0x000D) == [0, 13]
    ensures BE16(EXT_USE_SRTP) == [0, 14] && BE16(EXT_EXTENDED_MASTER_SECRET) == [0, 23] && BE16(SECP256R1) == [0, 23]
    ensures BE16(0) == [0, 0] && BE16(1) == [0, 1] && BE16(2) == [0, 2] && BE16(4) == [0, 4] && BE16(5) == [0, 5]
    ensures BE16(0x0403) == [4, 3] && BE16(0xFEFD) == [0xFE, 0xFD] && BE16(SUITE) == [0xC0, 0x2B] && BE16(35) == [0, 35]
  {
  }

  lemma FrontWritten(random: seq<byte>, cookie: seq<byte>)
    requires |cookie| < 0x100
    ensures ClientHelloFront(random, cookie) == [0xFE, 0xFD] + random + [0] + [|cookie|] + cookie
  {
    Pairs();
    hide BE16;
    assert |cookie| % 0x100 == |cookie|;
  }

  /** DTLS 1.2, the random, no session, the cookie, and these. */
  lemma HelloWritten(random: seq<byte>, cookie: seq<byte>)
    requires |random| == 32 && |cookie| < 0x100
    ensures ClientHelloBody(random, cookie)
         == [0xFE, 0xFD] + random + [0] + [|cookie|] + cookie + (SUITE_AND_COMPRESSION + EXTENSIONS)
  {
    hide ClientHelloFront, ClientExtensions, BE16;
    FrontWritten(random, cookie);
    ExtensionsWritten();
    Pairs();
    Small16(35);
    assert BE16(2) + BE16(SUITE) + [1, 0] + BE16(35) == SUITE_AND_COMPRESSION;
  }

  lemma PointWritten(point: seq<byte>)
    requires |point| < 0x100
    ensures KeyExchangeBody(point) == [|point|] + point
  {
    assert |point| % 0x100 == |point|;
  }

  /** The algorithms ECDSA with SHA-256, and the signature with its length. */
  lemma SignatureWritten(signature: seq<byte>)
    requires |signature| < 0x1_0000
    ensures CertificateVerifyBody(signature) == [4, 3] + ToBE(|signature|, 2) + signature
  {
    var n: u16 := |signature|;
    Small16(n);
    assert CertificateVerifyBody(signature) == [4, 3] + BE16(n) + signature;
    hide CertificateVerifyBody;
    Two(n);
  }

  lemma Small16(n: nat)
    requires n < 0x1_0000
    ensures n % 0x1_0000 == n
  {
  }
}
