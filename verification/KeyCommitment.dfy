/**
  What the engine accepts: which groups, exponents and peer values, and how a call's commitment
  decides over runs which value may be confirmed.
*/
module KeyCommitment {
  import opened Bytes
  import opened SeqFacts
  import opened ModularPower
  import opened KeyExchangeSpec

  // ---------------------------------------------------------------------------
  // Groups, exponents and fingerprints as numbers
  // ---------------------------------------------------------------------------

  /** An odd modulus of exactly 2048 bits and a generator between 2 and 7. */
  predicate Group(g: int, p: seq<byte>) {
    2 <= g <= 7 && |p| == 256 && FromBE(p) >= 128 * Pow256(255) && FromBE(p) % 2 == 1
  }

  lemma {:induction false} TopByte(s: seq<byte>)
    requires s != []
    ensures FromBE(s) >= 128 * Pow256(|s| - 1) <==> s[0] >= 128
  {
    if |s| == 1 {
      assert FromBE(s[..0]) == 0 && Pow256(0) == 1;
    } else {
      var front := s[..|s| - 1];
      TopByte(front);
      assert Pow256(|s| - 1) == 256 * Pow256(|s| - 2);
      Scale(FromBE(front), 128 * Pow256(|s| - 2), s[|s| - 1]);
    }
  }

  lemma Scale(a: nat, b: nat, last: byte)
    ensures 256 * a + last >= 256 * b <==> a >= b
  {
  }

  lemma LowByte(s: seq<byte>)
    requires s != []
    ensures FromBE(s) % 2 == s[|s| - 1] % 2
  {
  }

  lemma GroupIsValidConfig(g: int, p: seq<byte>)
    ensures ValidConfig(g, p) <==> Group(g, p)
  {
    hide FromBE, Pow256;
    if |p| == 256 {
      TopByte(p);
      LowByte(p);
    }
  }

  predicate InGroup(v: seq<byte>, p: seq<byte>) {
    |v| == 256 && 1 < FromBE(v) < FromBE(p)
  }

  /** The exponent is the first draw inside the group, and 2 only if there is none. */
  lemma {:induction false} PickIsFirst(p: seq<byte>, draws: seq<seq<byte>>)
    ensures
      var r := PickFrom(p, draws);
      || (exists i :: 0 <= i < |draws| && r == draws[i] && 1 < FromBE(draws[i]) < FromBE(p)
            && forall j :: 0 <= j < i ==> !(1 < FromBE(draws[j]) < FromBE(p)))
      || (FromBE(r) == 2 && forall j :: 0 <= j < |draws| ==> !(1 < FromBE(draws[j]) < FromBE(p)))
    decreases |draws|
  {
    hide FromBE;
    FallbackValue();
    if draws != [] && !(1 < FromBE(draws[0]) < FromBE(p)) {
      PickIsFirst(p, draws[1..]);
      var rest := draws[1..];
      if i :| 0 <= i < |rest| && PickFrom(p, rest) == rest[i] && 1 < FromBE(rest[i]) < FromBE(p)
              && forall j :: 0 <= j < i ==> !(1 < FromBE(rest[j]) < FromBE(p)) {
        assert draws[i + 1] == rest[i];
        assert forall j :: 1 <= j < i + 1 ==> draws[j] == rest[j - 1];
      } else {
        assert forall j :: 1 <= j < |draws| ==> draws[j] == rest[j - 1];
      }
    }
  }

  /** Least significant byte first. */
  function FromLE(s: seq<byte>): nat {
    if s == [] then 0 else s[0] + 256 * FromLE(s[1..])
  }

  /** The last eight bytes of SHA-1, least significant first, as a signed 64-bit number. */
  lemma FingerprintMeans(env: Env, key: seq<byte>)
    ensures
      var f := Fingerprint(env, key);
      && -0x8000_0000_0000_0000 <= f < 0x8000_0000_0000_0000
      && f % 0x1_0000_0000_0000_0000 == FromLE(env.sha1(key)[12..])
  {
    var d := env.sha1(key);
    var s := d[12..];
    LEParts(s);
    FromLEBound(s);
    assert Pow256(8) == 0x1_0000_0000_0000_0000;
    assert ReadLE32(d, 12) == ReadLE32(s, 0) && ReadLE32(d, 16) == ReadLE32(s, 4);
    SignedRange(ReadLE32(s, 0) as int + 0x1_0000_0000 * ReadLE32(s, 4) as int);
  }

  lemma SignedRange(v: nat)
    requires v < 0x1_0000_0000_0000_0000
    ensures
      var f := if v >= 0x8000_0000_0000_0000 then v - 0x1_0000_0000_0000_0000 else v;
      -0x8000_0000_0000_0000 <= f < 0x8000_0000_0000_0000 && f % 0x1_0000_0000_0000_0000 == v
  {
  }

  lemma {:induction false} FromLEBound(s: seq<byte>)
    ensures FromLE(s) < Pow256(|s|)
  {
    if s != [] {
      FromLEBound(s[1..]);
    }
  }

  lemma LEParts(s: seq<byte>)
    requires |s| == 8
    ensures FromLE(s) == ReadLE32(s, 0) as int + 0x1_0000_0000 * ReadLE32(s, 4) as int
  {
    FourLE(s);
    FourLE(s[4..]);
    assert s[4..][4..] == [];
  }

  lemma FourLE(s: seq<byte>)
    requires |s| >= 4
    ensures FromLE(s) == ReadLE32(s, 0) as int + 0x1_0000_0000 * FromLE(s[4..])
  {
    assert s[1..][1..] == s[2..] && s[2..][1..] == s[3..] && s[3..][1..] == s[4..];
    assert FromLE(s[3..]) == s[3] + 256 * FromLE(s[4..]);
    assert FromLE(s[2..]) == s[2] + 256 * FromLE(s[3..]);
    assert FromLE(s[1..]) == s[1] + 256 * FromLE(s[2..]);
  }

  // ---------------------------------------------------------------------------
  // Which peer values are taken
  // ---------------------------------------------------------------------------

  /** The peer's value to the power of the exponent that the draws give. */
  function KeyFor(v: seq<byte>, p: seq<byte>, draws: Draws): (key: seq<byte>)
    requires FromBE(p) > 0
    ensures |key| == 256
  {
    ToBE(ModPow(FromBE(v), FromBE(PickPrivate(p, draws)), FromBE(p)), 256)
  }

  /** A call whose commitment was registered and for which material was created. */
  function Committed(env: Env, e: Engine, callId: int, hash: seq<byte>, g: int, p: seq<byte>, draws: Draws): Engine {
    CreateIncoming(env, RegisterIncoming(e, callId, hash).0, callId, g, p, draws).0
  }

  /** Nothing changes but the call's own session. */
  ghost predicate OthersKept(e: Engine, e': Engine, callId: int) {
    && e'.outgoingByRandom == e.outgoingByRandom && e'.droppedCallIds == e.droppedCallIds
    && e'.calls.Keys == e.calls.Keys
    && forall c :: c in e.calls && c != callId ==> e'.calls[c] == e.calls[c]
  }

  /**
    In a call with a commitment exactly the values are confirmed that hash to it, lie in the
    group and give the expected fingerprint, if one is expected. The key is then theirs;
    otherwise the engine is unchanged.
  */
  lemma ConfirmIff(env: Env, e: Engine, callId: int, hash: seq<byte>, g: int, p: seq<byte>, draws: Draws,
                   v: seq<byte>, fingerprint: int)
    requires Group(g, p) && callId > 0 && |hash| == 32
    ensures
      var b := Committed(env, e, callId, hash, g, p, draws);
      var (after, r) := ConfirmPeer(env, b, callId, v, fingerprint);
      var key := KeyFor(v, p, draws);
      && (r.Ok? <==> env.sha256(v) == hash && InGroup(v, p)
                     && (fingerprint == 0 || fingerprint == Fingerprint(env, key)))
      && (r == Err(Invalid) <==> env.sha256(v) == hash && !InGroup(v, p))
      && (!r.Ok? ==> after == b)
      && (r.Ok? ==> Ready(after, callId, key, Fingerprint(env, key)) && OthersKept(b, after, callId))
  {
    hide FromBE, ModPow, ToBE, PickFrom, Fingerprint, Pow256;
    GroupIsValidConfig(g, p);
    ConfigIsPositive(g, p);
  }

  /** The caller takes exactly the values in the group. */
  lemma AcceptIff(env: Env, e: Engine, randomId: int, callId: int, g: int, p: seq<byte>, draws: Draws, v: seq<byte>)
    requires Group(g, p) && callId > 0
    ensures
      var a := BindOutgoing(CreateOutgoing(env, e, randomId, g, p, draws).0, randomId, callId).0;
      var (after, r) := AcceptGB(env, a, callId, v);
      var key := KeyFor(v, p, draws);
      && (r.Ok? <==> InGroup(v, p))
      && (!r.Ok? ==> after == a)
      && (r.Ok? ==> Ready(after, callId, key, Fingerprint(env, key)) && OthersKept(a, after, callId)
                    && r.value.keyFingerprint == Fingerprint(env, key))
  {
    hide FromBE, ModPow, ToBE, PickFrom, Fingerprint, Pow256;
    GroupIsValidConfig(g, p);
    ConfigIsPositive(g, p);
  }

  /** In a call without a commitment a confirmation asks for no hash, and takes the same values. */
  lemma ConfirmUncommitted(env: Env, e: Engine, randomId: int, callId: int, g: int, p: seq<byte>, draws: Draws,
                           v: seq<byte>, fingerprint: int)
    requires Group(g, p) && callId > 0
    ensures
      var a := BindOutgoing(CreateOutgoing(env, e, randomId, g, p, draws).0, randomId, callId).0;
      var (after, r) := ConfirmPeer(env, a, callId, v, fingerprint);
      var key := KeyFor(v, p, draws);
      && (r.Ok? <==> InGroup(v, p) && (fingerprint == 0 || fingerprint == Fingerprint(env, key)))
      && (!r.Ok? ==> after == a)
      && (r.Ok? ==> Ready(after, callId, key, Fingerprint(env, key)) && OthersKept(a, after, callId))
  {
    hide FromBE, ModPow, ToBE, PickFrom, Fingerprint, Pow256;
    GroupIsValidConfig(g, p);
    ConfigIsPositive(g, p);
  }

  /** What both sides get back: the value to publish and its hash, and no fingerprint yet. */
  lemma MaterialIs(env: Env, e: Engine, id: int, g: int, p: seq<byte>, draws: Draws)
    requires ValidConfig(g, p)
    ensures
      var value := PublicOf(g, p, draws);
      var created, answered := CreateOutgoing(env, e, id, g, p, draws).1, CreateIncoming(env, e, id, g, p, draws).1;
      && created == Ok(Material(value, env.sha256(value), 0))
      && (answered.Ok? ==> answered == created)
  {
    hide FromBE, Raise, PickFrom;
  }

  /**
    In an exchange in which an arbitrary value and fingerprint reach the callee instead of the
    caller's, only a value is confirmed that hashes like the caller's own.
  */
  lemma SubstitutedValue(env: Env, callee: Engine, callId: int, g: int, p: seq<byte>, drawsA: Draws, drawsB: Draws,
                         v: seq<byte>, fingerprint: int)
    requires ValidConfig(g, p) && callId > 0
    ensures
      var b := Committed(env, callee, callId, env.sha256(PublicOf(g, p, drawsA)), g, p, drawsB);
      var (after, r) := ConfirmPeer(env, b, callId, v, fingerprint);
      if r.Ok? then env.sha256(v) == env.sha256(PublicOf(g, p, drawsA)) else after == b
  {
    hide FromBE, ConfirmPeer, Committed, PublicOf, ValidConfig, Group;
    GroupIsValidConfig(g, p);
    ConfirmIff(env, callee, callId, env.sha256(PublicOf(g, p, drawsA)), g, p, drawsB, v, fingerprint);
  }

  // ---------------------------------------------------------------------------
  // Over runs
  // ---------------------------------------------------------------------------

  /** What the operations alone say: commitments of the known calls, open offers, dropped calls. */
  datatype Ledger = Ledger(calls: map<int, seq<byte>>, offers: set<int>, dropped: set<int>)

  function Note(l: Ledger, op: Op): Ledger {
    match op
    case OpCreateOutgoing(r, g, p, _) => if Group(g, p) then l.(offers := l.offers + {r}) else l
    case OpBind(r, c) =>
      if c > 0 && r in l.offers then Ledger(l.calls[c := []], l.offers - {r}, l.dropped - {c}) else l
    case OpRegister(c, h) =>
      if c > 0 && |h| == 32 then l.(calls := l.calls[c := h], dropped := l.dropped - {c}) else l
    case OpDrop(c) => l.(calls := l.calls - {c}, dropped := l.dropped + {c})
    case _ => l
  }

  function Notes(l: Ledger, ops: seq<Op>): Ledger
    decreases |ops|
  {
    if ops == [] then l else Notes(Note(l, ops[0]), ops[1..])
  }

  const EMPTY := Engine(map[], map[], {})
  const NOTHING := Ledger(map[], {}, {})

  /** What an engine knows is what was noted. */
  ghost predicate Noted(e: Engine, l: Ledger) {
    && e.calls.Keys == l.calls.Keys && e.outgoingByRandom.Keys == l.offers && e.droppedCallIds == l.dropped
    && (forall c :: c in l.calls ==> SessionNoted(e.calls[c], c, l.calls[c]))
    && (forall r :: r in l.offers ==> SessionNoted(e.outgoingByRandom[r], 0, []) && e.outgoingByRandom[r].randomId == r)
  }

  /** Its call, its commitment, and that it is incoming if there is one. */
  predicate SessionNoted(s: DhSession, callId: int, hash: seq<byte>) {
    s.callId == callId && s.peerGAHash == hash && s.incoming == (hash != []) && (hash == [] || |hash| == 32)
  }

  lemma DoNoted(env: Env, e: Engine, l: Ledger, op: Op)
    requires Noted(e, l)
    ensures Noted(Do(env, e, op), Note(l, op))
  {
    hide PendingQueue.Enqueue, PublicOf;
    hide Group, ValidConfig, ValidPublic, Fingerprint, Raise, PickFrom, FromBE;
    if op.OpCreateOutgoing? || op.OpCreateIncoming? {
      GroupIsValidConfig(op.g, op.p);
    }
  }

  lemma {:induction false} RunNoted(env: Env, e: Engine, l: Ledger, ops: seq<Op>)
    requires Noted(e, l)
    ensures Noted(Run(env, e, ops), Notes(l, ops))
    decreases |ops|
  {
    hide Noted, Do, Note;
    if ops != [] {
      DoNoted(env, e, l, ops[0]);
      RunNoted(env, Do(env, e, ops[0]), Note(l, ops[0]), ops[1..]);
    }
  }

  /** Whether the operation reports success. */
  function Succeeds(env: Env, e: Engine, op: Op): bool {
    match op
    case OpCreateOutgoing(r, g, p, draws) => CreateOutgoing(env, e, r, g, p, draws).1.Ok?
    case OpBind(r, c) => BindOutgoing(e, r, c).1.Ok?
    case OpRegister(c, h) => RegisterIncoming(e, c, h).1.Ok?
    case OpCreateIncoming(c, g, p, draws) => CreateIncoming(env, e, c, g, p, draws).1.Ok?
    case OpAccept(c, v) => AcceptGB(env, e, c, v).1.Ok?
    case OpConfirm(c, v, f) => ConfirmPeer(env, e, c, v, f).1.Ok?
    case OpDrop(c) => true
    case OpReceive(c, d, delivered) => Receive(e, c, d, delivered).1.Ok?
  }

  /** Which operations succeed after a run, from the operations before them. */
  predicate Expected(env: Env, l: Ledger, op: Op) {
    match op
    case OpCreateOutgoing(r, g, p, _) => Group(g, p)
    case OpBind(r, c) => c > 0 && r in l.offers
    case OpRegister(c, h) => c > 0 && |h| == 32
    case OpCreateIncoming(c, g, p, _) => Group(g, p) && c in l.calls && l.calls[c] != []
    case OpAccept(c, v) => c in l.calls
    case OpConfirm(c, v, f) => c in l.calls && (l.calls[c] == [] || env.sha256(v) == l.calls[c])
    case OpDrop(c) => true
    case OpReceive(c, d, _) => c > 0 && d != [] && (c in l.calls || c in l.dropped)
  }

  lemma SuccessExpected(env: Env, e: Engine, l: Ledger, op: Op)
    requires Noted(e, l)
    ensures Succeeds(env, e, op) ==> Expected(env, l, op)
    ensures !op.OpAccept? && !op.OpConfirm? ==> Succeeds(env, e, op) == Expected(env, l, op)
    ensures !Succeeds(env, e, op) ==> Do(env, e, op) == e
  {
    hide Group, ValidConfig, ValidPublic, Fingerprint, Raise, PickFrom, FromBE;
    if op.OpCreateOutgoing? || op.OpCreateIncoming? {
      GroupIsValidConfig(op.g, op.p);
    }
  }

  /**
    After every run from an engine that knows no calls: an operation fails unless the ledger of
    the operations before it allows it, and then changes nothing; except for the two that judge
    a peer value, those it allows succeed.
  */
  lemma AnswersOfRun(env: Env, ops: seq<Op>, op: Op)
    ensures
      var e, l := Run(env, EMPTY, ops), Notes(NOTHING, ops);
      && (Succeeds(env, e, op) ==> Expected(env, l, op))
      && (!op.OpAccept? && !op.OpConfirm? ==> Succeeds(env, e, op) == Expected(env, l, op))
      && (!Succeeds(env, e, op) ==> Do(env, e, op) == e)
  {
    hide Run, Notes, Do, Succeeds, Expected, Noted;
    assert Noted(EMPTY, NOTHING) by {
      StartNoted();
    }
    RunNoted(env, EMPTY, NOTHING, ops);
    SuccessExpected(env, Run(env, EMPTY, ops), Notes(NOTHING, ops), op);
  }

  lemma StartNoted()
    ensures Noted(EMPTY, NOTHING)
  {
  }

  /**
    Over every run: a key that a confirmation sets in a call with a registered commitment comes
    from a value that hashes to the one registered last.
  */
  lemma ConfirmedValueWasCommitted(env: Env, ops: seq<Op>, callId: int, v: seq<byte>, fingerprint: int)
    ensures
      var e, l := Run(env, EMPTY, ops), Notes(NOTHING, ops);
      var after := Do(env, e, OpConfirm(callId, v, fingerprint));
      after != e ==> callId in l.calls && (l.calls[callId] != [] ==> env.sha256(v) == l.calls[callId])
  {
    hide Run, Notes, Do, Succeeds;
    AnswersOfRun(env, ops, OpConfirm(callId, v, fingerprint));
  }
}
