/**
  Call key agreement in the engine: Diffie-Hellman material per call, the commitment to the
  caller's value, and the fingerprint check.
*/
module KeyExchangeSpec {
  import opened Bytes
  import opened SeqFacts
  import opened ModularPower
  import opened PendingQueue

  const DH_BYTES := 256

  type Sha1Digest = s: seq<byte> | |s| == 20 witness seq(20, _ => 0)

  datatype Env = Env(sha256: seq<byte> -> Digest, sha1: seq<byte> -> Sha1Digest)

  datatype Error = Invalid | FingerprintMismatch

  datatype Result<+T> = Ok(value: T) | Err(error: Error)

  datatype DhSession = DhSession(
    randomId: int, callId: int, g: int, incoming: bool, sharedReady: bool,
    p: seq<byte>, privateValue: seq<byte>, publicValue: seq<byte>, publicHash: seq<byte>,
    peerGAHash: seq<byte>, sharedKey: seq<byte>, keyFingerprint: int,
    packetsReceived: u32, bytesReceived: u32, packetsDropped: u32, pending: seq<seq<byte>>)

  const NEW_SESSION := DhSession(0, 0, 0, false, false, [], [], [], [], [], [], 0, 0, 0, 0, [])

  datatype Engine = Engine(calls: map<int, DhSession>, outgoingByRandom: map<int, DhSession>, droppedCallIds: set<int>)

  datatype Material = Material(publicValue: seq<byte>, publicHash: seq<byte>, keyFingerprint: int)

  // ---------------------------------------------------------------------------
  // Numbers
  // ---------------------------------------------------------------------------

  /** A 2048-bit odd modulus and a small generator. */
  predicate ValidConfig(g: int, p: seq<byte>) {
    2 <= g <= 7 && |p| == DH_BYTES && p[0] >= 0x80 && p[DH_BYTES - 1] % 2 == 1
  }

  predicate ValidPublic(v: seq<byte>, p: seq<byte>) {
    |p| == DH_BYTES && |v| == DH_BYTES && 1 < FromBE(v) < FromBE(p)
  }

  const FALLBACK: seq<byte> := Zeros(DH_BYTES - 1) + [2]

  /** The first of the draws that lies between 1 and the modulus, or 2. */
  function PickFrom(p: seq<byte>, draws: seq<seq<byte>>): seq<byte> {
    if draws == [] then FALLBACK
    else if 1 < FromBE(draws[0]) < FromBE(p) then draws[0]
    else PickFrom(p, draws[1..])
  }

  type Draws = d: seq<seq<byte>> | |d| == 8 && forall i :: 0 <= i < 8 ==> |d[i]| == DH_BYTES
    witness seq(8, _ => seq(DH_BYTES, _ => 0))

  function PickPrivate(p: seq<byte>, draws: Draws): seq<byte> {
    PickFrom(p, draws)
  }

  function Raise(base: nat, exponent: seq<byte>, p: seq<byte>): (r: seq<byte>)
    requires FromBE(p) > 0
    ensures |r| == DH_BYTES
  {
    ToBE(ModPow(base, FromBE(exponent), FromBE(p)), DH_BYTES)
  }

  /** The upper eight bytes of SHA-1, little-endian, as a signed number. */
  function Fingerprint(env: Env, key: seq<byte>): int {
    var d := env.sha1(key);
    var v := ReadLE32(d, 12) as int + 0x1_0000_0000 * ReadLE32(d, 16) as int;
    if v >= 0x8000_0000_0000_0000 then v - 0x1_0000_0000_0000_0000 else v
  }

  lemma ConfigIsPositive(g: int, p: seq<byte>)
    requires ValidConfig(g, p)
    ensures FromBE(p) > 2
  {
    hide FromBE;
    FirstByteBound(p);
  }

  lemma {:induction false} FirstByteBound(s: seq<byte>)
    requires s != []
    ensures FromBE(s) >= s[0]
  {
    if |s| == 1 {
      assert s[..0] == [];
    } else {
      FirstByteBound(s[..|s| - 1]);
    }
  }

  // ---------------------------------------------------------------------------
  // Operations
  // ---------------------------------------------------------------------------

  /** New exponent and public value for a session. */
  function WithExponent(env: Env, s: DhSession, g: int, p: seq<byte>, draws: Draws): DhSession
    requires ValidConfig(g, p)
  {
    ConfigIsPositive(g, p);
    var privateExponent := PickPrivate(p, draws);
    var publicPower := Raise(g, privateExponent, p);
    s.(g := g, p := p, privateValue := privateExponent, publicValue := publicPower, publicHash := env.sha256(publicPower))
  }

  function MaterialOf(s: DhSession): Material {
    Material(s.publicValue, s.publicHash, s.keyFingerprint)
  }

  function CreateOutgoing(env: Env, e: Engine, randomId: int, g: int, p: seq<byte>, draws: Draws): (Engine, Result<Material>) {
    if !ValidConfig(g, p) then (e, Err(Invalid))
    else
      var s := WithExponent(env, NEW_SESSION.(randomId := randomId), g, p, draws);
      (e.(outgoingByRandom := e.outgoingByRandom[randomId := s]), Ok(MaterialOf(s).(keyFingerprint := 0)))
  }

  function BindOutgoing(e: Engine, randomId: int, callId: int): (Engine, Result<()>) {
    if callId <= 0 || randomId !in e.outgoingByRandom then (e, Err(Invalid))
    else
      (Engine(e.calls[callId := e.outgoingByRandom[randomId].(callId := callId)],
              e.outgoingByRandom - {randomId}, e.droppedCallIds - {callId}), Ok(()))
  }

  function RegisterIncoming(e: Engine, callId: int, gAHash: seq<byte>): (Engine, Result<()>) {
    if callId <= 0 || |gAHash| != 32 then (e, Err(Invalid))
    else
      var s := if callId in e.calls then e.calls[callId] else NEW_SESSION;
      (e.(calls := e.calls[callId := s.(callId := callId, incoming := true, peerGAHash := gAHash)],
          droppedCallIds := e.droppedCallIds - {callId}), Ok(()))
  }

  function CreateIncoming(env: Env, e: Engine, callId: int, g: int, p: seq<byte>, draws: Draws): (Engine, Result<Material>) {
    if !ValidConfig(g, p) || callId !in e.calls || e.calls[callId].peerGAHash == [] then (e, Err(Invalid))
    else
      var s := WithExponent(env, e.calls[callId].(incoming := true), g, p, draws);
      (e.(calls := e.calls[callId := s]), Ok(MaterialOf(s).(keyFingerprint := 0)))
  }

  /** The session with the key shared with this peer value. */
  function WithShared(env: Env, s: DhSession, peer: seq<byte>): DhSession
    requires FromBE(s.p) > 0
  {
    var key := Raise(FromBE(peer), s.privateValue, s.p);
    s.(sharedKey := key, keyFingerprint := Fingerprint(env, key), sharedReady := true)
  }

  function AcceptGB(env: Env, e: Engine, callId: int, gB: seq<byte>): (Engine, Result<Material>) {
    if callId !in e.calls || !ValidPublic(gB, e.calls[callId].p) then (e, Err(Invalid))
    else
      var s := WithShared(env, e.calls[callId], gB);
      (e.(calls := e.calls[callId := s]), Ok(MaterialOf(s)))
  }

  /** The revealed value must match the commitment, if one of 32 bytes is registered. */
  function ConfirmPeer(env: Env, e: Engine, callId: int, gAOrB: seq<byte>, expectedFingerprint: int): (Engine, Result<()>) {
    if callId !in e.calls then (e, Err(Invalid))
    else
      var s := e.calls[callId];
      if |s.peerGAHash| == 32 && env.sha256(gAOrB) != s.peerGAHash then (e, Err(FingerprintMismatch))
      else if !ValidPublic(gAOrB, s.p) then (e, Err(Invalid))
      else
        var shared := WithShared(env, s, gAOrB);
        if expectedFingerprint != 0 && shared.keyFingerprint != expectedFingerprint then (e, Err(FingerprintMismatch))
        else (e.(calls := e.calls[callId := shared]), Ok(()))
  }

  function Drop(e: Engine, callId: int): Engine {
    Engine(e.calls - {callId}, e.outgoingByRandom, e.droppedCallIds + {callId})
  }

  /** Packets for a call whose media stack is not running yet are queued. */
  function Receive(e: Engine, callId: int, data: seq<byte>, delivered: bool): (Engine, Result<()>) {
    if callId <= 0 || data == [] then (e, Err(Invalid))
    else if callId !in e.calls then (e, if callId in e.droppedCallIds then Ok(()) else Err(Invalid))
    else
      var s := e.calls[callId];
      var counted := s.(packetsReceived := Next32(s.packetsReceived),
                        bytesReceived := (s.bytesReceived + |data|) % 0x1_0000_0000);
      (e.(calls := e.calls[callId := if delivered then counted else Queued(counted, data)]), Ok(()))
  }

  function Queued(s: DhSession, data: seq<byte>): DhSession {
    var q := Enqueue(Queue(s.pending, s.packetsDropped), data);
    s.(pending := q.pending, packetsDropped := Wrap32(q.dropped))
  }

  // ---------------------------------------------------------------------------
  // Invariant
  // ---------------------------------------------------------------------------

  /** A ready key has 256 bytes and its stored fingerprint; an exponent belongs to a valid group. */
  predicate SessionInv(env: Env, s: DhSession) {
    && (s.sharedReady ==> |s.sharedKey| == DH_BYTES && s.keyFingerprint == Fingerprint(env, s.sharedKey))
    && (s.p == [] || HasExponent(env, s))
  }

  predicate HasExponent(env: Env, s: DhSession) {
    && ValidConfig(s.g, s.p) && |s.privateValue| == DH_BYTES && 1 < FromBE(s.privateValue) < FromBE(s.p)
    && s.publicValue == Raise(s.g, s.privateValue, s.p) && s.publicHash == env.sha256(s.publicValue)
  }

  ghost predicate Inv(env: Env, e: Engine) {
    && (forall id :: id in e.calls ==> SessionInv(env, e.calls[id]))
    && (forall id :: id in e.outgoingByRandom ==> SessionInv(env, e.outgoingByRandom[id]) && !e.outgoingByRandom[id].sharedReady)
  }

  lemma FallbackValue()
    ensures |FALLBACK| == DH_BYTES && FromBE(FALLBACK) == 2
  {
    hide FromBE;
    ZerosValue(DH_BYTES - 1);
    LastByte(Zeros(DH_BYTES - 1), 2);
  }

  lemma {:induction false} ZerosValue(n: nat)
    ensures FromBE(Zeros(n)) == 0
  {
    if n > 0 {
      assert Zeros(n)[..n - 1] == Zeros(n - 1);
      ZerosValue(n - 1);
    }
  }

  lemma LastByte(s: seq<byte>, x: byte)
    ensures FromBE(s + [x]) == 256 * FromBE(s) + x
  {
    Snoc(s, x);
  }

  /** The private exponent always lies strictly between 1 and the modulus. */
  lemma {:induction false} PickInRange(p: seq<byte>, draws: seq<seq<byte>>)
    requires FromBE(p) > 2 && forall i :: 0 <= i < |draws| ==> |draws[i]| == DH_BYTES
    ensures |PickFrom(p, draws)| == DH_BYTES && 1 < FromBE(PickFrom(p, draws)) < FromBE(p)
  {
    hide FromBE;
    FallbackValue();
    if draws != [] {
      PickInRange(p, draws[1..]);
    }
  }

  lemma WithExponentInv(env: Env, s: DhSession, g: int, p: seq<byte>, draws: Draws)
    requires ValidConfig(g, p) && SessionInv(env, s)
    ensures SessionInv(env, WithExponent(env, s, g, p, draws)) && HasExponent(env, WithExponent(env, s, g, p, draws))
  {
    hide FromBE, PickFrom, Raise;
    ConfigIsPositive(g, p);
    PickInRange(p, draws);
  }

  lemma WithSharedInv(env: Env, s: DhSession, peer: seq<byte>)
    requires SessionInv(env, s) && ValidPublic(peer, s.p)
    ensures SessionInv(env, WithShared(env, s, peer))
  {
    hide FromBE, ModPow, Fingerprint;
  }

  datatype Op =
    | OpCreateOutgoing(randomId: int, g: int, p: seq<byte>, draws: Draws)
    | OpBind(randomId: int, callId: int)
    | OpRegister(callId: int, hash: seq<byte>)
    | OpCreateIncoming(callId: int, g: int, p: seq<byte>, draws: Draws)
    | OpAccept(callId: int, gB: seq<byte>)
    | OpConfirm(callId: int, gAOrB: seq<byte>, fingerprint: int)
    | OpDrop(callId: int)
    | OpReceive(callId: int, data: seq<byte>, delivered: bool)

  function Do(env: Env, e: Engine, op: Op): Engine {
    match op
    case OpCreateOutgoing(r, g, p, draws) => CreateOutgoing(env, e, r, g, p, draws).0
    case OpBind(r, c) => BindOutgoing(e, r, c).0
    case OpRegister(c, h) => RegisterIncoming(e, c, h).0
    case OpCreateIncoming(c, g, p, draws) => CreateIncoming(env, e, c, g, p, draws).0
    case OpAccept(c, v) => AcceptGB(env, e, c, v).0
    case OpConfirm(c, v, f) => ConfirmPeer(env, e, c, v, f).0
    case OpDrop(c) => Drop(e, c)
    case OpReceive(c, d, delivered) => Receive(e, c, d, delivered).0
  }

  function Run(env: Env, e: Engine, ops: seq<Op>): Engine
    decreases |ops|
  {
    if ops == [] then e else Run(env, Do(env, e, ops[0]), ops[1..])
  }

  lemma DoKeeps(env: Env, e: Engine, op: Op)
    requires Inv(env, e)
    ensures Inv(env, Do(env, e, op))
  {
    hide SessionInv, HasExponent, WithExponent, WithShared, ValidPublic, ValidConfig, Fingerprint, Enqueue, FromBE;
    match op
    case OpCreateOutgoing(r, g, p, draws) =>
      if ValidConfig(g, p) {
        NewSessionInv(env, r);
        WithExponentInv(env, NEW_SESSION.(randomId := r), g, p, draws);
        ExponentKeepsReady(env, NEW_SESSION.(randomId := r), g, p, draws);
      }
    case OpBind(r, c) =>
      if r in e.outgoingByRandom {
        SameInv(env, e.outgoingByRandom[r], e.outgoingByRandom[r].(callId := c));
      }
    case OpRegister(c, h) =>
      NewSessionInv(env, 0);
      var s := if c in e.calls then e.calls[c] else NEW_SESSION;
      SameInv(env, s, s.(callId := c, incoming := true, peerGAHash := h));
    case OpCreateIncoming(c, g, p, draws) =>
      if ValidConfig(g, p) && c in e.calls {
        SameInv(env, e.calls[c], e.calls[c].(incoming := true));
        WithExponentInv(env, e.calls[c].(incoming := true), g, p, draws);
      }
    case OpAccept(c, v) =>
      if c in e.calls && ValidPublic(v, e.calls[c].p) {
        WithSharedInv(env, e.calls[c], v);
      }
    case OpConfirm(c, v, f) =>
      if c in e.calls && ValidPublic(v, e.calls[c].p) {
        WithSharedInv(env, e.calls[c], v);
      }
    case OpDrop(c) =>
    case OpReceive(c, d, delivered) =>
      if c in e.calls {
        ReceivedInv(env, e.calls[c], Receive(e, c, d, delivered).0.calls[c], d, delivered);
      }
  }

  lemma NewSessionInv(env: Env, r: int)
    ensures SessionInv(env, NEW_SESSION.(randomId := r))
  {
  }

  lemma ExponentKeepsReady(env: Env, s: DhSession, g: int, p: seq<byte>, draws: Draws)
    requires ValidConfig(g, p)
    ensures WithExponent(env, s, g, p, draws).sharedReady == s.sharedReady
  {
  }

  lemma SameInv(env: Env, s: DhSession, t: DhSession)
    requires SessionInv(env, s)
    requires t.(randomId := 0, callId := 0, incoming := false, peerGAHash := [], packetsReceived := 0,
                bytesReceived := 0, packetsDropped := 0, pending := [])
          == s.(randomId := 0, callId := 0, incoming := false, peerGAHash := [], packetsReceived := 0,
                bytesReceived := 0, packetsDropped := 0, pending := [])
    ensures SessionInv(env, t)
  {
    hide FromBE, Raise, Fingerprint;
  }

  lemma ReceivedInv(env: Env, s: DhSession, t: DhSession, d: seq<byte>, delivered: bool)
    requires SessionInv(env, s)
    requires
      var counted := s.(packetsReceived := t.packetsReceived, bytesReceived := t.bytesReceived);
      t == counted || t == Queued(counted, d)
    ensures SessionInv(env, t)
  {
    hide Enqueue, SessionInv;
    SameInv(env, s, t);
  }

  /** On every run a ready key has 256 bytes and matches its fingerprint. */
  lemma {:induction false} RunKeeps(env: Env, e: Engine, ops: seq<Op>)
    requires Inv(env, e)
    ensures Inv(env, Run(env, e, ops))
    decreases |ops|
  {
    hide Inv, Do;
    if ops != [] {
      DoKeeps(env, e, ops[0]);
      RunKeeps(env, Do(env, e, ops[0]), ops[1..]);
    }
  }

  // ---------------------------------------------------------------------------
  // Two engines
  // ---------------------------------------------------------------------------

  lemma ToBE256(v: nat, p: seq<byte>)
    requires |p| == DH_BYTES && v < FromBE(p)
    ensures FromBE(ToBE(v, DH_BYTES)) == v
  {
    hide FromBE, ToBE, Pow256;
    FromBEBound(p);
    FromBEToBE(v, DH_BYTES);
  }

  /** Both sides compute the same 256 bytes. */
  lemma SharedKeysAgree(g: nat, a: seq<byte>, b: seq<byte>, p: seq<byte>)
    requires |p| == DH_BYTES && FromBE(p) > 0
    ensures Raise(FromBE(Raise(g, a, p)), b, p) == Raise(FromBE(Raise(g, b, p)), a, p)
  {
    hide FromBE, ToBE, ModPow;
    var x, y, m := FromBE(a), FromBE(b), FromBE(p);
    ToBE256(ModPow(g, x, m), p);
    ToBE256(ModPow(g, y, m), p);
    Agreement(g, x, y, m);
  }

  /** The public value that follows from the draws. */
  function PublicOf(g: int, p: seq<byte>, draws: Draws): seq<byte>
    requires ValidConfig(g, p)
  {
    ConfigIsPositive(g, p);
    Raise(g, PickPrivate(p, draws), p)
  }

  /** The other side's public value raised to one's own exponent. */
  function KeyOf(g: int, p: seq<byte>, own: Draws, other: Draws): (key: seq<byte>)
    requires ValidConfig(g, p)
    ensures |key| == DH_BYTES
  {
    ConfigIsPositive(g, p);
    Raise(FromBE(PublicOf(g, p, other)), PickPrivate(p, own), p)
  }

  /** What each step of the exchange returns and leaves behind. */
  datatype Exchange = Exchange(caller: Engine, callee: Engine, created: Result<Material>, bound: Result<()>,
                               registered: Result<()>, answered: Result<Material>, accepted: Result<Material>,
                               confirmed: Result<()>)

  /**
    The caller creates its value and binds it to the call; the callee gets the commitment,
    answers with its own value, and in the end the caller's value and fingerprint.
  */
  function ExchangeKeys(env: Env, caller: Engine, callee: Engine, randomId: int, callId: int, g: int, p: seq<byte>,
                        drawsA: Draws, drawsB: Draws): Exchange
    requires ValidConfig(g, p)
  {
    var (a1, created) := CreateOutgoing(env, caller, randomId, g, p, drawsA);
    var (a2, bound) := BindOutgoing(a1, randomId, callId);
    var (b1, registered) := RegisterIncoming(callee, callId, created.value.publicHash);
    var (b2, answered) := CreateIncoming(env, b1, callId, g, p, drawsB);
    var gB := if answered.Ok? then answered.value.publicValue else [];
    var (a3, accepted) := AcceptGB(env, a2, callId, gB);
    var fingerprint := if accepted.Ok? then accepted.value.keyFingerprint else 0;
    var (b3, confirmed) := ConfirmPeer(env, b2, callId, created.value.publicValue, fingerprint);
    Exchange(a3, b3, created, bound, registered, answered, accepted, confirmed)
  }

  predicate Ready(e: Engine, callId: int, key: seq<byte>, fingerprint: int) {
    && callId in e.calls && e.calls[callId].sharedReady
    && e.calls[callId].sharedKey == key && e.calls[callId].keyFingerprint == fingerprint
  }

  /**
    From any states of the two engines: if both public values lie between 1 and the modulus,
    every step succeeds and both sides hold the same 256-byte key and fingerprint.
  */
  lemma EnginesAgree(env: Env, caller: Engine, callee: Engine, randomId: int, callId: int, g: int, p: seq<byte>,
                     drawsA: Draws, drawsB: Draws)
    requires ValidConfig(g, p) && callId > 0
    requires ValidPublic(PublicOf(g, p, drawsA), p) && ValidPublic(PublicOf(g, p, drawsB), p)
    ensures
      var x := ExchangeKeys(env, caller, callee, randomId, callId, g, p, drawsA, drawsB);
      var key := KeyOf(g, p, drawsA, drawsB);
      && x.created.Ok? && x.bound.Ok? && x.registered.Ok? && x.answered.Ok? && x.accepted.Ok? && x.confirmed.Ok?
      && Ready(x.caller, callId, key, Fingerprint(env, key)) && Ready(x.callee, callId, key, Fingerprint(env, key))
      && |key| == DH_BYTES
      && !x.caller.calls[callId].incoming && x.callee.calls[callId].incoming
  {
    hide FromBE, ModPow, ToBE, PickFrom, Fingerprint, Raise;
    ConfigIsPositive(g, p);
    SharedKeysAgree(g, PickPrivate(p, drawsA), PickPrivate(p, drawsB), p);
  }

  // ---------------------------------------------------------------------------
  // Waiting packets of a call
  // ---------------------------------------------------------------------------

  lemma {:induction false} TrimShift(pending: seq<seq<byte>>, d: nat, d': nat)
    ensures
      var q, q' := Trim(Queue(pending, d)), Trim(Queue(pending, d'));
      q.pending == q'.pending && q.dropped >= d && q'.dropped >= d' && q.dropped - d == q'.dropped - d'
    decreases |pending|
  {
    hide PendingQueue.Fits;
    if !PendingQueue.Fits(pending) && pending != [] {
      TrimShift(pending[1..], d + 1, d' + 1);
    }
  }

  /** The stored 32-bit drop counter follows the exact one. */
  lemma QueuedFollows(s: DhSession, q: Queue, data: seq<byte>)
    requires s.pending == q.pending && s.packetsDropped == Wrap32(q.dropped)
    ensures
      var t, r := Queued(s, data), Enqueue(q, data);
      t.pending == r.pending && t.packetsDropped == Wrap32(r.dropped)
  {
    hide Trim;
    if data != [] {
      TrimShift(s.pending + [data], s.packetsDropped, q.dropped);
      WrapMore(q.dropped, Trim(Queue(s.pending + [data], q.dropped)).dropped - q.dropped);
    }
  }

  lemma WrapMore(n: nat, k: nat)
    ensures Wrap32(Wrap32(n) + k) == Wrap32(n + k)
  {
  }

  /** A packet, and whether the call's media stack took it at once. */
  datatype Packet = Packet(data: seq<byte>, delivered: bool)

  function ReceiveAll(e: Engine, callId: int, packets: seq<Packet>): Engine {
    if packets == [] then e
    else
      var last := packets[|packets| - 1];
      Receive(ReceiveAll(e, callId, packets[..|packets| - 1]), callId, last.data, last.delivered).0
  }

  /** The data of the packets that were not taken. */
  function Waiting(packets: seq<Packet>): seq<seq<byte>> {
    if packets == [] then []
    else
      var last := packets[|packets| - 1];
      Waiting(packets[..|packets| - 1]) + (if last.delivered then [] else [last.data])
  }

  function CountOf(packets: seq<Packet>): nat {
    if packets == [] then 0
    else CountOf(packets[..|packets| - 1]) + (if packets[|packets| - 1].data == [] then 0 else 1)
  }

  function BytesOf(packets: seq<Packet>): nat {
    if packets == [] then 0 else BytesOf(packets[..|packets| - 1]) + |packets[|packets| - 1].data|
  }

  /** A session whose counters and queue are those of the packets and the exact queue. */
  predicate Counts(s: DhSession, packets: nat, bytes: nat, q: Queue) {
    && s.packetsReceived == packets % 0x1_0000_0000 && s.bytesReceived == bytes % 0x1_0000_0000
    && s.pending == q.pending && s.packetsDropped == q.dropped % 0x1_0000_0000
  }

  lemma ReceiveCounts(e: Engine, callId: int, packet: Packet, packets: nat, bytes: nat, q: Queue)
    requires callId > 0 && callId in e.calls && packet.data != [] && Counts(e.calls[callId], packets, bytes, q)
    ensures
      var after := Receive(e, callId, packet.data, packet.delivered).0;
      && callId in after.calls
      && Counts(after.calls[callId], packets + 1, bytes + |packet.data|,
                if packet.delivered then q else Enqueue(q, packet.data))
  {
    hide Enqueue, Queued;
    var s := e.calls[callId];
    var counted := s.(packetsReceived := Next32(s.packetsReceived),
                      bytesReceived := (s.bytesReceived + |packet.data|) % 0x1_0000_0000);
    QueuedKeepsCounts(counted, packet.data);
    QueuedFollows(counted, q, packet.data);
    WrapMore(packets, 1);
    WrapMore(bytes, |packet.data|);
  }

  lemma QueuedKeepsCounts(s: DhSession, data: seq<byte>)
    ensures Queued(s, data).packetsReceived == s.packetsReceived && Queued(s, data).bytesReceived == s.bytesReceived
  {
    hide Enqueue;
  }

  lemma {:induction false} ReceiveAllCounts(e: Engine, callId: int, packets: seq<Packet>)
    requires callId > 0 && callId in e.calls && Counts(e.calls[callId], 0, 0, Queue([], 0))
    ensures
      var after := ReceiveAll(e, callId, packets);
      && callId in after.calls
      && Counts(after.calls[callId], CountOf(packets), BytesOf(packets), EnqueueAll(Queue([], 0), Waiting(packets)))
  {
    hide Enqueue, Receive, Counts;
    if packets == [] {
      assert EnqueueAll(Queue([], 0), []) == Queue([], 0);
    } else {
      var front, last := packets[..|packets| - 1], packets[|packets| - 1];
      ReceiveAllCounts(e, callId, front);
      var q := EnqueueAll(Queue([], 0), Waiting(front));
      Snoc(Waiting(front), last.data);
      Unit(Waiting(front));
      if last.data == [] {
        NothingReceived(ReceiveAll(e, callId, front), callId, last.delivered);
        EnqueueNothing(q);
      } else {
        ReceiveCounts(ReceiveAll(e, callId, front), callId, last, CountOf(front), BytesOf(front), q);
      }
    }
  }

  lemma NothingReceived(e: Engine, callId: int, delivered: bool)
    ensures Receive(e, callId, [], delivered).0 == e
  {
  }

  lemma EnqueueNothing(q: Queue)
    ensures Enqueue(q, []) == q
  {
  }

  /**
    Every packet that is not empty is counted, modulo 2^32. What waits for a call is the longest
    suffix, within 128 packets and 512 KiB, of those its media stack did not take, and the drop
    counter makes up the difference modulo 2^32.
  */
  lemma WaitingPackets(e: Engine, callId: int, packets: seq<Packet>)
    requires callId > 0 && callId in e.calls && Counts(e.calls[callId], 0, 0, Queue([], 0))
    ensures
      var after := ReceiveAll(e, callId, packets);
      var stream := NonEmpty(Waiting(packets));
      && callId in after.calls
      && var s := after.calls[callId];
         && s.packetsReceived == CountOf(packets) % 0x1_0000_0000
         && s.bytesReceived == BytesOf(packets) % 0x1_0000_0000
         && |s.pending| <= |stream| && s.pending == stream[|stream| - |s.pending|..]
         && LongestFrom(stream, |stream| - |s.pending|)
         && s.packetsDropped == (|stream| - |s.pending|) % 0x1_0000_0000
  {
    hide ReceiveAll, EnqueueAll, NonEmpty, LongestFrom;
    ReceiveAllCounts(e, callId, packets);
    PendingIsLongestSuffix(Waiting(packets));
  }
}
