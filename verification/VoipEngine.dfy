/** The engine's call state as the program keeps it: maps of sessions that calls update. */
module VoipEngine {
  import opened Bytes
  import opened SeqFacts
  import opened ModularPower
  import opened PendingQueue
  import opened KeyExchangeSpec
  import Spec = KeyExchangeSpec

  class CallEngine {
    const env: Env
    var calls: map<int, DhSession>
    var outgoingByRandom: map<int, DhSession>
    var droppedCallIds: set<int>

    ghost function Model(): Engine
      reads this
    {
      Engine(calls, outgoingByRandom, droppedCallIds)
    }

    ghost predicate Valid()
      reads this
    {
      Inv(env, Model())
    }

    constructor (env: Env)
      ensures Valid() && Model() == Engine(map[], map[], {}) && this.env == env
    {
      this.env := env;
      calls, outgoingByRandom, droppedCallIds := map[], map[], {};
    }

    method CreateOutgoingDh(randomId: int, g: int, p: seq<byte>, draws: Draws) returns (out: Result<Material>)
      requires Valid()
      modifies `outgoingByRandom
      ensures Valid() && (Model(), out) == CreateOutgoing(env, old(Model()), randomId, g, p, draws)
    {
      hide Inv, PickFrom, Raise;
      DoKeeps(env, Model(), OpCreateOutgoing(randomId, g, p, draws));
      if !ValidConfig(g, p) {
        return Err(Invalid);
      }
      var session := NEW_SESSION.(randomId := randomId);
      session := Exponentiate(env, session, g, p, draws);
      out := Ok(Material(session.publicValue, session.publicHash, 0));
      outgoingByRandom := outgoingByRandom[randomId := session];
    }

    method BindOutgoingCall(randomId: int, callId: int) returns (out: Result<()>)
      requires Valid()
      modifies this
      ensures Valid() && (Model(), out) == BindOutgoing(old(Model()), randomId, callId)
    {
      hide Inv;
      DoKeeps(env, Model(), OpBind(randomId, callId));
      if callId <= 0 {
        return Err(Invalid);
      }
      if randomId !in outgoingByRandom {
        return Err(Invalid);
      }
      var session := outgoingByRandom[randomId].(callId := callId);
      calls := calls[callId := session];
      droppedCallIds := droppedCallIds - {callId};
      outgoingByRandom := outgoingByRandom - {randomId};
      out := Ok(());
    }

    method RegisterIncomingGAHash(callId: int, gAHash: seq<byte>) returns (out: Result<()>)
      requires Valid()
      modifies `calls, `droppedCallIds
      ensures Valid() && (Model(), out) == RegisterIncoming(old(Model()), callId, gAHash)
    {
      hide Inv;
      DoKeeps(env, Model(), OpRegister(callId, gAHash));
      if callId <= 0 {
        return Err(Invalid);
      }
      if |gAHash| != 32 {
        return Err(Invalid);
      }
      var session := NEW_SESSION;
      if callId in calls {
        session := calls[callId];
      }
      session := session.(callId := callId, incoming := true, peerGAHash := gAHash);
      calls := calls[callId := session];
      droppedCallIds := droppedCallIds - {callId};
      out := Ok(());
    }

    method CreateIncomingDh(callId: int, g: int, p: seq<byte>, draws: Draws) returns (out: Result<Material>)
      requires Valid()
      modifies `calls
      ensures Valid() && (Model(), out) == CreateIncoming(env, old(Model()), callId, g, p, draws)
    {
      hide Inv, PickFrom, Raise;
      DoKeeps(env, Model(), OpCreateIncoming(callId, g, p, draws));
      if !ValidConfig(g, p) {
        return Err(Invalid);
      }
      if callId !in calls || calls[callId].peerGAHash == [] {
        return Err(Invalid);
      }
      var session := calls[callId].(incoming := true);
      session := Exponentiate(env, session, g, p, draws);
      out := Ok(Material(session.publicValue, session.publicHash, 0));
      calls := calls[callId := session];
    }

    method AcceptPeerGB(callId: int, gB: seq<byte>) returns (out: Result<Material>)
      requires Valid()
      modifies `calls
      ensures Valid() && (Model(), out) == AcceptGB(env, old(Model()), callId, gB)
    {
      hide Inv, FromBE, WithShared;
      DoKeeps(env, Model(), OpAccept(callId, gB));
      if callId !in calls {
        return Err(Invalid);
      }
      var session := calls[callId];
      if !ValidPublic(gB, session.p) {
        return Err(Invalid);
      }
      session := WithShared(env, session, gB);
      out := Ok(MaterialOf(session));
      calls := calls[callId := session];
    }

    method ConfirmPeerGAOrB(callId: int, gAOrB: seq<byte>, expectedFingerprint: int) returns (out: Result<()>)
      requires Valid()
      modifies `calls
      ensures Valid() && (Model(), out) == ConfirmPeer(env, old(Model()), callId, gAOrB, expectedFingerprint)
    {
      hide Inv, FromBE, WithShared;
      DoKeeps(env, Model(), OpConfirm(callId, gAOrB, expectedFingerprint));
      if callId !in calls {
        return Err(Invalid);
      }
      var session := calls[callId];
      if |session.peerGAHash| == 32 {
        var gotHash := env.sha256(gAOrB);
        if gotHash != session.peerGAHash {
          return Err(FingerprintMismatch);
        }
      }
      if !ValidPublic(gAOrB, session.p) {
        return Err(Invalid);
      }
      session := WithShared(env, session, gAOrB);
      if expectedFingerprint != 0 && session.keyFingerprint != expectedFingerprint {
        return Err(FingerprintMismatch);
      }
      calls := calls[callId := session];
      out := Ok(());
    }

    method DropCall(callId: int)
      requires Valid()
      modifies `calls, `droppedCallIds
      ensures Valid() && Model() == Drop(old(Model()), callId)
    {
      hide Inv;
      DoKeeps(env, Model(), OpDrop(callId));
      if callId in calls {
        calls := calls - {callId};
      }
      assert calls == old(calls) - {callId};
      droppedCallIds := droppedCallIds + {callId};
    }

    /** `delivered` says whether a running media stack of this call takes the packet. */
    method ReceiveSignalingData(callId: int, data: seq<byte>, delivered: bool) returns (out: Result<()>)
      requires Valid()
      modifies `calls
      ensures Valid() && (Model(), out) == Receive(old(Model()), callId, data, delivered)
    {
      hide Inv, Enqueue;
      DoKeeps(env, Model(), OpReceive(callId, data, delivered));
      if callId <= 0 {
        return Err(Invalid);
      }
      if data == [] {
        return Err(Invalid);
      }
      if callId !in calls {
        if callId in droppedCallIds {
          return Ok(());
        }
        return Err(Invalid);
      }
      var session := calls[callId];
      session := session.(packetsReceived := Next32(session.packetsReceived),
                          bytesReceived := (session.bytesReceived + |data|) % 0x1_0000_0000);
      if !delivered {
        session := QueuePendingSignaling(session, data);
      }
      calls := calls[callId := session];
      out := Ok(());
    }
  }

  /** Up to eight draws, then the fixed exponent 2. */
  method PickPrivateExponent(p: seq<byte>, draws: Draws) returns (r: seq<byte>)
    ensures r == PickPrivate(p, draws)
  {
    hide FromBE, PickFrom;
    assert draws[0..] == draws;
    for attempt := 0 to 8
      invariant PickFrom(p, draws[attempt..]) == PickFrom(p, draws)
    {
      var candidate := draws[attempt];
      PickHere(p, draws, attempt);
      if 1 < FromBE(candidate) < FromBE(p) {
        return candidate;
      }
    }
    PickNothing(p);
    assert draws[8..] == [];
    r := FALLBACK;
  }

  lemma PickHere(p: seq<byte>, draws: seq<seq<byte>>, i: nat)
    requires i < |draws|
    ensures PickFrom(p, draws[i..]) == if 1 < FromBE(draws[i]) < FromBE(p) then draws[i] else PickFrom(p, draws[i + 1..])
  {
    hide FromBE;
    DropDrop(draws, i, 1);
  }

  lemma PickNothing(p: seq<byte>)
    ensures PickFrom(p, []) == FALLBACK
  {
  }

  method Exponentiate(env: Env, s: DhSession, g: int, p: seq<byte>, draws: Draws) returns (r: DhSession)
    requires ValidConfig(g, p)
    ensures r == WithExponent(env, s, g, p, draws)
  {
    hide PickFrom, Raise, FromBE;
    ConfigIsPositive(g, p);
    var privateExponent := PickPrivateExponent(p, draws);
    var publicPower := Raise(g, privateExponent, p);
    r := s.(g := g, p := p, privateValue := privateExponent, publicValue := publicPower, publicHash := env.sha256(publicPower));
  }

  method PendingSignalingBytes(q: seq<seq<byte>>) returns (bytes: nat)
    ensures bytes == TotalBytes(q)
  {
    bytes := 0;
    var i := 0;
    assert q[0..] == q;
    while i < |q|
      invariant 0 <= i <= |q| && TotalBytes(q) == bytes + TotalBytes(q[i..])
    {
      DropDrop(q, i, 1);
      bytes := bytes + |q[i]|;
      i := i + 1;
    }
  }

  /** Append, then drop from the front until both limits hold. */
  method QueuePendingSignaling(s: DhSession, data: seq<byte>) returns (r: DhSession)
    ensures r == Queued(s, data)
  {
    r := s;
    if data == [] {
      return;
    }
    var pending, dropped := s.pending + [data], s.packetsDropped;
    ghost var exact: nat := s.packetsDropped;
    var bytes := PendingSignalingBytes(pending);
    while |pending| > MAX_PACKETS || bytes > MAX_BYTES
      invariant bytes == TotalBytes(pending) && dropped == Wrap32(exact)
      invariant Trim(Queue(pending, exact)) == Trim(Queue(s.pending + [data], s.packetsDropped))
      decreases |pending|
    {
      if pending == [] {
        break;
      }
      WrapNext(exact);
      pending := pending[1..];
      dropped := Next32(dropped);
      exact := exact + 1;
      bytes := PendingSignalingBytes(pending);
    }
    r := s.(pending := pending, packetsDropped := dropped);
  }
}
