/** The agent as the program runs it: an object whose methods update its pairs. */
module IceAgent {
  import opened Bytes
  import opened SeqFacts
  import opened StunSpec
  import opened IceAgentSpec
  import opened IceAgentLaws
  import Spec = IceAgentSpec
  import IceCandidateSpec
  import StunMessage

  class Agent {
    const env: Env
    const cfg: Config
    var remoteCandidates: seq<IceCandidateSpec.Candidate>
    var checkTargets: seq<Target>
    var pairs: seq<Pair>
    var connected: bool
    var selected: Target

    ghost function Model(): State
      reads this
    {
      State(remoteCandidates, checkTargets, pairs, connected, selected)
    }

    ghost predicate Valid()
      reads this
    {
      Inv(Model())
    }

    constructor (env: Env, cfg: Config)
      ensures Valid() && Model() == START && this.env == env && this.cfg == cfg
    {
      this.env, this.cfg := env, cfg;
      remoteCandidates, checkTargets, pairs := [], [], [];
      connected, selected := false, Target("", 0);
    }

    /** Index of the pair for an address, or the number of pairs. */
    method FindPair(ip: string, port: int) returns (k: nat)
      ensures k == Spec.FindPair(pairs, Target(ip, port))
    {
      hide Spec.FindPair;
      k := 0;
      while k < |pairs|
        invariant 0 <= k <= |pairs|
        invariant forall i :: 0 <= i < k ==> pairs[i].target != Target(ip, port)
      {
        if pairs[k].target.ip == ip && pairs[k].target.port == port {
          FindAt(pairs, Target(ip, port), k);
          return;
        }
        k := k + 1;
      }
    }

    method AddRemoteCandidate(c: IceCandidateSpec.Candidate)
      requires Valid()
      modifies this
      ensures Valid() && Model() == AddCandidate(old(Model()), c)
    {
      hide Spec.FindPair, Inv;
      AddKeeps(Model(), Add(c));
      remoteCandidates := remoteCandidates + [c];
      var k := FindPair(c.ip, c.port);
      if k == |pairs| {
        var t := Target(c.ip, c.port);
        checkTargets := checkTargets + [t];
        pairs := pairs + [Pair(t, false, false)];
      }
    }

    method GetBindingRequestsToSend(ids: nat -> TransactionId) returns (out: seq<Datagram>)
      requires Valid()
      modifies this`pairs
      ensures Valid() && Model() == old(Model()).(pairs := Nominated(cfg, old(pairs)))
      ensures out == Requests(env, cfg, old(pairs), ids)
    {
      hide RequestBytes, Inv, Spec.FindPair;
      SendKeeps(cfg, Model());
      ghost var was := pairs;
      out := [];
      var i := 0;
      while i < |pairs|
        invariant 0 <= i <= |pairs| == |was|
        invariant pairs == Nominated(cfg, was)[..i] + was[i..]
        invariant out == Requests(env, cfg, was, ids)[..i]
      {
        StepPairs(was, Nominated(cfg, was), i);
        StepRequests(env, cfg, was, ids, i);
        var p := pairs[i];
        var useCandidate := cfg.role == Controlling && p.succeeded && !p.useCandidateSent;
        var bytes := BuildBindingRequest(ids(i), useCandidate);
        if useCandidate {
          pairs := pairs[i := p.(useCandidateSent := true)];
        }
        out := out + [Datagram(p.target, bytes)];
        i := i + 1;
      }
      assert Requests(env, cfg, was, ids)[..i] == Requests(env, cfg, was, ids);
      assert pairs == Nominated(cfg, was);
    }

    method BuildBindingRequest(id: TransactionId, useCandidate: bool) returns (bytes: seq<byte>)
      ensures bytes == RequestBytes(env, cfg, id, useCandidate)
    {
      hide Encoded;
      var m := Blank(BINDING_REQUEST, id);
      m := m.(username := cfg.remoteUfrag + [0x3A] + cfg.localUfrag);
      m := m.(priority := Some(CHECK_PRIORITY));
      if cfg.role == Controlling {
        m := m.(iceControlling := Some(cfg.tieBreak));
      } else {
        m := m.(iceControlled := Some(cfg.tieBreak));
      }
      m := m.(useCandidate := useCandidate);
      bytes := StunMessage.Encode(env.hmac, m, cfg.remotePwd);
    }

    method BuildBindingResponse(request: Message, source: Target) returns (bytes: seq<byte>)
      ensures bytes == Encoded(env.hmac, Response(env, request, source), cfg.localPwd)
    {
      hide Encoded;
      var m := Blank(BINDING_RESPONSE, request.transactionId);
      var quad := env.dottedQuad(source.ip);
      if quad.Some? {
        m := m.(mapped := Some(Mapped(1, BE32(quad.value) + Zeros(12), source.port % 0x1_0000)));
      }
      bytes := StunMessage.Encode(env.hmac, m, cfg.localPwd);
    }

    method ProcessIncoming(source: Target, bytes: seq<byte>) returns (result: Result, outResponse: seq<byte>)
      requires Valid()
      modifies this`pairs, this`connected, this`selected
      ensures Valid() && Outcome(Model(), result, outResponse) == Process(env, cfg, old(Model()), source, bytes)
    {
      hide Encoded, Decoded, IntegrityVerified, Inv, Spec.FindPair;
      ProcessKeeps(env, cfg, Model(), source, bytes);
      outResponse := [];
      var decoded := StunMessage.Decode(bytes);
      if decoded.None? {
        return Other, [];
      }
      var m := decoded.value;
      if m.messageType == BINDING_REQUEST {
        var verified := StunMessage.VerifyMessageIntegrity(env.hmac, bytes, cfg.localPwd);
        if !verified {
          return Other, [];
        }
        outResponse := BuildBindingResponse(m, source);
        result := Asked(source, m.useCandidate);
        return;
      }
      if m.messageType == BINDING_RESPONSE {
        var verified := StunMessage.VerifyMessageIntegrity(env.hmac, bytes, cfg.remotePwd);
        if !verified {
          return Other, [];
        }
        result := Answered(source);
        return;
      }
      result := Other;
    }

    /** A verified request: the peer reaches us from an address we may know. */
    method Asked(source: Target, useCandidate: bool) returns (result: Result)
      modifies this`pairs, this`connected, this`selected
      ensures forall m: Message :: m.useCandidate == useCandidate ==>
                var o := ProcessRequest(env, cfg, old(Model()), source, m);
                Model() == o.state && result == o.result
    {
      hide Encoded, Spec.FindPair;
      var k := FindPair(source.ip, source.port);
      if k < |pairs| {
        pairs := pairs[k := pairs[k].(succeeded := true)];
        if useCandidate && cfg.role == Controlled && !connected {
          connected := true;
          selected := pairs[k].target;
          return ConnectivityEstablished;
        }
      }
      result := BindingRequestProcessed;
    }

    /** A verified response: our check of a known address has succeeded. */
    method Answered(source: Target) returns (result: Result)
      modifies this`pairs, this`connected, this`selected
      ensures Outcome(Model(), result, []) == ProcessResponse(cfg, old(Model()), source)
    {
      hide Spec.FindPair;
      var k := FindPair(source.ip, source.port);
      if k == |pairs| {
        return Other;
      }
      var wasNew := !pairs[k].succeeded;
      pairs := pairs[k := pairs[k].(succeeded := true)];
      if cfg.role == Controlling && !connected {
        connected := true;
        selected := pairs[k].target;
        return ConnectivityEstablished;
      }
      result := if wasNew then BindingResponseProcessed else Other;
    }
  }

  /** The part of the pairs already visited grows by one. */
  lemma StepPairs(was: seq<Pair>, now: seq<Pair>, i: nat)
    requires i < |was| == |now|
    ensures
      var mixed := now[..i] + was[i..];
      && mixed[i] == was[i] && mixed[i := now[i]] == now[..i + 1] + was[i + 1..]
      && (now[i] == was[i] ==> mixed == now[..i + 1] + was[i + 1..])
  {
  }

  lemma StepRequests(env: Env, cfg: Config, was: seq<Pair>, ids: nat -> TransactionId, i: nat)
    requires i < |was|
    ensures
      var all := Requests(env, cfg, was, ids);
      all[..i + 1]
      == all[..i] + [Datagram(was[i].target, RequestBytes(env, cfg, ids(i), Nominates(cfg, was[i])))]
  {
    hide RequestBytes;
  }
}
