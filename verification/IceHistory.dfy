/**
  The connectivity-check agent read off its events: for every run, which pairs exist, which
  have been reached, which one is selected and what is reported follow from the candidates
  added and the authenticated messages received.
*/
module IceHistory {
  import opened Bytes
  import opened SeqFacts
  import opened StunSpec
  import opened StunLaws
  import opened IceAgentSpec
  import opened IceAgentLaws
  import IceCandidateSpec

  // ---------------------------------------------------------------------------
  // What the events say
  // ---------------------------------------------------------------------------

  /** A binding request under the agent's own password. */
  predicate IsCheck(env: Env, cfg: Config, bytes: seq<byte>) {
    Decoded(bytes).Some? && Decoded(bytes).value.messageType == 0x0001 && IntegrityVerified(env.hmac, bytes, cfg.localPwd)
  }

  /** A binding response under the peer's password. */
  predicate IsAnswer(env: Env, cfg: Config, bytes: seq<byte>) {
    Decoded(bytes).Some? && Decoded(bytes).value.messageType == 0x0101 && IntegrityVerified(env.hmac, bytes, cfg.remotePwd)
  }

  predicate IsNomination(env: Env, cfg: Config, bytes: seq<byte>) {
    IsCheck(env, cfg, bytes) && Decoded(bytes).value.useCandidate
  }

  function Candidates(events: seq<Event>): seq<IceCandidateSpec.Candidate> {
    if events == [] then []
    else
      var past, e := events[..|events| - 1], events[|events| - 1];
      Candidates(past) + if e.Add? then [e.candidate] else []
  }

  /** The addresses of the candidates, each once, in the order in which they came. */
  function Targets(events: seq<Event>): seq<Target> {
    if events == [] then []
    else
      var past, e := events[..|events| - 1], events[|events| - 1];
      if e.Add? && Target(e.candidate.ip, e.candidate.port) !in Targets(past)
      then Targets(past) + [Target(e.candidate.ip, e.candidate.port)] else Targets(past)
  }

  /** A check or an answer has come from this address when it was known. */
  predicate Reached(env: Env, cfg: Config, events: seq<Event>, t: Target) {
    if events == [] then false
    else
      var past, e := events[..|events| - 1], events[|events| - 1];
      || Reached(env, cfg, past, t)
      || (e.Receive? && e.source == t && t in Targets(past) && (IsCheck(env, cfg, e.bytes) || IsAnswer(env, cfg, e.bytes)))
  }

  /** What makes the agent select an address: an answer if it is controlling, a nomination if it is controlled. */
  predicate Decides(env: Env, cfg: Config, bytes: seq<byte>) {
    if cfg.role == Controlling then IsAnswer(env, cfg, bytes) else IsNomination(env, cfg, bytes)
  }

  /** The known address from which the first deciding message came. */
  function Choice(env: Env, cfg: Config, events: seq<Event>): Option<Target> {
    if events == [] then None
    else
      var past, e := events[..|events| - 1], events[|events| - 1];
      if Choice(env, cfg, past).Some? then Choice(env, cfg, past)
      else if e.Receive? && e.source in Targets(past) && Decides(env, cfg, e.bytes) then Some(e.source)
      else None
  }

  /** A controlling agent has sent requests to the address after it was reached. */
  predicate Nominated(env: Env, cfg: Config, events: seq<Event>, t: Target) {
    if events == [] || cfg.role != Controlling then false
    else
      var past, e := events[..|events| - 1], events[|events| - 1];
      Nominated(env, cfg, past, t) || (e.Send? && Reached(env, cfg, past, t))
  }

  // ---------------------------------------------------------------------------
  // The agent follows them
  // ---------------------------------------------------------------------------

  ghost predicate PairFollows(env: Env, cfg: Config, p: Pair, t: Target, events: seq<Event>) {
    && p.target == t
    && p.succeeded == Reached(env, cfg, events, t)
    && p.useCandidateSent == Nominated(env, cfg, events, t)
  }

  ghost predicate Follows(env: Env, cfg: Config, s: State, events: seq<Event>) {
    var ts := Targets(events);
    && s.remoteCandidates == Candidates(events) && s.checkTargets == ts && |s.pairs| == |ts|
    && (forall i :: 0 <= i < |ts| ==> PairFollows(env, cfg, s.pairs[i], ts[i], events))
    && s.connected == Choice(env, cfg, events).Some?
    && (s.connected ==> s.selected == Choice(env, cfg, events).value)
  }

  lemma {:induction false} TargetsDistinct(events: seq<Event>)
    ensures forall i, j :: 0 <= i < j < |Targets(events)| ==> Targets(events)[i] != Targets(events)[j]
  {
    if events != [] {
      TargetsDistinct(events[..|events| - 1]);
    }
  }

  lemma {:induction false} ReachedKnown(env: Env, cfg: Config, events: seq<Event>, t: Target)
    requires Reached(env, cfg, events, t)
    ensures t in Targets(events)
  {
    hide IsCheck, IsAnswer;
    var past := events[..|events| - 1];
    if Reached(env, cfg, past, t) {
      ReachedKnown(env, cfg, past, t);
    }
  }

  lemma {:induction false} NominatedReached(env: Env, cfg: Config, events: seq<Event>, t: Target)
    requires Nominated(env, cfg, events, t)
    ensures Reached(env, cfg, events, t)
  {
    hide IsCheck, IsAnswer;
    var past := events[..|events| - 1];
    if Nominated(env, cfg, past, t) {
      NominatedReached(env, cfg, past, t);
    }
  }

  /** The pair that is found is the one at the target's place. */
  lemma FoundAt(env: Env, cfg: Config, s: State, events: seq<Event>, t: Target)
    requires Follows(env, cfg, s, events)
    ensures FindPair(s.pairs, t) < |s.pairs| <==> t in Targets(events)
    ensures forall i :: 0 <= i < |s.pairs| && s.pairs[i].target == t ==> FindPair(s.pairs, t) == i
  {
    hide FindPair, Reached, Nominated, Choice, Candidates, Targets;
    TargetsDistinct(events);
    var ts := Targets(events);
    if t in ts {
      var i :| 0 <= i < |ts| && ts[i] == t;
      assert PairFollows(env, cfg, s.pairs[i], ts[i], events);
    }
    var k := FindPair(s.pairs, t);
    if k < |s.pairs| {
      assert PairFollows(env, cfg, s.pairs[k], ts[k], events);
    }
    forall i | 0 <= i < |s.pairs| && s.pairs[i].target == t
      ensures k == i
    {
      assert PairFollows(env, cfg, s.pairs[i], ts[i], events);
    }
  }

  lemma AddFollows(env: Env, cfg: Config, s: State, events: seq<Event>, c: IceCandidateSpec.Candidate)
    requires Follows(env, cfg, s, events)
    ensures Follows(env, cfg, AddCandidate(s, c), events + [Add(c)])
  {
    hide FindPair, IsCheck, IsAnswer;
    var t := Target(c.ip, c.port);
    Snoc(events, Add(c));
    FoundAt(env, cfg, s, events, t);
    var ts, next := Targets(events), Targets(events + [Add(c)]);
    var s' := AddCandidate(s, c);
    if t !in ts {
      if Reached(env, cfg, events, t) {
        ReachedKnown(env, cfg, events, t);
      }
      if Nominated(env, cfg, events, t) {
        NominatedReached(env, cfg, events, t);
      }
    }
    forall i | 0 <= i < |next|
      ensures PairFollows(env, cfg, s'.pairs[i], next[i], events + [Add(c)])
    {
      if i < |ts| {
        assert PairFollows(env, cfg, s.pairs[i], ts[i], events);
      }
    }
  }

  lemma SendFollows(env: Env, cfg: Config, s: State, events: seq<Event>, ids: nat -> TransactionId)
    requires Follows(env, cfg, s, events)
    ensures Follows(env, cfg, s.(pairs := IceAgentSpec.Nominated(cfg, s.pairs)), events + [Send(ids)])
  {
    hide IsCheck, IsAnswer;
    Snoc(events, Send(ids));
    Unit(Candidates(events));
    var ts := Targets(events);
    forall i | 0 <= i < |ts|
      ensures PairFollows(env, cfg, IceAgentSpec.Nominated(cfg, s.pairs)[i], ts[i], events + [Send(ids)])
    {
      assert PairFollows(env, cfg, s.pairs[i], ts[i], events);
    }
  }

  /** What is reported for a datagram. */
  function Report(env: Env, cfg: Config, events: seq<Event>, source: Target, bytes: seq<byte>): Result {
    var known, open := source in Targets(events), Choice(env, cfg, events).None?;
    if IsCheck(env, cfg, bytes) then
      if known && open && cfg.role == Controlled && Decoded(bytes).value.useCandidate then ConnectivityEstablished
      else BindingRequestProcessed
    else if IsAnswer(env, cfg, bytes) && known then
      if open && cfg.role == Controlling then ConnectivityEstablished
      else if Reached(env, cfg, events, source) then Other
      else BindingResponseProcessed
    else Other
  }

  lemma ReceiveFollows(env: Env, cfg: Config, s: State, events: seq<Event>, source: Target, bytes: seq<byte>)
    requires Follows(env, cfg, s, events)
    ensures
      var o := Process(env, cfg, s, source, bytes);
      && Follows(env, cfg, o.state, events + [Receive(source, bytes)])
      && o.result == Report(env, cfg, events, source, bytes)
      && (!IsCheck(env, cfg, bytes) ==> o.response == [])
      && (IsCheck(env, cfg, bytes) ==>
            o.response == Encoded(env.hmac, Response(env, Decoded(bytes).value, source), cfg.localPwd))
  {
    hide FindPair, Encoded, Decoded, IntegrityVerified, Response;
    var e := Receive(source, bytes);
    Snoc(events, e);
    Unit(Candidates(events));
    FoundAt(env, cfg, s, events, source);
    var ts := Targets(events);
    var s' := Process(env, cfg, s, source, bytes).state;
    var k := FindPair(s.pairs, source);
    if k < |s.pairs| {
      assert PairFollows(env, cfg, s.pairs[k], ts[k], events);
    }
    forall i | 0 <= i < |ts|
      ensures PairFollows(env, cfg, s'.pairs[i], ts[i], events + [e])
    {
      assert PairFollows(env, cfg, s.pairs[i], ts[i], events);
    }
  }

  lemma {:induction false} RunFollows(env: Env, cfg: Config, s: State, past: seq<Event>, events: seq<Event>)
    requires Follows(env, cfg, s, past)
    ensures Follows(env, cfg, Run(env, cfg, s, events), past + events)
    decreases |events|
  {
    hide Follows, Process, AddCandidate;
    if events == [] {
      Unit(past);
    } else {
      var e := events[0];
      match e {
        case Add(c) => AddFollows(env, cfg, s, past, c);
        case Send(ids) => SendFollows(env, cfg, s, past, ids);
        case Receive(source, bytes) => ReceiveFollows(env, cfg, s, past, source, bytes);
      }
      RunFollows(env, cfg, Step(env, cfg, s, e).0, past + [e], events[1..]);
      FirstRest(events);
      Assoc(past, [e], events[1..]);
    }
  }

  lemma StartFollows(env: Env, cfg: Config)
    ensures Follows(env, cfg, START, [])
  {
  }

  /**
    After every run of a new agent: it has one pair for each address added, a pair has succeeded
    exactly if an authenticated message came from its address once that was known, and the
    selected address is the one the first deciding message came from.
  */
  lemma AgentOfRun(env: Env, cfg: Config, events: seq<Event>)
    ensures Follows(env, cfg, Run(env, cfg, START, events), events)
  {
    hide Run, Follows;
    StartFollows(env, cfg);
    RunFollows(env, cfg, START, [], events);
    Unit(events);
  }

  /** And what it reports for the next datagram, and whether it answers, follows from the events too. */
  lemma ReportOfRun(env: Env, cfg: Config, events: seq<Event>, source: Target, bytes: seq<byte>)
    ensures
      var o := Process(env, cfg, Run(env, cfg, START, events), source, bytes);
      && o.result == Report(env, cfg, events, source, bytes)
      && (!IsCheck(env, cfg, bytes) ==> o.response == [])
      && (IsCheck(env, cfg, bytes) ==>
            o.response == Encoded(env.hmac, Response(env, Decoded(bytes).value, source), cfg.localPwd))
  {
    hide Run, Follows, Process, Report, IsCheck, Response, Encoded, Decoded;
    AgentOfRun(env, cfg, events);
    ReceiveFollows(env, cfg, Run(env, cfg, START, events), events, source, bytes);
  }
}
