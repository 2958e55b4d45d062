/**
  The connectivity-check agent as functions on values: the pairs it knows, the requests it
  sends and what it makes of a datagram.
*/
module IceAgentSpec {
  import opened Bytes
  import opened SeqFacts
  import opened StunSpec
  import opened StunLaws
  import IceCandidateSpec

  datatype Role = Controlling | Controlled

  datatype Target = Target(ip: string, port: int)

  datatype Pair = Pair(target: Target, succeeded: bool, useCandidateSent: bool)

  /** What is fixed for the life of an agent; the tie-breaker is random. */
  datatype Config = Config(
    role: Role, localUfrag: seq<byte>, localPwd: seq<byte>, remoteUfrag: seq<byte>, remotePwd: seq<byte>,
    tieBreak: u64)

  /** The code of a message, and the reading of a dotted-quad address. */
  datatype Env = Env(hmac: Hmac, dottedQuad: string -> Option<u32>)

  datatype State = State(
    remoteCandidates: seq<IceCandidateSpec.Candidate>, checkTargets: seq<Target>,
    pairs: seq<Pair>, connected: bool, selected: Target)

  const START := State([], [], [], false, Target("", 0))

  datatype Result = Other | BindingRequestProcessed | BindingResponseProcessed | ConnectivityEstablished

  const BINDING_REQUEST: u16 := 0x0001
  const BINDING_RESPONSE: u16 := 0x0101

  /** Index of the first pair with this target, or the number of pairs. */
  function FindPair(pairs: seq<Pair>, target: Target): (k: nat)
    ensures k <= |pairs|
    ensures k < |pairs| ==> pairs[k].target == target
    ensures forall i :: 0 <= i < k ==> pairs[i].target != target
  {
    if pairs == [] || pairs[0].target == target then 0 else 1 + FindPair(pairs[1..], target)
  }

  function AddCandidate(s: State, c: IceCandidateSpec.Candidate): State {
    var t := Target(c.ip, c.port);
    var logged := s.(remoteCandidates := s.remoteCandidates + [c]);
    if FindPair(s.pairs, t) < |s.pairs| then logged
    else logged.(checkTargets := s.checkTargets + [t], pairs := s.pairs + [Pair(t, false, false)])
  }

  // ---------------------------------------------------------------------------
  // Sending
  // ---------------------------------------------------------------------------

  /** Type preference 110, local preference 65535, component 1. */
  const CHECK_PRIORITY: u32 := 0x6EFF_FFFF

  function Request(cfg: Config, id: TransactionId, useCandidate: bool): Message {
    Message(BINDING_REQUEST, id, cfg.remoteUfrag + [0x3A] + cfg.localUfrag,
            Some(CHECK_PRIORITY),
            if cfg.role == Controlling then Some(cfg.tieBreak) else None,
            if cfg.role == Controlled then Some(cfg.tieBreak) else None,
            useCandidate, None, [], None)
  }

  function RequestBytes(env: Env, cfg: Config, id: TransactionId, useCandidate: bool): seq<byte> {
    Encoded(env.hmac, Request(cfg, id, useCandidate), cfg.remotePwd)
  }

  /** The controlling side nominates a pair that has succeeded, once. */
  predicate Nominates(cfg: Config, p: Pair) {
    cfg.role == Controlling && p.succeeded && !p.useCandidateSent
  }

  datatype Datagram = Datagram(target: Target, bytes: seq<byte>)

  /** One request per pair; transaction ids are random. */
  function Requests(env: Env, cfg: Config, pairs: seq<Pair>, ids: nat -> TransactionId): (r: seq<Datagram>)
    ensures |r| == |pairs|
  {
    seq(|pairs|, i requires 0 <= i < |pairs| =>
      Datagram(pairs[i].target, RequestBytes(env, cfg, ids(i), Nominates(cfg, pairs[i]))))
  }

  function Nominated(cfg: Config, pairs: seq<Pair>): (r: seq<Pair>)
    ensures |r| == |pairs|
  {
    seq(|pairs|, i requires 0 <= i < |pairs| =>
      if Nominates(cfg, pairs[i]) then pairs[i].(useCandidateSent := true) else pairs[i])
  }

  // ---------------------------------------------------------------------------
  // Receiving
  // ---------------------------------------------------------------------------

  function Response(env: Env, request: Message, source: Target): Message {
    var quad := env.dottedQuad(source.ip);
    Blank(BINDING_RESPONSE, request.transactionId).(
      mapped := if quad.None? then None
                else Some(Mapped(1, BE32(quad.value) + Zeros(12), source.port % 0x1_0000)))
  }

  function Succeed(s: State, k: nat): State
    requires k < |s.pairs|
  {
    s.(pairs := s.pairs[k := s.pairs[k].(succeeded := true)])
  }

  function Select(s: State, k: nat): State
    requires k < |s.pairs|
  {
    s.(connected := true, selected := s.pairs[k].target)
  }

  datatype Outcome = Outcome(state: State, result: Result, response: seq<byte>)

  function ProcessRequest(env: Env, cfg: Config, s: State, source: Target, m: Message): Outcome {
    var response := Encoded(env.hmac, Response(env, m, source), cfg.localPwd);
    var k := FindPair(s.pairs, source);
    if k == |s.pairs| then Outcome(s, BindingRequestProcessed, response)
    else if m.useCandidate && cfg.role == Controlled && !s.connected then
      Outcome(Select(Succeed(s, k), k), ConnectivityEstablished, response)
    else Outcome(Succeed(s, k), BindingRequestProcessed, response)
  }

  function ProcessResponse(cfg: Config, s: State, source: Target): Outcome {
    var k := FindPair(s.pairs, source);
    if k == |s.pairs| then Outcome(s, Other, [])
    else if cfg.role == Controlling && !s.connected then
      Outcome(Select(Succeed(s, k), k), ConnectivityEstablished, [])
    else Outcome(Succeed(s, k), if s.pairs[k].succeeded then Other else BindingResponseProcessed, [])
  }

  /** A request is checked under the local password, a response under the peer's. */
  function Process(env: Env, cfg: Config, s: State, source: Target, bytes: seq<byte>): Outcome {
    var m := Decoded(bytes);
    if m.Some? && m.value.messageType == BINDING_REQUEST && IntegrityVerified(env.hmac, bytes, cfg.localPwd) then
      ProcessRequest(env, cfg, s, source, m.value)
    else if m.Some? && m.value.messageType == BINDING_RESPONSE && IntegrityVerified(env.hmac, bytes, cfg.remotePwd) then
      ProcessResponse(cfg, s, source)
    else Outcome(s, Other, [])
  }

  // ---------------------------------------------------------------------------
  // Runs
  // ---------------------------------------------------------------------------

  datatype Event =
    | Add(candidate: IceCandidateSpec.Candidate)
    | Send(ids: nat -> TransactionId)
    | Receive(source: Target, bytes: seq<byte>)

  datatype Output = Output(result: Result, sent: seq<Datagram>)

  function Step(env: Env, cfg: Config, s: State, e: Event): (State, Output) {
    match e
    case Add(c) => (AddCandidate(s, c), Output(Other, []))
    case Send(ids) => (s.(pairs := Nominated(cfg, s.pairs)), Output(Other, Requests(env, cfg, s.pairs, ids)))
    case Receive(source, bytes) =>
      var o := Process(env, cfg, s, source, bytes);
      (o.state, Output(o.result, []))
  }

  function Run(env: Env, cfg: Config, s: State, events: seq<Event>): State
    decreases |events|
  {
    if events == [] then s else Run(env, cfg, Step(env, cfg, s, events[0]).0, events[1..])
  }

  /** How often a run reports that connectivity is established. */
  function Established(env: Env, cfg: Config, s: State, events: seq<Event>): nat
    decreases |events|
  {
    if events == [] then 0
    else
      var (next, out) := Step(env, cfg, s, events[0]);
      (if out.result == ConnectivityEstablished then 1 else 0) + Established(env, cfg, next, events[1..])
  }

  /** A datagram to this target that is a check request with USE-CANDIDATE. */
  ghost predicate NominatesTo(env: Env, cfg: Config, d: Datagram, target: Target) {
    d.target == target && exists id: TransactionId :: d.bytes == RequestBytes(env, cfg, id, true)
  }

  ghost function CountTo(env: Env, cfg: Config, sent: seq<Datagram>, target: Target): nat {
    if sent == [] then 0
    else (if NominatesTo(env, cfg, sent[0], target) then 1 else 0) + CountTo(env, cfg, sent[1..], target)
  }

  /** How many USE-CANDIDATE requests go out to a target during a run. */
  ghost function Nominations(env: Env, cfg: Config, s: State, events: seq<Event>, target: Target): nat
    decreases |events|
  {
    if events == [] then 0
    else
      var (next, out) := Step(env, cfg, s, events[0]);
      CountTo(env, cfg, out.sent, target) + Nominations(env, cfg, next, events[1..], target)
  }
}
