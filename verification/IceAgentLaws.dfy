/**
  What the connectivity-check agent guarantees over whole runs, and that two agents that
  know each other connect.
*/
module IceAgentLaws {
  import opened Bytes
  import opened SeqFacts
  import opened StunSpec
  import opened StunLaws
  import opened IceAgentSpec

  // ---------------------------------------------------------------------------
  // Invariant
  // ---------------------------------------------------------------------------

  ghost predicate Distinct(pairs: seq<Pair>) {
    forall i, j :: 0 <= i < j < |pairs| ==> pairs[i].target != pairs[j].target
  }

  /** The pair for this target exists and has succeeded. */
  predicate Succeeded(pairs: seq<Pair>, target: Target) {
    var k := FindPair(pairs, target);
    k < |pairs| && pairs[k].succeeded
  }

  ghost predicate Inv(s: State) {
    && Distinct(s.pairs)
    && |s.checkTargets| == |s.pairs|
    && (forall i :: 0 <= i < |s.pairs| ==> s.checkTargets[i] == s.pairs[i].target)
    && (forall i :: 0 <= i < |s.pairs| ==> s.pairs[i].useCandidateSent ==> s.pairs[i].succeeded)
    && (s.connected ==> Succeeded(s.pairs, s.selected))
  }

  /** Nothing an agent has learned or sent is taken back. */
  ghost predicate Grows(s: State, t: State) {
    && |s.pairs| <= |t.pairs|
    && (forall i :: 0 <= i < |s.pairs| ==>
          && t.pairs[i].target == s.pairs[i].target
          && (s.pairs[i].succeeded ==> t.pairs[i].succeeded)
          && (s.pairs[i].useCandidateSent ==> t.pairs[i].useCandidateSent))
    && (s.connected ==> t.connected && t.selected == s.selected)
  }

  lemma {:induction false} FindAt(pairs: seq<Pair>, target: Target, k: nat)
    requires k < |pairs| && pairs[k].target == target
    requires forall i :: 0 <= i < k ==> pairs[i].target != target
    ensures FindPair(pairs, target) == k
  {
    hide FindPair;
  }

  /** A found pair stays found at its place when pairs keep their targets and more are added. */
  lemma FindKept(p: seq<Pair>, q: seq<Pair>, target: Target)
    requires |p| <= |q| && forall i :: 0 <= i < |p| ==> q[i].target == p[i].target
    requires FindPair(p, target) < |p|
    ensures FindPair(q, target) == FindPair(p, target)
  {
    hide FindPair;
    FindAt(q, target, FindPair(p, target));
  }

  lemma AddKeeps(s: State, c: Event)
    requires Inv(s) && c.Add?
    ensures Inv(AddCandidate(s, c.candidate)) && Grows(s, AddCandidate(s, c.candidate))
  {
    hide FindPair;
    var t := AddCandidate(s, c.candidate);
    if s.connected {
      FindKept(s.pairs, t.pairs, s.selected);
    }
  }

  lemma SendKeeps(cfg: Config, s: State)
    requires Inv(s)
    ensures Inv(s.(pairs := Nominated(cfg, s.pairs))) && Grows(s, s.(pairs := Nominated(cfg, s.pairs)))
  {
    hide FindPair;
    if s.connected {
      FindKept(s.pairs, Nominated(cfg, s.pairs), s.selected);
    }
  }

  lemma SucceedKeeps(s: State, k: nat)
    requires Inv(s) && k < |s.pairs|
    ensures Inv(Succeed(s, k)) && Grows(s, Succeed(s, k))
  {
    hide FindPair;
    if s.connected {
      FindKept(s.pairs, Succeed(s, k).pairs, s.selected);
    }
  }

  lemma SelectKeeps(s: State, k: nat)
    requires Inv(s) && k < |s.pairs| && s.pairs[k].succeeded && !s.connected
    ensures Inv(Select(s, k)) && Grows(s, Select(s, k))
  {
    hide FindPair;
    FindAt(s.pairs, s.pairs[k].target, k);
  }

  lemma GrowsTrans(s: State, t: State, u: State)
    requires Grows(s, t) && Grows(t, u)
    ensures Grows(s, u)
  {
  }

  lemma ProcessKeeps(env: Env, cfg: Config, s: State, source: Target, bytes: seq<byte>)
    requires Inv(s)
    ensures
      var o := Process(env, cfg, s, source, bytes);
      && Inv(o.state) && Grows(s, o.state)
      && (o.result == ConnectivityEstablished <==> !s.connected && o.state.connected)
  {
    hide FindPair, Encoded, Decoded, IntegrityVerified, Inv, Grows;
    var k := FindPair(s.pairs, source);
    if k < |s.pairs| {
      SucceedKeeps(s, k);
      if !s.connected {
        SelectKeeps(Succeed(s, k), k);
        GrowsTrans(s, Succeed(s, k), Select(Succeed(s, k), k));
      }
    }
    GrowsSelf(s);
  }

  lemma GrowsSelf(s: State)
    ensures Grows(s, s)
  {
  }

  lemma StepKeeps(env: Env, cfg: Config, s: State, e: Event)
    requires Inv(s)
    ensures
      var (next, out) := Step(env, cfg, s, e);
      && Inv(next) && Grows(s, next)
      && (out.result == ConnectivityEstablished <==> !s.connected && next.connected)
  {
    hide Process, Inv, Grows, Requests, FindPair;
    match e
    case Add(c) => AddKeeps(s, e);
    case Send(ids) => SendKeeps(cfg, s);
    case Receive(source, bytes) => ProcessKeeps(env, cfg, s, source, bytes);
  }

  /**
    On every run targets stay distinct, a selected pair has succeeded and is never replaced,
    and no pair, success or nomination is ever lost.
  */
  lemma {:induction false} RunKeeps(env: Env, cfg: Config, s: State, events: seq<Event>)
    requires Inv(s)
    ensures Inv(Run(env, cfg, s, events)) && Grows(s, Run(env, cfg, s, events))
    decreases |events|
  {
    hide Inv, Grows, Step;
    if events == [] {
      GrowsSelf(s);
    } else {
      var next := Step(env, cfg, s, events[0]).0;
      StepKeeps(env, cfg, s, events[0]);
      RunKeeps(env, cfg, next, events[1..]);
      GrowsTrans(s, next, Run(env, cfg, next, events[1..]));
    }
  }

  /** Connectivity is reported exactly on the transition, so at most once per agent. */
  lemma {:induction false} EstablishedOnce(env: Env, cfg: Config, s: State, events: seq<Event>)
    requires Inv(s)
    ensures Established(env, cfg, s, events)
         == if !s.connected && Run(env, cfg, s, events).connected then 1 else 0
    decreases |events|
  {
    hide Inv, Step;
    if events != [] {
      var next := Step(env, cfg, s, events[0]).0;
      StepKeeps(env, cfg, s, events[0]);
      EstablishedOnce(env, cfg, next, events[1..]);
      RunKeeps(env, cfg, next, events[1..]);
    }
  }

  // ---------------------------------------------------------------------------
  // Nominations on the wire
  // ---------------------------------------------------------------------------

  /** The check requests of this agent fit the 16-bit STUN length. */
  predicate Fits16(cfg: Config) {
    var n := |cfg.remoteUfrag| + 1 + |cfg.localUfrag|;
    n + Padding(n) + 60 < 0x1_0000
  }

  lemma CoveredSpan(hmac: Hmac, m: Message, password: seq<byte>)
    ensures |Covered(hmac, m, password)| == Spans(AttrsOf(m)) + if password == [] then 0 else 24
  {
    hide AttrsOf, Header;
    AttrsBytesLength(AttrsOf(m));
    AttrsBytesLength(IntegrityAttrs(hmac, m, password));
  }

  lemma OneSpan(a: Attr)
    ensures Spans([a]) == Span(a) && Spans([]) == 0
  {
    assert [a][1..] == [];
  }

  lemma RequestSpans(cfg: Config, id: TransactionId, flag: bool)
    ensures
      var n := |cfg.remoteUfrag| + 1 + |cfg.localUfrag|;
      Spans(AttrsOf(Request(cfg, id, flag))) == n + Padding(n) + 24 + if flag then 4 else 0
  {
    var m := Request(cfg, id, flag);
    var user := [Attr(USERNAME, m.username)];
    var priority := [Attr(PRIORITY, BE32(CHECK_PRIORITY))];
    var role := [Attr(if cfg.role == Controlling then ICE_CONTROLLING else ICE_CONTROLLED, BE64(cfg.tieBreak))];
    var tail := if flag then [Attr(USE_CANDIDATE, [])] else [];
    assert AttrsOf(m) == user + priority + role + tail;
    hide AttrsOf, Spans, BE32, BE64;
    SpansConcat(user + priority + role, tail);
    SpansConcat(user + priority, role);
    SpansConcat(user, priority);
    OneSpan(user[0]);
    OneSpan(priority[0]);
    OneSpan(role[0]);
    OneSpan(Attr(USE_CANDIDATE, []));
  }

  lemma RequestFits(hmac: Hmac, cfg: Config, id: TransactionId, flag: bool)
    requires Fits16(cfg)
    ensures Fits(hmac, Request(cfg, id, flag), cfg.remotePwd)
  {
    hide AttrsOf, Spans, Covered;
    CoveredSpan(hmac, Request(cfg, id, flag), cfg.remotePwd);
    RequestSpans(cfg, id, flag);
  }

  /** The flag makes a request four bytes longer, so the two kinds are never the same bytes. */
  lemma FlagShows(env: Env, cfg: Config, id: TransactionId, flag: bool)
    ensures (exists other: TransactionId :: RequestBytes(env, cfg, id, flag) == RequestBytes(env, cfg, other, true))
       <==> flag
  {
    hide RequestBytes;
    if flag {
      assert RequestBytes(env, cfg, id, flag) == RequestBytes(env, cfg, id, true);
    } else {
      forall other: TransactionId
        ensures RequestBytes(env, cfg, id, flag) != RequestBytes(env, cfg, other, true)
      {
        RequestLength(env, cfg, id, false);
        RequestLength(env, cfg, other, true);
      }
    }
  }

  lemma RequestLength(env: Env, cfg: Config, id: TransactionId, flag: bool)
    ensures
      var n := |cfg.remoteUfrag| + 1 + |cfg.localUfrag|;
      |RequestBytes(env, cfg, id, flag)|
      == n + Padding(n) + 52 + (if flag then 4 else 0) + if cfg.remotePwd == [] then 0 else 24
  {
    hide AttrsOf, Spans, Covered, FingerprintOf, BE32, BE16;
    CoveredSpan(env.hmac, Request(cfg, id, flag), cfg.remotePwd);
    RequestSpans(cfg, id, flag);
  }

  /** A request is read as the message it was made from. */
  lemma RequestArrives(env: Env, cfg: Config, id: TransactionId, flag: bool)
    requires Fits16(cfg)
    ensures
      var m := Decoded(RequestBytes(env, cfg, id, flag));
      m.Some? && m.value.messageType == BINDING_REQUEST && m.value.useCandidate == flag && m.value.transactionId == id
  {
    hide Decoded, Encoded, MacOf, FingerprintOf, Covered, Fits;
    RequestFits(env.hmac, cfg, id, flag);
    DecodeEncode(env.hmac, Request(cfg, id, flag), cfg.remotePwd);
  }

  /**
    What the peer reads off a request: both user fragments, its own first, the priority of section
    4.1.2.1 of RFC 5245 for a peer-reflexive candidate, the role with the tie breaker, and the flag.
  */
  lemma RequestSays(env: Env, cfg: Config, id: TransactionId, flag: bool)
    requires Fits16(cfg)
    ensures
      var m := Decoded(RequestBytes(env, cfg, id, flag));
      && m.Some?
      && m.value.messageType == 0x0001 && m.value.transactionId == id && m.value.useCandidate == flag
      && m.value.username == cfg.remoteUfrag + ([58] + cfg.localUfrag)
      && m.value.priority == Some(110 * 0x100_0000 + 65535 * 0x100 + 255)
      && m.value.iceControlling == (if cfg.role.Controlling? then Some(cfg.tieBreak) else None)
      && m.value.iceControlled == (if cfg.role.Controlled? then Some(cfg.tieBreak) else None)
      && m.value.mapped == None
  {
    hide Decoded, Encoded, MacOf, FingerprintOf, Covered, Fits;
    RequestFits(env.hmac, cfg, id, flag);
    DecodeEncode(env.hmac, Request(cfg, id, flag), cfg.remotePwd);
    Assoc(cfg.remoteUfrag, [0x3A], cfg.localUfrag);
  }

  /** And off a response: the request's transaction, and the address it came from if that is IPv4. */
  lemma ResponseSays(env: Env, cfg: Config, request: Message, source: Target)
    ensures
      var bytes := Encoded(env.hmac, Response(env, request, source), cfg.localPwd);
      var m, quad := Decoded(bytes), env.dottedQuad(source.ip);
      && m.Some? && m.value.messageType == 0x0101 && m.value.transactionId == request.transactionId
      && (quad.None? ==> m.value.mapped == None)
      && (quad.Some? ==>
            && m.value.mapped.Some? && m.value.mapped.value.family == 1
            && m.value.mapped.value.port == source.port % 0x1_0000
            && m.value.mapped.value.address == ToBE(quad.value, 4) + Zeros(12))
  {
    hide Decoded, Encoded, MacOf, FingerprintOf, Covered, Fits, BE32, ToBE;
    ResponseFits(env, cfg, request, source);
    DecodeEncode(env.hmac, Response(env, request, source), cfg.localPwd);
    if env.dottedQuad(source.ip).Some? {
      FourBytes(env.dottedQuad(source.ip).value);
    }
  }

  lemma ResponseFits(env: Env, cfg: Config, request: Message, source: Target)
    ensures Fits(env.hmac, Response(env, request, source), cfg.localPwd)
  {
    hide Covered;
    CoveredSpan(env.hmac, Response(env, request, source), cfg.localPwd);
    assert Spans([]) == 0;
  }

  predicate SentTo(pairs: seq<Pair>, target: Target) {
    var k := FindPair(pairs, target);
    k < |pairs| && pairs[k].useCandidateSent
  }

  lemma {:induction false} CountNone(env: Env, cfg: Config, sent: seq<Datagram>, target: Target)
    requires forall i :: 0 <= i < |sent| ==> !NominatesTo(env, cfg, sent[i], target)
    ensures CountTo(env, cfg, sent, target) == 0
  {
    hide NominatesTo;
    if sent != [] {
      CountNone(env, cfg, sent[1..], target);
    }
  }

  lemma {:induction false} CountOne(env: Env, cfg: Config, sent: seq<Datagram>, target: Target, k: nat)
    requires k < |sent|
    requires forall i :: 0 <= i < |sent| && i != k ==> !NominatesTo(env, cfg, sent[i], target)
    ensures CountTo(env, cfg, sent, target) == if NominatesTo(env, cfg, sent[k], target) then 1 else 0
  {
    hide NominatesTo;
    if k == 0 {
      CountNone(env, cfg, sent[1..], target);
    } else {
      CountOne(env, cfg, sent[1..], target, k - 1);
    }
  }

  lemma RequestNominates(env: Env, cfg: Config, pairs: seq<Pair>, ids: nat -> TransactionId, target: Target, i: nat)
    requires i < |pairs|
    ensures NominatesTo(env, cfg, Requests(env, cfg, pairs, ids)[i], target)
       <==> pairs[i].target == target && Nominates(cfg, pairs[i])
  {
    hide RequestBytes, Nominates;
    FlagShows(env, cfg, ids(i), Nominates(cfg, pairs[i]));
  }

  /** When the length fits, the receiver reads the flag off exactly these datagrams. */
  lemma NominationIsRead(env: Env, cfg: Config, pairs: seq<Pair>, ids: nat -> TransactionId, target: Target, i: nat)
    requires Fits16(cfg) && i < |pairs|
    ensures
      var d := Requests(env, cfg, pairs, ids)[i];
      && Decoded(d.bytes).Some?
      && (NominatesTo(env, cfg, d, target) <==> d.target == target && Decoded(d.bytes).value.useCandidate)
  {
    hide Decoded, RequestBytes, Nominates, Fits16, NominatesTo;
    RequestArrives(env, cfg, ids(i), Nominates(cfg, pairs[i]));
    RequestNominates(env, cfg, pairs, ids, target, i);
  }

  /** One round of requests nominates a target exactly when its pair changes to "sent". */
  lemma SendCounts(env: Env, cfg: Config, pairs: seq<Pair>, ids: nat -> TransactionId, target: Target)
    requires Distinct(pairs)
    ensures CountTo(env, cfg, Requests(env, cfg, pairs, ids), target) + (if SentTo(pairs, target) then 1 else 0)
         == if SentTo(Nominated(cfg, pairs), target) then 1 else 0
  {
    hide NominatesTo, FindPair, CountTo, RequestBytes;
    var sent := Requests(env, cfg, pairs, ids);
    var k := FindPair(pairs, target);
    forall i | 0 <= i < |sent|
      ensures NominatesTo(env, cfg, sent[i], target) <==> pairs[i].target == target && Nominates(cfg, pairs[i])
    {
      RequestNominates(env, cfg, pairs, ids, target, i);
    }
    if k < |pairs| {
      CountOne(env, cfg, sent, target, k);
      FindKept(pairs, Nominated(cfg, pairs), target);
    } else {
      CountNone(env, cfg, sent, target);
    }
  }

  /** Pairs keep their targets and nominations; at most a fresh pair is added. */
  lemma QuietPairs(env: Env, cfg: Config, s: State, e: Event)
    requires !e.Send?
    ensures
      var t := Step(env, cfg, s, e).0;
      && |s.pairs| <= |t.pairs| <= |s.pairs| + 1
      && (forall i :: 0 <= i < |s.pairs| ==>
            t.pairs[i].target == s.pairs[i].target && t.pairs[i].useCandidateSent == s.pairs[i].useCandidateSent)
      && (|t.pairs| > |s.pairs| ==> !t.pairs[|s.pairs|].useCandidateSent)
  {
    hide Decoded, Encoded, IntegrityVerified, FindPair;
  }

  /** Steps other than sending leave the nomination of a target as it was. */
  lemma QuietStep(env: Env, cfg: Config, s: State, e: Event, target: Target)
    requires Inv(s) && !e.Send?
    ensures SentTo(Step(env, cfg, s, e).0.pairs, target) == SentTo(s.pairs, target)
  {
    hide Decoded, Encoded, IntegrityVerified, FindPair, Inv;
    var t := Step(env, cfg, s, e).0;
    QuietPairs(env, cfg, s, e);
    hide Step;
    if FindPair(s.pairs, target) < |s.pairs| {
      FindKept(s.pairs, t.pairs, target);
    } else {
      var k := FindPair(t.pairs, target);
      assert k < |t.pairs| ==> k == |s.pairs|;
    }
  }

  /**
    Over every run, the USE-CANDIDATE requests that leave for a target are counted by the
    change of its pair: at most one per pair, none once it has been sent, none if controlled.
  */
  lemma {:induction false} NominatedOnce(env: Env, cfg: Config, s: State, events: seq<Event>, target: Target)
    requires Inv(s)
    ensures Nominations(env, cfg, s, events, target) + (if SentTo(s.pairs, target) then 1 else 0)
         == if SentTo(Run(env, cfg, s, events).pairs, target) then 1 else 0
    decreases |events|
  {
    hide Process, SentTo, AddCandidate, Requests, NominatesTo;
    if events != [] {
      var (next, out) := Step(env, cfg, s, events[0]);
      StepKeeps(env, cfg, s, events[0]);
      NominatedOnce(env, cfg, next, events[1..], target);
      match events[0] {
        case Send(ids) =>
          SendCounts(env, cfg, s.pairs, ids, target);
        case _ =>
          QuietStep(env, cfg, s, events[0], target);
      }
    }
  }

  lemma {:induction false} ControlledNeverNominates(env: Env, cfg: Config, s: State, events: seq<Event>, target: Target)
    requires Inv(s) && cfg.role == Controlled
    ensures Nominations(env, cfg, s, events, target) == 0
    decreases |events|
  {
    hide Process, AddCandidate, FindPair, NominatesTo;
    if events != [] {
      StepKeeps(env, cfg, s, events[0]);
      ControlledNeverNominates(env, cfg, Step(env, cfg, s, events[0]).0, events[1..], target);
      if events[0].Send? {
        SendCounts(env, cfg, s.pairs, events[0].ids, target);
        assert Nominated(cfg, s.pairs) == s.pairs;
      }
    }
  }
}
