/**
  Two agents configured with each other's credentials, each knowing the other's address:
  after two lossless rounds of checks both are connected, to each other.
*/
module IceConnects {
  import opened Bytes
  import opened SeqFacts
  import opened StunSpec
  import opened StunLaws
  import opened IceAgentSpec
  import opened IceAgentLaws

  /** Each side's local credentials are the other side's remote ones. */
  predicate Peers(a: Config, b: Config) {
    && a.localUfrag == b.remoteUfrag && a.remoteUfrag == b.localUfrag
    && a.localPwd == b.remotePwd && a.remotePwd == b.localPwd
    && a.localPwd != [] && a.remotePwd != []
    && Fits16(a)
  }

  /** Datagrams from `x` to `y` arrive, and so do the responses; other targets are unreachable. */
  function Deliver(env: Env, x: Config, sx: State, fromX: Target, y: Config, sy: State, fromY: Target,
                   sent: seq<Datagram>): (State, State)
    decreases |sent|
  {
    if sent == [] then (sx, sy)
    else if sent[0].target != fromY then Deliver(env, x, sx, fromX, y, sy, fromY, sent[1..])
    else
      var request := Process(env, y, sy, fromX, sent[0].bytes);
      var response := Process(env, x, sx, fromY, request.response);
      Deliver(env, x, response.state, fromX, y, request.state, fromY, sent[1..])
  }

  /** One agent sends its requests. */
  function Exchange(env: Env, x: Config, sx: State, fromX: Target, y: Config, sy: State, fromY: Target,
                    ids: nat -> TransactionId): (State, State) {
    Deliver(env, x, sx.(pairs := Nominated(x, sx.pairs)), fromX, y, sy, fromY, Requests(env, x, sx.pairs, ids))
  }

  datatype Both = Both(a: State, b: State)

  /** First `a` sends, then `b`. */
  function Round(env: Env, a: Config, fromA: Target, b: Config, fromB: Target, s: Both,
                 idsA: nat -> TransactionId, idsB: nat -> TransactionId): Both {
    var first := Exchange(env, a, s.a, fromA, b, s.b, fromB, idsA);
    var second := Exchange(env, b, first.1, fromB, a, first.0, fromA, idsB);
    Both(second.1, second.0)
  }

  // ---------------------------------------------------------------------------
  // One check
  // ---------------------------------------------------------------------------

  lemma ResponseFits(env: Env, m: Message, source: Target, password: seq<byte>)
    ensures Fits(env.hmac, Response(env, m, source), password)
  {
    var r := Response(env, m, source);
    CoveredSpan(env.hmac, r, password);
    assert AttrsOf(r) == MappedAttrs(r);
    if MappedAttrs(r) != [] {
      OneSpan(MappedAttrs(r)[0]);
    }
    hide AttrsOf, Spans, Covered;
  }

  lemma ResponseArrives(env: Env, m: Message, source: Target, password: seq<byte>)
    requires password != []
    ensures
      var bytes := Encoded(env.hmac, Response(env, m, source), password);
      && Decoded(bytes).Some? && Decoded(bytes).value.messageType == BINDING_RESPONSE
      && IntegrityVerified(env.hmac, bytes, password)
  {
    hide Decoded, Encoded, IntegrityVerified, MacOf, FingerprintOf, Covered, Fits, AttrsOf, AttrsBytes, Header;
    ResponseFits(env, m, source, password);
    DecodeEncode(env.hmac, Response(env, m, source), password);
    IntegrityVerifies(env.hmac, Response(env, m, source), password, password);
  }

  /** The peer accepts a request and the agent accepts the peer's response. */
  lemma OneCheck(env: Env, x: Config, y: Config, sx: State, sy: State, fromX: Target, fromY: Target,
                 id: TransactionId, flag: bool)
    requires Peers(x, y)
    ensures
      var request := Process(env, y, sy, fromX, RequestBytes(env, x, id, flag));
      && (exists m: Message :: m.useCandidate == flag && request == ProcessRequest(env, y, sy, fromX, m))
      && Process(env, x, sx, fromY, request.response) == ProcessResponse(x, sx, fromY)
  {
    hide Decoded, Encoded, IntegrityVerified, ProcessResponse, Fits, Fits16, FindPair;
    var bytes := RequestBytes(env, x, id, flag);
    RequestArrives(env, x, id, flag);
    RequestVerifies(env, x, id, flag);
    var m := Decoded(bytes).value;
    assert Process(env, y, sy, fromX, bytes) == ProcessRequest(env, y, sy, fromX, m);
    ResponseArrives(env, m, fromX, y.localPwd);
  }

  lemma RequestVerifies(env: Env, x: Config, id: TransactionId, flag: bool)
    requires Fits16(x) && x.remotePwd != []
    ensures IntegrityVerified(env.hmac, RequestBytes(env, x, id, flag), x.remotePwd)
  {
    hide Encoded, IntegrityVerified, Fits, AttrsOf, AttrsBytes, Header;
    RequestFits(env.hmac, x, id, flag);
    IntegrityVerifies(env.hmac, Request(x, id, flag), x.remotePwd, x.remotePwd);
  }

  // ---------------------------------------------------------------------------
  // One exchange
  // ---------------------------------------------------------------------------

  lemma {:induction false} DeliverNone(env: Env, x: Config, sx: State, fromX: Target, y: Config, sy: State,
                                       fromY: Target, sent: seq<Datagram>)
    requires forall i :: 0 <= i < |sent| ==> sent[i].target != fromY
    ensures Deliver(env, x, sx, fromX, y, sy, fromY, sent) == (sx, sy)
  {
    hide Process;
    if sent != [] {
      DeliverNone(env, x, sx, fromX, y, sy, fromY, sent[1..]);
    }
  }

  /** With distinct targets exactly one request of a round reaches the peer. */
  lemma {:induction false} DeliverOne(env: Env, x: Config, sx: State, fromX: Target, y: Config, sy: State,
                                      fromY: Target, sent: seq<Datagram>, k: nat)
    requires k < |sent| && sent[k].target == fromY
    requires forall i :: 0 <= i < |sent| && i != k ==> sent[i].target != fromY
    ensures
      var request := Process(env, y, sy, fromX, sent[k].bytes);
      Deliver(env, x, sx, fromX, y, sy, fromY, sent)
      == (Process(env, x, sx, fromY, request.response).state, request.state)
  {
    hide Process;
    if k == 0 {
      var request := Process(env, y, sy, fromX, sent[0].bytes);
      DeliverNone(env, x, Process(env, x, sx, fromY, request.response).state, fromX, y, request.state, fromY, sent[1..]);
    } else {
      DeliverOne(env, x, sx, fromX, y, sy, fromY, sent[1..], k - 1);
    }
  }

  /** What an exchange does to the two states. */
  lemma ExchangeIs(env: Env, x: Config, sx: State, fromX: Target, y: Config, sy: State, fromY: Target,
                   ids: nat -> TransactionId)
    requires Peers(x, y) && Inv(sx)
    requires FindPair(sx.pairs, fromY) < |sx.pairs|
    ensures
      var k := FindPair(sx.pairs, fromY);
      var after := Exchange(env, x, sx, fromX, y, sy, fromY, ids);
      && after.0 == ProcessResponse(x, sx.(pairs := Nominated(x, sx.pairs)), fromY).state
      && exists m: Message ::
           m.useCandidate == Nominates(x, sx.pairs[k]) && after.1 == ProcessRequest(env, y, sy, fromX, m).state
  {
    hide Process, ProcessRequest, ProcessResponse, RequestBytes, Nominates, FindPair, Deliver, Fits16;
    var k := FindPair(sx.pairs, fromY);
    var s1 := sx.(pairs := Nominated(x, sx.pairs));
    DeliverOne(env, x, s1, fromX, y, sy, fromY, Requests(env, x, sx.pairs, ids), k);
    OneCheck(env, x, y, s1, sy, fromX, fromY, ids(k), Nominates(x, sx.pairs[k]));
  }

  /** The side of `a` (controlling) in the course of the two rounds. */
  ghost predicate Side(s: State, peer: Target) {
    Inv(s) && FindPair(s.pairs, peer) < |s.pairs|
  }

  predicate Flagged(s: State, peer: Target) {
    SentTo(s.pairs, peer)
  }

  predicate ConnectedTo(s: State, peer: Target) {
    s.connected && s.selected == peer
  }

  lemma SideKept(s: State, t: State, peer: Target)
    requires Side(s, peer) && Inv(t) && Grows(s, t)
    ensures Side(t, peer) && FindPair(t.pairs, peer) == FindPair(s.pairs, peer)
  {
    hide FindPair;
    FindKept(s.pairs, t.pairs, peer);
  }

  /** The controlling agent hears the response to its check. */
  lemma ControllingHears(a: Config, s: State, peer: Target)
    requires a.role == Controlling && Side(s, peer) && (s.connected ==> s.selected == peer)
    ensures
      var t := ProcessResponse(a, s.(pairs := Nominated(a, s.pairs)), peer).state;
      && Side(t, peer) && ConnectedTo(t, peer) && Succeeded(t.pairs, peer)
      && (Flagged(t, peer) <==> Flagged(s, peer) || Succeeded(s.pairs, peer))
  {
    hide FindPair;
    var s1 := s.(pairs := Nominated(a, s.pairs));
    SendKeeps(a, s);
    SideKept(s, s1, peer);
    var k := FindPair(s.pairs, peer);
    SucceedKeeps(s1, k);
    var s2 := Succeed(s1, k);
    SideKept(s1, s2, peer);
    if !s1.connected {
      SelectKeeps(s2, k);
      SideKept(s2, Select(s2, k), peer);
    }
  }

  /** The controlled agent hears a check. */
  lemma ControlledHears(env: Env, b: Config, s: State, peer: Target, m: Message)
    requires b.role == Controlled && Side(s, peer) && (s.connected ==> s.selected == peer)
    ensures
      var t := ProcessRequest(env, b, s, peer, m).state;
      && Side(t, peer) && (ConnectedTo(t, peer) <==> s.connected || m.useCandidate)
      && (t.connected ==> t.selected == peer)
  {
    hide FindPair, Encoded;
    var k := FindPair(s.pairs, peer);
    SucceedKeeps(s, k);
    SideKept(s, Succeed(s, k), peer);
    if !s.connected {
      SelectKeeps(Succeed(s, k), k);
      SideKept(Succeed(s, k), Select(Succeed(s, k), k), peer);
    }
  }

  /** The controlled agent's own checks change neither agent's choice. */
  lemma ControlledAsks(env: Env, a: Config, b: Config, sa: State, sb: State, fromA: Target, fromB: Target, m: Message)
    requires a.role == Controlling && b.role == Controlled && Side(sa, fromB) && Side(sb, fromA)
    ensures
      var ta := ProcessRequest(env, a, sa, fromB, m).state;
      var tb := ProcessResponse(b, sb.(pairs := Nominated(b, sb.pairs)), fromA).state;
      && Side(ta, fromB) && Side(tb, fromA)
      && ta.connected == sa.connected && ta.selected == sa.selected
      && tb.connected == sb.connected && tb.selected == sb.selected
      && Succeeded(ta.pairs, fromB) && (Flagged(ta, fromB) <==> Flagged(sa, fromB))
  {
    hide FindPair, Encoded;
    var k := FindPair(sa.pairs, fromB);
    SucceedKeeps(sa, k);
    SideKept(sa, Succeed(sa, k), fromB);
    SendKeeps(b, sb);
    var sb1 := sb.(pairs := Nominated(b, sb.pairs));
    SideKept(sb, sb1, fromA);
    SucceedKeeps(sb1, FindPair(sb.pairs, fromA));
    SideKept(sb1, Succeed(sb1, FindPair(sb.pairs, fromA)), fromA);
  }

  /** One round: the controlling agent connects; the controlled one as soon as it is nominated. */
  lemma RoundIs(env: Env, a: Config, fromA: Target, b: Config, fromB: Target, s: Both,
                idsA: nat -> TransactionId, idsB: nat -> TransactionId)
    requires Peers(a, b) && Peers(b, a) && a.role == Controlling && b.role == Controlled
    requires Side(s.a, fromB) && Side(s.b, fromA)
    requires s.a.connected ==> s.a.selected == fromB
    requires s.b.connected ==> s.b.selected == fromA
    ensures
      var t := Round(env, a, fromA, b, fromB, s, idsA, idsB);
      && Side(t.a, fromB) && Side(t.b, fromA) && ConnectedTo(t.a, fromB) && Succeeded(t.a.pairs, fromB)
      && (t.b.connected ==> t.b.selected == fromA)
      && (t.b.connected <==> s.b.connected || (Succeeded(s.a.pairs, fromB) && !Flagged(s.a, fromB)))
      && (Flagged(t.a, fromB) <==> Flagged(s.a, fromB) || Succeeded(s.a.pairs, fromB))
  {
    hide Exchange, ProcessRequest, ProcessResponse, FindPair, Inv, Peers, Nominated;
    var first := Exchange(env, a, s.a, fromA, b, s.b, fromB, idsA);
    ExchangeIs(env, a, s.a, fromA, b, s.b, fromB, idsA);
    ControllingHears(a, s.a, fromB);
    var m: Message :| m.useCandidate == Nominates(a, s.a.pairs[FindPair(s.a.pairs, fromB)])
                      && first.1 == ProcessRequest(env, b, s.b, fromA, m).state;
    ControlledHears(env, b, s.b, fromA, m);
    ExchangeIs(env, b, first.1, fromB, a, first.0, fromA, idsB);
    var second := Exchange(env, b, first.1, fromB, a, first.0, fromA, idsB);
    var m': Message :| m'.useCandidate == Nominates(b, first.1.pairs[FindPair(first.1.pairs, fromA)])
                       && second.1 == ProcessRequest(env, a, first.0, fromB, m').state;
    ControlledAsks(env, a, b, first.0, first.1, fromA, fromB, m');
  }

  /**
    From any reachable states in which neither agent is connected, each knows the other's
    address and the controlling one has not spent its nomination of it, two lossless rounds
    connect both agents to each other.
  */
  lemma TwoRoundsConnect(env: Env, a: Config, fromA: Target, b: Config, fromB: Target, s: Both,
                         idsA: nat -> TransactionId, idsB: nat -> TransactionId,
                         idsA': nat -> TransactionId, idsB': nat -> TransactionId)
    requires Peers(a, b) && Peers(b, a) && a.role == Controlling && b.role == Controlled
    requires Inv(s.a) && Inv(s.b) && !s.a.connected && !s.b.connected
    requires FindPair(s.a.pairs, fromB) < |s.a.pairs| && FindPair(s.b.pairs, fromA) < |s.b.pairs|
    requires !SentTo(s.a.pairs, fromB)
    ensures
      var t := Round(env, a, fromA, b, fromB, Round(env, a, fromA, b, fromB, s, idsA, idsB), idsA', idsB');
      ConnectedTo(t.a, fromB) && ConnectedTo(t.b, fromA)
  {
    hide Round, Inv, FindPair, Peers;
    RoundIs(env, a, fromA, b, fromB, s, idsA, idsB);
    RoundIs(env, a, fromA, b, fromB, Round(env, a, fromA, b, fromB, s, idsA, idsB), idsA', idsB');
  }

  /** One round is not enough when nothing has succeeded before: nomination waits for a success. */
  lemma OneRoundIsNotEnough(env: Env, a: Config, fromA: Target, b: Config, fromB: Target, s: Both,
                            idsA: nat -> TransactionId, idsB: nat -> TransactionId)
    requires Peers(a, b) && Peers(b, a) && a.role == Controlling && b.role == Controlled
    requires Inv(s.a) && Inv(s.b) && !s.a.connected && !s.b.connected
    requires FindPair(s.a.pairs, fromB) < |s.a.pairs| && FindPair(s.b.pairs, fromA) < |s.b.pairs|
    requires !Succeeded(s.a.pairs, fromB)
    ensures
      var t := Round(env, a, fromA, b, fromB, s, idsA, idsB);
      ConnectedTo(t.a, fromB) && !t.b.connected
  {
    hide Round, Inv, FindPair, Peers;
    RoundIs(env, a, fromA, b, fromB, s, idsA, idsB);
  }
}
