/**
  When frames are handed out, how long playout is delayed and what is counted, for every run
  from a fresh buffer and in terms of the events alone.
*/
module JitterTiming {
  import opened Bytes
  import opened SeqFacts
  import opened JitterSpec
  import opened JitterRefinement
  import opened JitterLaws

  // ---------------------------------------------------------------------------
  // What the events say
  // ---------------------------------------------------------------------------

  predicate IsPacket(e: Event) {
    e.Arrival? && e.payload != []
  }

  /** The first packet that has a payload. */
  function FirstPacket(es: seq<Event>): (first: Option<Event>)
    ensures first.Some? ==> IsPacket(first.value)
  {
    if es == [] then None
    else if FirstPacket(es[..|es| - 1]).Some? then FirstPacket(es[..|es| - 1])
    else if IsPacket(es[|es| - 1]) then Some(es[|es| - 1])
    else None
  }

  /** Sixty milliseconds after the first packet, and then one frame duration after the other. */
  function PlayoutTime(first: Event, j: nat, frameMs: int): int
    requires IsPacket(first)
  {
    first.arrivalMs + 60 + j * frameMs
  }

  /** The next frame is due at this time, if playout has begun. */
  predicate FallsDue(es: seq<Event>, j: nat, frameMs: int, nowMs: int) {
    FirstPacket(es).Some? && nowMs >= PlayoutTime(FirstPacket(es).value, j, frameMs)
  }

  /** How many frames have been handed out: each tick hands out the next one once it is due. */
  function HandedOut(es: seq<Event>, frameMs: int): nat {
    if es == [] then 0
    else
      var past, e := es[..|es| - 1], es[|es| - 1];
      var n := HandedOut(past, frameMs);
      if e.Tick? && FallsDue(past, n, frameMs, e.nowMs) then n + 1 else n
  }

  /** The packet's number lies in the half of the 16-bit space behind the next frame's. */
  predicate ComesLate(es: seq<Event>, frameMs: int, index: int) {
    FirstPacket(es).Some? && (index - (FirstPacket(es).value.index + HandedOut(es, frameMs))) % 65536 >= 32768
  }

  /** The arrival times of the packets that did not come late. */
  function Kept(es: seq<Event>, frameMs: int): seq<int> {
    if es == [] then []
    else
      var past, e := es[..|es| - 1], es[|es| - 1];
      Kept(past, frameMs)
      + if IsPacket(e) && !ComesLate(past, frameMs, e.index) then [e.arrivalMs] else []
  }

  function Packets(es: seq<Event>): nat {
    if es == [] then 0 else Packets(es[..|es| - 1]) + if IsPacket(es[|es| - 1]) then 1 else 0
  }

  /** How far two arrivals are from lying one frame duration apart; time does not run backwards. */
  function Deviation(earlier: int, later: int, frameMs: int): nat {
    var gap := if later > earlier then later - earlier else 0;
    if gap > frameMs then gap - frameMs else frameMs - gap
  }

  /** The first deviation that is not zero, and from then on a twentieth of the way to each later one. */
  function Jitter(arrivals: seq<int>, frameMs: int): real {
    if |arrivals| < 2 then 0.0
    else
      var earlier, later := arrivals[|arrivals| - 2], arrivals[|arrivals| - 1];
      var before := Jitter(arrivals[..|arrivals| - 1], frameMs);
      if earlier < 0 then before
      else
        var d := Deviation(earlier, later, frameMs) as real;
        if before == 0.0 then d else before + (d - before) / 20.0
  }

  /** Four times the jitter above 60, but at most 180. */
  function Target(jitter: real): int {
    if jitter >= 30.0 then 180 else if jitter <= 0.0 then 60 else 60 + (4.0 * jitter).Floor
  }

  // ---------------------------------------------------------------------------
  // The buffer follows them
  // ---------------------------------------------------------------------------

  ghost predicate PlayoutTimed(st: State, frameMs: int, es: seq<Event>) {
    var first, n := FirstPacket(es), HandedOut(es, frameMs);
    && st.clock.started == first.Some?
    && (first.Some? ==>
          && st.clock.firstPlayoutMs == first.value.arrivalMs + 60
          && st.clock.playoutIndex == n
          && st.clock.nextTimestamp == (first.value.timestamp + n * frameMs) % 0x1_0000_0000
          && st.nextSequence == Key(first.value.index + n))
  }

  ghost predicate JitterTracked(st: State, frameMs: int, es: seq<Event>) {
    var kept := Kept(es, frameMs);
    && (st.clock.started <==> kept != [])
    && st.clock.lastArrivalMs == (if kept == [] then -1 else kept[|kept| - 1])
    && st.clock.smoothedJitterMs == Jitter(kept, frameMs)
    && st.clock.targetMs == Target(Jitter(kept, frameMs))
  }

  ghost predicate Counted(st: State, frameMs: int, es: seq<Event>) {
    && st.counts.inserted == |Kept(es, frameMs)|
    && st.counts.inserted + st.counts.late == Packets(es)
    && st.counts.played + st.counts.lost == HandedOut(es, frameMs)
  }

  lemma TrimCounts(st: State)
    ensures
      var t := TrimOverflow(st);
      && t.clock == st.clock && t.nextSequence == st.nextSequence
      && t.counts == st.counts.(trimmed := t.counts.trimmed)
    decreases |st.slots|
  {
    if |st.slots| > MAX_BUFFERED_PACKETS {
      TrimCounts(Evict(st));
    }
  }

  lemma {:induction false} FirstMeansKept(es: seq<Event>, frameMs: int)
    ensures FirstPacket(es).Some? <==> Kept(es, frameMs) != []
  {
    if es != [] {
      FirstMeansKept(es[..|es| - 1], frameMs);
    }
  }

  lemma {:induction false} NothingHandedOut(es: seq<Event>, frameMs: int)
    requires FirstPacket(es).None?
    ensures HandedOut(es, frameMs) == 0
  {
    if es != [] {
      NothingHandedOut(es[..|es| - 1], frameMs);
    }
  }

  /** The 16-bit test for a late packet, in terms of indices. */
  lemma LateMeans(st: State, frameMs: int, es: seq<Event>, index: int)
    requires PlayoutTimed(st, frameMs, es)
    ensures st.clock.started && SequenceBefore(Key(index), st.nextSequence) <==> ComesLate(es, frameMs, index)
  {
    hide FirstPacket, HandedOut, Key;
    if FirstPacket(es).Some? {
      KeyGap(index, FirstPacket(es).value.index + HandedOut(es, frameMs));
    }
  }

  lemma KeyGap(index: int, next: int)
    ensures (Key(index) - Key(next)) % SPACE == (index - next) % SPACE
  {
  }

  lemma JitterNext(kept: seq<int>, t: int, frameMs: int, c: Clock)
    requires c.lastArrivalMs == (if kept == [] then -1 else kept[|kept| - 1])
    requires c.smoothedJitterMs == Jitter(kept, frameMs) && c.targetMs == Target(Jitter(kept, frameMs))
    ensures
      var d := RecalculateTarget(c, frameMs, t);
      var j := Jitter(kept + [t], frameMs);
      d == c.(lastArrivalMs := t, smoothedJitterMs := j, targetMs := Target(j))
  {
    var all := kept + [t];
    assert all[..|all| - 1] == kept;
    if kept != [] {
      assert all[|all| - 2] == kept[|kept| - 1];
    }
  }

  lemma TimestampNext(timestamp: int, n: nat, frameMs: int)
    ensures ((timestamp + n * frameMs) % 0x1_0000_0000 + frameMs) % 0x1_0000_0000
         == (timestamp + (n + 1) * frameMs) % 0x1_0000_0000
  {
    assert (n + 1) * frameMs == n * frameMs + frameMs;
    ModAdd(timestamp + n * frameMs, frameMs);
  }

  lemma KeyNext(index: int, n: nat)
    ensures (Key(index + n) + 1) % SPACE == Key(index + (n + 1))
  {
  }

  lemma ModAdd(a: int, b: int)
    ensures (a % 0x1_0000_0000 + b) % 0x1_0000_0000 == (a + b) % 0x1_0000_0000
  {
  }

  ghost predicate Follows(st: State, frameMs: int, es: seq<Event>) {
    PlayoutTimed(st, frameMs, es) && JitterTracked(st, frameMs, es) && Counted(st, frameMs, es)
  }

  lemma StepFollows(st: State, frameMs: int, es: seq<Event>, e: Event)
    requires Follows(st, frameMs, es)
    ensures Follows(Step(st, frameMs, e).0, frameMs, es + [e])
  {
    hide Follows, NextPlayoutFrame, Insert;
    match e
    case Tick(nowMs) =>
      TickFollows(st, frameMs, es, nowMs);
    case Arrival(index, timestamp, payload, arrivalMs) =>
      if IsPacket(e) && !ComesLate(es, frameMs, index) {
        KeptFollows(st, frameMs, es, e);
      } else {
        DroppedFollows(st, frameMs, es, e);
      }
  }

  lemma DroppedFollows(st: State, frameMs: int, es: seq<Event>, e: Event)
    requires Follows(st, frameMs, es) && e.Arrival?
    requires !IsPacket(e) || ComesLate(es, frameMs, e.index)
    ensures Follows(Step(st, frameMs, e).0, frameMs, es + [e])
  {
    hide Arrive, TrimOverflow, Jitter, Target, SequenceBefore, Key;
    Snoc(es, e);
    Unit(Kept(es, frameMs));
    LateMeans(st, frameMs, es, e.index);
  }

  /** A tick is no packet; it hands out the next frame if that is due. */
  lemma AfterTick(es: seq<Event>, frameMs: int, nowMs: int)
    ensures
      var all, n := es + [Tick(nowMs)], HandedOut(es, frameMs);
      && FirstPacket(all) == FirstPacket(es)
      && HandedOut(all, frameMs) == (if FallsDue(es, n, frameMs, nowMs) then n + 1 else n)
      && Kept(all, frameMs) == Kept(es, frameMs)
      && Packets(all) == Packets(es)
  {
    hide FallsDue, ComesLate;
    Snoc(es, Tick(nowMs));
    Unit(Kept(es, frameMs));
  }

  lemma TickFollows(st: State, frameMs: int, es: seq<Event>, nowMs: int)
    requires Follows(st, frameMs, es)
    ensures Follows(NextPlayoutFrame(st, frameMs, nowMs).0, frameMs, es + [Tick(nowMs)])
    ensures NextPlayoutFrame(st, frameMs, nowMs).1.ready <==> FallsDue(es, HandedOut(es, frameMs), frameMs, nowMs)
  {
    hide FirstPacket, HandedOut, Kept, Packets, Jitter, Target, Key;
    AfterTick(es, frameMs, nowMs);
    var n := HandedOut(es, frameMs);
    if FirstPacket(es).Some? {
      var first := FirstPacket(es).value;
      TimestampNext(first.timestamp, n, frameMs);
      KeyNext(first.index, n);
    }
  }

  lemma KeptFollows(st: State, frameMs: int, es: seq<Event>, e: Event)
    requires Follows(st, frameMs, es) && IsPacket(e) && !ComesLate(es, frameMs, e.index)
    ensures Follows(Step(st, frameMs, e).0, frameMs, es + [e])
  {
    hide RecalculateTarget, TrimOverflow, Jitter, Target, SequenceBefore;
    var full := Arrive(st, frameMs, Key(e.index), e.timestamp, e.payload, e.arrivalMs);
    Snoc(es, e);
    FirstMeansKept(es, frameMs);
    LateMeans(st, frameMs, es, e.index);
    JitterNext(Kept(es, frameMs), e.arrivalMs, frameMs, st.clock);
    TrimCounts(full);
    if FirstPacket(es).None? {
      NothingHandedOut(es, frameMs);
      FirstDelay(Kept(es, frameMs), e.arrivalMs, frameMs);
    }
  }

  lemma FirstDelay(kept: seq<int>, t: int, frameMs: int)
    requires kept == []
    ensures Target(Jitter(kept + [t], frameMs)) == 60
  {
  }

  lemma FreshFollows(frameMs: int)
    ensures Follows(FRESH, frameMs, [])
  {
  }

  lemma {:induction false} RunFollows(st: State, frameMs: int, past: seq<Event>, es: seq<Event>)
    requires Follows(st, frameMs, past)
    ensures Follows(Run(st, frameMs, es).0, frameMs, past + es)
    decreases |es|
  {
    hide Follows, Step;
    if es == [] {
      Unit(past);
    } else {
      StepFollows(st, frameMs, past, es[0]);
      RunFollows(Step(st, frameMs, es[0]).0, frameMs, past + [es[0]], es[1..]);
      FirstRest(es);
      Assoc(past, [es[0]], es[1..]);
    }
  }

  // ---------------------------------------------------------------------------
  // Over every run
  // ---------------------------------------------------------------------------

  /**
    After every run a tick hands out the next frame if and only if some packet has arrived and
    60 ms plus one frame duration for each frame before have passed since the first one did. The
    frame has the next number, and if it is concealed, the timestamp that many frames on.
  */
  lemma FrameOfTick(frameMs: int, es: seq<Event>, nowMs: int)
    ensures
      var frame := NextPlayoutFrame(Run(FRESH, frameMs, es).0, frameMs, nowMs).1;
      var first, n := FirstPacket(es), HandedOut(es, frameMs);
      && (frame.ready <==> first.Some? && nowMs >= first.value.arrivalMs + 60 + n * frameMs)
      && (frame.ready ==>
            && frame.sequenceNumber == (first.value.index + n) % 65536
            && frame.plc == !frame.hasPacket
            && (frame.plc ==>
                  && frame.timestamp == (first.value.timestamp + n * frameMs) % 0x1_0000_0000
                  && frame.payload == []))
      && (!frame.ready ==> frame == NOT_READY)
  {
    hide Run, JitterTracked, Counted, HandedOut, FirstPacket;
    FreshFollows(frameMs);
    RunFollows(FRESH, frameMs, [], es);
    assert [] + es == es;
    TickFollows(Run(FRESH, frameMs, es).0, frameMs, es, nowMs);
  }

  lemma {:induction false} RunSnoc(st: State, frameMs: int, es: seq<Event>, e: Event)
    ensures
      var before := Run(st, frameMs, es).0;
      && Run(st, frameMs, es + [e]).0 == Step(before, frameMs, e).0
      && Playouts(st, frameMs, es + [e]) == Playouts(st, frameMs, es) + Playouts(before, frameMs, [e])
    decreases |es|
  {
    hide Step;
    if es == [] {
      assert [] + [e] == [e] && [e][1..] == [];
      assert [] + Playouts(st, frameMs, [e]) == Playouts(st, frameMs, [e]);
    } else {
      var next := Step(st, frameMs, es[0]).0;
      assert (es + [e])[1..] == es[1..] + [e];
      RunSnoc(next, frameMs, es[1..], e);
      var head := Playouts(st, frameMs, es)[..|Playouts(st, frameMs, es)| - |Playouts(next, frameMs, es[1..])|];
      assert Playouts(st, frameMs, es) == head + Playouts(next, frameMs, es[1..]);
      Assoc(head, Playouts(next, frameMs, es[1..]), Playouts(Run(st, frameMs, es).0, frameMs, [e]));
    }
  }

  /** Handed out by a run: its number, its time, and the timestamp if there was no packet for it. */
  ghost predicate InTime(p: Playout, first: Event, j: nat, frameMs: int)
    requires IsPacket(first)
  {
    && p.frame.sequenceNumber == (first.index + j) % 65536
    && p.atMs >= PlayoutTime(first, j, frameMs)
    && (p.frame.plc ==> p.frame.timestamp == (first.timestamp + j * frameMs) % 0x1_0000_0000)
  }

  /**
    Over every run from a fresh buffer, frame number j is handed out no earlier than 60 ms plus
    j frame durations after the first packet arrived, and none before a packet has arrived.
  */
  lemma {:induction false} PlayoutsInTime(frameMs: int, es: seq<Event>)
    ensures
      var ps, first := Playouts(FRESH, frameMs, es), FirstPacket(es);
      && |ps| == HandedOut(es, frameMs)
      && (ps != [] ==> first.Some? && forall j :: 0 <= j < |ps| ==> InTime(ps[j], first.value, j, frameMs))
    decreases |es|
  {
    hide NextPlayoutFrame, Run, Insert, InTime, Step, HandedOut, FirstPacket, Playouts;
    if es == [] {
      NothingYet(frameMs);
    } else {
      var past, e := es[..|es| - 1], es[|es| - 1];
      FrontLast(es);
      PlayoutsInTime(frameMs, past);
      RunSnoc(FRESH, frameMs, past, e);
      OnePlayout(Run(FRESH, frameMs, past).0, frameMs, e);
      if e.Tick? {
        AfterTick(past, frameMs, e.nowMs);
        FrameOfTick(frameMs, past, e.nowMs);
        if FirstPacket(past).None? {
          NothingHandedOut(past, frameMs);
        } else {
          LastInTime(frameMs, past, e.nowMs);
        }
      } else {
        AfterArrival(past, frameMs, e);
        Unit(Playouts(FRESH, frameMs, past));
        if FirstPacket(past).None? {
          NothingHandedOut(past, frameMs);
        }
      }
    }
  }

  lemma NothingYet(frameMs: int)
    ensures Playouts(FRESH, frameMs, []) == [] && HandedOut([], frameMs) == 0
  {
  }

  lemma AfterArrival(es: seq<Event>, frameMs: int, e: Event)
    requires e.Arrival?
    ensures HandedOut(es + [e], frameMs) == HandedOut(es, frameMs)
    ensures FirstPacket(es).Some? ==> FirstPacket(es + [e]) == FirstPacket(es)
  {
    hide FallsDue;
    Snoc(es, e);
  }

  lemma OnePlayout(st: State, frameMs: int, e: Event)
    ensures
      Playouts(st, frameMs, [e])
      == if e.Tick? && NextPlayoutFrame(st, frameMs, e.nowMs).1.ready
         then [Playout(NextPlayoutFrame(st, frameMs, e.nowMs).1, e.nowMs)] else []
  {
    assert [e][1..] == [];
  }

  lemma LastInTime(frameMs: int, es: seq<Event>, nowMs: int)
    requires FirstPacket(es).Some?
    ensures
      var frame := NextPlayoutFrame(Run(FRESH, frameMs, es).0, frameMs, nowMs).1;
      frame.ready ==> InTime(Playout(frame, nowMs), FirstPacket(es).value, HandedOut(es, frameMs), frameMs)
  {
    hide Run, NextPlayoutFrame, HandedOut, FirstPacket;
    FrameOfTick(frameMs, es, nowMs);
  }

  /**
    After every run the delay is four times the jitter of the packets that did not come late,
    above 60 ms and at most 180 ms; each packet is counted as inserted or as late, and each
    frame handed out as played or as lost.
  */
  lemma CountsOfRun(frameMs: int, es: seq<Event>)
    ensures
      var st := Run(FRESH, frameMs, es).0;
      && st.clock.targetMs == Target(Jitter(Kept(es, frameMs), frameMs))
      && st.counts.inserted == |Kept(es, frameMs)|
      && st.counts.inserted + st.counts.late == Packets(es)
      && st.counts.played + st.counts.lost == HandedOut(es, frameMs)
  {
    hide Run, PlayoutTimed, Jitter, Target;
    FreshFollows(frameMs);
    RunFollows(FRESH, frameMs, [], es);
    assert [] + es == es;
  }

  /** The jitter lies between the smallest and the largest deviation seen. */
  lemma {:induction false} JitterBetween(arrivals: seq<int>, frameMs: int, lo: nat, hi: nat)
    requires |arrivals| >= 2 && lo <= hi && forall i :: 0 <= i < |arrivals| ==> arrivals[i] >= 0
    requires forall i :: 1 <= i < |arrivals| ==> lo <= Deviation(arrivals[i - 1], arrivals[i], frameMs) <= hi
    ensures lo as real <= Jitter(arrivals, frameMs) <= hi as real
  {
    var front := arrivals[..|arrivals| - 1];
    if |front| >= 2 {
      JitterBetween(front, frameMs, lo, hi);
    }
  }
}
