/** Laws of the playout buffer that hold on every run, whatever arrives. */
module JitterLaws {
  import opened Bytes
  import opened JitterSpec
  import opened JitterRefinement

  // ---------------------------------------------------------------------------
  // Conservation and bounds
  // ---------------------------------------------------------------------------

  ghost predicate Conserved(st: State) {
    && st.counts.inserted
       == st.counts.played + |st.slots| + st.counts.overwritten + st.counts.trimmed
    && MIN_TARGET_MS <= st.clock.targetMs <= MAX_TARGET_MS
    && st.clock.smoothedJitterMs >= 0.0
  }

  ghost predicate Bounded(st: State) {
    |st.slots| <= MAX_BUFFERED_PACKETS
  }

  lemma {:induction false} TrimConserves(st: State)
    requires Conserved(st)
    ensures Conserved(TrimOverflow(st)) && Bounded(TrimOverflow(st))
    ensures TrimOverflow(st).clock == st.clock && TrimOverflow(st).nextSequence == st.nextSequence
    decreases |st.slots|
  {
    if |st.slots| > MAX_BUFFERED_PACKETS {
      TrimConserves(Evict(st));
    }
  }

  lemma ArriveConserves(st: State, frameMs: int, k: u16, timestamp: u32, payload: seq<byte>, arrivalMs: int)
    requires Conserved(st)
    ensures Conserved(Arrive(st, frameMs, k, timestamp, payload, arrivalMs))
  {
    var slots := st.slots[k := Slot(k, timestamp, payload)];
    assert slots.Keys == st.slots.Keys + {k};
    assert |slots.Keys| == |st.slots.Keys| + if k in st.slots then 0 else 1;
    TargetBounds(st.clock, frameMs, arrivalMs);
  }

  lemma TargetBounds(c: Clock, frameMs: int, arrivalMs: int)
    requires c.smoothedJitterMs >= 0.0 && MIN_TARGET_MS <= c.targetMs <= MAX_TARGET_MS
    ensures RecalculateTarget(c, frameMs, arrivalMs).smoothedJitterMs >= 0.0
    ensures MIN_TARGET_MS <= RecalculateTarget(c, frameMs, arrivalMs).targetMs <= MAX_TARGET_MS
  {
  }

  /**
    In every state reached from a fresh buffer each packet that was inserted has been
    played, is still buffered, was overwritten or was trimmed; at most 64 are buffered;
    and the playout delay stays within its limits.
  */
  lemma {:induction false} RunConserves(st: State, frameMs: int, es: seq<Event>)
    requires Conserved(st) && Bounded(st)
    ensures Conserved(Run(st, frameMs, es).0) && Bounded(Run(st, frameMs, es).0)
    decreases |es|
  {
    if es != [] {
      var next := Step(st, frameMs, es[0]).0;
      match es[0] {
        case Arrival(index, timestamp, payload, arrivalMs) =>
          ArriveConserves(st, frameMs, Key(index), timestamp, payload, arrivalMs);
          TrimConserves(Arrive(st, frameMs, Key(index), timestamp, payload, arrivalMs));
        case Tick(nowMs) =>
          if st.nextSequence in st.slots {
            CardWithout(st.slots, st.nextSequence);
          }
      }
      RunConserves(next, frameMs, es[1..]);
    }
  }

  // ---------------------------------------------------------------------------
  // The playout schedule
  // ---------------------------------------------------------------------------

  datatype Playout = Playout(frame: Frame, atMs: int)

  /** The frames a run hands out, with the times at which it does. */
  function Playouts(st: State, frameMs: int, es: seq<Event>): seq<Playout>
    decreases |es|
  {
    if es == [] then []
    else
      var (next, out) := Step(st, frameMs, es[0]);
      (if out.Played? && out.frame.ready then [Playout(out.frame, es[0].nowMs)] else [])
      + Playouts(next, frameMs, es[1..])
  }

  lemma StepKeepsSchedule(st: State, frameMs: int, e: Event)
    requires st.clock.started
    ensures
      var (next, out) := Step(st, frameMs, e);
      && next.clock.started
      && next.clock.firstPlayoutMs == st.clock.firstPlayoutMs
      && if out.Played? && out.frame.ready then
           && next.clock.playoutIndex == st.clock.playoutIndex + 1
           && next.nextSequence == (st.nextSequence + 1) % SPACE
         else
           && next.clock.playoutIndex == st.clock.playoutIndex
           && next.nextSequence == st.nextSequence
  {
    if e.Arrival? && e.payload != [] && !SequenceBefore(Key(e.index), st.nextSequence) {
      TrimSameClock(Arrive(st, frameMs, Key(e.index), e.timestamp, e.payload, e.arrivalMs));
    }
  }

  lemma {:induction false} TrimSameClock(st: State)
    ensures TrimOverflow(st).clock == st.clock && TrimOverflow(st).nextSequence == st.nextSequence
    decreases |st.slots|
  {
    if |st.slots| > MAX_BUFFERED_PACKETS {
      TrimSameClock(Evict(st));
    }
  }

  ghost predicate OnSchedule(p: Playout, sequenceNumber: u16, dueMs: int) {
    && p.frame.sequenceNumber == sequenceNumber
    && p.frame.hasPacket == !p.frame.plc
    && p.atMs >= dueMs
  }

  /** The j-th frame has sequence number `next + j` and comes no earlier than frame `index + j` is due. */
  ghost predicate AllOnSchedule(ps: seq<Playout>, next: u16, firstMs: int, index: nat, frameMs: int) {
    forall j :: 0 <= j < |ps| ==>
      OnSchedule(ps[j], (next + j) % SPACE, DueTime(firstMs, index + j, frameMs))
  }

  lemma PrependOnSchedule(p: Playout, rest: seq<Playout>, next: u16, firstMs: int, index: nat, frameMs: int)
    requires OnSchedule(p, next, DueTime(firstMs, index, frameMs))
    requires AllOnSchedule(rest, (next + 1) % SPACE, firstMs, index + 1, frameMs)
    ensures AllOnSchedule([p] + rest, next, firstMs, index, frameMs)
  {
    forall j | 1 <= j < |rest| + 1
      ensures OnSchedule(([p] + rest)[j], (next + j) % SPACE, DueTime(firstMs, index + j, frameMs))
    {
      ModShift(next, 1, j - 1);
      assert OnSchedule(rest[j - 1], ((next + 1) % SPACE + (j - 1)) % SPACE, DueTime(firstMs, index + 1 + (j - 1), frameMs));
    }
  }

  /**
    On every run the frames that come out, played or concealed, have consecutive sequence
    numbers, and the j-th one is never handed out before its due time.
  */
  lemma {:induction false} PlayoutSchedule(st: State, frameMs: int, es: seq<Event>)
    requires st.clock.started
    ensures AllOnSchedule(Playouts(st, frameMs, es), st.nextSequence,
                          st.clock.firstPlayoutMs, st.clock.playoutIndex, frameMs)
    ensures Run(st, frameMs, es).0.clock.playoutIndex == st.clock.playoutIndex + |Playouts(st, frameMs, es)|
    decreases |es|
  {
    if es != [] {
      var (next, out) := Step(st, frameMs, es[0]);
      var rest := Playouts(next, frameMs, es[1..]);
      StepKeepsSchedule(st, frameMs, es[0]);
      PlayoutSchedule(next, frameMs, es[1..]);
      if out.Played? && out.frame.ready {
        var p := Playout(out.frame, es[0].nowMs);
        assert OnSchedule(p, st.nextSequence, Due(st.clock, frameMs));
        PrependOnSchedule(p, rest, st.nextSequence, st.clock.firstPlayoutMs, st.clock.playoutIndex, frameMs);
        assert Playouts(st, frameMs, es) == [p] + rest;
      } else {
        assert Playouts(st, frameMs, es) == [] + rest == rest;
      }
    }
  }

  lemma ModShift(a: int, n: int, m: int)
    ensures ((a + n) % SPACE + m) % SPACE == (a + (n + m)) % SPACE
  {
  }

  // ---------------------------------------------------------------------------
  // Which packet an overflow evicts
  // ---------------------------------------------------------------------------

  /**
    Eviction drops the numerically smallest 16-bit key. That is the oldest packet exactly
    when the buffered indices do not straddle a multiple of 65536.
  */
  lemma EvictsOldestIff(r: Reference, oldest: int, newest: int)
    requires Windowed(r) && oldest in r.slots && newest in r.slots
    requires forall i :: i in r.slots ==> oldest <= i <= newest
    ensures |r.slots| > 0 && Victim(r) in r.slots
    ensures Victim(r) == oldest <==> oldest / SPACE == newest / SPACE
  {
    assert oldest in r.slots.Keys;
    var keys := Keys(r.slots);
    assert Key(oldest) in keys && Key(newest) in keys;
    var k := MinKey(keys, 0);
    var v :| v in r.slots && Key(v) == k;
    KeyUnwrap(r.next, v);
    assert Victim(r) == v;
    if oldest / SPACE != newest / SPACE {
      assert Key(newest) < Key(oldest) by {
        assert newest - oldest < 0x8000;
      }
    } else {
      assert v / SPACE == oldest / SPACE;
      assert Key(v) - Key(oldest) == v - oldest;
    }
  }

  // ---------------------------------------------------------------------------
  // A burst that overflows a fresh buffer
  // ---------------------------------------------------------------------------

  /** Playable packets with consecutive indices from `first` on. */
  ghost predicate IsBurst(es: seq<Event>, first: int) {
    forall i :: 0 <= i < |es| ==> es[i].Arrival? && es[i].index == first + i && es[i].payload != []
  }

  /** The index that sixty-five packets from `first` on push out. */
  function PushedOut(first: int): int {
    if first / SPACE == (first + MAX_BUFFERED_PACKETS) / SPACE then first
    else (first + MAX_BUFFERED_PACKETS) / SPACE * SPACE
  }

  /** After `n` packets of a burst into a fresh buffer. */
  ghost predicate Holding(r: Reference, first: int, n: nat) {
    && |r.slots| == n
    && (forall i :: i in r.slots <==> first <= i < first + n)
    && r.clock.started == (n > 0)
    && (n > 0 ==> r.next == first)
  }

  /** All of the sixty-five packets but the one pushed out. */
  ghost predicate Survive(slots: map<int, Slot>, first: int) {
    forall i :: i in slots <==> first <= i <= first + MAX_BUFFERED_PACKETS && i != PushedOut(first)
  }

  lemma ArriveHolds(r: Reference, frameMs: int, first: int, n: nat, e: Event)
    requires Holding(r, first, n) && e.Arrival? && e.index == first + n
    ensures Holding(RefArrive(r, frameMs, e), first, n + 1)
  {
    hide RecalculateTarget;
    var slots := RefArrive(r, frameMs, e).slots;
    assert slots.Keys == r.slots.Keys + {e.index};
    assert |slots| == |slots.Keys| && |r.slots| == |r.slots.Keys|;
  }

  lemma PushedOutIsVictim(r: Reference, first: int)
    requires Holding(r, first, MAX_BUFFERED_PACKETS + 1)
    ensures Victim(r) == PushedOut(first)
    ensures PushedOut(first) in r.slots
  {
    hide Key, Keys, Unwrap, PushedOut;
    var newest := first + MAX_BUFFERED_PACKETS;
    assert first in r.slots && newest in r.slots;
    PushedOutPlace(first);
    if first / SPACE == newest / SPACE {
      hide Victim;
      EvictsOldestIff(r, first, newest);
    } else {
      ZeroIsVictim(r, PushedOut(first));
    }
  }

  lemma PushedOutPlace(first: int)
    ensures first <= PushedOut(first) <= first + MAX_BUFFERED_PACKETS
    ensures
      if first / SPACE == (first + MAX_BUFFERED_PACKETS) / SPACE then PushedOut(first) == first
      else Key(PushedOut(first)) == 0
  {
  }

  /** Key 0, if it is in use, is the first to go. */
  lemma ZeroIsVictim(r: Reference, v: int)
    requires v in r.slots && Key(v) == 0 && r.next <= v < r.next + SPACE
    ensures |r.slots| > 0 && Victim(r) == v
  {
    assert |r.slots| > 0 by {
      assert v in r.slots.Keys && |r.slots| == |r.slots.Keys|;
    }
    assert 0 in Keys(r.slots);
    KeyUnwrap(r.next, v);
  }

  lemma {:induction false} BurstRun(r: Reference, frameMs: int, first: int, n: nat, es: seq<Event>)
    requires Holding(r, first, n) && IsBurst(es, first + n) && es != [] && n + |es| == MAX_BUFFERED_PACKETS + 1
    ensures RunInWindow(r, frameMs, es)
    ensures Survive(RefRun(r, frameMs, es).0.slots, first)
    decreases |es|
  {
    hide Victim, PushedOut, RecalculateTarget;
    var e := es[0];
    var full := RefArrive(r, frameMs, e);
    ArriveHolds(r, frameMs, first, n, e);
    var next := RefStep(r, frameMs, e).0;
    assert next == RefTrim(full);
    if n < MAX_BUFFERED_PACKETS {
      BurstRun(next, frameMs, first, n + 1, es[1..]);
    } else {
      PushedOutIsVictim(full, first);
      assert next == RefEvict(full);
      assert RefRun(next, frameMs, es[1..]).0 == next;
    }
  }

  /**
    Sixty-five consecutive packets into a fresh buffer, wherever they start: exactly one is
    pushed out, and the oldest one survives if and only if they straddle a multiple of 65536.
    The buffer keyed by 16-bit numbers holds the same packets.
  */
  lemma BurstEvicts(frameMs: int, first: int, es: seq<Event>)
    requires |es| == MAX_BUFFERED_PACKETS + 1 && IsBurst(es, first)
    ensures
      var left := RefRun(FRESH_REFERENCE, frameMs, es).0.slots;
      && Survive(left, first)
      && (first in left <==> first / SPACE != (first + MAX_BUFFERED_PACKETS) / SPACE)
      && Run(FRESH, frameMs, es).0.slots.Keys == Keys(left)
  {
    hide RefRun, Run, RunInWindow;
    assert Holding(FRESH_REFERENCE, first, 0);
    BurstRun(FRESH_REFERENCE, frameMs, first, 0, es);
    FreshRelated();
    RunRefines(FRESH, FRESH_REFERENCE, frameMs, es);
  }

  /** Sixty-five packets, one more than fit, around the wrap at 65536. */
  function NearWrap(): seq<Event> {
    seq(65, i => Arrival(65500 + i, 0, [0], 0))
  }

  /** On this run 65500 is the oldest packet and is kept; 65536, which has key 0, is dropped. */
  lemma EvictionNearWrap(frameMs: int)
    ensures
      var left := RefRun(FRESH_REFERENCE, frameMs, NearWrap()).0.slots;
      65500 in left && 65536 !in left
    ensures
      var left := Run(FRESH, frameMs, NearWrap()).0.slots;
      65500 in left && 0 !in left
  {
    hide RefRun, Run;
    BurstEvicts(frameMs, 65500, NearWrap());
    var left := RefRun(FRESH_REFERENCE, frameMs, NearWrap()).0.slots;
    assert Survive(left, 65500) && PushedOut(65500) == 65536;
    assert 65500 in left && Key(65500) == 65500;
  }
}
