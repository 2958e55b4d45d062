/**
  The 16-bit playout buffer refines a buffer keyed by unbounded packet indices on every run
  whose packets arrive within half the sequence space of the playout cursor.
*/
module JitterRefinement {
  import opened Bytes
  import opened JitterSpec

  /** The reference: packets are filed under their true index, which never wraps. */
  datatype Reference = Reference(clock: Clock, counts: Counts, next: int, slots: map<int, Slot>)

  const FRESH_REFERENCE := Reference(FRESH_CLOCK, FRESH_COUNTS, 0, map[])

  datatype Event =
    | Arrival(index: int, timestamp: u32, payload: seq<byte>, arrivalMs: int)
    | Tick(nowMs: int)

  datatype Output = Inserted(outcome: Outcome) | Played(frame: Frame)

  function Key(index: int): u16 {
    index % SPACE
  }

  /** The index at or after `next` whose low 16 bits are `k`. */
  function Unwrap(next: int, k: u16): int {
    next + (k - next) % SPACE
  }

  function Keys(slots: map<int, Slot>): set<u16> {
    set i | i in slots :: Key(i)
  }

  // ---------------------------------------------------------------------------
  // Reference operations
  // ---------------------------------------------------------------------------

  /** The program evicts by 16-bit key; the reference evicts the same packet. */
  function Victim(r: Reference): int
    requires |r.slots| > 0
  {
    assert exists k :: k in Keys(r.slots) && k >= 0 by {
      var i := SomeKey(r.slots);
      assert Key(i) in Keys(r.slots);
    }
    Unwrap(r.next, MinKey(Keys(r.slots), 0))
  }

  lemma SomeKey<K, V>(m: map<K, V>) returns (k: K)
    requires |m| > 0
    ensures k in m
  {
    var keys := m.Keys;
    assert |keys| == |m|;
    k :| k in keys;
  }

  function RefEvict(r: Reference): (r': Reference)
    requires |r.slots| > 0 && Victim(r) in r.slots
    ensures |r'.slots| == |r.slots| - 1
  {
    CardWithout(r.slots, Victim(r));
    r.(slots := r.slots - {Victim(r)}, counts := r.counts.(trimmed := r.counts.trimmed + 1))
  }

  function RefTrim(r: Reference): Reference
    decreases |r.slots|
  {
    if |r.slots| <= MAX_BUFFERED_PACKETS || Victim(r) !in r.slots then r
    else RefTrim(RefEvict(r))
  }

  function RefArrive(r: Reference, frameMs: int, e: Event): Reference
    requires e.Arrival?
  {
    var counts := r.counts.(
      inserted := r.counts.inserted + 1,
      overwritten := r.counts.overwritten + if e.index in r.slots then 1 else 0);
    Reference(StartClock(RecalculateTarget(r.clock, frameMs, e.arrivalMs), e.timestamp, e.arrivalMs), counts,
              if r.clock.started then r.next else e.index,
              r.slots[e.index := Slot(Key(e.index), e.timestamp, e.payload)])
  }

  function RefInsert(r: Reference, frameMs: int, e: Event): (Reference, Outcome)
    requires e.Arrival?
  {
    if e.payload == [] then (r, InvalidArgument)
    else if r.clock.started && e.index < r.next then
      (r.(counts := r.counts.(late := r.counts.late + 1)), Accepted)
    else (RefTrim(RefArrive(r, frameMs, e)), Accepted)
  }

  function RefPlay(r: Reference, frameMs: int, nowMs: int): (Reference, Frame) {
    if !r.clock.started || nowMs < Due(r.clock, frameMs) then (r, NOT_READY)
    else
      var advanced := r.(clock := AdvanceClock(r.clock, frameMs), next := r.next + 1);
      if r.next in r.slots then
        (advanced.(slots := r.slots - {r.next}, counts := r.counts.(played := r.counts.played + 1)),
         Frame(true, true, false, Key(r.next), r.slots[r.next].timestamp, r.slots[r.next].payload))
      else
        (advanced.(counts := r.counts.(lost := r.counts.lost + 1)),
         Frame(true, false, true, Key(r.next), r.clock.nextTimestamp, []))
  }

  function RefStep(r: Reference, frameMs: int, e: Event): (Reference, Output) {
    match e
    case Arrival(_, _, _, _) =>
      var (r', outcome) := RefInsert(r, frameMs, e);
      (r', Inserted(outcome))
    case Tick(nowMs) =>
      var (r', frame) := RefPlay(r, frameMs, nowMs);
      (r', Played(frame))
  }

  function RefRun(r: Reference, frameMs: int, es: seq<Event>): (Reference, seq<Output>)
    decreases |es|
  {
    if es == [] then (r, [])
    else
      var (r1, out) := RefStep(r, frameMs, es[0]);
      var (r2, outs) := RefRun(r1, frameMs, es[1..]);
      (r2, [out] + outs)
  }

  // ---------------------------------------------------------------------------
  // The program's buffer on the same events
  // ---------------------------------------------------------------------------

  function Step(st: State, frameMs: int, e: Event): (State, Output) {
    match e
    case Arrival(index, timestamp, payload, arrivalMs) =>
      var (st', outcome) := Insert(st, frameMs, Key(index), timestamp, payload, arrivalMs);
      (st', Inserted(outcome))
    case Tick(nowMs) =>
      var (st', frame) := NextPlayoutFrame(st, frameMs, nowMs);
      (st', Played(frame))
  }

  function Run(st: State, frameMs: int, es: seq<Event>): (State, seq<Output>)
    decreases |es|
  {
    if es == [] then (st, [])
    else
      var (st1, out) := Step(st, frameMs, es[0]);
      var (st2, outs) := Run(st1, frameMs, es[1..]);
      (st2, [out] + outs)
  }

  /** The packet is within half the sequence space of the playout cursor. */
  predicate InWindow(r: Reference, e: Event) {
    e.Arrival? && r.clock.started ==> r.next - 0x8000 <= e.index < r.next + 0x8000
  }

  predicate RunInWindow(r: Reference, frameMs: int, es: seq<Event>)
    decreases |es|
  {
    es == [] || (InWindow(r, es[0]) && RunInWindow(RefStep(r, frameMs, es[0]).0, frameMs, es[1..]))
  }

  // ---------------------------------------------------------------------------
  // The refinement relation
  // ---------------------------------------------------------------------------

  ghost predicate Windowed(r: Reference) {
    && (!r.clock.started ==> r.slots == map[])
    && forall i :: i in r.slots ==> r.next <= i < r.next + 0x8000
  }

  ghost predicate Related(st: State, r: Reference) {
    && Windowed(r)
    && st.clock == r.clock
    && st.counts == r.counts
    && (r.clock.started ==> st.nextSequence == Key(r.next))
    && st.slots.Keys == Keys(r.slots)
    && forall i :: i in r.slots ==> Key(i) in st.slots && st.slots[Key(i)] == r.slots[i]
  }

  lemma FreshRelated()
    ensures Related(FRESH, FRESH_REFERENCE)
  {
    assert Keys(map[]) == {};
  }

  lemma KeyUnwrap(next: int, i: int)
    requires next <= i < next + SPACE
    ensures Unwrap(next, Key(i)) == i
  {
    assert (Key(i) - next) % SPACE == (i - next) % SPACE;
  }

  lemma KeyInjective(next: int, i: int, j: int)
    requires next <= i < next + SPACE && next <= j < next + SPACE && Key(i) == Key(j)
    ensures i == j
  {
    KeyUnwrap(next, i);
    KeyUnwrap(next, j);
  }

  /** The signed 16-bit comparison orders indices correctly inside the window. */
  lemma LateIffBefore(index: int, next: int)
    requires next - 0x8000 <= index < next + 0x8000
    ensures SequenceBefore(Key(index), Key(next)) <==> index < next
  {
    assert (Key(index) - Key(next)) % SPACE == (index - next) % SPACE;
  }

  lemma {:induction false} KeysCard(next: int, slots: map<int, Slot>)
    requires forall i :: i in slots ==> next <= i < next + SPACE
    ensures |Keys(slots)| == |slots|
    decreases |slots|
  {
    if slots != map[] {
      var i := SomeKey(slots);
      CardWithout(slots, i);
      KeysCard(next, slots - {i});
      KeysWithout(next, slots, i);
    } else {
      assert Keys(slots) == {};
    }
  }

  lemma KeysWithout(next: int, slots: map<int, Slot>, i: int)
    requires i in slots
    requires forall j :: j in slots ==> next <= j < next + SPACE
    ensures Keys(slots - {i}) == Keys(slots) - {Key(i)}
    ensures Key(i) in Keys(slots)
  {
    forall j | j in slots && Key(j) == Key(i)
      ensures j == i
    {
      KeyInjective(next, i, j);
    }
  }

  lemma SameDepth(st: State, r: Reference)
    requires Related(st, r)
    ensures |st.slots| == |r.slots|
  {
    KeysCard(r.next, r.slots);
    assert |st.slots| == |st.slots.Keys|;
  }

  lemma RemoveRelated(st: State, r: Reference, i: int)
    requires Related(st, r) && i in r.slots
    ensures (st.slots - {Key(i)}).Keys == Keys(r.slots - {i})
    ensures forall j :: j in r.slots - {i} ==>
              Key(j) in st.slots - {Key(i)} && (st.slots - {Key(i)})[Key(j)] == r.slots[j]
  {
    KeysWithout(r.next, r.slots, i);
    forall j | j in r.slots - {i}
      ensures Key(j) != Key(i)
    {
      if Key(j) == Key(i) {
        KeyInjective(r.next, i, j);
      }
    }
  }

  lemma VictimIsFirstKey(st: State, r: Reference)
    requires Related(st, r) && |r.slots| > 0
    ensures |st.slots| > 0
    ensures Victim(r) in r.slots && Key(Victim(r)) == FirstKey(st.slots)
  {
    SameDepth(st, r);
    var k := FirstKey(st.slots);
    assert k == MinKey(Keys(r.slots), 0);
    var i :| i in r.slots && Key(i) == k;
    KeyUnwrap(r.next, i);
  }

  lemma EvictRelated(st: State, r: Reference)
    requires Related(st, r) && |r.slots| > 0
    ensures |st.slots| > 0 && Victim(r) in r.slots
    ensures Related(Evict(st), RefEvict(r))
  {
    VictimIsFirstKey(st, r);
    RemoveRelated(st, r, Victim(r));
  }

  lemma {:induction false} TrimRelated(st: State, r: Reference)
    requires Related(st, r)
    ensures Related(TrimOverflow(st), RefTrim(r))
    decreases |st.slots|
  {
    SameDepth(st, r);
    if |st.slots| > MAX_BUFFERED_PACKETS {
      EvictRelated(st, r);
      TrimRelated(Evict(st), RefEvict(r));
    }
  }

  lemma ArriveRelated(st: State, r: Reference, frameMs: int, e: Event)
    requires Related(st, r) && e.Arrival? && InWindow(r, e)
    requires r.clock.started ==> r.next <= e.index
    ensures Related(Arrive(st, frameMs, Key(e.index), e.timestamp, e.payload, e.arrivalMs), RefArrive(r, frameMs, e))
  {
    var st' := Arrive(st, frameMs, Key(e.index), e.timestamp, e.payload, e.arrivalMs);
    var r' := RefArrive(r, frameMs, e);
    assert st'.clock == r'.clock;
    assert Windowed(r');
    assert Keys(r'.slots) == Keys(r.slots) + {Key(e.index)};
    assert st'.slots.Keys == st.slots.Keys + {Key(e.index)};
    assert e.index in r.slots <==> Key(e.index) in st.slots by {
      if Key(e.index) in st.slots {
        var j :| j in r.slots && Key(j) == Key(e.index);
        KeyInjective(r.next, j, e.index);
      }
    }
    forall i | i in r'.slots
      ensures Key(i) in st'.slots && st'.slots[Key(i)] == r'.slots[i]
    {
      if Key(i) == Key(e.index) {
        KeyInjective(r'.next, i, e.index);
      }
    }
  }

  lemma PlayRelated(st: State, r: Reference, frameMs: int, nowMs: int)
    requires Related(st, r)
    ensures Related(NextPlayoutFrame(st, frameMs, nowMs).0, RefPlay(r, frameMs, nowMs).0)
    ensures NextPlayoutFrame(st, frameMs, nowMs).1 == RefPlay(r, frameMs, nowMs).1
  {
    if r.clock.started && nowMs >= Due(r.clock, frameMs) {
      assert (Key(r.next) + 1) % SPACE == Key(r.next + 1);
      if r.next in r.slots {
        RemoveRelated(st, r, r.next);
      } else if Key(r.next) in st.slots {
        var j :| j in r.slots && Key(j) == Key(r.next);
        KeyInjective(r.next, j, r.next);
      }
    }
  }

  lemma StepRelated(st: State, r: Reference, frameMs: int, e: Event)
    requires Related(st, r) && InWindow(r, e)
    ensures Related(Step(st, frameMs, e).0, RefStep(r, frameMs, e).0)
    ensures Step(st, frameMs, e).1 == RefStep(r, frameMs, e).1
  {
    match e
    case Arrival(index, timestamp, payload, arrivalMs) =>
      if payload != [] {
        if r.clock.started {
          LateIffBefore(index, r.next);
        }
        if !(r.clock.started && index < r.next) {
          ArriveRelated(st, r, frameMs, e);
          TrimRelated(Arrive(st, frameMs, Key(index), timestamp, payload, arrivalMs), RefArrive(r, frameMs, e));
        }
      }
    case Tick(nowMs) =>
      PlayRelated(st, r, frameMs, nowMs);
  }

  /**
    Refinement over whole runs: the same verdict for every packet, the same frames in the
    same order, and the same counts of late, lost, played and evicted packets.
  */
  lemma {:induction false} RunRefines(st: State, r: Reference, frameMs: int, es: seq<Event>)
    requires Related(st, r) && RunInWindow(r, frameMs, es)
    ensures Related(Run(st, frameMs, es).0, RefRun(r, frameMs, es).0)
    ensures Run(st, frameMs, es).1 == RefRun(r, frameMs, es).1
    decreases |es|
  {
    if es != [] {
      StepRelated(st, r, frameMs, es[0]);
      RunRefines(Step(st, frameMs, es[0]).0, RefStep(r, frameMs, es[0]).0, frameMs, es[1..]);
    }
  }

  /** From a fresh buffer. */
  lemma SixteenBitBufferIsTheUnboundedBuffer(frameMs: int, es: seq<Event>)
    requires RunInWindow(FRESH_REFERENCE, frameMs, es)
    ensures Run(FRESH, frameMs, es).1 == RefRun(FRESH_REFERENCE, frameMs, es).1
    ensures Run(FRESH, frameMs, es).0.counts == RefRun(FRESH_REFERENCE, frameMs, es).0.counts
    ensures |Run(FRESH, frameMs, es).0.slots| == |RefRun(FRESH_REFERENCE, frameMs, es).0.slots|
  {
    FreshRelated();
    RunRefines(FRESH, FRESH_REFERENCE, frameMs, es);
    SameDepth(Run(FRESH, frameMs, es).0, RefRun(FRESH_REFERENCE, frameMs, es).0);
  }

  /**
    The bound on arrivals is exact: half the sequence space ahead of the cursor, a packet
    is misjudged as late, and just beyond half the space behind it, as early.
  */
  lemma WindowIsExact(next: int)
    ensures SequenceBefore(Key(next + 0x8000), Key(next))
    ensures !SequenceBefore(Key(next - 0x8001), Key(next))
  {
    assert (Key(next + 0x8000) - Key(next)) % SPACE == 0x8000 % SPACE;
    assert (Key(next - 0x8001) - Key(next)) % SPACE == (-0x8001) % SPACE;
  }

  // ---------------------------------------------------------------------------
  // What playout delivers
  // ---------------------------------------------------------------------------

  /** The packet most recently received under an index, among packets with a payload. */
  function LatestArrival(es: seq<Event>, i: int): Option<Slot> {
    if es == [] then None
    else
      var e := es[|es| - 1];
      if e.Arrival? && e.index == i && e.payload != [] then Some(Slot(Key(i), e.timestamp, e.payload))
      else LatestArrival(es[..|es| - 1], i)
  }

  ghost predicate HoldsLatest(r: Reference, es: seq<Event>) {
    && Windowed(r)
    && forall i :: i in r.slots ==> LatestArrival(es, i) == Some(r.slots[i])
  }

  lemma {:induction false} TrimKeepsLatest(r: Reference, es: seq<Event>)
    requires HoldsLatest(r, es)
    ensures HoldsLatest(RefTrim(r), es)
    ensures RefTrim(r).clock == r.clock && RefTrim(r).next == r.next
    decreases |r.slots|
  {
    if |r.slots| > MAX_BUFFERED_PACKETS && Victim(r) in r.slots {
      TrimKeepsLatest(RefEvict(r), es);
    }
  }

  lemma StepHoldsLatest(r: Reference, frameMs: int, es: seq<Event>, e: Event)
    requires HoldsLatest(r, es) && InWindow(r, e)
    ensures HoldsLatest(RefStep(r, frameMs, e).0, es + [e])
  {
    var all := es + [e];
    assert all[..|all| - 1] == es && all[|all| - 1] == e;
    if e.Arrival? && e.payload != [] && !(r.clock.started && e.index < r.next) {
      assert HoldsLatest(RefArrive(r, frameMs, e), all);
      TrimKeepsLatest(RefArrive(r, frameMs, e), all);
    }
  }

  /** A frame handed to the decoder is the latest packet received under the cursor's index. */
  lemma {:induction false} PlaysLatestArrival(r: Reference, frameMs: int, past: seq<Event>, es: seq<Event>)
    requires HoldsLatest(r, past) && RunInWindow(r, frameMs, es)
    ensures HoldsLatest(RefRun(r, frameMs, es).0, past + es)
    ensures forall j :: 0 <= j < |es| && es[j].Tick? ==>
              var before := RefRun(r, frameMs, es[..j]).0;
              var frame := RefPlay(before, frameMs, es[j].nowMs).1;
              frame.hasPacket ==>
                LatestArrival(past + es[..j], before.next)
                == Some(Slot(Key(before.next), frame.timestamp, frame.payload))
    decreases |es|
  {
    if es == [] {
      assert past + es == past;
    } else {
      var e := es[0];
      var r1 := RefStep(r, frameMs, e).0;
      StepHoldsLatest(r, frameMs, past, e);
      PlaysLatestArrival(r1, frameMs, past + [e], es[1..]);
      assert past + [e] + es[1..] == past + es;
      forall j | 0 <= j < |es| && es[j].Tick?
        ensures
          var before := RefRun(r, frameMs, es[..j]).0;
          var frame := RefPlay(before, frameMs, es[j].nowMs).1;
          frame.hasPacket ==>
            LatestArrival(past + es[..j], before.next)
            == Some(Slot(Key(before.next), frame.timestamp, frame.payload))
      {
        if j == 0 {
          assert past + es[..0] == past;
          SlotKey(r, past);
        } else {
          assert es[..j][1..] == es[1..][..j - 1];
          assert past + [e] + es[1..][..j - 1] == past + es[..j];
          assert es[j] == es[1..][j - 1];
          var b := RefRun(r1, frameMs, es[1..][..j - 1]).0;
          assert RefRun(r, frameMs, es[..j]).0 == b;
        }
      }
    }
  }

  /** A stored packet carries the key it is filed under. */
  lemma SlotKey(r: Reference, es: seq<Event>)
    requires HoldsLatest(r, es)
    ensures forall i :: i in r.slots ==> r.slots[i].sequenceNumber == Key(i)
  {
    forall i | i in r.slots
      ensures r.slots[i].sequenceNumber == Key(i)
    {
      LatestKey(es, i);
    }
  }

  lemma {:induction false} LatestKey(es: seq<Event>, i: int)
    ensures LatestArrival(es, i).Some? ==> LatestArrival(es, i).value.sequenceNumber == Key(i)
  {
    if es != [] {
      LatestKey(es[..|es| - 1], i);
    }
  }
}
