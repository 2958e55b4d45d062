/**
  What the playout buffer of received audio frames computes: its operations as functions
  on values, keyed by 16-bit wrapping sequence numbers.
*/
module JitterSpec {
  import opened Bytes

  const MIN_TARGET_MS := 60
  const MAX_TARGET_MS := 180
  const MAX_BUFFERED_PACKETS := 64
  const SPACE := 0x1_0000

  datatype Slot = Slot(sequenceNumber: u16, timestamp: u32, payload: seq<byte>)

  datatype Frame = Frame(
    ready: bool, hasPacket: bool, plc: bool,
    sequenceNumber: u16, timestamp: u32, payload: seq<byte>)

  const NOT_READY := Frame(false, false, false, 0, 0, [])

  datatype Outcome = Accepted | InvalidArgument

  /** What the buffer tracks about time; it does not depend on how packets are keyed. */
  datatype Clock = Clock(
    started: bool, nextTimestamp: u32, firstPlayoutMs: int, playoutIndex: nat,
    lastArrivalMs: int, smoothedJitterMs: real, targetMs: int)

  /** Exact event counts. The program's 32-bit counters are these modulo 2^32. */
  datatype Counts = Counts(
    inserted: nat, played: nat, lost: nat, late: nat, overwritten: nat, trimmed: nat)

  const FRESH_CLOCK := Clock(false, 0, 0, 0, -1, 0.0, MIN_TARGET_MS)
  const FRESH_COUNTS := Counts(0, 0, 0, 0, 0, 0)

  // ---------------------------------------------------------------------------
  // Time keeping
  // ---------------------------------------------------------------------------

  function ClampInt(value: int, lo: int, hi: int): int {
    if value < lo then lo else if value > hi then hi else value
  }

  function Abs(x: int): nat {
    if x < 0 then -x else x
  }

  function RecalculateTarget(c: Clock, frameMs: int, arrivalMs: int): Clock {
    if c.lastArrivalMs < 0 then c.(lastArrivalMs := arrivalMs)
    else
      var gap := arrivalMs - c.lastArrivalMs;
      var delta := if gap < 0 then 0 else gap;
      var jitter := Abs(delta - frameMs) as real;
      var smoothed := if c.smoothedJitterMs == 0.0 then jitter
                      else c.smoothedJitterMs * 0.95 + jitter * 0.05;
      c.(smoothedJitterMs := smoothed,
         targetMs := ClampInt(MIN_TARGET_MS + (smoothed * 4.0).Floor, MIN_TARGET_MS, MAX_TARGET_MS),
         lastArrivalMs := arrivalMs)
  }

  /** The first accepted packet fixes when playout begins. */
  function StartClock(c: Clock, timestamp: u32, arrivalMs: int): Clock {
    if c.started then c
    else c.(started := true, nextTimestamp := timestamp,
            firstPlayoutMs := arrivalMs + c.targetMs, playoutIndex := 0)
  }

  /** When frame number `index` since the start may be played. */
  function DueTime(firstPlayoutMs: int, index: nat, frameMs: int): int {
    firstPlayoutMs + index * frameMs
  }

  function Due(c: Clock, frameMs: int): int {
    DueTime(c.firstPlayoutMs, c.playoutIndex, frameMs)
  }

  function AdvanceClock(c: Clock, frameMs: int): Clock {
    c.(nextTimestamp := (c.nextTimestamp + frameMs) % 0x1_0000_0000, playoutIndex := c.playoutIndex + 1)
  }

  // ---------------------------------------------------------------------------
  // The buffer as the program keys it: 16-bit sequence numbers
  // ---------------------------------------------------------------------------

  datatype State = State(clock: Clock, counts: Counts, nextSequence: u16, slots: map<u16, Slot>)

  const FRESH := State(FRESH_CLOCK, FRESH_COUNTS, 0, map[])

  /** `(int16_t)(a - b) < 0` */
  predicate SequenceBefore(a: u16, b: u16) {
    (a - b) % SPACE >= 0x8000
  }

  /** The first key at or after `from`, as an ordered map enumerates them. */
  function MinKey(keys: set<u16>, from: u16): (k: u16)
    requires exists x :: x in keys && x >= from
    ensures k in keys && k >= from
    ensures forall x :: x in keys && x >= from ==> k <= x
    decreases SPACE - from
  {
    if from in keys then from else MinKey(keys, from + 1)
  }

  function FirstKey(slots: map<u16, Slot>): (k: u16)
    requires |slots| > 0
    ensures k in slots && forall x :: x in slots ==> k <= x
  {
    assert exists x :: x in slots.Keys && x >= 0 by {
      var x :| x in slots.Keys;
    }
    MinKey(slots.Keys, 0)
  }

  /** Erase the first entry of the ordered map. */
  function Evict(st: State): (r: State)
    requires |st.slots| > 0
    ensures |r.slots| == |st.slots| - 1
  {
    var k := FirstKey(st.slots);
    CardWithout(st.slots, k);
    st.(slots := st.slots - {k}, counts := st.counts.(trimmed := st.counts.trimmed + 1))
  }

  function TrimOverflow(st: State): State
    decreases |st.slots|
  {
    if |st.slots| <= MAX_BUFFERED_PACKETS then st else TrimOverflow(Evict(st))
  }

  lemma CardWithout<K, V>(m: map<K, V>, k: K)
    requires k in m
    ensures |m - {k}| == |m| - 1
  {
    assert (m - {k}).Keys == m.Keys - {k};
  }

  function Store(st: State, sequenceNumber: u16, timestamp: u32, payload: seq<byte>): State {
    st.(slots := st.slots[sequenceNumber := Slot(sequenceNumber, timestamp, payload)],
        counts := st.counts.(
          inserted := st.counts.inserted + 1,
          overwritten := st.counts.overwritten + if sequenceNumber in st.slots then 1 else 0))
  }

  /** A packet that is not late, before the overflow rule. */
  function Arrive(st: State, frameMs: int, sequenceNumber: u16, timestamp: u32,
                  payload: seq<byte>, arrivalMs: int): State
  {
    var clock := RecalculateTarget(st.clock, frameMs, arrivalMs);
    var next := if st.clock.started then st.nextSequence else sequenceNumber;
    Store(st, sequenceNumber, timestamp, payload).(
      clock := StartClock(clock, timestamp, arrivalMs), nextSequence := next)
  }

  function Insert(st: State, frameMs: int, sequenceNumber: u16, timestamp: u32,
                  payload: seq<byte>, arrivalMs: int): (State, Outcome)
  {
    if payload == [] then (st, InvalidArgument)
    else if st.clock.started && SequenceBefore(sequenceNumber, st.nextSequence) then
      (st.(counts := st.counts.(late := st.counts.late + 1)), Accepted)
    else (TrimOverflow(Arrive(st, frameMs, sequenceNumber, timestamp, payload, arrivalMs)), Accepted)
  }

  function NextPlayoutFrame(st: State, frameMs: int, nowMs: int): (State, Frame) {
    if !st.clock.started || nowMs < Due(st.clock, frameMs) then (st, NOT_READY)
    else
      var k := st.nextSequence;
      var advanced := st.(clock := AdvanceClock(st.clock, frameMs), nextSequence := (k + 1) % SPACE);
      if k in st.slots then
        (advanced.(slots := st.slots - {k}, counts := st.counts.(played := st.counts.played + 1)),
         Frame(true, true, false, k, st.slots[k].timestamp, st.slots[k].payload))
      else
        (advanced.(counts := st.counts.(lost := st.counts.lost + 1)),
         Frame(true, false, true, k, st.clock.nextTimestamp, []))
  }
}
