/**
  The playout buffer as the program runs it: an object whose methods update its fields,
  with 32-bit counters and an ordered map of slots. Every method is tied to the function
  of the same name on values.
*/
module JitterBuffer {
  import opened Bytes
  import opened JitterSpec
  import Spec = JitterSpec

  class VoipJitterBuffer {
    const frameMs: int
    var started: bool
    var nextSequence: u16
    var nextTimestamp: u32
    var firstPlayoutMs: int
    var playoutIndex: nat
    var lastArrivalMs: int
    var smoothedJitterMs: real
    var targetMs: int
    var slots: map<u16, Slot>
    var packetsInserted: u32
    var packetsPlayed: u32
    var packetsLost: u32
    var lateDrops: u32
    ghost var model: State

    ghost predicate Valid()
      reads this
    {
      && model.clock == Clock(started, nextTimestamp, firstPlayoutMs, playoutIndex,
                              lastArrivalMs, smoothedJitterMs, targetMs)
      && model.nextSequence == nextSequence
      && model.slots == slots
      && packetsInserted == Wrap32(model.counts.inserted)
      && packetsPlayed == Wrap32(model.counts.played)
      && packetsLost == Wrap32(model.counts.lost)
      && lateDrops == Wrap32(model.counts.late + model.counts.trimmed)
    }

    constructor (frameMs: int)
      ensures Valid() && model == FRESH
      ensures this.frameMs == if frameMs <= 0 then 20 else frameMs
    {
      this.frameMs := if frameMs <= 0 then 20 else frameMs;
      started, nextSequence, nextTimestamp, firstPlayoutMs, playoutIndex := false, 0, 0, 0, 0;
      lastArrivalMs, smoothedJitterMs, targetMs, slots := -1, 0.0, MIN_TARGET_MS, map[];
      packetsInserted, packetsPlayed, packetsLost, lateDrops := 0, 0, 0, 0;
      model := FRESH;
    }

    /** As good as new. */
    method Reset()
      requires Valid()
      modifies this
      ensures Valid() && model == FRESH
    {
      ResetClock();
      nextSequence := 0;
      slots := map[];
      packetsInserted, packetsPlayed, packetsLost, lateDrops := 0, 0, 0, 0;
      model := FRESH;
    }

    method ResetClock()
      requires Valid()
      modifies `started, `nextTimestamp, `firstPlayoutMs, `playoutIndex, `lastArrivalMs, `smoothedJitterMs, `targetMs, `model
      ensures Valid() && model == old(model).(clock := FRESH_CLOCK)
    {
      started, nextTimestamp, firstPlayoutMs, playoutIndex := false, 0, 0, 0;
      lastArrivalMs, smoothedJitterMs, targetMs := -1, 0.0, MIN_TARGET_MS;
      model := model.(clock := FRESH_CLOCK);
    }

    method Insert(sequenceNumber: u16, timestamp: u32, payload: seq<byte>, arrivalMs: int)
      returns (outcome: Outcome)
      requires Valid()
      modifies this
      ensures Valid()
      ensures (model, outcome) ==
              Spec.Insert(old(model), frameMs, sequenceNumber, timestamp, payload, arrivalMs)
    {
      if payload == [] {
        return InvalidArgument;
      }
      outcome := Accepted;
      if started && SequenceBefore(sequenceNumber, nextSequence) {
        WrapNext(model.counts.late + model.counts.trimmed);
        lateDrops := Next32(lateDrops);
        model := model.(counts := model.counts.(late := model.counts.late + 1));
      } else {
        Arrive(sequenceNumber, timestamp, payload, arrivalMs);
        TrimOverflow();
      }
    }

    /** The part of `Insert` that files a packet which is not late. */
    method Arrive(sequenceNumber: u16, timestamp: u32, payload: seq<byte>, arrivalMs: int)
      requires Valid()
      modifies this
      ensures Valid()
      ensures model == Spec.Arrive(old(model), frameMs, sequenceNumber, timestamp, payload, arrivalMs)
    {
      RecalculateTarget(arrivalMs);
      WrapNext(model.counts.inserted);
      model := Store(model, sequenceNumber, timestamp, payload);
      slots := slots[sequenceNumber := Slot(sequenceNumber, timestamp, payload)];
      packetsInserted := Next32(packetsInserted);
      if !started {
        Start(sequenceNumber, timestamp, arrivalMs);
      }
    }

    /** The first packet sets the clock. */
    method Start(sequenceNumber: u16, timestamp: u32, arrivalMs: int)
      requires Valid() && !started
      modifies `started, `nextSequence, `nextTimestamp, `firstPlayoutMs, `playoutIndex, `model
      ensures Valid()
      ensures model == old(model).(clock := StartClock(old(model).clock, timestamp, arrivalMs),
                                   nextSequence := sequenceNumber)
    {
      started := true;
      nextSequence := sequenceNumber;
      nextTimestamp := timestamp;
      firstPlayoutMs := arrivalMs + targetMs;
      playoutIndex := 0;
      model := model.(clock := StartClock(model.clock, timestamp, arrivalMs), nextSequence := sequenceNumber);
    }

    method RecalculateTarget(arrivalMs: int)
      requires Valid()
      modifies `lastArrivalMs, `smoothedJitterMs, `targetMs, `model
      ensures Valid()
      ensures model == old(model).(clock := Spec.RecalculateTarget(old(model).clock, frameMs, arrivalMs))
    {
      model := model.(clock := Spec.RecalculateTarget(model.clock, frameMs, arrivalMs));
      if lastArrivalMs >= 0 {
        var delta := arrivalMs - lastArrivalMs;
        if delta < 0 {
          delta := 0;
        }
        var jitter := Abs(delta - frameMs) as real;
        if smoothedJitterMs == 0.0 {
          smoothedJitterMs := jitter;
        } else {
          smoothedJitterMs := smoothedJitterMs * 0.95 + jitter * 0.05;
        }
        targetMs := ClampInt(MIN_TARGET_MS + (smoothedJitterMs * 4.0).Floor, MIN_TARGET_MS, MAX_TARGET_MS);
      }
      lastArrivalMs := arrivalMs;
    }

    method TrimOverflow()
      requires Valid()
      modifies `slots, `lateDrops, `model
      ensures Valid()
      ensures model == Spec.TrimOverflow(old(model))
    {
      while |slots| > MAX_BUFFERED_PACKETS
        invariant Valid()
        invariant Spec.TrimOverflow(model) == Spec.TrimOverflow(old(model))
        decreases |model.slots|
      {
        EvictFirst();
      }
    }

    method EvictFirst()
      requires Valid() && |slots| > 0
      modifies `slots, `lateDrops, `model
      ensures Valid()
      ensures model == Evict(old(model))
    {
      var k := FirstKey(slots);
      WrapNext(model.counts.late + model.counts.trimmed);
      slots := slots - {k};
      lateDrops := Next32(lateDrops);
      model := Evict(model);
    }

    method NextPlayoutFrame(nowMs: int) returns (frame: Frame)
      requires Valid()
      modifies this
      ensures Valid()
      ensures (model, frame) == Spec.NextPlayoutFrame(old(model), frameMs, nowMs)
    {
      if !started || nowMs < firstPlayoutMs + playoutIndex * frameMs {
        return NOT_READY;
      }
      model := Spec.NextPlayoutFrame(model, frameMs, nowMs).0;
      if nextSequence in slots {
        var slot := slots[nextSequence];
        frame := Frame(true, true, false, nextSequence, slot.timestamp, slot.payload);
        slots := slots - {nextSequence};
        WrapNext(model.counts.played - 1);
        packetsPlayed := Next32(packetsPlayed);
      } else {
        frame := Frame(true, false, true, nextSequence, nextTimestamp, []);
        WrapNext(model.counts.lost - 1);
        packetsLost := Next32(packetsLost);
      }
      nextSequence := (nextSequence + 1) % SPACE;
      nextTimestamp := (nextTimestamp + frameMs) % 0x1_0000_0000;
      playoutIndex := playoutIndex + 1;
    }
  }
}
