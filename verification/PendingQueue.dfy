/**
  Signaling packets that wait for a call's media stack: a queue that drops from the front,
  and what that achieves over the whole stream of packets.
*/
module PendingQueue {
  import opened Bytes
  import opened SeqFacts

  const MAX_PACKETS := 128
  const MAX_BYTES := 512 * 1024

  function TotalBytes(q: seq<seq<byte>>): nat {
    if q == [] then 0 else |q[0]| + TotalBytes(q[1..])
  }

  predicate Fits(q: seq<seq<byte>>) {
    |q| <= MAX_PACKETS && TotalBytes(q) <= MAX_BYTES
  }

  /** The queue and how many packets were ever dropped from it. */
  datatype Queue = Queue(pending: seq<seq<byte>>, dropped: nat)

  function Trim(q: Queue): Queue
    decreases |q.pending|
  {
    if Fits(q.pending) || q.pending == [] then q else Trim(Queue(q.pending[1..], q.dropped + 1))
  }

  /** Empty packets are ignored. */
  function Enqueue(q: Queue, data: seq<byte>): Queue {
    if data == [] then q else Trim(Queue(q.pending + [data], q.dropped))
  }

  function EnqueueAll(q: Queue, packets: seq<seq<byte>>): Queue {
    if packets == [] then q else Enqueue(EnqueueAll(q, packets[..|packets| - 1]), packets[|packets| - 1])
  }

  /** The packets of a stream that are not empty. */
  function NonEmpty(packets: seq<seq<byte>>): seq<seq<byte>> {
    if packets == [] then []
    else NonEmpty(packets[..|packets| - 1]) + (if packets[|packets| - 1] == [] then [] else [packets[|packets| - 1]])
  }

  // ---------------------------------------------------------------------------
  // Optimality
  // ---------------------------------------------------------------------------

  /** From `k` on the stream fits, and from no earlier place. */
  ghost predicate LongestFrom(stream: seq<seq<byte>>, k: nat) {
    k <= |stream| && Fits(stream[k..]) && forall j :: 0 <= j < k ==> !Fits(stream[j..])
  }

  lemma {:induction false} TotalConcat(a: seq<seq<byte>>, b: seq<seq<byte>>)
    ensures TotalBytes(a + b) == TotalBytes(a) + TotalBytes(b)
  {
    if a == [] {
      Unit(b);
    } else {
      assert (a + b)[1..] == a[1..] + b;
      TotalConcat(a[1..], b);
    }
  }

  /** What does not fit does not fit with more behind it. */
  lemma GrowingStaysOver(q: seq<seq<byte>>, d: seq<byte>)
    requires !Fits(q)
    ensures !Fits(q + [d])
  {
    TotalConcat(q, [d]);
  }

  lemma NothingFits()
    ensures Fits([])
  {
  }

  lemma {:induction false} TrimFinds(stream: seq<seq<byte>>, k: nat, dropped: nat)
    requires k <= |stream| && forall j :: 0 <= j < k ==> !Fits(stream[j..])
    ensures
      var q := Trim(Queue(stream[k..], dropped));
      && |q.pending| <= |stream| - k
      && q.pending == stream[|stream| - |q.pending|..]
      && LongestFrom(stream, |stream| - |q.pending|)
      && q.dropped == dropped + (|stream| - k - |q.pending|)
    decreases |stream| - k
  {
    hide Fits;
    NothingFits();
    if !Fits(stream[k..]) {
      DropDrop(stream, k, 1);
      TrimFinds(stream, k + 1, dropped + 1);
    }
  }

  lemma StillOver(stream: seq<seq<byte>>, k: nat, d: seq<byte>)
    requires LongestFrom(stream, k)
    ensures forall j :: 0 <= j < k ==> !Fits((stream + [d])[j..])
    ensures (stream + [d])[k..] == stream[k..] + [d]
  {
    hide Fits;
    forall j | 0 <= j < k
      ensures !Fits((stream + [d])[j..])
    {
      GrowingStaysOver(stream[j..], d);
      assert (stream + [d])[j..] == stream[j..] + [d];
    }
  }

  /** The queue is the longest suffix of the stream that fits, and the rest was dropped. */
  ghost predicate Tracks(q: Queue, stream: seq<seq<byte>>) {
    && |q.pending| <= |stream| && q.pending == stream[|stream| - |q.pending|..]
    && LongestFrom(stream, |stream| - |q.pending|) && |stream| == |q.pending| + q.dropped
  }

  lemma EnqueueTracks(q: Queue, stream: seq<seq<byte>>, d: seq<byte>)
    requires Tracks(q, stream) && d != []
    ensures Tracks(Enqueue(q, d), stream + [d])
  {
    hide Fits, Trim;
    var k := |stream| - |q.pending|;
    StillOver(stream, k, d);
    TrimFinds(stream + [d], k, q.dropped);
  }

  lemma NothingTracks()
    ensures Tracks(Queue([], 0), [])
  {
    hide Fits;
    NothingFits();
    var none: seq<seq<byte>> := [];
    assert none[0..] == none;
    assert LongestFrom(none, 0);
  }

  /**
    After any stream of packets, the queue is the longest suffix of it (empty packets aside)
    with at most 128 packets and 512 KiB: dropping the oldest greedily is optimal. What was
    queued is what is pending plus what was dropped.
  */
  lemma {:induction false} PendingIsLongestSuffix(packets: seq<seq<byte>>)
    ensures
      var q := EnqueueAll(Queue([], 0), packets);
      var stream := NonEmpty(packets);
      && |q.pending| <= |stream|
      && q.pending == stream[|stream| - |q.pending|..]
      && LongestFrom(stream, |stream| - |q.pending|)
      && |stream| == |q.pending| + q.dropped
    decreases |packets|
  {
    AllTracked(packets);
    hide EnqueueAll, NonEmpty, LongestFrom;
  }

  lemma {:induction false} AllTracked(packets: seq<seq<byte>>)
    ensures Tracks(EnqueueAll(Queue([], 0), packets), NonEmpty(packets))
    decreases |packets|
  {
    hide Tracks, Trim;
    if packets == [] {
      NothingTracks();
    } else {
      var front, d := packets[..|packets| - 1], packets[|packets| - 1];
      AllTracked(front);
      Unit(NonEmpty(front));
      if d != [] {
        EnqueueTracks(EnqueueAll(Queue([], 0), front), NonEmpty(front), d);
      }
    }
  }

  /**
    So at most 128 packets of at most 524288 bytes together are pending, and if any was dropped,
    the youngest of these would bring it above one of the two.
  */
  lemma DropsWhenFull(packets: seq<seq<byte>>)
    ensures
      var q, stream := EnqueueAll(Queue([], 0), packets), NonEmpty(packets);
      && |q.pending| <= 128 && TotalBytes(q.pending) <= 524288
      && (q.dropped > 0 ==>
            && q.dropped <= |stream|
            && (|q.pending| == 128 || |stream[q.dropped - 1]| + TotalBytes(q.pending) > 524288))
  {
    hide EnqueueAll, NonEmpty;
    PendingIsLongestSuffix(packets);
    var q, stream := EnqueueAll(Queue([], 0), packets), NonEmpty(packets);
    if q.dropped > 0 {
      var k := q.dropped - 1;
      assert stream[k..] == [stream[k]] + q.pending;
      assert !Fits(stream[k..]);
    }
  }
}
