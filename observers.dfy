/**
 * The progress-observer registry. A callback is foreign code, so it is
 * known here only by its identity, and invoking it is recorded as a
 * delivery of one progress value to it.
 */
module Observers {
  import opened Typings

  /** A registered progress callback. */
  datatype Callback = Callback(id: nat)

  /** One invocation `callback(data)`. */
  datatype Delivery = Delivery(callback: Callback, data: ProcessProgressData)

  /** The invocations made by publishing `data` to `callbacks`. */
  function Broadcast(callbacks: seq<Callback>, data: ProcessProgressData): seq<Delivery>
  {
    if callbacks == [] then []
    else Broadcast(callbacks[..|callbacks| - 1], data) + [Delivery(callbacks[|callbacks| - 1], data)]
  }

  /** Publishing one value calls each callback exactly once, in registration order. */
  lemma {:induction false} BroadcastAt(callbacks: seq<Callback>, data: ProcessProgressData)
    ensures |Broadcast(callbacks, data)| == |callbacks|
    ensures forall i :: 0 <= i < |callbacks| ==> Broadcast(callbacks, data)[i] == Delivery(callbacks[i], data)
  {
    if callbacks != [] {
      BroadcastAt(callbacks[..|callbacks| - 1], data);
    }
  }

  /** The invocations made by publishing each of `events`, in turn, to the same `callbacks`. */
  function Fanout(callbacks: seq<Callback>, events: seq<ProcessProgressData>): seq<Delivery>
  {
    if events == [] then []
    else Fanout(callbacks, events[..|events| - 1]) + Broadcast(callbacks, events[|events| - 1])
  }

  /** Publishing one more event appends its broadcast. */
  lemma {:induction false} FanoutSnoc(callbacks: seq<Callback>, events: seq<ProcessProgressData>, e: ProcessProgressData)
    ensures Fanout(callbacks, events + [e]) == Fanout(callbacks, events) + Broadcast(callbacks, e)
  {
    assert (events + [e])[..|events|] == events;
  }

  /** Publishing a single event is one broadcast. */
  lemma {:induction false} FanoutSingle(callbacks: seq<Callback>, e: ProcessProgressData)
    ensures Fanout(callbacks, [e]) == Broadcast(callbacks, e)
  {
    assert [e][..0] == [];
  }

  /** Publishing `a` and then `b` makes the invocations of `a` followed by those of `b`. */
  lemma {:induction false} FanoutAppend(callbacks: seq<Callback>, a: seq<ProcessProgressData>, b: seq<ProcessProgressData>)
    ensures Fanout(callbacks, a + b) == Fanout(callbacks, a) + Fanout(callbacks, b)
  {
    if b == [] {
      assert a + b == a;
    } else {
      var front := b[..|b| - 1];
      assert a + b == (a + front) + [b[|b| - 1]];
      FanoutSnoc(callbacks, a + front, b[|b| - 1]);
      FanoutAppend(callbacks, a, front);
    }
  }

  /**
   * Every callback receives every event exactly once: event `k` reaches
   * callback `i` at position `k * |callbacks| + i`, so events arrive in order
   * and, within one event, callbacks are called in registration order.
   */
  lemma {:induction false} FanoutAt(callbacks: seq<Callback>, events: seq<ProcessProgressData>, k: nat, i: nat)
    requires k < |events| && i < |callbacks|
    ensures |Fanout(callbacks, events)| == |events| * |callbacks|
    ensures k * |callbacks| + i < |events| * |callbacks|
    ensures Fanout(callbacks, events)[k * |callbacks| + i] == Delivery(callbacks[i], events[k])
  {
    var n := |events| - 1;
    var front := events[..n];
    FanoutLength(callbacks, events);
    FanoutLength(callbacks, front);
    assert Fanout(callbacks, events) == Fanout(callbacks, front) + Broadcast(callbacks, events[n]);
    BroadcastAt(callbacks, events[n]);
    if k < n {
      FanoutAt(callbacks, front, k, i);
    } else {
      assert k * |callbacks| == |front| * |callbacks|;
    }
    MulBound(k, |events|, |callbacks|, i);
  }

  /** The number of invocations is the number of events times the number of callbacks. */
  lemma {:induction false} FanoutLength(callbacks: seq<Callback>, events: seq<ProcessProgressData>)
    ensures |Fanout(callbacks, events)| == |events| * |callbacks|
  {
    if events != [] {
      FanoutLength(callbacks, events[..|events| - 1]);
      BroadcastAt(callbacks, events[|events| - 1]);
      assert |events| * |callbacks| == (|events| - 1) * |callbacks| + |callbacks|;
    }
  }

  /** `k < n` and `i < m` place `k * m + i` inside an `n` by `m` grid. */
  lemma {:induction false} MulBound(k: nat, n: nat, m: nat, i: nat)
    requires k < n && i < m
    ensures k * m + i < n * m
  {
    assert (k + 1) * m <= n * m;
  }
}
