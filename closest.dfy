/**
 * Nearest-time lookup over a track sorted ascending by time: a binary search
 * for the query time, then a choice between the two neighbours of the
 * insertion point, the earlier one winning a tie.
 */
module Closest {
  import opened Wrappers
  import opened Typings

  /** `Math.abs(a - b)` on millisecond timestamps. */
  function Dist(a: int, b: int): nat {
    if a <= b then b - a else a - b
  }

  /** The order the loader establishes by sorting on `time`. */
  ghost predicate SortedByTime(track: seq<LocationData>) {
    forall i, j :: 0 <= i < j < |track| ==> track[i].time <= track[j].time
  }

  /**
   * `x` is a sample of `track` at the least distance from `t`, and no sample
   * at that same distance is earlier than it.
   */
  ghost predicate IsEarliestNearest(track: seq<LocationData>, t: int, x: LocationData) {
    && x in track
    && (forall e :: e in track ==> Dist(x.time, t) <= Dist(e.time, t))
    && (forall e :: e in track && Dist(e.time, t) == Dist(x.time, t) ==> x.time <= e.time)
  }

  /** `a` is at least as good a match for `t` as `b`: strictly closer, or as close and not later. */
  predicate NoWorse(a: LocationData, b: LocationData, t: int) {
    Dist(a.time, t) < Dist(b.time, t) || (Dist(a.time, t) == Dist(b.time, t) && a.time <= b.time)
  }

  /** A reference definition by linear scan, independent of the order of the track. */
  function ScanNearest(track: seq<LocationData>, t: int): (r: Option<LocationData>)
    ensures r.None? <==> |track| == 0
    ensures r.Some? ==> IsEarliestNearest(track, t, r.value)
  {
    if |track| == 0 then None
    else
      var rest := ScanNearest(track[1..], t);
      assert forall e :: e in track ==> e == track[0] || e in track[1..];
      if rest.None? || NoWorse(track[0], rest.value, t) then Some(track[0]) else rest
  }

  /** Only one time can be the earliest nearest one. */
  lemma {:induction false} EarliestNearestTimeUnique(track: seq<LocationData>, t: int, x: LocationData, y: LocationData)
    requires IsEarliestNearest(track, t, x) && IsEarliestNearest(track, t, y)
    ensures x.time == y.time
  {
  }

  /**
   * When every sample before index `k` is earlier than `t` and every sample
   * from `k` on is later, the neighbour chosen by `beforeDiff <= afterDiff`
   * is the earliest nearest sample.
   */
  lemma {:induction false} BracketChoiceIsEarliestNearest(track: seq<LocationData>, t: int, k: int)
    requires SortedByTime(track)
    requires 0 <= k <= |track| && |track| > 0
    requires forall i :: 0 <= i < k ==> track[i].time < t
    requires forall i :: k <= i < |track| ==> track[i].time > t
    ensures k == 0 ==> IsEarliestNearest(track, t, track[k])
    ensures k == |track| ==> IsEarliestNearest(track, t, track[k - 1])
    ensures 0 < k < |track| && Dist(track[k - 1].time, t) <= Dist(track[k].time, t) ==>
              IsEarliestNearest(track, t, track[k - 1])
    ensures 0 < k < |track| && Dist(track[k - 1].time, t) > Dist(track[k].time, t) ==>
              IsEarliestNearest(track, t, track[k])
  {
    forall e | e in track
      ensures e.time < t ==> k > 0 && e.time <= track[k - 1].time
      ensures e.time >= t ==> k < |track| && e.time >= track[k].time
    {
      var i :| 0 <= i < |track| && track[i] == e;
      if i < k {
        assert track[i].time <= track[k - 1].time;
      } else {
        assert track[k].time <= track[i].time;
      }
    }
  }

  /**
   * The search of `getClosetLocation`. `None` stands for a neighbour index out
   * of range and for an infinite distance.
   */
  method ClosestLocation(track: seq<LocationData>, time: int) returns (r: Option<LocationData>)
    requires SortedByTime(track)
    ensures r.None? <==> |track| == 0
    ensures r.Some? ==> IsEarliestNearest(track, time, r.value)
    ensures (exists i :: 0 <= i < |track| && track[i].time == time) ==> r.Some? && r.value.time == time
    ensures r.Some? ==> r.value.time == ScanNearest(track, time).value.time
  {
    var left, right := 0, |track| - 1;
    while left <= right
      invariant 0 <= left <= right + 1 <= |track|
      invariant forall i :: 0 <= i < left ==> track[i].time < time
      invariant forall i :: right < i < |track| ==> track[i].time > time
    {
      var mid := (left + right) / 2;
      if track[mid].time == time {
        r := Some(track[mid]);
        EarliestNearestTimeUnique(track, time, r.value, ScanNearest(track, time).value);
        return;
      } else if track[mid].time < time {
        left := mid + 1;
      } else {
        right := mid - 1;
      }
    }
    var before := if right >= 0 then Some(track[right]) else None;
    var after := if left < |track| then Some(track[left]) else None;
    if before.None? && after.None? {
      return None;
    }
    var beforeDiff := if before.Some? then Some(Dist(before.value.time, time)) else None;
    var afterDiff := if after.Some? then Some(Dist(after.value.time, time)) else None;
    r := if AtMost(beforeDiff, afterDiff) then before else after;
    BracketChoiceIsEarliestNearest(track, time, left);
    EarliestNearestTimeUnique(track, time, r.value, ScanNearest(track, time).value);
  }

  /** `a <= b` where `None` is `Infinity`. */
  predicate AtMost(a: Option<nat>, b: Option<nat>) {
    b.None? || (a.Some? && a.value <= b.value)
  }
}
