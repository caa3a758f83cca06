/** The order and the pace of a backtest replay. */
module Replay {
  import opened Sorting

  /** A stored snapshot; times are nanoseconds. */
  datatype Snapshot = Snapshot(ts: int, subject: string, id: nat)

  const LONGEST_SLEEP: real := 250_000_000.0
  const SLOWEST: real := 0.01

  function Flatten(lists: seq<seq<Snapshot>>): seq<Snapshot> {
    if lists == [] then [] else lists[0] + Flatten(lists[1..])
  }

  function Time(s: Snapshot): int { s.ts }

  function SortByTime(s: seq<Snapshot>): seq<Snapshot> { Sort(s, Time) }

  ghost predicate InTimeOrder(s: seq<Snapshot>) {
    forall i, j :: 0 <= i < j < |s| ==> s[i].ts <= s[j].ts
  }

  /** The snapshots of one instant, in their order. */
  function AtTime(s: seq<Snapshot>, ts: int): seq<Snapshot> { AtKey(s, Time, ts) }

  /** Sorting is a stable permutation: in time order, nothing lost, ties left as they were. */
  lemma SortIsStable(s: seq<Snapshot>, ts: int)
    ensures InTimeOrder(SortByTime(s)) && |SortByTime(s)| == |s|
    ensures multiset(SortByTime(s)) == multiset(s)
    ensures AtTime(SortByTime(s), ts) == AtTime(s, ts)
  {
    SortOrders(s, Time);
    SortPermutes(s, Time);
    SortKeepsTies(s, Time, ts);
    var sorted := SortByTime(s);
    forall i, j | 0 <= i < j < |sorted| ensures sorted[i].ts <= sorted[j].ts {
      assert Time(sorted[i]) <= Time(sorted[j]);
    }
  }

  /** The snapshots of one instant, list after list. */
  function AtTimeOfEach(lists: seq<seq<Snapshot>>, ts: int): seq<Snapshot> {
    if lists == [] then [] else AtTime(lists[0], ts) + AtTimeOfEach(lists[1..], ts)
  }

  /** Ties between symbols are broken by the order in which their lists were loaded. */
  lemma {:induction false} TiesFollowLists(lists: seq<seq<Snapshot>>, ts: int)
    ensures AtTime(SortByTime(Flatten(lists)), ts) == AtTimeOfEach(lists, ts)
  {
    SortIsStable(Flatten(lists), ts);
    if lists != [] {
      AtKeyAppend(lists[0], Flatten(lists[1..]), Time, ts);
      SortIsStable(Flatten(lists[1..]), ts);
      TiesFollowLists(lists[1..], ts);
    }
  }

  // ---- Pace -----------------------------------------------------------------

  function Speed(factor: real): real { if factor > SLOWEST then factor else SLOWEST }

  /** The pause after a gap: none for a negative one, and never longer than the cap. */
  function Pause(gap: int, factor: real): real {
    if gap < 0 then 0.0
    else
      var scaled := gap as real / Speed(factor);
      if scaled <= LONGEST_SLEEP then scaled else LONGEST_SLEEP
  }

  function TotalPause(s: seq<Snapshot>, factor: real): real {
    if |s| < 2 then 0.0
    else TotalPause(s[..|s| - 1], factor) + Pause(s[|s| - 1].ts - s[|s| - 2].ts, factor)
  }

  /** The speed a replay runs at: its factor, or one hundredth if that is larger. */
  ghost predicate IsPace(speed: real, factor: real) {
    speed >= factor && speed >= 0.01 && (speed == factor || speed == 0.01)
  }

  /** The pause after a gap is the gap divided by the pace, at most 250 ms, and none if time went back. */
  lemma PauseExactly(gap: int, factor: real, speed: real)
    requires IsPace(speed, factor)
    ensures gap < 0 ==> Pause(gap, factor) == 0.0
    ensures gap >= 0 && gap as real / speed <= 250_000_000.0 ==> Pause(gap, factor) == gap as real / speed
    ensures gap >= 0 && gap as real / speed > 250_000_000.0 ==> Pause(gap, factor) == 250_000_000.0
  {
    assert speed == Speed(factor);
  }

  lemma PauseBounds(gap: int, factor: real)
    requires gap >= 0
    ensures 0.0 <= Pause(gap, factor) <= LONGEST_SLEEP
    ensures Pause(gap, factor) <= gap as real / Speed(factor)
    ensures Pause(gap, factor) == gap as real / Speed(factor) <==> gap as real / Speed(factor) <= LONGEST_SLEEP
  {
  }

  lemma QuotientAdds(a: int, b: int, speed: real)
    requires speed > 0.0
    ensures (a + b) as real / speed == a as real / speed + b as real / speed
  {
  }

  lemma {:induction false} SleepBounded(s: seq<Snapshot>, factor: real)
    requires s != [] && InTimeOrder(s)
    ensures 0.0 <= TotalPause(s, factor)
    ensures TotalPause(s, factor) <= LONGEST_SLEEP * (|s| - 1) as real
    ensures TotalPause(s, factor) <= (s[|s| - 1].ts - s[0].ts) as real / Speed(factor)
  {
    if |s| >= 2 {
      var before := s[..|s| - 1];
      var gap := s[|s| - 1].ts - s[|s| - 2].ts;
      SleepBounded(before, factor);
      PauseBounds(gap, factor);
      QuotientAdds(s[|s| - 2].ts - s[0].ts, gap, Speed(factor));
    }
  }

  /** A replay sleeps at most 250 ms per gap, and at most its own span divided by the pace. */
  lemma ReplayBounded(s: seq<Snapshot>, factor: real, speed: real)
    requires s != [] && InTimeOrder(s) && IsPace(speed, factor)
    ensures 0.0 <= TotalPause(s, factor)
    ensures TotalPause(s, factor) <= 250_000_000.0 * (|s| - 1) as real
    ensures TotalPause(s, factor) <= (s[|s| - 1].ts - s[0].ts) as real / speed
  {
    SleepBounded(s, factor);
    assert speed == Speed(factor);
  }

  function ScaledGap(s: seq<Snapshot>, i: nat, factor: real): real
    requires 0 < i < |s|
  {
    (s[i].ts - s[i - 1].ts) as real / Speed(factor)
  }

  ghost predicate WithinCap(s: seq<Snapshot>, factor: real) {
    forall i :: 0 < i < |s| ==> ScaledGap(s, i, factor) <= LONGEST_SLEEP
  }

  lemma WithinCapPush(s: seq<Snapshot>, factor: real)
    requires |s| >= 2
    ensures WithinCap(s, factor) <==>
            WithinCap(s[..|s| - 1], factor) && ScaledGap(s, |s| - 1, factor) <= LONGEST_SLEEP
  {
    var before := s[..|s| - 1];
    forall i | 0 < i < |before| ensures ScaledGap(before, i, factor) == ScaledGap(s, i, factor) {
      assert before[i] == s[i] && before[i - 1] == s[i - 1];
    }
  }

  lemma {:induction false} SleepExactly(s: seq<Snapshot>, factor: real)
    requires s != [] && InTimeOrder(s)
    ensures TotalPause(s, factor) == (s[|s| - 1].ts - s[0].ts) as real / Speed(factor) <==> WithinCap(s, factor)
  {
    if |s| >= 2 {
      var before := s[..|s| - 1];
      var gap := s[|s| - 1].ts - s[|s| - 2].ts;
      SleepExactly(before, factor);
      SleepBounded(before, factor);
      PauseBounds(gap, factor);
      QuotientAdds(s[|s| - 2].ts - s[0].ts, gap, Speed(factor));
      WithinCapPush(s, factor);
    }
  }

  /** It keeps time exactly when no scaled gap exceeds the cap. */
  lemma KeepsTimeExactly(s: seq<Snapshot>, factor: real, speed: real)
    requires s != [] && InTimeOrder(s) && IsPace(speed, factor)
    ensures TotalPause(s, factor) == (s[|s| - 1].ts - s[0].ts) as real / speed
            <==> forall i :: 0 < i < |s| ==> (s[i].ts - s[i - 1].ts) as real / speed <= 250_000_000.0
  {
    assert speed == Speed(factor);
    SleepExactly(s, factor);
    forall i | 0 < i < |s| ensures ScaledGap(s, i, factor) == (s[i].ts - s[i - 1].ts) as real / speed {
    }
  }
}
