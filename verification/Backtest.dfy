/** The backtest engine and its metrics as objects. */
module Backtests {
  import opened Common
  import opened Trading
  import R = Replay
  import M = Metrics

  class BacktestMetrics {
    var pnl: real
    var tradeCount: nat
    var wins: nat
    var equityPeak: real
    var equity: real
    ghost var recorded: seq<Result>

    ghost function View(): M.State
      reads this
    {
      M.State(pnl, tradeCount, wins, equityPeak, equity)
    }

    ghost predicate Valid()
      reads this
    {
      View() == M.RecordAll(M.FRESH, recorded)
    }

    constructor ()
      ensures Valid() && recorded == []
    {
      pnl, tradeCount, wins, equityPeak, equity, recorded := 0.0, 0, 0, 0.0, 0.0, [];
    }

    method Record(result: Result)
      requires Valid()
      modifies this
      ensures Valid() && recorded == old(recorded) + [result]
    {
      M.RecordPush(M.FRESH, recorded, result);
      Update(result);
      recorded := recorded + [result];
    }

    method Update(result: Result)
      modifies this`pnl, this`tradeCount, this`wins, this`equityPeak, this`equity
      ensures View() == M.Record(old(View()), result)
    {
      if result.status.Filled? {
        tradeCount := tradeCount + 1;
        pnl := pnl + result.filledSizeQuote * 0.001;
        equity := equity + pnl;
        if pnl >= 0.0 {
          wins := wins + 1;
        }
        equityPeak := M.Max(equityPeak, equity);
      }
    }

    /** The metrics task: records what arrives, one result after another. */
    method RecordEach(results: seq<Result>)
      requires Valid()
      modifies this
      ensures Valid() && recorded == old(recorded) + results
    {
      for n := 0 to |results|
        invariant Valid() && recorded == old(recorded) + results[..n]
      {
        Record(results[n]);
        assert results[..n + 1] == results[..n] + [results[n]];
      }
      assert results[..|results|] == results;
    }

    /** The report of everything recorded, in closed form. */
    method ToReport() returns (r: M.Report)
      requires Valid()
      ensures r == M.ToReport(M.RecordAll(M.FRESH, recorded))
      ensures M.Reports(r, M.Sizes(recorded))
      ensures 0.0 <= r.winRate <= 1.0 && r.maxDrawdown >= 0.0
    {
      M.ReportDescribes(recorded);
      M.ReportRanges(recorded);
      var maxDrawdown := if equityPeak > 0.0 then M.Max(equityPeak - equity, 0.0) / equityPeak else 0.0;
      var winRate := if tradeCount > 0 then wins as real / tradeCount as real else 0.0;
      r := M.Report(pnl, maxDrawdown, tradeCount, winRate);
    }
  }

  /** What an observer of the engine's status reads after one snapshot. */
  datatype Reading = Reading(running: bool, progress: real, currentTs: int)

  class BacktestEngine {
    const speedFactor: real
    var running: bool
    var progress: real
    var currentTs: Option<int>
    var result: Option<M.Report>

    constructor (speedFactor: real)
      ensures this.speedFactor == speedFactor && !running && progress == 0.0 && currentTs.None? && result.None?
    {
      this.speedFactor := speedFactor;
      running, progress, currentTs, result := false, 0.0, None, None;
    }

    /** Appends the loaded lists one by one. */
    static method Gather(lists: seq<seq<R.Snapshot>>) returns (all: seq<R.Snapshot>)
      ensures all == R.Flatten(lists)
    {
      all := [];
      for n := 0 to |lists|
        invariant all + R.Flatten(lists[n..]) == R.Flatten(lists)
      {
        assert lists[n..][1..] == lists[n + 1..];
        all := all + lists[n];
      }
      assert lists[|lists|..] == [];
    }

    /** One pass of the loop: the status an observer then reads, what the metrics task hears meanwhile, and the
        pause. */
    method ShowSnapshot(idx: nat, total: nat, ts: int, lastTs: Option<int>, metrics: BacktestMetrics,
                        results: seq<Result>)
      returns (reading: Reading, pause: real)
      requires total > 0 && metrics.Valid()
      modifies this`running, this`progress, this`currentTs, metrics
      ensures reading == Reading(true, Share(idx, total), ts) == Reading(running, progress, ts) && currentTs == Some(ts)
      ensures pause == if lastTs.Some? then R.Pause(ts - lastTs.value, speedFactor) else 0.0
      ensures metrics.Valid() && metrics.recorded == old(metrics.recorded) + results
    {
      running, progress, currentTs := true, Share(idx, total), Some(ts);
      reading := Reading(running, progress, ts);
      metrics.RecordEach(results);
      pause := 0.0;
      if lastTs.Some? {
        pause := R.Pause(ts - lastTs.value, speedFactor);
      }
    }

    /** Publishes snapshots in the order given, and sleeps between them; meanwhile the metrics task records what it
        hears, `heard(i)` while snapshot `i` is out. */
    method Publish(snaps: seq<R.Snapshot>, metrics: BacktestMetrics, heard: nat -> seq<Result>)
      returns (readings: seq<Reading>, slept: real)
      requires metrics.Valid()
      modifies this`running, this`progress, this`currentTs, metrics
      ensures readings == ReadingsOf(snaps) && slept == R.TotalPause(snaps, speedFactor)
      ensures currentTs == if snaps == [] then old(currentTs) else Some(snaps[|snaps| - 1].ts)
      ensures metrics.Valid() && metrics.recorded == old(metrics.recorded) + HeardBy(heard, |snaps|)
    {
      var total := if |snaps| > 1 then |snaps| else 1;
      readings, slept := [], 0.0;
      var lastTs: Option<int> := None;
      for idx := 0 to |snaps|
        invariant readings == ReadingsOf(snaps)[..idx]
        invariant lastTs == (if idx == 0 then None else Some(snaps[idx - 1].ts))
        invariant currentTs == if idx == 0 then old(currentTs) else lastTs
        invariant slept == SleptBy(snaps, idx, speedFactor)
        invariant metrics.Valid() && metrics.recorded == old(metrics.recorded) + HeardBy(heard, idx)
      {
        var ts := snaps[idx].ts;
        var reading, pause := ShowSnapshot(idx, total, ts, lastTs, metrics, heard(idx));
        HeardLast(heard, idx, old(metrics.recorded));
        ReadingsPush(snaps, idx);
        readings, slept, lastTs := readings + [reading], slept + pause, Some(ts);
      }
      SleptIsTotal(snaps, |snaps|, speedFactor);
      assert snaps[..|snaps|] == snaps;
    }

    /** Ends the replay with the report of what is recorded by now. */
    method Conclude(metrics: BacktestMetrics)
      requires metrics.Valid()
      modifies this`running, this`progress, this`result
      ensures !running && progress == 1.0
      ensures result == Some(M.ToReport(M.RecordAll(M.FRESH, metrics.recorded)))
    {
      var report := metrics.ToReport();
      running, progress, result := false, 1.0, Some(report);
    }

    /** Replays the loaded lists: what it published, the status after each snapshot, and the time it slept. The
        report covers what the metrics task heard in time: before the loop, in its course, or just after it. */
    method Run(lists: seq<seq<R.Snapshot>>, metrics: BacktestMetrics, heard: nat -> seq<Result>)
      returns (published: seq<R.Snapshot>, readings: seq<Reading>, slept: real)
      requires metrics.Valid()
      modifies this, metrics
      ensures published == R.SortByTime(R.Flatten(lists))
      ensures readings == ReadingsOf(published) && slept == R.TotalPause(published, speedFactor)
      ensures !running && progress == 1.0
      ensures metrics.recorded == old(metrics.recorded) + HeardBy(heard, |published| + 1)
      ensures result == Some(M.ToReport(M.RecordAll(M.FRESH, metrics.recorded)))
      ensures currentTs == if published == [] then old(currentTs) else Some(published[|published| - 1].ts)
    {
      var all := Gather(lists);
      published := R.SortByTime(all);
      readings, slept := Publish(published, metrics, heard);
      metrics.RecordEach(heard(|published|));
      HeardLast(heard, |published|, old(metrics.recorded));
      Conclude(metrics);
    }
  }

  /** The pauses of the first `idx` passes. */
  function SleptBy(snaps: seq<R.Snapshot>, idx: nat, factor: real): real
    requires idx <= |snaps|
  {
    if idx <= 1 then 0.0
    else SleptBy(snaps, idx - 1, factor) + R.Pause(snaps[idx - 1].ts - snaps[idx - 2].ts, factor)
  }

  lemma {:induction false} SleptIsTotal(snaps: seq<R.Snapshot>, idx: nat, factor: real)
    requires idx <= |snaps|
    ensures SleptBy(snaps, idx, factor) == R.TotalPause(snaps[..idx], factor)
  {
    if idx > 1 {
      SleptIsTotal(snaps, idx - 1, factor);
      assert snaps[..idx][..idx - 1] == snaps[..idx - 1];
    }
  }

  /** Everything the metrics task hears up to a point of the replay. */
  function HeardBy(heard: nat -> seq<Result>, idx: nat): seq<Result> {
    if idx == 0 then [] else HeardBy(heard, idx - 1) + heard(idx - 1)
  }

  lemma HeardLast(heard: nat -> seq<Result>, idx: nat, before: seq<Result>)
    ensures before + HeardBy(heard, idx) + heard(idx) == before + HeardBy(heard, idx + 1)
  {
    Regroup(before, HeardBy(heard, idx), heard(idx));
  }

  /** Progress once snapshot `idx` of `total` is out. */
  function Share(idx: nat, total: nat): real
    requires total > 0
  {
    (idx + 1) as real / total as real
  }

  function ReadingsOf(snaps: seq<R.Snapshot>): seq<Reading> {
    seq(|snaps|, i requires 0 <= i < |snaps| => Reading(true, Share(i, |snaps|), snaps[i].ts))
  }

  lemma ReadingsPush(snaps: seq<R.Snapshot>, idx: nat)
    requires idx < |snaps|
    ensures ReadingsOf(snaps)[..idx + 1]
            == ReadingsOf(snaps)[..idx] + [Reading(true, Share(idx, |snaps|), snaps[idx].ts)]
  {
  }

  lemma SharesRise(i: nat, j: nat, total: nat)
    requires i < j < total
    ensures 0.0 < Share(i, total) < Share(j, total) <= 1.0
    ensures Share(j, total) == 1.0 <==> j == total - 1
  {
  }

  lemma ShareOfAll(idx: nat, total: nat)
    requires total > 0
    ensures M.IsQuotient(Share(idx, total), (idx + 1) as real, total as real)
  {
    M.QuotientTimes((idx + 1) as real, total as real);
  }

  /** The progress read is the share of the snapshots published so far. */
  lemma ProgressIsShare(snaps: seq<R.Snapshot>, j: nat)
    requires j < |snaps|
    ensures |ReadingsOf(snaps)| == |snaps| && ReadingsOf(snaps)[j].running
    ensures M.IsQuotient(ReadingsOf(snaps)[j].progress, (j + 1) as real, |snaps| as real)
  {
    ShareOfAll(j, |snaps|);
  }

  /** During a replay the time read never goes back, and progress rises strictly, to 1 exactly at the last snapshot. */
  lemma ReadingsRise(lists: seq<seq<R.Snapshot>>, i: nat, j: nat)
    requires i < j < |R.SortByTime(R.Flatten(lists))|
    ensures var readings := ReadingsOf(R.SortByTime(R.Flatten(lists)));
            && readings[i].currentTs <= readings[j].currentTs
            && 0.0 < readings[i].progress < readings[j].progress <= 1.0
            && (readings[j].progress == 1.0 <==> j == |readings| - 1)
  {
    R.SortIsStable(R.Flatten(lists), 0);
    SharesRise(i, j, |R.SortByTime(R.Flatten(lists))|);
  }
}
