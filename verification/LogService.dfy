/** The log service: recent events, partial traces and latency records, trimmed and updated in place. */
module LogServices {
  import opened Common
  import opened Latency
  import opened Percentiles

  const KEPT_EVENTS: nat := 1000
  const KEPT_RECORDS: nat := 2000

  /** The last `n` entries, or all of them. */
  function LastOf<T>(s: seq<T>, n: nat): seq<T> {
    if |s| > n then s[|s| - n..] else s
  }

  /** `end` is the last `n` entries of `s` in their order, or all of them if there are no more. */
  ghost predicate IsEndOf<T>(end: seq<T>, s: seq<T>, n: nat) {
    && |end| <= |s| && (|s| <= n ==> |end| == |s|) && (|s| > n ==> |end| == n)
    && forall i :: 0 <= i < |end| ==> end[i] == s[|s| - |end| + i]
  }

  lemma EndIsLast<T>(s: seq<T>, n: nat)
    ensures IsEndOf(LastOf(s, n), s, n)
  {
  }

  lemma EndOfEnd<T>(s: seq<T>, limit: nat)
    ensures IsEndOf(LastOf(LastOf(s, KEPT_EVENTS), limit), s, if limit < 1000 then limit else 1000)
  {
    LastOfLast(s, KEPT_EVENTS, limit);
    EndIsLast(s, if limit < KEPT_EVENTS then limit else KEPT_EVENTS);
  }

  ghost predicate AreTotals(values: seq<int>, records: seq<Record>) {
    |values| == |records| && forall i :: 0 <= i < |values| ==> values[i] == records[i].tickToResultMs
  }

  /** Trimming after every push keeps the same entries as trimming once at the end. */
  lemma TrimAsYouGo<T>(s: seq<T>, x: T, n: nat)
    ensures LastOf(LastOf(s, n) + [x], n) == LastOf(s + [x], n)
  {
  }

  lemma LastOfLast<T>(s: seq<T>, n: nat, m: nat)
    ensures LastOf(LastOf(s, n), m) == LastOf(s, if m < n then m else n)
  {
  }

  function Totals(records: seq<Record>): seq<int> {
    seq(|records|, i requires 0 <= i < |records| => records[i].tickToResultMs)
  }

  class LogService {
    var recentEvents: seq<Event>
    var latencyState: map<string, Partial>
    var latencyRecords: seq<Record>
    ghost var history: seq<Event>

    /** The three fields are what the whole history leaves: the join table, and the ends of the two full logs. */
    ghost predicate Valid()
      reads this
    {
      && recentEvents == LastOf(history, KEPT_EVENTS)
      && latencyState == TableAfter(history)
      && latencyRecords == LastOf(Emitted(history), KEPT_RECORDS)
    }

    constructor ()
      ensures Valid() && history == []
    {
      recentEvents, latencyState, latencyRecords, history := [], map[], [], [];
    }

    method RecordLatency(traceId: string, stage: string, ts: int)
      modifies this`latencyState, this`latencyRecords
      ensures var (table, emitted) := Join(old(latencyState), Event(ts, "", Some(traceId), Some(stage)));
              && latencyState == table
              && latencyRecords == if emitted == [] then old(latencyRecords)
                                   else LastOf(old(latencyRecords) + emitted, KEPT_RECORDS)
    {
      var entry := if traceId in latencyState then latencyState[traceId] else Partial(None, None, None);
      if stage == "tick" {
        entry := entry.(start := Some(ts));
      } else if stage == "strategy_decision" {
        entry := entry.(decision := Some(ts));
      } else if stage == "order_result" {
        entry := entry.(result := Some(ts));
      }
      latencyState := latencyState[traceId := entry];
      if entry.start.Some? && entry.decision.Some? && entry.result.Some? {
        var start, decision, result := entry.start.value, entry.decision.value, entry.result.value;
        var latency := Record(traceId, start, decision, result,
                              Millis(decision - start), Millis(result - decision), Millis(result - start));
        latencyState := latencyState - {traceId};
        assert latencyState == old(latencyState) - {traceId};
        latencyRecords := latencyRecords + [latency];
        if |latencyRecords| > KEPT_RECORDS {
          var excess := |latencyRecords| - KEPT_RECORDS;
          latencyRecords := latencyRecords[excess..];
        }
      }
    }

    /** Pushes the event and trims the front. */
    method Remember(event: Event)
      modifies this`recentEvents
      ensures recentEvents == LastOf(old(recentEvents) + [event], KEPT_EVENTS)
    {
      recentEvents := recentEvents + [event];
      if |recentEvents| > KEPT_EVENTS {
        var excess := |recentEvents| - KEPT_EVENTS;
        recentEvents := recentEvents[excess..];
      }
    }

    method HandleEvent(event: Event)
      requires Valid()
      modifies this
      ensures Valid() && history == old(history) + [event]
    {
      Remember(event);
      TrimAsYouGo(history, event, KEPT_EVENTS);
      if event.traceId.Some? && event.stage.Some? {
        RecordLatency(event.traceId.value, event.stage.value, event.ts);
      }
      HistoryGrows(history, event);
      history := history + [event];
    }

    /** The last min(limit, 1000) events ever handled, in order. */
    method RecentEvents(limit: nat) returns (events: seq<Event>)
      requires Valid()
      ensures IsEndOf(events, history, if limit < 1000 then limit else 1000)
    {
      var start := if |recentEvents| > limit then |recentEvents| - limit else 0;
      events := recentEvents[start..];
      assert events == LastOf(recentEvents, limit);
      EndOfEnd(history, limit);
    }

    /** Summarises the tick-to-result figures of the last 2000 records ever emitted. */
    method LatencySummary() returns (r: Summary)
      requires Valid()
      ensures exists records, values :: IsEndOf(records, Emitted(history), 2000) && AreTotals(values, records)
                                        && Summarises(r, values)
    {
      r := Summarise(Totals(latencyRecords));
      EndIsLast(Emitted(history), KEPT_RECORDS);
      assert AreTotals(Totals(latencyRecords), latencyRecords);
    }

    /** Counts the same figures by bucket. */
    method LatencyHistogram() returns (counts: seq<nat>)
      requires Valid()
      ensures exists records, values :: IsEndOf(records, Emitted(history), 2000) && AreTotals(values, records)
                                        && counts == HistogramOf(values)
    {
      counts := Histogram(Totals(latencyRecords));
      EndIsLast(Emitted(history), KEPT_RECORDS);
      assert AreTotals(Totals(latencyRecords), latencyRecords);
    }
  }

  /** One more event: what the join table, the emissions and their kept end become. */
  lemma HistoryGrows(history: seq<Event>, event: Event)
    ensures TableAfter(history + [event]) == Join(TableAfter(history), event).0
    ensures Emitted(history + [event]) == Emitted(history) + Join(TableAfter(history), event).1
    ensures var emitted := Join(TableAfter(history), event).1;
            LastOf(Emitted(history + [event]), KEPT_RECORDS)
            == if emitted == [] then LastOf(Emitted(history), KEPT_RECORDS)
               else LastOf(LastOf(Emitted(history), KEPT_RECORDS) + emitted, KEPT_RECORDS)
    ensures event.traceId.Some? && event.stage.Some? ==>
              Join(TableAfter(history), event)
              == Join(TableAfter(history), Event(event.ts, "", event.traceId, event.stage))
  {
    var all := history + [event];
    assert all[..|all| - 1] == history;
    var emitted := Join(TableAfter(history), event).1;
    if emitted == [] {
      assert Emitted(history) + emitted == Emitted(history);
    } else {
      TrimAsYouGo(Emitted(history), emitted[0], KEPT_RECORDS);
      assert emitted == [emitted[0]];
    }
  }
}
