/** The three-stage latency join as a function of the event history, and the offline segmentation it must match. */
module Latency {
  import opened Common

  datatype Event = Event(ts: int, message: string, traceId: Option<string>, stage: Option<string>)

  datatype Stage = Tick | Decision | OrderResult

  function Known(stage: string): Option<Stage> {
    if stage == "tick" then Some(Tick)
    else if stage == "strategy_decision" then Some(Decision)
    else if stage == "order_result" then Some(OrderResult)
    else None
  }

  /** What is known of a trace so far. */
  datatype Partial = Partial(start: Option<int>, decision: Option<int>, result: Option<int>) {
    predicate Complete() { start.Some? && decision.Some? && result.Some? }

    function With(stage: Option<Stage>, ts: int): Partial {
      match stage
      case Some(Tick) => this.(start := Some(ts))
      case Some(Decision) => this.(decision := Some(ts))
      case Some(OrderResult) => this.(result := Some(ts))
      case None => this
    }
  }

  const NOTHING: Partial := Partial(None, None, None)

  datatype Record = Record(traceId: string, tsStartTick: int, tsDecision: int, tsOrderResult: int,
                           tickToStrategyMs: int, strategyToExecMs: int, tickToResultMs: int)

  /** Nanoseconds to whole milliseconds, toward zero. */
  function Millis(ns: int): int {
    if ns >= 0 then ns / 1_000_000 else -(-ns / 1_000_000)
  }

  function RecordOf(traceId: string, p: Partial): Record
    requires p.Complete()
  {
    var start, decision, result := p.start.value, p.decision.value, p.result.value;
    Record(traceId, start, decision, result,
           Millis(decision - start), Millis(result - decision), Millis(result - start))
  }

  type Table = map<string, Partial>

  function Entry(table: Table, traceId: string): Partial {
    if traceId in table then table[traceId] else NOTHING
  }

  /** One event against the table of partial traces: the table after it, and the record it completes, if any. */
  function Join(table: Table, e: Event): (Table, seq<Record>) {
    if e.traceId.None? || e.stage.None? then (table, [])
    else
      var traceId := e.traceId.value;
      var p := Entry(table, traceId).With(Known(e.stage.value), e.ts);
      if p.Complete() then (table - {traceId}, [RecordOf(traceId, p)]) else (table[traceId := p], [])
  }

  function TableAfter(es: seq<Event>): Table {
    if es == [] then map[] else Join(TableAfter(es[..|es| - 1]), es[|es| - 1]).0
  }

  function Emitted(es: seq<Event>): seq<Record> {
    if es == [] then []
    else Emitted(es[..|es| - 1]) + Join(TableAfter(es[..|es| - 1]), es[|es| - 1]).1
  }

  // ---- The offline reading --------------------------------------------------

  predicate IsStage(e: Event, traceId: string, stage: Stage) {
    e.traceId == Some(traceId) && e.stage.Some? && Known(e.stage.value) == Some(stage)
  }

  /** The time of the most recent event of one stage of one trace. */
  function Latest(es: seq<Event>, traceId: string, stage: Stage): Option<int> {
    if es == [] then None
    else if IsStage(es[|es| - 1], traceId, stage) then Some(es[|es| - 1].ts)
    else Latest(es[..|es| - 1], traceId, stage)
  }

  function Gathered(es: seq<Event>, traceId: string): Partial {
    Partial(Latest(es, traceId, Tick), Latest(es, traceId, Decision), Latest(es, traceId, OrderResult))
  }

  /** Where the current segment of a trace begins: just after the last event that completed one. */
  function Boundary(es: seq<Event>, traceId: string): (b: nat)
    ensures b <= |es|
  {
    if es == [] then 0
    else
      var before := Boundary(es[..|es| - 1], traceId);
      if Gathered(es[before..], traceId).Complete() then |es| else before
  }

  function Segment(es: seq<Event>, traceId: string): seq<Event> {
    es[Boundary(es, traceId)..]
  }

  /** Events of a trace's segment if the one at hand is included and has not closed it yet. */
  function OpenSegment(es: seq<Event>, traceId: string): seq<Event>
    requires es != []
  {
    es[Boundary(es[..|es| - 1], traceId)..]
  }

  lemma GatherOne(es: seq<Event>, e: Event, traceId: string)
    ensures Gathered(es + [e], traceId)
            == Told(Gathered(es, traceId), e, traceId)
  {
    assert (es + [e])[..|es|] == es;
  }

  /** What one event makes known of a trace. */
  function Told(p: Partial, e: Event, traceId: string): Partial {
    if e.traceId == Some(traceId) && e.stage.Some? then p.With(Known(e.stage.value), e.ts) else p
  }

  lemma JoinEntry(table: Table, e: Event, traceId: string)
    requires !Entry(table, traceId).Complete()
    ensures var p := Told(Entry(table, traceId), e, traceId);
            && Entry(Join(table, e).0, traceId) == (if p.Complete() then NOTHING else p)
            && (p.Complete() ==> Join(table, e).1 == [RecordOf(traceId, p)])
            && (!p.Complete() && e.traceId == Some(traceId) ==> Join(table, e).1 == [])
  {
  }

  lemma SegmentGrows(es: seq<Event>, e: Event, traceId: string)
    requires !Gathered(Segment(es, traceId), traceId).Complete()
    ensures var p := Told(Gathered(Segment(es, traceId), traceId), e, traceId);
            && Gathered(OpenSegment(es + [e], traceId), traceId) == p
            && Gathered(Segment(es + [e], traceId), traceId) == (if p.Complete() then NOTHING else p)
  {
    var all := es + [e];
    assert all[..|all| - 1] == es;
    var b := Boundary(es, traceId);
    assert all[b..] == es[b..] + [e];
    GatherOne(es[b..], e, traceId);
    assert all[|all|..] == [];
  }

  /** After any events, the table holds of each trace exactly what its open segment holds, never all three stages. */
  lemma {:induction false} TableIsOpenSegments(es: seq<Event>, traceId: string)
    ensures Entry(TableAfter(es), traceId) == Gathered(Segment(es, traceId), traceId)
    ensures !Entry(TableAfter(es), traceId).Complete()
  {
    if es != [] {
      var before, e := es[..|es| - 1], es[|es| - 1];
      TableIsOpenSegments(before, traceId);
      JoinEntry(TableAfter(before), e, traceId);
      SegmentGrows(before, e, traceId);
      assert es == before + [e];
    }
  }

  /** An event emits a record exactly when it completes the open segment of its trace, and the record carries the
      latest time of each stage since that trace's previous emission. */
  lemma EmitsExactlySegments(es: seq<Event>)
    requires es != []
    ensures var e := es[|es| - 1];
            var emitted := Join(TableAfter(es[..|es| - 1]), e).1;
            if e.traceId.Some? && Gathered(OpenSegment(es, e.traceId.value), e.traceId.value).Complete()
            then emitted == [RecordOf(e.traceId.value, Gathered(OpenSegment(es, e.traceId.value), e.traceId.value))]
            else emitted == []
  {
    var before, e := es[..|es| - 1], es[|es| - 1];
    assert es == before + [e];
    if e.traceId.Some? {
      var traceId := e.traceId.value;
      TableIsOpenSegments(before, traceId);
      SegmentGrows(before, e, traceId);
      JoinEntry(TableAfter(before), e, traceId);
    }
  }

  /** The events of a trace that carry a stage, whichever, since its previous emission. */
  ghost predicate Mentioned(es: seq<Event>, traceId: string) {
    exists e :: e in es && e.traceId == Some(traceId) && e.stage.Some?
  }

  lemma MentionedPush(es: seq<Event>, e: Event, traceId: string)
    ensures Mentioned(es + [e], traceId) <==> Mentioned(es, traceId) || (e.traceId == Some(traceId) && e.stage.Some?)
  {
    if Mentioned(es, traceId) {
      var old_ :| old_ in es && old_.traceId == Some(traceId) && old_.stage.Some?;
      assert old_ in es + [e];
    }
    assert e in es + [e];
  }

  lemma JoinKeys(table: Table, e: Event, traceId: string)
    ensures traceId in Join(table, e).0 <==>
            if e.traceId == Some(traceId) && e.stage.Some? then !Told(Entry(table, traceId), e, traceId).Complete()
            else traceId in table
  {
  }

  lemma MentionGrows(es: seq<Event>, e: Event, traceId: string)
    requires !Gathered(Segment(es, traceId), traceId).Complete()
    ensures Mentioned(Segment(es + [e], traceId), traceId) <==>
            && !Told(Gathered(Segment(es, traceId), traceId), e, traceId).Complete()
            && (Mentioned(Segment(es, traceId), traceId) || (e.traceId == Some(traceId) && e.stage.Some?))
  {
    var all, b := es + [e], Boundary(es, traceId);
    SegmentGrows(es, e, traceId);
    assert all[..|all| - 1] == es && all[b..] == es[b..] + [e] && all[|all|..] == [];
    MentionedPush(es[b..], e, traceId);
  }

  /** The table has an entry for exactly the traces mentioned in their open segment, unknown stages included. */
  lemma {:induction false} TableHolds(es: seq<Event>, traceId: string)
    ensures traceId in TableAfter(es) <==> Mentioned(Segment(es, traceId), traceId)
  {
    if es != [] {
      var before, e := es[..|es| - 1], es[|es| - 1];
      TableHolds(before, traceId);
      TableIsOpenSegments(before, traceId);
      MentionGrows(before, e, traceId);
      JoinKeys(TableAfter(before), e, traceId);
      assert es == before + [e];
    }
  }

  // ---- The same by the names of the stages ----------------------------------

  /** `ms` is the whole milliseconds of `ns`, never further from zero than it. */
  predicate Truncated(ms: int, ns: int) {
    if ns >= 0 then 0 <= ns - ms * 1_000_000 < 1_000_000 else -1_000_000 < ns - ms * 1_000_000 <= 0
  }

  /** The time of the most recent event of a trace under this stage name. */
  function LatestNamed(es: seq<Event>, traceId: string, name: string): Option<int> {
    if es == [] then None
    else
      var last := es[|es| - 1];
      if last.traceId == Some(traceId) && last.stage == Some(name) then Some(last.ts)
      else LatestNamed(es[..|es| - 1], traceId, name)
  }

  lemma {:induction false} LatestByName(es: seq<Event>, traceId: string)
    ensures Gathered(es, traceId)
            == Partial(LatestNamed(es, traceId, "tick"), LatestNamed(es, traceId, "strategy_decision"),
                       LatestNamed(es, traceId, "order_result"))
  {
    if es != [] { LatestByName(es[..|es| - 1], traceId); }
  }

  /** The event at `n` made the service emit a record of this trace. */
  ghost predicate EmitsAt(es: seq<Event>, n: nat, traceId: string) {
    n < |es| && exists r :: r in Join(TableAfter(es[..n]), es[n]).1 && r.traceId == traceId
  }

  /** `b` is just after the last such event, or at the beginning if there was none. */
  ghost predicate JustAfterEmission(es: seq<Event>, traceId: string, b: nat) {
    && b <= |es|
    && (b > 0 ==> EmitsAt(es, b - 1, traceId))
    && forall n :: b <= n < |es| ==> !EmitsAt(es, n, traceId)
  }

  lemma EmitsOwnTrace(es: seq<Event>, traceId: string)
    requires es != []
    ensures EmitsAt(es, |es| - 1, traceId) <==> Gathered(OpenSegment(es, traceId), traceId).Complete()
  {
    var before, e := es[..|es| - 1], es[|es| - 1];
    var emitted := Join(TableAfter(before), e).1;
    TableIsOpenSegments(before, traceId);
    JoinEntry(TableAfter(before), e, traceId);
    SegmentGrows(before, e, traceId);
    assert es == before + [e];
    if emitted != [] { assert emitted[0] in emitted; }
  }

  lemma EmittedEarlier(es: seq<Event>, n: nat, traceId: string)
    requires n < |es| - 1
    ensures EmitsAt(es, n, traceId) <==> EmitsAt(es[..|es| - 1], n, traceId)
  {
    assert es[..|es| - 1][..n] == es[..n];
  }

  lemma BoundaryMoves(es: seq<Event>, traceId: string)
    requires es != []
    ensures Boundary(es, traceId)
            == if EmitsAt(es, |es| - 1, traceId) then |es| else Boundary(es[..|es| - 1], traceId)
  {
    EmitsOwnTrace(es, traceId);
  }

  lemma AfterEmissionStep(es: seq<Event>, traceId: string, b: nat)
    requires es != [] && JustAfterEmission(es[..|es| - 1], traceId, b)
    ensures JustAfterEmission(es, traceId, if EmitsAt(es, |es| - 1, traceId) then |es| else b)
  {
    if !EmitsAt(es, |es| - 1, traceId) {
      if b > 0 { EmittedEarlier(es, b - 1, traceId); }
      forall n | b <= n < |es| ensures !EmitsAt(es, n, traceId) {
        if n < |es| - 1 { EmittedEarlier(es, n, traceId); }
      }
    }
  }

  lemma {:induction false} BoundaryIsAfterEmission(es: seq<Event>, traceId: string)
    ensures JustAfterEmission(es, traceId, Boundary(es, traceId))
  {
    if es != [] {
      BoundaryIsAfterEmission(es[..|es| - 1], traceId);
      AfterEmissionStep(es, traceId, Boundary(es[..|es| - 1], traceId));
      BoundaryMoves(es, traceId);
    }
  }

  lemma BoundaryUnique(es: seq<Event>, traceId: string, b: nat)
    requires JustAfterEmission(es, traceId, b)
    ensures b == Boundary(es, traceId)
  {
    BoundaryIsAfterEmission(es, traceId);
    NoneLater(es, traceId, b, Boundary(es, traceId));
    NoneLater(es, traceId, Boundary(es, traceId), b);
  }

  lemma NoneLater(es: seq<Event>, traceId: string, b: nat, c: nat)
    requires JustAfterEmission(es, traceId, b) && JustAfterEmission(es, traceId, c)
    ensures c <= b
  {
    assert c > 0 ==> EmitsAt(es, c - 1, traceId);
  }

  /** A record's stamps and its three figures. */
  ghost predicate Stamped(r: Record, traceId: string, tick: int, decision: int, result: int) {
    && r.traceId == traceId
    && r.tsStartTick == tick && r.tsDecision == decision && r.tsOrderResult == result
    && Truncated(r.tickToStrategyMs, decision - tick)
    && Truncated(r.strategyToExecMs, result - decision)
    && Truncated(r.tickToResultMs, result - tick)
  }

  /** An event of a trace emits exactly when, since that trace's previous emission and with itself included, there was
      a "tick", a "strategy_decision" and an "order_result"; the record's stamps are the latest times of the three. */
  lemma StampsExactly(es: seq<Event>, traceId: string, b: nat)
    requires es != [] && es[|es| - 1].traceId == Some(traceId)
    requires JustAfterEmission(es[..|es| - 1], traceId, b)
    ensures var emitted := Join(TableAfter(es[..|es| - 1]), es[|es| - 1]).1;
            var tick := LatestNamed(es[b..], traceId, "tick");
            var decision := LatestNamed(es[b..], traceId, "strategy_decision");
            var result := LatestNamed(es[b..], traceId, "order_result");
            if tick.Some? && decision.Some? && result.Some?
            then |emitted| == 1 && Stamped(emitted[0], traceId, tick.value, decision.value, result.value)
            else emitted == []
  {
    BoundaryUnique(es[..|es| - 1], traceId, b);
    EmitsExactlySegments(es);
    LatestByName(es[b..], traceId);
    assert es[b..] == OpenSegment(es, traceId);
    var open := Gathered(es[b..], traceId);
    if open.Complete() { PartsNearTotal(traceId, open); }
  }

  function StageCount(es: seq<Event>, traceId: string, stage: Stage): nat {
    if es == [] then 0
    else StageCount(es[..|es| - 1], traceId, stage) + (if IsStage(es[|es| - 1], traceId, stage) then 1 else 0)
  }

  function EmissionCount(records: seq<Record>, traceId: string): nat {
    if records == [] then 0
    else EmissionCount(records[..|records| - 1], traceId)
         + (if records[|records| - 1].traceId == traceId then 1 else 0)
  }

  function Held(p: Partial, stage: Stage): nat {
    match stage
    case Tick => if p.start.Some? then 1 else 0
    case Decision => if p.decision.Some? then 1 else 0
    case OrderResult => if p.result.Some? then 1 else 0
  }

  /** One event adds at least as much to the count of a stage as to the emissions and the entry of its trace. */
  lemma JoinPays(table: Table, e: Event, traceId: string, stage: Stage)
    requires !Entry(table, traceId).Complete()
    ensures EmissionCount(Join(table, e).1, traceId) + Held(Entry(Join(table, e).0, traceId), stage)
            <= Held(Entry(table, traceId), stage) + (if IsStage(e, traceId, stage) then 1 else 0)
  {
    JoinEntry(table, e, traceId);
    if e.traceId.Some? && e.traceId.value != traceId {
      assert EmissionCount(Join(table, e).1, traceId) == 0;
    }
  }

  lemma {:induction false} EmissionsAdd(a: seq<Record>, b: seq<Record>, traceId: string)
    ensures EmissionCount(a + b, traceId) == EmissionCount(a, traceId) + EmissionCount(b, traceId)
  {
    if b == [] {
      assert a + b == a;
    } else {
      assert (a + b)[..|a + b| - 1] == a + b[..|b| - 1];
      EmissionsAdd(a, b[..|b| - 1], traceId);
    }
  }

  /** Every emission of a trace, and the one under way, has its own event of each stage. */
  lemma {:induction false} EmissionsNeedStages(es: seq<Event>, traceId: string, stage: Stage)
    ensures EmissionCount(Emitted(es), traceId) + Held(Entry(TableAfter(es), traceId), stage)
            <= StageCount(es, traceId, stage)
  {
    if es != [] {
      var before, e := es[..|es| - 1], es[|es| - 1];
      EmissionsNeedStages(before, traceId, stage);
      TableIsOpenSegments(before, traceId);
      JoinPays(TableAfter(before), e, traceId, stage);
      EmissionsAdd(Emitted(before), Join(TableAfter(before), e).1, traceId);
    }
  }

  /** Each figure of a record is its own interval cut to whole milliseconds, so that the two partial figures add up
      to the total within one millisecond, whatever the order of the stages. */
  lemma PartsNearTotal(traceId: string, p: Partial)
    requires p.Complete()
    ensures var r := RecordOf(traceId, p);
            && r.traceId == traceId
            && Truncated(r.tickToStrategyMs, p.decision.value - p.start.value)
            && Truncated(r.strategyToExecMs, p.result.value - p.decision.value)
            && Truncated(r.tickToResultMs, p.result.value - p.start.value)
            && -1 <= r.tickToStrategyMs + r.strategyToExecMs - r.tickToResultMs <= 1
  {
  }
}
