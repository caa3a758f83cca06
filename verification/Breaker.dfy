/** What a tripped breaker stops, under every interleaving, and how a trip comes about. */
module Breaker {
  import opened Common
  import opened Trading
  import opened Ledger
  import opened Risk
  import opened Node

  ghost predicate NoReset(es: seq<Event>) { forall e :: e in es ==> !e.OperatorReset? }

  /** No reset or resume message is queued or still to be published. */
  ghost predicate Quiet(s: Sys) { s.resets == 0 && s.resumes == 0 && s.reset.Done? }

  /** The block is on its way or has arrived. */
  ghost predicate BlockComing(s: Sys) { s.blocked || s.blocks > 0 || s.trip.SendPause? || s.trip.SendBlock? }

  ghost predicate PauseComing(s: Sys) { s.paused || s.pauses > 0 || s.trip.SendPause? }

  /** From one state to the next nothing of a trip is lost, and no reset turns up. */
  ghost predicate Carries(s: Sys, t: Sys) {
    && Quiet(t)
    && (BlockComing(s) ==> BlockComing(t)) && (PauseComing(s) ==> PauseComing(t))
    && (s.blocked ==> t.blocked) && (s.paused ==> t.paused)
  }

  lemma QuietExecutor(s: Sys, e: Event)
    requires Quiet(s)
    ensures Carries(s, ExecutorStep(s, e))
  {
  }

  lemma QuietHost(s: Sys, e: Event)
    requires Quiet(s)
    ensures Carries(s, HostStep(s, e))
  {
  }

  lemma QuietRisk(s: Sys, e: Event)
    requires Quiet(s) && !e.OperatorReset?
    ensures Carries(s, RiskStep(s, e))
  {
    SuperviseFrame(s, e);
  }

  lemma QuietStep(s: Sys, e: Event)
    requires Quiet(s) && !e.OperatorReset?
    ensures Carries(s, Apply(s, e))
  {
    QuietExecutor(s, e);
    QuietHost(s, e);
    QuietRisk(s, e);
  }

  /** A trip is never lost: without a reset, block and pause are always on their way or already in force. */
  lemma {:induction false} TripArrives(s: Sys, es: seq<Event>)
    requires Quiet(s) && NoReset(es)
    ensures var t := Node.Run(s, es);
            && Quiet(t)
            && (BlockComing(s) ==> BlockComing(t)) && (PauseComing(s) ==> PauseComing(t))
            && (s.blocked ==> t.blocked) && (s.paused ==> t.paused)
    decreases |es|
  {
    if es != [] {
      QuietStep(s, es[0]);
      TripArrives(Apply(s, es[0]), es[1..]);
    }
  }

  // ---- The executor ---------------------------------------------------------

  /** One if a command is past the flag check and not yet settled. */
  function PastCheck(s: Sys): nat { if s.phase.Checked? || s.phase.Priced? then 1 else 0 }

  predicate Fills(s: Sys, e: Event) {
    e.Fill? && s.phase.Priced? && Settle(s.book, s.phase.quoted, s.phase.price).1.status.Filled?
  }

  /** The fills of a run. */
  ghost function FillCount(s: Sys, es: seq<Event>): nat
    decreases |es|
  {
    if es == [] then 0 else (if Fills(s, es[0]) then 1 else 0) + FillCount(Apply(s, es[0]), es[1..])
  }

  lemma BlockedStep(s: Sys, e: Event)
    requires s.blocked && Quiet(s) && !e.OperatorReset?
    ensures var t := Apply(s, e);
            && Finish(t).0 == Finish(s).0
            && (PastCheck(s) == 0 ==> t.book == s.book)
            && (if Fills(s, e) then 1 else 0) + PastCheck(t) <= PastCheck(s)
            && (forall k :: k in TicketOf(s, e) ==> k.blocked)
  {
    if !OfExecutor(e) {
      OutsideFrame(s, e);
      SameFinish(s, Apply(s, e));
    }
  }

  /** Once the flag is up and nothing will take it down: at most the one command past the check fills, the
      book it leaves was settled beforehand, and every command taken is rejected. */
  lemma {:induction false} Frozen(s: Sys, es: seq<Event>)
    requires s.blocked && Quiet(s) && NoReset(es)
    ensures var t := Node.Run(s, es);
            && t.blocked
            && FillCount(s, es) + PastCheck(t) <= PastCheck(s) <= 1
            && Finish(t).0 == Finish(s).0
            && (PastCheck(s) == 0 ==> t.book == s.book)
            && (PastCheck(t) == 0 ==> t.book == Finish(s).0)
            && (forall k :: k in Tickets(s, es) ==> k.blocked)
    decreases |es|
  {
    if es != [] {
      QuietStep(s, es[0]);
      BlockedStep(s, es[0]);
      Frozen(Apply(s, es[0]), es[1..]);
    }
  }

  // ---- The strategy host ----------------------------------------------------

  /** The orders one subscription publishes over a run, in order. */
  ghost function EmittedFrom(s: Sys, es: seq<Event>, h: nat): seq<Command>
    decreases |es|
  {
    if es == [] then []
    else (if es[0] == Emit(h) then EmittedBy(s, es[0]) else []) + EmittedFrom(Apply(s, es[0]), es[1..], h)
  }

  lemma PausedStep(s: Sys, e: Event, h: nat)
    requires s.paused && Quiet(s) && !e.OperatorReset?
    ensures Unsent(s, h) == (if e == Emit(h) then EmittedBy(s, e) else []) + Unsent(Apply(s, e), h)
  {
    if OfHosts(e) {
      assert Apply(s, e) == HostStep(s, e);
    } else {
      HostsAlone(s, e);
    }
  }

  lemma HostsAlone(s: Sys, e: Event)
    requires !OfHosts(e)
    ensures Apply(s, e).hosts == s.hosts
  {
    if !OfExecutor(e) { SuperviseFrame(s, e); }
  }

  /** Once paused, a subscription publishes the rest of the one snapshot it is working on, in order,
      and nothing more. */
  lemma {:induction false} Silenced(s: Sys, es: seq<Event>, h: nat)
    requires s.paused && Quiet(s) && NoReset(es)
    ensures Unsent(s, h) == EmittedFrom(s, es, h) + Unsent(Node.Run(s, es), h)
    decreases |es|
  {
    if es != [] {
      QuietStep(s, es[0]);
      var t := Apply(s, es[0]);
      PausedStep(s, es[0], h);
      Silenced(t, es[1..], h);
      Regroup(if es[0] == Emit(h) then EmittedBy(s, es[0]) else [], EmittedFrom(t, es[1..], h),
              Unsent(Node.Run(s, es), h));
    }
  }

  /** From the trip on: whatever runs between the trip and the moment its two messages are consumed, from then
      on one command at most fills, one snapshot per subscription at most is finished, and all else is rejected. */
  lemma FreezeAfterTrip(s: Sys, e: Event, es: seq<Event>, fs: seq<Event>, h: nat)
    requires Quiet(s) && !e.OperatorReset? && NoReset(es) && NoReset(fs)
    requires !s.risk.state.active && Apply(s, e).risk.state.active
    requires var t := Node.Run(Apply(s, e), es);
             (t.trip.Sent? || t.trip.SendLog?) && t.blocks == 0 && t.pauses == 0
    ensures var t := Node.Run(Apply(s, e), es);
            var end := Node.Run(t, fs);
            && t.blocked && t.paused
            && FillCount(t, fs) <= PastCheck(t) <= 1
            && (PastCheck(end) == 0 ==> end.book == Finish(t).0)
            && (PastCheck(t) == 0 ==> end.book == t.book)
            && (forall k :: k in Tickets(t, fs) ==> k.blocked)
            && EmittedFrom(t, fs, h) <= Unsent(t, h)
  {
    TripStarts(s, e);
    QuietStep(s, e);
    TripArrives(Apply(s, e), es);
    var t := Node.Run(Apply(s, e), es);
    Frozen(t, fs);
    Silenced(t, fs, h);
  }

  lemma TripStarts(s: Sys, e: Event)
    requires !s.risk.state.active && Apply(s, e).risk.state.active
    ensures Apply(s, e).trip.SendPause?
  {
    if Consumed(s, e).Some? {
      var input := Consumed(s, e).value;
      if Evaluates(input) {
        StepActivates(s.risk, Stamped(s.now, input));
      }
    }
  }

  lemma StepActivates(v: Supervisor, i: Stamped)
    ensures var (w, tripped) := Step(v, i); w.state.active && !v.state.active <==> tripped
  {
  }

  // ---- Reaching a trip ------------------------------------------------------

  /** The supervisor has just tripped on a broken limit, and nothing about it is published yet. */
  ghost predicate JustTripped(s: Sys) {
    && s.risk.state.active && !s.risk.state.book.Within(s.risk.limits)
    && s.trip.SendPause? && s.reset.Done? && !s.blocked
    && s.blocks == 0 && s.resets == 0 && s.pauses == 0 && s.resumes == 0
    && WithinCapacity(s) && s.logs == []
  }

  /** No book with a loss of `loss` or more is within these. */
  function Unbearable(loss: real): Limits { Limits(loss, 0.0, 0, None) }

  /** From every start one limits update and one tick lead to a trip. */
  lemma UpdateTrips(opening: real, limits: Limits, hosts: nat)
    ensures JustTripped(Node.Run(Start(opening, limits, hosts), [Reconfigure(Unbearable(0.0)), Timer]))
  {
    var start := Start(opening, limits, hosts);
    var s := Apply(start, Reconfigure(Unbearable(0.0)));
    assert s == start.(risk := Supervisor(FRESH, Unbearable(0.0)));
    assert Node.Run(s, [Timer]) == Apply(s, Timer);
    assert [Reconfigure(Unbearable(0.0)), Timer][1..] == [Timer];
  }

  /** The steps that carry one order through every task to the supervisor. */
  function OneOrder(c: Command): seq<Event> {
    [Snapshot(0, [c]), Emit(0), Receive] + [TakePrice, Fill, Publish] + [ConsumeResult]
  }

  lemma OrderReceived(opening: real, limits: Limits, hosts: nat, c: Command)
    requires hosts > 0
    ensures var start := Start(opening, limits, hosts);
            Node.Run(start, [Snapshot(0, [c]), Emit(0), Receive])
            == start.(hosts := start.hosts[0 := Emitting([])], phase := Checked(c))
  {
    var start := Start(opening, limits, hosts);
    var a := Apply(start, Snapshot(0, [c]));
    var b := Apply(a, Emit(0));
    assert a.hosts[0] == Emitting([c]) && [c][1..] == [];
    assert b == start.(hosts := start.hosts[0 := Emitting([])], commands := [c]);
    assert [Snapshot(0, [c]), Emit(0), Receive][1..] == [Emit(0), Receive] && [Emit(0), Receive][1..] == [Receive];
    assert Node.Run(b, [Receive]) == Apply(b, Receive);
  }

  /** Taking, pricing, filling and publishing what was received does to the book what handling it at once does. */
  lemma OrderHandled(s: Sys, c: Command)
    requires s.phase == Checked(c) && s.results == []
    ensures var t := Node.Run(s, [TakePrice, Fill, Publish]);
            var (after, r) := Handle(s.book, Ticket(c, false));
            t == s.(book := after, results := [r], phase := Published)
  {
    RunThreeExecutor(s, TakePrice, Fill, Publish);
  }

  /** Without any change of limits, one filled order trips the breaker if it books a forbidden loss. */
  lemma OrderTrips(opening: real, limits: Limits, hosts: nat, c: Command)
    requires hosts > 0
    requires var r := Handle(Opening(opening), Ticket(c, false)).1;
             r.status.Filled? && r.NetBought() >= limits.maxDailyLossAbs
    ensures JustTripped(Node.Run(Start(opening, limits, hosts), OneOrder(c)))
  {
    var start := Start(opening, limits, hosts);
    var received, handled := [Snapshot(0, [c]), Emit(0), Receive], [TakePrice, Fill, Publish];
    OrderReceived(opening, limits, hosts, c);
    var s := Node.Run(start, received);
    OrderHandled(s, c);
    var t := Node.Run(s, handled);
    Node.RunAppend(start, received, handled);
    RunPush(start, received + handled, ConsumeResult);
    LossTrips(t, t.results[0].NetBought());
  }

  /** A buy of everything the executor owns. */
  function AllIn(opening: real): Command { Command("", Symbol("", ""), Buy, opening, None) }

  lemma AllInFills(opening: real)
    ensures var r := Handle(Opening(opening), Ticket(AllIn(opening), false)).1;
            r.status.Filled? && r.NetBought() == opening
  {
  }

  /** A sell of negative size: it fills without any holding, and pays out its size. */
  function NegativeSell(loss: real): Command { Command("", Symbol("", ""), Sell, -loss, None) }

  lemma NegativeSellFills(opening: real, loss: real)
    requires loss >= 0.0
    ensures var r := Handle(Opening(opening), Ticket(NegativeSell(loss), false)).1;
            r.status.Filled? && r.NetBought() == loss
  {
    FillsExactly(Opening(opening), Ticket(NegativeSell(loss), false));
    assert Worth(Quote(Opening(opening), None).1, 0.0) == 0.0;
  }

  /** A supervisor with nothing on its books that hears of one buy makes its size the day's loss. */
  lemma LossTrips(s: Sys, loss: real)
    requires s.trip.Sent? && s.risk.state == FRESH && |s.results| == 1
    requires s.results[0].status.Filled? && s.results[0].NetBought() == loss >= s.risk.limits.maxDailyLossAbs
    ensures var t := Apply(s, ConsumeResult);
            && t == s.(risk := t.risk, trip := SendPause, results := [])
            && t.risk.state.active && !t.risk.state.book.Within(t.risk.limits)
  {
    RecordOrderMoves(NO_EXPOSURE, s.results[0], "");
    var (after, tripped) := Step(s.risk, Stamped(s.now, Order(s.results[0])));
    assert tripped && after.state.book.dailyPnl == -loss;
  }
}
