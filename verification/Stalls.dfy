/** The supervisor publishes its own Error log to a queue that only its own loop drains: when that stops it. */
module Stalls {
  import opened Common
  import opened Trading
  import opened Risk
  import opened Node
  import opened Breaker

  /** The supervisor never gets back to its loop, whatever else runs. */
  ghost predicate Lost(s: Sys) { forall es :: !Node.Run(s, es).trip.Sent? }

  predicate ResetsWorker(e: Event) { e.OperatorReset? && e.onWorker }

  ghost predicate NoWorkerReset(es: seq<Event>) { forall e :: e in es ==> !ResetsWorker(e) }

  /** From one state to the next the supervisor stays in the middle of its trip, with nothing but its flag changed. */
  ghost predicate StillStalled(s: Sys, t: Sys) {
    && !t.trip.Sent? && (s.trip.SendLog? ==> t.trip.SendLog?) && t.logs == s.logs
    && t.risk == s.risk.(state := s.risk.state.(active := t.risk.state.active))
  }

  lemma StalledExecutor(s: Sys, e: Event)
    requires !s.trip.Sent? && |s.logs| == CAPACITY
    ensures StillStalled(s, ExecutorStep(s, e)) && ExecutorStep(s, e).risk == s.risk
  {
  }

  lemma StalledHost(s: Sys, e: Event)
    requires !s.trip.Sent? && |s.logs| == CAPACITY
    ensures StillStalled(s, HostStep(s, e)) && HostStep(s, e).risk == s.risk
  {
  }

  lemma StalledRisk(s: Sys, e: Event)
    requires !s.trip.Sent? && |s.logs| == CAPACITY
    ensures StillStalled(s, RiskStep(s, e)) && (!ResetsWorker(e) ==> RiskStep(s, e).risk == s.risk)
  {
    SuperviseFrame(s, e);
  }

  lemma StalledInputs(s: Sys, e: Event)
    requires !s.trip.Sent?
    ensures (forall i :: i in InputOf(s, e) ==> i.input.Reset?) && (!ResetsWorker(e) ==> InputOf(s, e) == [])
  {
  }

  lemma StalledStep(s: Sys, e: Event)
    requires !s.trip.Sent? && |s.logs| == CAPACITY
    ensures StillStalled(s, Apply(s, e)) && (!ResetsWorker(e) ==> Apply(s, e).risk == s.risk)
  {
    StalledExecutor(s, e);
    StalledHost(s, e);
    StalledRisk(s, e);
  }

  /** In the middle of a trip with its log queue full the supervisor consumes nothing more, on any run: only a reset
      called on it can still touch it, and that clears the flag and no more. */
  lemma {:induction false} SelfSendStalls(s: Sys, es: seq<Event>)
    requires !s.trip.Sent? && |s.logs| == CAPACITY
    ensures var t := Node.Run(s, es);
            && StillStalled(s, t)
            && (forall i :: i in Inputs(s, es) ==> i.input.Reset?)
            && (NoWorkerReset(es) ==> t.risk == s.risk && Inputs(s, es) == [])
    decreases |es|
  {
    if es != [] {
      StalledStep(s, es[0]);
      StalledInputs(s, es[0]);
      SelfSendStalls(Apply(s, es[0]), es[1..]);
      assert NoWorkerReset(es) ==> !ResetsWorker(es[0]) && NoWorkerReset(es[1..]);
    }
  }

  /** The trip is over, or its last message will find room. */
  predicate CanEnd(s: Sys) { s.trip.Sent? || |s.logs| < CAPACITY }

  lemma PauseSent(s: Sys)
    requires s.pauses <= CAPACITY && CanEnd(s)
    ensures var t := Apply(Apply(s, TakePause), SendControl); !t.trip.SendPause? && CanEnd(t)
    ensures s.blocks <= CAPACITY ==> Apply(Apply(s, TakePause), SendControl).blocks <= CAPACITY
  {
  }

  lemma BlockSent(s: Sys)
    requires s.blocks <= CAPACITY && CanEnd(s) && !s.trip.SendPause?
    ensures var t := Apply(Apply(s, TakeBlock), SendControl); (t.trip.SendLog? || t.trip.Sent?) && CanEnd(t)
  {
  }

  /** With room for one log, making room for pause and block lets the trip run to its end. */
  lemma Recovers(s: Sys)
    requires WithinCapacity(s) && CanEnd(s)
    ensures Node.Run(s, [TakePause] + [SendControl] + [TakeBlock] + [SendControl] + [SendControl]).trip.Sent?
  {
    var a := Apply(Apply(s, TakePause), SendControl);
    var b := Apply(Apply(a, TakeBlock), SendControl);
    PauseSent(s);
    BlockSent(a);
    assert Node.Run(s, [TakePause]) == Apply(s, TakePause);
    RunPush(s, [TakePause], SendControl);
    RunPush(s, [TakePause] + [SendControl], TakeBlock);
    RunPush(s, [TakePause] + [SendControl] + [TakeBlock], SendControl);
    RunPush(s, [TakePause] + [SendControl] + [TakeBlock] + [SendControl], SendControl);
  }

  /** Exactly a trip under way with a full log queue is lost, resets included. */
  lemma LostExactly(s: Sys)
    requires WithinCapacity(s)
    ensures Lost(s) <==> !s.trip.Sent? && |s.logs| == 1024
  {
    if s.trip.Sent? {
      assert Node.Run(s, []).trip.Sent?;
    } else if |s.logs| < CAPACITY {
      Recovers(s);
    } else {
      forall es ensures !Node.Run(s, es).trip.Sent? { SelfSendStalls(s, es); }
    }
  }

  /** Read before the trip: it loses the supervisor at once exactly when the log queue is full and the message that
      trips it was not taken from there. */
  lemma TripLosesExactly(s: Sys, e: Event)
    requires WithinCapacity(s) && s.trip.Sent? && Apply(s, e).trip.SendPause?
    ensures Lost(Apply(s, e)) <==> |s.logs| == 1024 && !e.ConsumeLog?
  {
    StepWithinCapacity(s, e);
    LostExactly(Apply(s, e));
  }

  lemma {:induction false} OutsideLogsPile(s: Sys, n: nat)
    requires |s.logs| + n <= CAPACITY
    ensures var t := Node.Run(s, Repeat(OutsideLog(Other), n)); t == s.(logs := t.logs) && |t.logs| == |s.logs| + n
    decreases n
  {
    if n > 0 {
      var es := Repeat(OutsideLog(Other), n);
      assert es[1..] == Repeat(OutsideLog(Other), n - 1);
      OutsideLogsPile(Apply(s, es[0]), n - 1);
    }
  }

  /** The log messages of the other services that fill the queue. */
  function Flood(s: Sys): seq<Event>
    requires WithinCapacity(s)
  {
    Repeat(OutsideLog(Other), CAPACITY - |s.logs|)
  }

  /** However much room there was when the trip began, ordinary logging before its last message loses it. */
  lemma FloodLoses(s: Sys)
    requires WithinCapacity(s) && !s.trip.Sent?
    ensures Lost(Node.Run(s, Flood(s)))
  {
    OutsideLogsPile(s, CAPACITY - |s.logs|);
    LostExactly(Node.Run(s, Flood(s)));
  }

  /** Such a loss can be reached from every start. */
  lemma StallReachable(opening: real, limits: Limits, hosts: nat)
    ensures exists es :: Lost(Node.Run(Start(opening, limits, hosts), es))
  {
    var start, tripping := Start(opening, limits, hosts), [Reconfigure(Unbearable(0.0)), Timer];
    UpdateTrips(opening, limits, hosts);
    var s := Node.Run(start, tripping);
    FloodLoses(s);
    Node.RunAppend(start, tripping, Flood(s));
    assert Lost(Node.Run(start, tripping + Flood(s)));
  }

  /** No limits update and no Error from elsewhere. */
  ghost predicate Ordinary(es: seq<Event>) {
    forall e :: e in es ==> !e.Reconfigure? && (e.OutsideLog? ==> e.level.Other?)
  }

  /** A trip by one order, and the flood after it. */
  lemma OrderStalls(opening: real, limits: Limits, hosts: nat, c: Command)
    requires JustTripped(Node.Run(Start(opening, limits, hosts), OneOrder(c)))
    ensures exists es :: Ordinary(es) && Lost(Node.Run(Start(opening, limits, hosts), OneOrder(c) + es))
  {
    var start := Start(opening, limits, hosts);
    var s := Node.Run(start, OneOrder(c));
    FloodLoses(s);
    Node.RunAppend(start, OneOrder(c), Flood(s));
    assert Ordinary(Flood(s));
  }

  /** With the configured limits left alone, whatever they are, one order and ordinary logging reach it too. */
  lemma OneOrderStalls(opening: real, limits: Limits, hosts: nat)
    requires hosts > 0
    ensures exists es :: Ordinary(es) && Lost(Node.Run(Start(opening, limits, hosts), es))
  {
    var loss := if limits.maxDailyLossAbs > 0.0 then limits.maxDailyLossAbs else 0.0;
    var c := NegativeSell(loss);
    NegativeSellFills(opening, loss);
    OrderTrips(opening, limits, hosts, c);
    OrderStalls(opening, limits, hosts, c);
    var es :| Ordinary(es) && Lost(Node.Run(Start(opening, limits, hosts), OneOrder(c) + es));
    assert Ordinary(OneOrder(c) + es);
  }

  /** And a plain buy for all the cash does, if spending it makes a forbidden loss. */
  lemma OneBuyStalls(opening: real, limits: Limits, hosts: nat)
    requires hosts > 0 && limits.maxDailyLossAbs <= opening
    ensures exists es :: Ordinary(es) && Lost(Node.Run(Start(opening, limits, hosts), OneOrder(AllIn(opening)) + es))
  {
    AllInFills(opening);
    OrderTrips(opening, limits, hosts, AllIn(opening));
    OrderStalls(opening, limits, hosts, AllIn(opening));
  }
}
