/** What an operator's reset undoes: which handle it reaches, and when it is sure to release the executor. */
module Resets {
  import opened Common
  import opened Risk
  import opened Node
  import opened Breaker
  import opened Stalls

  /** A reset, or a resume, is published or still to be. */
  predicate ResetComing(s: Sys) { s.resets > 0 || s.reset.SendReset? }

  predicate ResumeComing(s: Sys) { s.resumes > 0 || !s.reset.Done? }

  ghost predicate Taken(s: Sys, es: seq<Event>, e: Event)
    decreases |es|
  {
    es != [] && ((es[0] == e && Apply(s, e) != s) || Taken(Apply(s, es[0]), es[1..], e))
  }

  /** A reset is never lost either: reset and resume stay on their way until they are consumed. */
  lemma {:induction false} ResetArrives(s: Sys, es: seq<Event>)
    ensures var t := Node.Run(s, es);
            && (ResetComing(s) ==> ResetComing(t) || Taken(s, es, TakeReset))
            && (ResumeComing(s) ==> ResumeComing(t) || Taken(s, es, TakeResume))
    decreases |es|
  {
    if es != [] {
      ResetStep(s, es[0]);
      ResetArrives(Apply(s, es[0]), es[1..]);
    }
  }

  lemma ResetStep(s: Sys, e: Event)
    ensures var t := Apply(s, e);
            && (ResetComing(s) ==> ResetComing(t) || (e == TakeReset && t != s))
            && (ResumeComing(s) ==> ResumeComing(t) || (e == TakeResume && t != s))
  {
  }

  // ---- A reset against the block of its trip --------------------------------

  lemma BlockThenReset(s: Sys)
    requires s.blocks > 0 && s.resets > 0
    ensures !Node.Run(s, [TakeBlock, TakeReset]).blocked
  {
    RunTwoExecutor(s, TakeBlock, TakeReset);
  }

  lemma ResetThenBlock(s: Sys)
    requires s.blocks > 0 && s.resets > 0
    ensures Node.Run(s, [TakeReset, TakeBlock]).blocked
  {
    RunTwoExecutor(s, TakeReset, TakeBlock);
  }

  /** Block and reset travel on separate queues: while both are pending, either may be the last to arrive. */
  lemma EitherMayWin(s: Sys)
    requires s.blocks > 0 && s.resets > 0
    ensures !Node.Run(s, [TakeBlock, TakeReset]).blocked
    ensures Node.Run(s, [TakeReset, TakeBlock]).blocked
  {
    BlockThenReset(s);
    ResetThenBlock(s);
  }

  lemma TripPublished(s: Sys)
    requires JustTripped(s)
    ensures Node.Run(s, [SendControl, SendControl]) == s.(pauses := 1, blocks := 1, trip := SendLog)
  {
    RunTwo(s, SendControl, SendControl);
    SendControlSends(s);
    SendControlSends(SendTrip(s));
  }

  lemma ResetPublished(s: Sys, onWorker: bool)
    requires s.reset.Done? && s.resets == 0
    ensures var t := Node.Run(s, [OperatorReset(onWorker), SendResetControl]);
            t == s.(risk := t.risk, resets := 1, reset := SendResume) && (!onWorker ==> t.risk == s.risk)
  {
    RunTwo(s, OperatorReset(onWorker), SendResetControl);
  }

  /** From every start, both come to be pending: a trip, and a reset before its block is consumed. */
  lemma RaceReachable(opening: real, limits: Limits, hosts: nat, onWorker: bool)
    ensures exists es :: var s := Node.Run(Start(opening, limits, hosts), es);
              && s.blocks > 0 && s.resets > 0
              && !Node.Run(s, [TakeBlock, TakeReset]).blocked && Node.Run(s, [TakeReset, TakeBlock]).blocked
  {
    var start, tripping := Start(opening, limits, hosts), [Reconfigure(Unbearable(0.0)), Timer];
    var sending, resetting := [SendControl, SendControl], [OperatorReset(onWorker), SendResetControl];
    UpdateTrips(opening, limits, hosts);
    TripPublished(Node.Run(start, tripping));
    Node.RunAppend(start, tripping, sending);
    ResetPublished(Node.Run(start, tripping + sending), onWorker);
    Node.RunAppend(start, tripping + sending, resetting);
    EitherMayWin(Node.Run(start, tripping + sending + resetting));
  }

  /** A block is queued, or the trip under way will still publish one. */
  predicate BlockPending(s: Sys) { s.blocks > 0 || s.trip.SendPause? || s.trip.SendBlock? }

  /** Every block and every reset has been published and consumed. */
  predicate Settled(s: Sys) { !BlockPending(s) && !ResetComing(s) }

  /** The supervisor does not trip again during the run. */
  ghost predicate NoTrip(s: Sys, es: seq<Event>)
    decreases |es|
  {
    es != [] ==> !(s.trip.Sent? && Apply(s, es[0]).trip.SendPause?) && NoTrip(Apply(s, es[0]), es[1..])
  }

  /** A run with no further reset and no further trip, at whose end all messages are consumed. */
  ghost predicate Settles(s: Sys, es: seq<Event>) {
    NoReset(es) && NoTrip(s, es) && Settled(Node.Run(s, es))
  }

  lemma ReleasedStep(s: Sys, e: Event)
    requires !BlockPending(s) && (ResetComing(s) || !s.blocked)
    requires !e.OperatorReset? && !(s.trip.Sent? && Apply(s, e).trip.SendPause?)
    ensures var t := Apply(s, e); !BlockPending(t) && (ResetComing(t) || !t.blocked)
  {
  }

  lemma {:induction false} Released(s: Sys, es: seq<Event>)
    requires !BlockPending(s) && (ResetComing(s) || !s.blocked) && NoReset(es) && NoTrip(s, es)
    ensures var t := Node.Run(s, es); !BlockPending(t) && (ResetComing(t) || !t.blocked)
    decreases |es|
  {
    if es != [] {
      ReleasedStep(s, es[0]);
      Released(Apply(s, es[0]), es[1..]);
    }
  }

  /** The steps that publish and consume what a trip and a reset left to do. */
  predicate Delivers(e: Event) {
    e.SendControl? || e.SendResetControl? || e.TakeBlock? || e.TakeReset? || e.TakePause? || e.TakeResume?
  }

  ghost predicate AllDeliver(es: seq<Event>) { forall e :: e in es ==> Delivers(e) }

  lemma {:induction false} DeliveringNeverTrips(s: Sys, es: seq<Event>)
    requires AllDeliver(es)
    ensures NoReset(es) && NoTrip(s, es)
    decreases |es|
  {
    if es != [] {
      assert Delivers(es[0]);
      DeliveringNeverTrips(Apply(s, es[0]), es[1..]);
    }
  }

  lemma {:induction false} BlocksDrain(s: Sys, n: nat)
    requires s.blocks == n
    ensures Node.Run(s, Repeat(TakeBlock, n)) == s.(blocks := 0, blocked := s.blocked || n > 0)
    decreases n
  {
    if n > 0 {
      assert Repeat(TakeBlock, n)[1..] == Repeat(TakeBlock, n - 1);
      BlocksDrain(Apply(s, TakeBlock), n - 1);
    }
  }

  lemma {:induction false} ResetsDrain(s: Sys, n: nat)
    requires s.resets == n
    ensures Node.Run(s, Repeat(TakeReset, n)) == s.(resets := 0, blocked := s.blocked && n == 0)
    decreases n
  {
    if n > 0 {
      assert Repeat(TakeReset, n)[1..] == Repeat(TakeReset, n - 1);
      ResetsDrain(Apply(s, TakeReset), n - 1);
    }
  }

  /** Consumes every reset, the one just asked for included. */
  function ResetsFirst(s: Sys): seq<Event> { Repeat(TakeReset, s.resets) + [SendResetControl] + [TakeReset] }

  lemma ResetsFirstWorks(s: Sys)
    requires s.reset.SendReset?
    ensures Node.Run(s, ResetsFirst(s)) == s.(resets := 0, reset := SendResume, blocked := false)
    ensures AllDeliver(ResetsFirst(s))
  {
    ResetsDrain(s, s.resets);
    RunPush(s, Repeat(TakeReset, s.resets), SendResetControl);
    RunPush(s, Repeat(TakeReset, s.resets) + [SendResetControl], TakeReset);
  }

  const PUBLISHING: seq<Event> := [TakePause] + [SendControl] + [TakeBlock] + [SendControl]

  /** Gets the block of a trip under way published, making room for it. */
  lemma BlockPublished(s: Sys)
    requires s.pauses <= CAPACITY && s.blocks <= CAPACITY
    ensures var t := Node.Run(s, PUBLISHING);
            && (t.trip.Sent? || t.trip.SendLog?)
            && t.resets == s.resets && t.reset == s.reset
            && (BlockPending(s) ==> t.blocks > 0 || t.blocked)
            && (s.blocked ==> t.blocked)
            && (!BlockPending(s) ==> t.blocks == 0 && t.blocked == s.blocked)
    ensures AllDeliver(PUBLISHING)
  {
    var a := Apply(Apply(s, TakePause), SendControl);
    PauseHalf(s);
    BlockHalf(a);
    assert Node.Run(s, [TakePause]) == Apply(s, TakePause);
    RunPush(s, [TakePause], SendControl);
    RunPush(s, [TakePause] + [SendControl], TakeBlock);
    RunPush(s, [TakePause] + [SendControl] + [TakeBlock], SendControl);
  }

  lemma PauseHalf(s: Sys)
    requires s.pauses <= CAPACITY && s.blocks <= CAPACITY
    ensures var t := Apply(Apply(s, TakePause), SendControl);
            && !t.trip.SendPause? && t.blocks <= CAPACITY
            && t.resets == s.resets && t.reset == s.reset && t.blocked == s.blocked
            && (BlockPending(s) <==> BlockPending(t))
  {
  }

  lemma BlockHalf(s: Sys)
    requires s.blocks <= CAPACITY && !s.trip.SendPause?
    ensures var t := Apply(Apply(s, TakeBlock), SendControl);
            && (t.trip.Sent? || t.trip.SendLog?)
            && t.resets == s.resets && t.reset == s.reset
            && (BlockPending(s) ==> t.blocks > 0 || t.blocked)
            && (s.blocked ==> t.blocked)
            && (!BlockPending(s) ==> t.blocks == 0 && t.blocked == s.blocked)
  {
  }

  /** With a block pending, some run consumes all resets first and the block last. */
  lemma BlockLast(s: Sys)
    requires WithinCapacity(s) && s.reset.SendReset? && BlockPending(s)
    ensures exists es :: Settles(s, es) && Node.Run(s, es).blocked
  {
    ResetsFirstWorks(s);
    var a := Node.Run(s, ResetsFirst(s));
    BlockPublished(a);
    var b := Node.Run(a, PUBLISHING);
    BlocksDrain(b, b.blocks);
    var es := ResetsFirst(s) + PUBLISHING + Repeat(TakeBlock, b.blocks);
    Node.RunAppend(s, ResetsFirst(s), PUBLISHING);
    Node.RunAppend(s, ResetsFirst(s) + PUBLISHING, Repeat(TakeBlock, b.blocks));
    DeliveringNeverTrips(s, es);
    assert Settles(s, es);
  }

  /** Some run always consumes all blocks first and the reset last. */
  lemma ResetLast(s: Sys)
    requires WithinCapacity(s) && s.reset.SendReset?
    ensures exists es :: Settles(s, es) && !Node.Run(s, es).blocked
  {
    BlockPublished(s);
    var a := Node.Run(s, PUBLISHING);
    BlocksDrain(a, a.blocks);
    var b := Node.Run(a, Repeat(TakeBlock, a.blocks));
    ResetsFirstWorks(b);
    var es := PUBLISHING + Repeat(TakeBlock, a.blocks) + ResetsFirst(b);
    Node.RunAppend(s, PUBLISHING, Repeat(TakeBlock, a.blocks));
    Node.RunAppend(s, PUBLISHING + Repeat(TakeBlock, a.blocks), ResetsFirst(b));
    DeliveringNeverTrips(s, es);
    assert Settles(s, es);
  }

  /** A reset through either handle may release the executor once all messages are consumed, and is sure to do so
      exactly when no block is pending at the moment it is asked for. */
  lemma ResetReleasesExactly(s: Sys, onWorker: bool)
    requires WithinCapacity(s) && s.reset.Done?
    ensures var t := Apply(s, OperatorReset(onWorker));
            && (exists es :: Settles(t, es) && !Node.Run(t, es).blocked)
            && ((forall es :: Settles(t, es) ==> !Node.Run(t, es).blocked) <==> !BlockPending(s))
  {
    var t := Apply(s, OperatorReset(onWorker));
    assert t.reset.SendReset? && (BlockPending(t) <==> BlockPending(s)) && WithinCapacity(t);
    ResetLast(t);
    if BlockPending(s) {
      BlockLast(t);
    } else {
      forall es | Settles(t, es) ensures !Node.Run(t, es).blocked { Released(t, es); }
    }
  }

  // ---- Which handle the reset reaches ---------------------------------------

  /** The worker has tripped, and its block message is no longer on its way. */
  ghost predicate Spent(s: Sys) { s.risk.state.active && !BlockPending(s) }

  lemma SpentStep(s: Sys, e: Event)
    requires Spent(s) && !ResetsWorker(e)
    ensures Spent(Apply(s, e)) && (!s.blocked ==> !Apply(s, e).blocked)
  {
    if Consumed(s, e).Some? {
      StepActivates(s.risk, Stamped(s.now, Consumed(s, e).value));
    }
  }

  /** An active worker publishes no second block: once the executor is unblocked with none pending, nothing but a
      reset of the worker itself can lead to another. */
  lemma {:induction false} DetachedResetDisarms(s: Sys, es: seq<Event>)
    requires Spent(s) && NoWorkerReset(es)
    ensures var t := Node.Run(s, es); Spent(t) && (!s.blocked ==> !t.blocked)
    decreases |es|
  {
    if es != [] {
      assert !ResetsWorker(es[0]);
      SpentStep(s, es[0]);
      DetachedResetDisarms(Apply(s, es[0]), es[1..]);
    }
  }

  /** The executor gets released, and later blocked again, without a further reset of the worker. */
  ghost predicate Rearms(s: Sys, es: seq<Event>, fs: seq<Event>) {
    && NoWorkerReset(es) && NoWorkerReset(fs)
    && !Node.Run(s, es).blocked && Node.Run(Node.Run(s, es), fs).blocked
  }

  /** Ends a trip and takes the reset just asked for. */
  const RELEASING: seq<Event> := [SendControl, TakeReset] + [SendResetControl, TakeReset]

  lemma TripEnds(s: Sys)
    requires CanEnd(s) && !BlockPending(s)
    ensures var t := Apply(s, SendControl); t == s.(trip := Sent, logs := t.logs)
  {
  }

  lemma ResetRoom(s: Sys)
    requires s.resets <= CAPACITY
    ensures var t := Apply(s, TakeReset);
            t == s.(resets := t.resets, blocked := t.blocked) && t.resets < CAPACITY
  {
  }

  lemma ResetDelivered(s: Sys)
    requires s.resets < CAPACITY && s.reset.SendReset?
    ensures var t := Apply(Apply(s, SendResetControl), TakeReset);
            t == s.(resets := t.resets, reset := t.reset, blocked := false)
  {
  }

  lemma ReleasingWorks(s: Sys)
    requires WithinCapacity(s) && CanEnd(s) && !BlockPending(s) && s.reset.SendReset?
    ensures var t := Node.Run(s, RELEASING);
            && !t.blocked && t.trip.Sent? && t.risk == s.risk && t.blocks == 0 && t.pauses == s.pauses
    ensures NoWorkerReset(RELEASING)
  {
    var a := Apply(s, SendControl);
    var b := Apply(a, TakeReset);
    TripEnds(s);
    ResetRoom(a);
    ResetDelivered(b);
    RunTwo(s, SendControl, TakeReset);
    RunTwo(b, SendResetControl, TakeReset);
    Node.RunAppend(s, [SendControl, TakeReset], [SendResetControl, TakeReset]);
  }

  /** Limits that the present book breaks, and a tick. */
  function Breaking(s: Sys): seq<Event> { [Reconfigure(Unbearable(-s.risk.state.book.dailyPnl)), Timer] }

  lemma BreakingTrips(s: Sys)
    requires s.trip.Sent? && !s.risk.state.active
    ensures var t := Node.Run(s, Breaking(s)); t == s.(risk := t.risk, trip := SendPause)
  {
    RunTwo(s, Breaking(s)[0], Timer);
  }

  lemma BlockTaken(s: Sys, es: seq<Event>)
    requires Node.Run(s, es).blocks > 0 || Node.Run(s, es).blocked
    ensures Node.Run(s, es + [TakeBlock]).blocked
  {
    RunPush(s, es, TakeBlock);
  }

  lemma BlockingWorks(s: Sys)
    requires s.trip.Sent? && s.blocks <= CAPACITY && s.pauses <= CAPACITY && !s.risk.state.active
    ensures Node.Run(s, Breaking(s) + PUBLISHING + [TakeBlock]).blocked
  {
    BreakingTrips(s);
    BlockPublished(Node.Run(s, Breaking(s)));
    Node.RunAppend(s, Breaking(s), PUBLISHING);
    BlockTaken(s, Breaking(s) + PUBLISHING);
  }

  lemma StuckStep(s: Sys, e: Event)
    requires s.trip.SendLog? && |s.logs| == CAPACITY && s.blocks == 0
    ensures var t := Apply(s, e);
            && t.trip.SendLog? && |t.logs| == CAPACITY && t.blocks == 0 && (!s.blocked ==> !t.blocked)
  {
  }

  /** A supervisor lost at its last message sends no second block, whatever resets it. */
  lemma {:induction false} StuckNeverBlocks(s: Sys, es: seq<Event>)
    requires s.trip.SendLog? && |s.logs| == CAPACITY && s.blocks == 0
    ensures var t := Node.Run(s, es);
            && t.trip.SendLog? && |t.logs| == CAPACITY && t.blocks == 0 && (!s.blocked ==> !t.blocked)
    decreases |es|
  {
    if es != [] {
      StuckStep(s, es[0]);
      StuckNeverBlocks(Apply(s, es[0]), es[1..]);
    }
  }

  lemma WorkerRearms(t: Sys)
    requires WithinCapacity(t) && CanEnd(t) && !BlockPending(t) && t.reset.SendReset? && !t.risk.state.active
    ensures exists es, fs :: Rearms(t, es, fs)
  {
    ReleasingWorks(t);
    var a := Node.Run(t, RELEASING);
    BlockingWorks(a);
    var blocking := Breaking(a) + PUBLISHING + [TakeBlock];
    assert NoWorkerReset(blocking);
    assert Rearms(t, RELEASING, blocking);
  }

  lemma NeverRearms(t: Sys, onWorker: bool, es: seq<Event>, fs: seq<Event>)
    requires (!onWorker && Spent(t)) || (t.trip.SendLog? && |t.logs| == CAPACITY && t.blocks == 0)
    requires NoWorkerReset(es) && NoWorkerReset(fs)
    ensures !Rearms(t, es, fs)
  {
    if !onWorker && Spent(t) {
      DetachedResetDisarms(t, es);
      DetachedResetDisarms(Node.Run(t, es), fs);
    } else {
      StuckNeverBlocks(t, es);
      StuckNeverBlocks(Node.Run(t, es), fs);
    }
  }

  /** `start` runs a copy of the service. After a trip whose block was published and consumed, the breaker can block
      the executor again exactly when the reset reached the worker and the log queue lets the trip end; through the
      original handle the reset frees the executor for good. */
  lemma ResetRearmsExactly(s: Sys, onWorker: bool)
    requires WithinCapacity(s) && Spent(s) && s.reset.Done?
    ensures (exists es, fs :: Rearms(Apply(s, OperatorReset(onWorker)), es, fs)) <==> onWorker && CanEnd(s)
  {
    var t := Apply(s, OperatorReset(onWorker));
    if onWorker && CanEnd(s) {
      WorkerRearms(t);
    } else {
      forall es, fs ensures !Rearms(t, es, fs) {
        if NoWorkerReset(es) && NoWorkerReset(fs) { NeverRearms(t, onWorker, es, fs); }
      }
    }
  }

  /** The trip published and its block consumed, then one reset through the original handle, consumed as well. */
  const DISARMING: seq<Event> :=
    [SendControl, SendControl] + [TakeBlock] + [OperatorReset(false), SendResetControl] + [TakeReset]

  lemma DisarmingWorks(s: Sys)
    requires JustTripped(s)
    ensures var t := Node.Run(s, DISARMING); Spent(t) && !t.blocked && t.risk == s.risk
  {
    TripPublished(s);
    var a := Node.Run(s, [SendControl, SendControl]);
    BlocksDrain(a, 1);
    var b := Node.Run(a, Repeat(TakeBlock, 1));
    ResetPublished(b, false);
    var c := Node.Run(b, [OperatorReset(false), SendResetControl]);
    ResetsDrain(c, 1);
    assert Repeat(TakeBlock, 1) == [TakeBlock] && Repeat(TakeReset, 1) == [TakeReset];
    Node.RunAppend(s, [SendControl, SendControl], [TakeBlock]);
    Node.RunAppend(s, [SendControl, SendControl] + [TakeBlock], [OperatorReset(false), SendResetControl]);
    Node.RunAppend(s, [SendControl, SendControl] + [TakeBlock] + [OperatorReset(false), SendResetControl], [TakeReset]);
  }

  /** From every start a trip followed by one reset through the original handle leads to a node with a limit broken,
      the breaker active and the executor trading, which nothing short of a reset of the worker blocks again. */
  lemma DisarmReachable(opening: real, limits: Limits, hosts: nat)
    ensures exists es :: var s := Node.Run(Start(opening, limits, hosts), es);
              && OperatorReset(false) in es && NoWorkerReset(es)
              && !s.risk.state.book.Within(s.risk.limits) && s.risk.state.active && !s.blocked
              && forall fs :: NoWorkerReset(fs) ==> !Node.Run(s, fs).blocked
  {
    var start, es := Start(opening, limits, hosts), [Reconfigure(Unbearable(0.0)), Timer];
    UpdateTrips(opening, limits, hosts);
    var s := Node.Run(start, es);
    DisarmingWorks(s);
    Node.RunAppend(start, es, DISARMING);
    var t := Node.Run(s, DISARMING);
    forall fs | NoWorkerReset(fs) ensures !Node.Run(t, fs).blocked { DetachedResetDisarms(t, fs); }
    assert OperatorReset(false) in es + DISARMING && NoWorkerReset(es + DISARMING);
  }
}
