/** Executor, supervisor and strategy host as one step relation over the bus queues between them.

    Every event names one atomic step of one task. A step whose task is not at that point, or whose
    target queue is full, leaves the node as it is; so a run is any sequence of events whatever, and
    every interleaving of the tasks is a run. */
module Node {
  import opened Common
  import opened Trading
  import opened Ledger
  import opened Risk
  import opened Books

  /** How far the executor is with the command it took. */
  datatype Phase =
    | Idle
    | Checked(cmd: Command)
    | Priced(quoted: Command, price: real)
    | Settled(result: Result)
    | Published

  /** A strategy subscription: waiting for a snapshot, or publishing the orders of one. */
  datatype Host = Waiting | Emitting(orders: seq<Command>)

  /** What a tripped supervisor, or a reset, still has to publish. */
  datatype TripSend = Sent | SendPause | SendBlock | SendLog
  datatype ResetSend = Done | SendReset | SendResume

  datatype LogLevel = Error | Other

  datatype Sys = Sys(
    book: Book, phase: Phase, blocked: bool,
    risk: Supervisor, trip: TripSend, reset: ResetSend,
    hosts: seq<Host>, paused: bool, now: nat,
    commands: seq<Command>, results: seq<Result>, logs: seq<LogLevel>,
    blocks: nat, resets: nat, pauses: nat, resumes: nat)

  function Start(opening: real, limits: Limits, hosts: nat): Sys {
    Sys(Opening(opening), Idle, false, Supervisor(FRESH, limits), Sent, Done,
         seq(hosts, i => Waiting), false, 0, [], [], [], 0, 0, 0, 0)
  }

  datatype Event =
    | Snapshot(host: nat, planned: seq<Command>)
    | Emit(host: nat)
    | Receive | TakePrice | Fill | Publish | Report
    | ConsumeResult | ConsumeLog | Timer | Reconfigure(newLimits: Limits) | SendControl
    | OperatorReset(onWorker: bool) | SendResetControl
    | TakeBlock | TakeReset | TakePause | TakeResume
    | OutsideLog(level: LogLevel)
    | Advance(elapsed: nat)

  /** The executor's own steps. */
  function ExecutorStep(s: Sys, e: Event): Sys {
    match e
    case Receive =>
      if !s.phase.Idle? || s.commands == [] then s
      else
        var c := s.commands[0];
        s.(commands := s.commands[1..], phase := if s.blocked then Settled(BreakerRejection(c)) else Checked(c))
    case TakePrice =>
      if !s.phase.Checked? then s
      else
        var (quoted, price) := Quote(s.book, s.phase.cmd.limitPrice);
        s.(book := quoted, phase := Priced(s.phase.cmd, price))
    case Fill =>
      if !s.phase.Priced? then s
      else
        var (after, r) := Settle(s.book, s.phase.quoted, s.phase.price);
        s.(book := after, phase := Settled(r))
    case Publish =>
      if !s.phase.Settled? || |s.results| >= CAPACITY then s
      else s.(results := s.results + [s.phase.result], phase := Published)
    case Report =>
      if !s.phase.Published? || |s.logs| >= CAPACITY then s
      else s.(logs := s.logs + [Other], phase := Idle)
    case TakeBlock => if s.blocks == 0 then s else s.(blocks := s.blocks - 1, blocked := true)
    case TakeReset => if s.resets == 0 then s else s.(resets := s.resets - 1, blocked := false)
    case _ => s
  }

  /** What one event makes the supervisor consume, if its task is at its select and the message is there. */
  function Consumed(s: Sys, e: Event): Option<Input> {
    match e
    case ConsumeResult => if s.trip.Sent? && s.results != [] then Some(Order(s.results[0])) else None
    case ConsumeLog => if s.trip.Sent? && s.logs != [] && s.logs[0].Error? then Some(ErrorEvent) else None
    case Timer => if s.trip.Sent? then Some(Tick) else None
    case Reconfigure(limits) => if s.trip.Sent? then Some(Configure(limits)) else None
    case OperatorReset(onWorker) => if s.reset.Done? && onWorker then Some(Reset) else None
    case _ => None
  }

  ghost function Supervise(s: Sys, e: Event): Sys {
    match Consumed(s, e)
    case None => s
    case Some(input) =>
      var (risk, tripped) := Step(s.risk, Stamped(s.now, input));
      s.(risk := risk, trip := if tripped then SendPause else s.trip)
  }

  function SendTrip(s: Sys): Sys {
    match s.trip
    case Sent => s
    case SendPause => if s.pauses >= CAPACITY then s else s.(pauses := s.pauses + 1, trip := SendBlock)
    case SendBlock => if s.blocks >= CAPACITY then s else s.(blocks := s.blocks + 1, trip := SendLog)
    case SendLog => if |s.logs| >= CAPACITY then s else s.(logs := s.logs + [Error], trip := Sent)
  }

  ghost function RiskStep(s: Sys, e: Event): Sys {
    var t := Supervise(s, e);
    match e
    case ConsumeResult => if s.trip.Sent? && s.results != [] then t.(results := s.results[1..]) else t
    case ConsumeLog => if s.trip.Sent? && s.logs != [] then t.(logs := s.logs[1..]) else t
    case SendControl => SendTrip(t)
    case OperatorReset(_) => if s.reset.Done? then t.(reset := SendReset) else t
    case SendResetControl =>
      (match s.reset
       case Done => t
       case SendReset => if s.resets >= CAPACITY then t else t.(resets := s.resets + 1, reset := SendResume)
       case SendResume => if s.resumes >= CAPACITY then t else t.(resumes := s.resumes + 1, reset := Done))
    case _ => t
  }

  function HostStep(s: Sys, e: Event): Sys {
    match e
    case Snapshot(h, planned) =>
      if h >= |s.hosts| || !s.hosts[h].Waiting? || s.paused then s
      else s.(hosts := s.hosts[h := Emitting(planned)])
    case Emit(h) =>
      if h >= |s.hosts| || !s.hosts[h].Emitting? then s
      else
        var orders := s.hosts[h].orders;
        if orders == [] then
          if |s.logs| >= CAPACITY then s
          else s.(logs := s.logs + [Other], hosts := s.hosts[h := Waiting])
        else if |s.commands| >= CAPACITY then s
        else s.(commands := s.commands + [orders[0]], hosts := s.hosts[h := Emitting(orders[1..])])
    case TakePause => if s.pauses == 0 then s else s.(pauses := s.pauses - 1, paused := true)
    case TakeResume => if s.resumes == 0 then s else s.(resumes := s.resumes - 1, paused := false)
    case OutsideLog(level) => if |s.logs| >= CAPACITY then s else s.(logs := s.logs + [level])
    case Advance(elapsed) => s.(now := s.now + elapsed)
    case _ => s
  }

  predicate OfExecutor(e: Event) {
    e.Receive? || e.TakePrice? || e.Fill? || e.Publish? || e.Report? || e.TakeBlock? || e.TakeReset?
  }

  predicate OfHosts(e: Event) {
    e.Snapshot? || e.Emit? || e.TakePause? || e.TakeResume? || e.OutsideLog? || e.Advance?
  }

  ghost function Apply(s: Sys, e: Event): Sys {
    if OfExecutor(e) then ExecutorStep(s, e)
    else if OfHosts(e) then HostStep(s, e)
    else RiskStep(s, e)
  }

  ghost function Run(s: Sys, es: seq<Event>): Sys
    decreases |es|
  {
    if es == [] then s else Run(Apply(s, es[0]), es[1..])
  }

  lemma {:induction false} RunAppend(s: Sys, es: seq<Event>, fs: seq<Event>)
    ensures Run(s, es + fs) == Run(Run(s, es), fs)
    decreases |es|
  {
    if es == [] {
      assert es + fs == fs;
    } else {
      assert (es + fs)[1..] == es[1..] + fs;
      RunAppend(Apply(s, es[0]), es[1..], fs);
    }
  }

  lemma RunPush(s: Sys, es: seq<Event>, e: Event)
    ensures Run(s, es + [e]) == Apply(Run(s, es), e)
  {
    RunAppend(s, es, [e]);
  }

  lemma RunTwo(s: Sys, e: Event, f: Event)
    ensures Run(s, [e, f]) == Apply(Apply(s, e), f)
  {
    assert [e, f][1..] == [f];
    assert Run(Apply(s, e), [f]) == Apply(Apply(s, e), f);
  }

  function Repeat(e: Event, n: nat): seq<Event> {
    seq(n, i => e)
  }

  lemma RepeatOnce(s: Sys, e: Event, n: nat)
    ensures Run(s, Repeat(e, n + 1)) == Apply(Run(s, Repeat(e, n)), e)
  {
    assert Repeat(e, n + 1) == Repeat(e, n) + [e];
    RunPush(s, Repeat(e, n), e);
  }

  lemma {:induction false} IdleRun(s: Sys, e: Event, n: nat)
    requires Apply(s, e) == s
    ensures Run(s, Repeat(e, n)) == s
    decreases n
  {
    if n > 0 {
      assert Repeat(e, n)[1..] == Repeat(e, n - 1);
      IdleRun(s, e, n - 1);
    }
  }

  lemma RunTwoExecutor(s: Sys, e: Event, f: Event)
    requires OfExecutor(e) && OfExecutor(f)
    ensures Run(s, [e, f]) == ExecutorStep(ExecutorStep(s, e), f)
  {
    RunTwo(s, e, f);
  }

  lemma RunThreeExecutor(s: Sys, e: Event, f: Event, g: Event)
    requires OfExecutor(e) && OfExecutor(f) && OfExecutor(g)
    ensures Run(s, [e, f, g]) == ExecutorStep(ExecutorStep(ExecutorStep(s, e), f), g)
  {
    assert [e, f, g] == [e, f] + [g];
    RunTwoExecutor(s, e, f);
    RunPush(s, [e, f], g);
  }

  lemma SendControlSends(s: Sys)
    ensures Apply(s, SendControl) == SendTrip(s)
  {
  }

  /** No queue holds more than its capacity. */
  predicate WithinCapacity(s: Sys) {
    && |s.commands| <= 1024 && |s.results| <= 1024 && |s.logs| <= 1024
    && s.blocks <= 1024 && s.resets <= 1024 && s.pauses <= 1024 && s.resumes <= 1024
  }

  lemma ExecutorWithinCapacity(s: Sys, e: Event)
    requires WithinCapacity(s)
    ensures WithinCapacity(ExecutorStep(s, e))
  {
  }

  lemma HostWithinCapacity(s: Sys, e: Event)
    requires WithinCapacity(s)
    ensures WithinCapacity(HostStep(s, e))
  {
  }

  lemma RiskWithinCapacity(s: Sys, e: Event)
    requires WithinCapacity(s)
    ensures WithinCapacity(RiskStep(s, e))
  {
    SuperviseFrame(s, e);
  }

  lemma StepWithinCapacity(s: Sys, e: Event)
    requires WithinCapacity(s)
    ensures WithinCapacity(Apply(s, e))
  {
    ExecutorWithinCapacity(s, e);
    HostWithinCapacity(s, e);
    RiskWithinCapacity(s, e);
  }

  lemma {:induction false} RunWithinCapacity(s: Sys, es: seq<Event>)
    requires WithinCapacity(s)
    ensures WithinCapacity(Run(s, es))
    decreases |es|
  {
    if es != [] {
      StepWithinCapacity(s, es[0]);
      RunWithinCapacity(Apply(s, es[0]), es[1..]);
    }
  }

  // ---- The node refines the sequential ledger and the sequential supervisor --

  function TicketOf(s: Sys, e: Event): seq<Ticket> {
    if e.Receive? && s.phase.Idle? && s.commands != [] then [Ticket(s.commands[0], s.blocked)] else []
  }

  function InputOf(s: Sys, e: Event): seq<Stamped> {
    match Consumed(s, e)
    case Some(input) => [Stamped(s.now, input)]
    case None => []
  }

  /** The commands a run takes, each with the flag it met, in order. */
  ghost function Tickets(s: Sys, es: seq<Event>): seq<Ticket>
    decreases |es|
  {
    if es == [] then [] else TicketOf(s, es[0]) + Tickets(Apply(s, es[0]), es[1..])
  }

  /** What the supervisor consumes over a run, each with its time, in order. */
  ghost function Inputs(s: Sys, es: seq<Event>): seq<Stamped>
    decreases |es|
  {
    if es == [] then [] else InputOf(s, es[0]) + Inputs(Apply(s, es[0]), es[1..])
  }

  /** Where the command in hand, if any, will leave the book, and the result it will publish. */
  function Finish(s: Sys): (Book, seq<Result>) {
    match s.phase
    case Checked(c) => var (after, r) := Handle(s.book, Ticket(c, false)); (after, [r])
    case Priced(c, price) => var (after, r) := Settle(s.book, c, price); (after, [r])
    case Settled(r) => (s.book, [r])
    case _ => (s.book, [])
  }

  ghost predicate Refines(opening: real, limits: Limits, s: Sys, ts: seq<Ticket>, ins: seq<Stamped>) {
    && s.risk == Risk.Run(Supervisor(FRESH, limits), ins)
    && Clocked(ins)
    && (ins != [] ==> ins[|ins| - 1].now <= s.now)
    && Finish(s).0 == Ledger.Run(Opening(opening), ts)
    && Orders(ins) + s.results + Finish(s).1 == Results(Opening(opening), ts)
  }

  lemma ExecutorRefines(opening: real, limits: Limits, s: Sys, ts: seq<Ticket>, ins: seq<Stamped>, e: Event)
    requires Refines(opening, limits, s, ts, ins)
    requires OfExecutor(e)
    ensures Refines(opening, limits, Apply(s, e), ts + TicketOf(s, e), ins)
  {
    var t := Apply(s, e);
    if TicketOf(s, e) == [] {
      HandKeepsCourse(s, e);
      assert ts + TicketOf(s, e) == ts;
      Regroup(Orders(ins), s.results, Finish(s).1);
      Regroup(Orders(ins), t.results, Finish(t).1);
    } else {
      var ticket := Ticket(s.commands[0], s.blocked);
      ReceiveFinishes(s);
      Ledger.RunAppend(Opening(opening), ts, [ticket]);
      var (after, r) := Handle(s.book, ticket);
      assert Ledger.Run(s.book, [ticket]) == after;
      assert Results(s.book, [ticket]) == [r];
      assert Orders(ins) + s.results + [] == Orders(ins) + s.results;
    }
  }

  /** An executor step that takes no command keeps to the outcome already set. */
  lemma HandKeepsCourse(s: Sys, e: Event)
    requires OfExecutor(e) && TicketOf(s, e) == []
    ensures var t := Apply(s, e);
            && t.risk == s.risk && t.now == s.now
            && Finish(t).0 == Finish(s).0
            && t.results + Finish(t).1 == s.results + Finish(s).1
  {
  }

  lemma ReceiveFinishes(s: Sys)
    requires s.phase.Idle? && s.commands != []
    ensures var t := Apply(s, Receive);
            var (after, r) := Handle(s.book, Ticket(s.commands[0], s.blocked));
            Finish(t) == (after, [r]) && t.results == s.results && t.risk == s.risk && t.now == s.now
  {
  }

  lemma InputExtends(limits: Limits, ins: seq<Stamped>, i: Stamped)
    requires Clocked(ins) && (ins != [] ==> ins[|ins| - 1].now <= i.now)
    ensures Clocked(ins + [i])
    ensures Risk.Run(Supervisor(FRESH, limits), ins + [i]) == Step(Risk.Run(Supervisor(FRESH, limits), ins), i).0
    ensures Orders(ins + [i]) == Orders(ins) + (if i.input.Order? then [i.input.result] else [])
  {
    assert (ins + [i])[..|ins + [i]| - 1] == ins;
    forall a, b | 0 <= a < b < |ins + [i]| ensures (ins + [i])[a].now <= (ins + [i])[b].now {
      if b == |ins| && a < |ins| - 1 { assert ins[a].now <= ins[|ins| - 1].now; }
    }
  }

  /** What every step outside the executor leaves alone, and what it does to the supervisor. */
  lemma OutsideFrame(s: Sys, e: Event)
    requires !OfExecutor(e)
    ensures var t := Apply(s, e);
            var i := InputOf(s, e);
            && t.book == s.book && t.phase == s.phase && t.blocked == s.blocked && t.now >= s.now
            && t.risk == (if i == [] then s.risk else Step(s.risk, i[0]).0)
            && (i != [] ==> i[0].now == s.now)
            && s.results == (if i != [] && i[0].input.Order? then [i[0].input.result] else []) + t.results
  {
    if OfHosts(e) {
      HostFrame(s, e);
    } else {
      RiskFrame(s, e);
    }
  }

  lemma HostFrame(s: Sys, e: Event)
    requires OfHosts(e)
    ensures var t := Apply(s, e);
            && t.book == s.book && t.phase == s.phase && t.blocked == s.blocked && t.now >= s.now
            && t.risk == s.risk && t.results == s.results && InputOf(s, e) == []
  {
  }

  lemma RiskFrame(s: Sys, e: Event)
    requires !OfExecutor(e) && !OfHosts(e)
    ensures var t := Apply(s, e);
            var i := InputOf(s, e);
            && t.book == s.book && t.phase == s.phase && t.blocked == s.blocked && t.now == s.now
            && t.risk == (if i == [] then s.risk else Step(s.risk, i[0]).0)
            && (i != [] ==> i[0].now == s.now)
            && s.results == (if i != [] && i[0].input.Order? then [i[0].input.result] else []) + t.results
  {
    SuperviseFrame(s, e);
    if e.ConsumeResult? && s.results != [] {
      assert s.results == [s.results[0]] + s.results[1..];
    }
  }

  lemma SuperviseFrame(s: Sys, e: Event)
    ensures var t := Supervise(s, e);
            && t == s.(risk := t.risk, trip := t.trip)
            && t.risk == (if InputOf(s, e) == [] then s.risk else Step(s.risk, InputOf(s, e)[0]).0)
  {
  }

  /** The refinement carries over to any state related by that frame. */
  lemma FrameRefines(opening: real, limits: Limits, s: Sys, t: Sys, ts: seq<Ticket>, ins: seq<Stamped>,
                     i: Stamped, popped: seq<Result>)
    requires Refines(opening, limits, s, ts, ins)
    requires t.book == s.book && t.phase == s.phase && t.now >= s.now
    requires t.risk == Step(s.risk, i).0 && i.now == s.now
    requires popped == (if i.input.Order? then [i.input.result] else []) && s.results == popped + t.results
    ensures Refines(opening, limits, t, ts, ins + [i])
  {
    InputExtends(limits, ins, i);
    SameFinish(s, t);
    Regroup(Orders(ins), popped, t.results);
  }

  lemma SameFinish(s: Sys, t: Sys)
    requires t.book == s.book && t.phase == s.phase
    ensures Finish(t) == Finish(s)
  {
  }

  lemma OutsideRefines(opening: real, limits: Limits, s: Sys, ts: seq<Ticket>, ins: seq<Stamped>, e: Event)
    requires Refines(opening, limits, s, ts, ins) && !OfExecutor(e)
    ensures Refines(opening, limits, Apply(s, e), ts, ins + InputOf(s, e))
  {
    OutsideFrame(s, e);
    var t, i := Apply(s, e), InputOf(s, e);
    if i == [] {
      assert Finish(t) == Finish(s);
      assert ins + i == ins;
      assert s.results == t.results;
    } else {
      assert i == [i[0]];
      FrameRefines(opening, limits, s, t, ts, ins, i[0], if i[0].input.Order? then [i[0].input.result] else []);
    }
  }

  lemma StepRefines(opening: real, limits: Limits, s: Sys, ts: seq<Ticket>, ins: seq<Stamped>, e: Event)
    requires Refines(opening, limits, s, ts, ins)
    ensures Refines(opening, limits, Apply(s, e), ts + TicketOf(s, e), ins + InputOf(s, e))
  {
    if OfExecutor(e) {
      ExecutorRefines(opening, limits, s, ts, ins, e);
      assert ins + InputOf(s, e) == ins;
    } else {
      OutsideRefines(opening, limits, s, ts, ins, e);
      assert ts + TicketOf(s, e) == ts;
    }
  }

  lemma {:induction false} RunRefinesFrom(opening: real, limits: Limits, s: Sys, ts: seq<Ticket>, ins: seq<Stamped>,
                                          es: seq<Event>)
    requires Refines(opening, limits, s, ts, ins)
    ensures Refines(opening, limits, Run(s, es), ts + Tickets(s, es), ins + Inputs(s, es))
    decreases |es|
  {
    if es == [] {
      assert ts + [] == ts && ins + [] == ins;
    } else {
      var e, t := es[0], Apply(s, es[0]);
      StepRefines(opening, limits, s, ts, ins, e);
      RunRefinesFrom(opening, limits, t, ts + TicketOf(s, e), ins + InputOf(s, e), es[1..]);
      Regroup(ts, TicketOf(s, e), Tickets(t, es[1..]));
      Regroup(ins, InputOf(s, e), Inputs(t, es[1..]));
    }
  }

  /** Under every interleaving the executor's book is that of the sequential ledger on the commands taken,
      the supervisor is the sequential supervisor on the messages it consumed, and the results consumed,
      queued and in hand are exactly the ledger's results, in order, none lost and none twice. */
  lemma RunRefines(opening: real, limits: Limits, hosts: nat, es: seq<Event>)
    ensures var s := Start(opening, limits, hosts);
            Refines(opening, limits, Run(s, es), Tickets(s, es), Inputs(s, es))
  {
    var s := Start(opening, limits, hosts);
    RunRefinesFrom(opening, limits, s, [], [], es);
    assert [] + Tickets(s, es) == Tickets(s, es);
    assert [] + Inputs(s, es) == Inputs(s, es);
  }

  // ---- What the two books say about each other ------------------------------

  /** Results computed but not yet consumed by the supervisor, published or not. */
  function Pending(s: Sys): seq<Result> {
    s.results + (if s.phase.Settled? then [s.phase.result] else [])
  }

  /** In every reachable state, cash gained = the supervisor's profit figure less the net bought in flight. */
  lemma Reconciliation(opening: real, limits: Limits, hosts: nat, es: seq<Event>)
    ensures var s := Run(Start(opening, limits, hosts), es);
            s.book.balance - opening == s.risk.state.book.dailyPnl - Net(Pending(s))
  {
    var start := Start(opening, limits, hosts);
    var s, ts, ins := Run(start, es), Tickets(start, es), Inputs(start, es);
    RunRefines(opening, limits, hosts, es);
    var (after, tail) := Finish(s);
    CashMatchesResults(Opening(opening), ts);
    NetAppend(Orders(ins) + s.results, tail);
    NetAppend(Orders(ins), s.results);
    BookIsFoldOfOrders(limits, ins);
    FoldKept(NO_EXPOSURE, Orders(ins));
    FinishMovesCash(s);
    NetAppend(s.results, if s.phase.Settled? then [s.phase.result] else []);
  }

  lemma FinishMovesCash(s: Sys)
    ensures var (after, tail) := Finish(s);
            after.balance == s.book.balance - (if s.phase.Settled? then 0.0 else Net(tail))
  {
  }

  /** In every reachable state of a market-only run: fold what is in flight into the supervisor, let the executor
      finish the command in hand, and the supervisor's exposures and notional lie between the cash spent and
      the marked value held. */
  lemma SandwichInFlight(opening: real, limits: Limits, hosts: nat, es: seq<Event>)
    requires opening >= 0.0 && AllPlain(Tickets(Start(opening, limits, hosts), es))
    ensures var s := Run(Start(opening, limits, hosts), es);
            var (b, tail) := Finish(s);
            var x := Fold(s.risk.state.book, s.results + tail);
            && Joint(b, x)
            && opening - b.balance <= x.totalNotional <= Worth(b.counter, Sum(b.positions))
  {
    var start := Start(opening, limits, hosts);
    var s, ts, ins := Run(start, es), Tickets(start, es), Inputs(start, es);
    RunRefines(opening, limits, hosts, es);
    var (b, tail) := Finish(s);
    BookIsFoldOfOrders(limits, ins);
    FoldAppend(NO_EXPOSURE, Orders(ins), s.results + tail);
    Regroup(Orders(ins), s.results, tail);
    Sandwich(opening, ts);
  }

  lemma CourseStep(s: Sys, e: Event)
    requires TicketOf(s, e) == []
    ensures var t := Apply(s, e);
            Finish(t).0 == Finish(s).0 && (Finish(t).1 == Finish(s).1 || Finish(t).1 == [])
  {
    if OfExecutor(e) {
      HandKeepsCourse(s, e);
    } else {
      OutsideFrame(s, e);
      SameFinish(s, Apply(s, e));
    }
  }

  /** Until the executor takes its next command nothing can change what the one in hand will do and report. */
  lemma {:induction false} CourseIsSet(s: Sys, es: seq<Event>)
    requires Tickets(s, es) == []
    ensures var t := Run(s, es);
            Finish(t).0 == Finish(s).0 && (Finish(t).1 == Finish(s).1 || Finish(t).1 == [])
    decreases |es|
  {
    if es != [] {
      CourseStep(s, es[0]);
      CourseIsSet(Apply(s, es[0]), es[1..]);
    }
  }

  /** A market sell the supervisor sees covered, allowing for sells still in flight, fills once it passes the
      flag check, whatever else happens before it settles, a trip of the breaker included. */
  lemma CoveredSellNeverRejected(opening: real, limits: Limits, hosts: nat, es: seq<Event>, c: Command, fs: seq<Event>)
    requires opening >= 0.0 && AllPlain(Tickets(Start(opening, limits, hosts), es))
    requires var s := Run(Start(opening, limits, hosts), es);
             && s.phase.Idle? && !s.blocked && s.commands != [] && s.commands[0] == c
             && c.IsPlain() && c.side.Sell?
             && (var key := SymbolKey(c.symbol);
                 c.sizeQuote <= s.risk.state.book.Of(key) - PendingSells(s.results, key) || c.sizeQuote == 0.0)
             && Tickets(Apply(s, Receive), fs) == []
    ensures var t := Run(Apply(Run(Start(opening, limits, hosts), es), Receive), fs);
            t.phase.Settled? ==> t.phase.result.commandId == c.id && t.phase.result.status == Filled
  {
    var s := Run(Start(opening, limits, hosts), es);
    SandwichInFlight(opening, limits, hosts, es);
    BookKept(opening, limits, hosts, es);
    assert s.results + Finish(s).1 == s.results;
    CoveredSellFills(s.book, s.risk.state.book, s.results, c);
    ReceiveFinishes(s);
    CourseIsSet(Apply(s, Receive), fs);
  }

  lemma RiskOfRun(opening: real, limits: Limits, hosts: nat, es: seq<Event>)
    ensures var start := Start(opening, limits, hosts);
            Run(start, es).risk == Risk.Run(Supervisor(FRESH, limits), Inputs(start, es))
  {
    RunRefines(opening, limits, hosts, es);
  }

  /** In every reachable state the supervisor's totals are exact. */
  lemma BookKept(opening: real, limits: Limits, hosts: nat, es: seq<Event>)
    ensures Run(Start(opening, limits, hosts), es).risk.state.book.Kept()
  {
    var ins := Inputs(Start(opening, limits, hosts), es);
    RiskOfRun(opening, limits, hosts, es);
    BookIsFoldOfOrders(limits, ins);
    FoldKept(NO_EXPOSURE, Orders(ins));
  }

  /** After every order, error or tick the supervisor consumes, the breaker is active or no limit is broken. */
  lemma SupervisedStep(opening: real, limits: Limits, hosts: nat, es: seq<Event>, e: Event)
    requires var s := Run(Start(opening, limits, hosts), es); Consumed(s, e).Some? && Evaluates(Consumed(s, e).value)
    ensures var start := Start(opening, limits, hosts);
            var s := Run(start, es);
            var t := Apply(s, e);
            var history := Inputs(start, es) + InputOf(s, e);
            && (t.risk.state.active || !LimitBroken(t.risk, history, s.now))
            && (t.trip.SendPause? <==> !s.risk.state.active && LimitBroken(t.risk, history, s.now))
  {
    var start := Start(opening, limits, hosts);
    var s, ins := Run(start, es), Inputs(start, es);
    RunRefines(opening, limits, hosts, es);
    var i := InputOf(s, e)[0];
    InputExtends(limits, ins, i);
    TripsExactly(limits, ins, i);
    assert InputOf(s, e) == [i];
    Supervised(s, e);
  }

  /** What an input makes of the supervisor, and whether it starts a trip. */
  lemma Supervised(s: Sys, e: Event)
    requires Consumed(s, e).Some? && Evaluates(Consumed(s, e).value)
    ensures InputOf(s, e) == [Stamped(s.now, Consumed(s, e).value)]
    ensures Apply(s, e).risk == Step(s.risk, InputOf(s, e)[0]).0
    ensures Apply(s, e).trip.SendPause? <==> Step(s.risk, InputOf(s, e)[0]).1
  {
  }

  /** Over any run of the node, its own Error logs included, trips less effective resets make the active flag. */
  lemma TripsMatchFlag(opening: real, limits: Limits, hosts: nat, es: seq<Event>)
    ensures var start := Start(opening, limits, hosts);
            NetTrips(Supervisor(FRESH, limits), Inputs(start, es)) == if Run(start, es).risk.state.active then 1 else 0
  {
    RunRefines(opening, limits, hosts, es);
    TripsAlternateWithResets(limits, Inputs(Start(opening, limits, hosts), es));
  }

  // ---- The command queue ----------------------------------------------------

  /** Orders a subscription still has to publish from the snapshot it is working on. */
  function Unsent(s: Sys, h: nat): seq<Command> {
    if h < |s.hosts| && s.hosts[h].Emitting? then s.hosts[h].orders else []
  }

  /** The order one event of a subscription publishes. */
  function EmittedBy(s: Sys, e: Event): seq<Command> {
    if e.Emit? && Unsent(s, e.host) != [] && |s.commands| < CAPACITY then [Unsent(s, e.host)[0]] else []
  }

  /** The orders a run publishes, in order. */
  ghost function Emitted(s: Sys, es: seq<Event>): seq<Command>
    decreases |es|
  {
    if es == [] then [] else EmittedBy(s, es[0]) + Emitted(Apply(s, es[0]), es[1..])
  }

  function CommandsOf(ts: seq<Ticket>): seq<Command> {
    seq(|ts|, i requires 0 <= i < |ts| => ts[i].cmd)
  }

  lemma QueueStep(s: Sys, e: Event)
    ensures s.commands + EmittedBy(s, e) == CommandsOf(TicketOf(s, e)) + Apply(s, e).commands
  {
    if OfExecutor(e) {
      QueueTaken(s, e);
    } else if OfHosts(e) {
      QueueFed(s, e);
    } else {
      SuperviseFrame(s, e);
      assert Apply(s, e).commands == s.commands;
    }
  }

  lemma QueueTaken(s: Sys, e: Event)
    requires OfExecutor(e)
    ensures s.commands == CommandsOf(TicketOf(s, e)) + ExecutorStep(s, e).commands
  {
    if TicketOf(s, e) != [] {
      assert s.commands == [s.commands[0]] + s.commands[1..];
    }
  }

  lemma QueueFed(s: Sys, e: Event)
    requires OfHosts(e)
    ensures HostStep(s, e).commands == s.commands + EmittedBy(s, e)
  {
  }

  lemma CommandsOfJoin(ts: seq<Ticket>, us: seq<Ticket>)
    ensures CommandsOf(ts + us) == CommandsOf(ts) + CommandsOf(us)
  {
  }

  /** In and out balance over two stretches if they do over each. */
  lemma Spliced<T>(queue: seq<T>, in1: seq<T>, out1: seq<T>, mid: seq<T>, in2: seq<T>, out2: seq<T>, end: seq<T>)
    requires queue + in1 == out1 + mid && mid + in2 == out2 + end
    ensures queue + (in1 + in2) == out1 + out2 + end
  {
    Regroup(queue, in1, in2);
    Regroup(out1, mid, in2);
    Regroup(out1, out2, end);
  }

  /** Every order published is taken once, in publication order, or is still queued. */
  lemma {:induction false} CommandsConserved(s: Sys, es: seq<Event>)
    ensures s.commands + Emitted(s, es) == CommandsOf(Tickets(s, es)) + Run(s, es).commands
    decreases |es|
  {
    if es != [] {
      var t, rest := Apply(s, es[0]), es[1..];
      QueueStep(s, es[0]);
      CommandsConserved(t, rest);
      CommandsOfJoin(TicketOf(s, es[0]), Tickets(t, rest));
      Spliced(s.commands, EmittedBy(s, es[0]), CommandsOf(TicketOf(s, es[0])), t.commands,
              Emitted(t, rest), CommandsOf(Tickets(t, rest)), Run(t, rest).commands);
    } else {
      assert CommandsOf(Tickets(s, es)) + s.commands == s.commands + Emitted(s, es);
    }
  }

  // ---- The log queue --------------------------------------------------------

  /** What one step puts at the end of the log queue, and what it takes off its front, read off the queue alone. */
  function LogsPut(s: Sys, t: Sys): seq<LogLevel> {
    if |t.logs| > |s.logs| then t.logs[|s.logs|..] else []
  }

  /** A log as the supervisor meets it: with the time it takes it. */
  datatype TakenLog = TakenLog(level: LogLevel, at: nat)

  function LogsOff(s: Sys, t: Sys): seq<TakenLog> {
    if |t.logs| < |s.logs|
    then seq(|s.logs| - |t.logs|, i requires 0 <= i < |s.logs| - |t.logs| => TakenLog(s.logs[i], s.now))
    else []
  }

  ghost function LogsPublished(s: Sys, es: seq<Event>): seq<LogLevel>
    decreases |es|
  {
    if es == [] then [] else LogsPut(s, Apply(s, es[0])) + LogsPublished(Apply(s, es[0]), es[1..])
  }

  ghost function LogsTaken(s: Sys, es: seq<Event>): seq<TakenLog>
    decreases |es|
  {
    if es == [] then [] else LogsOff(s, Apply(s, es[0])) + LogsTaken(Apply(s, es[0]), es[1..])
  }

  function Levels(taken: seq<TakenLog>): seq<LogLevel> {
    seq(|taken|, i requires 0 <= i < |taken| => taken[i].level)
  }

  /** The times of the Error logs taken: the errors a reader of the queue would count. */
  function ErrorsTaken(taken: seq<TakenLog>): seq<int> {
    if taken == [] then []
    else (if taken[0].level.Error? then [taken[0].at] else []) + ErrorsTaken(taken[1..])
  }

  /** Who publishes which level: the supervisor's trip ends with an Error, the executor's report and the host's
      decision are not errors, and outsiders publish as they like. Nothing is put into a full queue. */
  function LogDue(s: Sys, e: Event): seq<LogLevel> {
    if |s.logs| >= 1024 then []
    else
      match e
      case Report => if s.phase.Published? then [Other] else []
      case Emit(h) => if h < |s.hosts| && s.hosts[h] == Emitting([]) then [Other] else []
      case SendControl => if s.trip.SendLog? then [Error] else []
      case OutsideLog(level) => [level]
      case _ => []
  }

  /** The supervisor takes one log at a time, and none in the middle of a trip. */
  function LogDueOff(s: Sys, e: Event): seq<TakenLog> {
    if e.ConsumeLog? && s.trip.Sent? && s.logs != [] then [TakenLog(s.logs[0], s.now)] else []
  }

  lemma ExecutorLogs(s: Sys, e: Event)
    requires OfExecutor(e)
    ensures ExecutorStep(s, e).logs == s.logs + LogDue(s, e)
  {
  }

  lemma HostLogs(s: Sys, e: Event)
    requires OfHosts(e)
    ensures HostStep(s, e).logs == s.logs + LogDue(s, e)
  {
  }

  lemma RiskLogs(s: Sys, e: Event)
    requires !OfExecutor(e) && !OfHosts(e)
    ensures var t := RiskStep(s, e);
            if e.ConsumeLog? && s.trip.Sent? && s.logs != [] then t.logs == s.logs[1..]
            else t.logs == s.logs + LogDue(s, e)
  {
    SuperviseFrame(s, e);
  }

  /** Every step moves the log queue as its task should, and no other way. */
  lemma LogStep(s: Sys, e: Event)
    ensures var t := Apply(s, e);
            && LogsPut(s, t) == LogDue(s, e) && LogsOff(s, t) == LogDueOff(s, e)
            && s.logs + LogsPut(s, t) == Levels(LogsOff(s, t)) + t.logs
  {
    var t := Apply(s, e);
    if OfExecutor(e) {
      ExecutorLogs(s, e);
      QueueGrew(s.logs, LogDue(s, e), t.logs);
    } else if OfHosts(e) {
      HostLogs(s, e);
      QueueGrew(s.logs, LogDue(s, e), t.logs);
    } else {
      RiskLogs(s, e);
      if LogDueOff(s, e) == [] {
        QueueGrew(s.logs, LogDue(s, e), t.logs);
      } else {
        assert s.logs == [s.logs[0]] + t.logs;
      }
    }
  }

  lemma QueueGrew<T>(before: seq<T>, put: seq<T>, after: seq<T>)
    requires after == before + put
    ensures after[|before|..] == put
  {
  }

  lemma LogBalance(s: Sys, e: Event)
    ensures s.logs + LogsPut(s, Apply(s, e)) == Levels(LogsOff(s, Apply(s, e))) + Apply(s, e).logs
  {
    LogStep(s, e);
  }

  lemma LevelsJoin(a: seq<TakenLog>, b: seq<TakenLog>)
    ensures Levels(a + b) == Levels(a) + Levels(b)
  {
  }

  /** Every log published is taken once, in publication order, or is still queued. */
  lemma {:induction false} LogsConserved(s: Sys, es: seq<Event>)
    ensures s.logs + LogsPublished(s, es) == Levels(LogsTaken(s, es)) + Run(s, es).logs
    decreases |es|
  {
    if es == [] {
      assert Levels(LogsTaken(s, es)) + s.logs == s.logs + LogsPublished(s, es);
    } else {
      var t, rest := Apply(s, es[0]), es[1..];
      LogBalance(s, es[0]);
      LogsConserved(t, rest);
      LevelsJoin(LogsOff(s, t), LogsTaken(t, rest));
      Spliced(s.logs, LogsPut(s, t), Levels(LogsOff(s, t)), t.logs,
              LogsPublished(t, rest), Levels(LogsTaken(t, rest)), Run(t, rest).logs);
    }
  }

  lemma {:induction false} ErrorTimesJoin(a: seq<Stamped>, b: seq<Stamped>)
    ensures ErrorTimes(a + b) == ErrorTimes(a) + ErrorTimes(b)
    decreases |b|
  {
    if b == [] {
      assert a + b == a;
    } else {
      var last := b[|b| - 1];
      assert (a + b)[..|a + b| - 1] == a + b[..|b| - 1];
      ErrorTimesJoin(a, b[..|b| - 1]);
      Regroup(ErrorTimes(a), ErrorTimes(b[..|b| - 1]), if last.input.ErrorEvent? then [last.now] else []);
    }
  }

  lemma {:induction false} ErrorsTakenJoin(a: seq<TakenLog>, b: seq<TakenLog>)
    ensures ErrorsTaken(a + b) == ErrorsTaken(a) + ErrorsTaken(b)
  {
    if a == [] {
      assert a + b == b;
    } else {
      assert (a + b)[1..] == a[1..] + b;
      ErrorsTakenJoin(a[1..], b);
      Regroup(if a[0].level.Error? then [a[0].at] else [], ErrorsTaken(a[1..]), ErrorsTaken(b));
    }
  }

  /** What one step takes off the queue is what the supervisor records: an Error at its time, and nothing else. */
  lemma ErrorStep(s: Sys, e: Event)
    ensures ErrorTimes(InputOf(s, e)) == ErrorsTaken(LogsOff(s, Apply(s, e)))
  {
    LogStep(s, e);
    if InputOf(s, e) != [] {
      var i := InputOf(s, e)[0];
      assert InputOf(s, e) == [] + [i];
      ErrorTimesPush([], i);
    }
    if LogDueOff(s, e) != [] {
      assert LogDueOff(s, e)[1..] == [];
    }
  }

  lemma ErrorTimesPush(ins: seq<Stamped>, i: Stamped)
    ensures ErrorTimes(ins + [i]) == ErrorTimes(ins) + (if i.input.ErrorEvent? then [i.now] else [])
  {
    assert (ins + [i])[..|ins|] == ins;
  }

  /** Over any run the errors the supervisor records are the Error logs taken off its queue, its own included, each
      at its time and in order; no other level counts. */
  lemma {:induction false} ErrorsAreErrorLogs(s: Sys, es: seq<Event>)
    ensures ErrorTimes(Inputs(s, es)) == ErrorsTaken(LogsTaken(s, es))
    decreases |es|
  {
    if es != [] {
      var t, rest := Apply(s, es[0]), es[1..];
      ErrorStep(s, es[0]);
      ErrorsAreErrorLogs(t, rest);
      ErrorTimesJoin(InputOf(s, es[0]), Inputs(t, rest));
      ErrorsTakenJoin(LogsOff(s, t), LogsTaken(t, rest));
    }
  }

  /** Between two points of a run the clock moves by what the run says, and nothing else moves it. */
  lemma {:induction false} ClockMoves(s: Sys, es: seq<Event>)
    ensures Run(s, es).now == s.now + Elapsed(es)
    decreases |es|
  {
    if es != [] {
      if OfExecutor(es[0]) { assert ExecutorStep(s, es[0]).now == s.now; }
      if !OfExecutor(es[0]) && !OfHosts(es[0]) { RiskFrame(s, es[0]); }
      ClockMoves(Apply(s, es[0]), es[1..]);
    }
  }

  function Elapsed(es: seq<Event>): nat
    decreases |es|
  {
    if es == [] then 0 else (if es[0].Advance? then es[0].elapsed else 0) + Elapsed(es[1..])
  }

  /** An Error log that reaches a clear supervisor allowing no errors trips it. */
  lemma OneErrorTrips(s: Sys)
    requires s.trip.Sent? && !s.risk.state.active && s.logs != [] && s.logs[0].Error?
    requires s.risk.limits.maxErrorRate == Some(0.0) && s.risk.state.lastErrors == []
    ensures var t := Apply(s, ConsumeLog); t.risk.state.active && t.trip.SendPause? && t.logs == s.logs[1..]
  {
    SuperviseFrame(s, ConsumeLog);
    assert Prune([s.now as int], s.now - WINDOW) == [s.now as int];
  }
}
