/** The bus behind its lock. The lock is fair: whoever asks for it waits in line, publishers share it, and a subscriber
    must have it alone, so that a waiting subscriber holds up every publisher behind it. */
module LockQueue {
  import opened Common
  import B = Bus

  datatype Ask = ToPublish(publisher: nat, subject: string, payload: string) | ToSubscribe(subject: string)

  datatype State = State(bus: B.State, waiting: seq<Ask>)

  function Start(publishers: nat): State { State(B.Empty(publishers), []) }

  datatype Event = Asks(ask: Ask) | Grant | Inside(step: B.Event)

  ghost predicate InLine(q: State, p: nat) {
    exists i :: 0 <= i < |q.waiting| && q.waiting[i].ToPublish? && q.waiting[i].publisher == p
  }

  /** A publisher asks for one publication at a time. */
  ghost predicate MayAsk(q: State, ask: Ask) {
    ask.ToPublish? ==>
      && ask.publisher < |q.bus.publishers| && q.bus.publishers[ask.publisher].Resting?
      && !InLine(q, ask.publisher)
  }

  /** What the bus does once the lock is granted. */
  function Opening(ask: Ask): B.Event {
    match ask
    case ToPublish(p, subject, payload) => B.Begin(p, subject, payload)
    case ToSubscribe(subject) => B.Subscribe(subject)
  }

  predicate Grantable(q: State) {
    q.waiting != [] && (q.waiting[0].ToSubscribe? ==> q.bus.Unlocked())
  }

  predicate TakesLock(step: B.Event) { step.Begin? || step.Subscribe? }

  /** What one event makes the bus do. */
  function BusSteps(q: State, e: Event): seq<B.Event> {
    match e
    case Asks(_) => []
    case Grant => if Grantable(q) then [Opening(q.waiting[0])] else []
    case Inside(step) => if TakesLock(step) then [] else [step]
  }

  ghost function Apply(q: State, e: Event): State
    requires B.SizesAgree(q.bus)
    ensures B.SizesAgree(Apply(q, e).bus)
  {
    match e
    case Asks(ask) => if MayAsk(q, ask) then q.(waiting := q.waiting + [ask]) else q
    case Grant =>
      if Grantable(q) then State(B.Apply(q.bus, Opening(q.waiting[0])), q.waiting[1..]) else q
    case Inside(step) => if TakesLock(step) then q else q.(bus := B.Apply(q.bus, step))
  }

  ghost function Run(q: State, es: seq<Event>): State
    requires B.SizesAgree(q.bus)
    ensures B.SizesAgree(Run(q, es).bus)
    decreases |es|
  {
    if es == [] then q else Run(Apply(q, es[0]), es[1..])
  }

  lemma {:induction false} RunAppend(q: State, es: seq<Event>, fs: seq<Event>)
    requires B.SizesAgree(q.bus)
    ensures Run(q, es + fs) == Run(Run(q, es), fs)
    decreases |es|
  {
    if es == [] {
      assert es + fs == fs;
    } else {
      assert (es + fs)[1..] == es[1..] + fs;
      RunAppend(Apply(q, es[0]), es[1..], fs);
    }
  }

  lemma RunTwo(q: State, e: Event, f: Event)
    requires B.SizesAgree(q.bus)
    ensures Run(q, [e, f]) == Apply(Apply(q, e), f)
  {
    assert [e, f][1..] == [f];
    assert Run(Apply(q, e), [f]) == Apply(Apply(q, e), f);
  }

  // ---- The line only delays -------------------------------------------------

  ghost function AllBusSteps(q: State, es: seq<Event>): seq<B.Event>
    requires B.SizesAgree(q.bus)
    decreases |es|
  {
    if es == [] then [] else BusSteps(q, es[0]) + AllBusSteps(Apply(q, es[0]), es[1..])
  }

  lemma StepIsBusStep(q: State, e: Event)
    requires B.SizesAgree(q.bus)
    ensures Apply(q, e).bus == B.Run(q.bus, BusSteps(q, e))
  {
    if BusSteps(q, e) != [] {
      var step := BusSteps(q, e)[0];
      assert BusSteps(q, e) == [step];
      assert B.Run(q.bus, [step]) == B.Apply(q.bus, step);
    }
  }

  /** Every run behind the lock is a run of the bus, which therefore keeps all its promises. */
  lemma {:induction false} RunIsBusRun(q: State, es: seq<Event>)
    requires B.SizesAgree(q.bus)
    ensures Run(q, es).bus == B.Run(q.bus, AllBusSteps(q, es))
    decreases |es|
  {
    if es != [] {
      var t := Apply(q, es[0]);
      StepIsBusStep(q, es[0]);
      RunIsBusRun(t, es[1..]);
      B.RunAppend(q.bus, BusSteps(q, es[0]), AllBusSteps(t, es[1..]));
    }
  }

  /** Publishers in line are at rest, and none is in line twice. */
  ghost predicate LineOk(q: State) {
    && (forall i :: 0 <= i < |q.waiting| && q.waiting[i].ToPublish? ==>
          q.waiting[i].publisher < |q.bus.publishers| && q.bus.publishers[q.waiting[i].publisher].Resting?)
    && (forall i, j :: 0 <= i < j < |q.waiting| && q.waiting[i].ToPublish? && q.waiting[j].ToPublish? ==>
          q.waiting[i].publisher != q.waiting[j].publisher)
  }

  ghost predicate Inv(q: State) { B.Inv(q.bus) && LineOk(q) }

  lemma StepKeepsLine(q: State, e: Event)
    requires B.SizesAgree(q.bus) && LineOk(q)
    ensures LineOk(Apply(q, e)) && |Apply(q, e).bus.publishers| == |q.bus.publishers|
  {
  }

  lemma {:induction false} RunKeepsInv(q: State, es: seq<Event>)
    requires Inv(q)
    ensures Inv(Run(q, es)) && |Run(q, es).bus.publishers| == |q.bus.publishers|
    decreases |es|
  {
    if es != [] {
      StepIsBusStep(q, es[0]);
      B.RunKeepsInv(q.bus, BusSteps(q, es[0]));
      StepKeepsLine(q, es[0]);
      RunKeepsInv(Apply(q, es[0]), es[1..]);
    }
  }

  // ---- A publisher at a full channel ----------------------------------------

  ghost predicate Full(b: B.State, c: nat) {
    c < |b.channels| && b.channels[c].live && |b.channels[c].log| >= b.channels[c].read + 1024
  }

  /** The publisher holds the lock and waits for room in this channel. */
  ghost predicate Jammed(b: B.State, p: nat, c: nat) {
    && p < |b.publishers| && b.publishers[p].Sending?
    && b.publishers[p].sent < |b.publishers[p].registered|
    && b.publishers[p].registered[b.publishers[p].sent] == c && Full(b, c)
  }

  /** The channel's receiver takes a message, or goes away. */
  predicate Relieves(e: Event, c: nat) { e == Inside(B.Receive(c)) || e == Inside(B.Drop(c)) }

  ghost predicate NoRelief(es: seq<Event>, c: nat) { forall e :: e in es ==> !Relieves(e, c) }

  lemma JamStays(q: State, e: Event, p: nat, c: nat)
    requires B.SizesAgree(q.bus) && Jammed(q.bus, p, c) && !Relieves(e, c)
    ensures Jammed(Apply(q, e).bus, p, c)
  {
  }

  /** As soon as the receiver takes a message or goes away, the publisher moves on: in the first case its message is
      delivered, in the second nothing is. */
  lemma ReliefEndsJam(q: State, e: Event, p: nat, c: nat)
    requires Inv(q) && Jammed(q.bus, p, c) && Relieves(e, c)
    ensures var t := Apply(Apply(q, e), Inside(B.Send(p)));
            var w, log := q.bus.publishers[p], q.bus.channels[c].log;
            && t.bus.publishers[p] == w.(sent := w.sent + 1)
            && t.bus.channels[c].log == if e == Inside(B.Receive(c)) then log + [w.msg] else log
  {
  }

  /** How often the lock is granted over a run. */
  ghost function Grants(q: State, es: seq<Event>): nat
    requires B.SizesAgree(q.bus)
    decreases |es|
  {
    if es == [] then 0
    else (if es[0].Grant? && Grantable(q) then 1 else 0) + Grants(Apply(q, es[0]), es[1..])
  }

  /** With a granted lock the publication begins, or the subscription is registered. */
  lemma GrantOpens(q: State)
    requires Inv(q) && Grantable(q)
    ensures var t := Apply(q, Grant);
            match q.waiting[0]
            case ToPublish(p, subject, payload) =>
              t.bus.publishers[p]
              == B.Sending(B.Message(p, q.bus.serials[p], payload), subject, q.bus.Registered(subject), 0)
            case ToSubscribe(subject) =>
              t.bus.Registered(subject) == q.bus.Registered(subject) + [|q.bus.channels|]
  {
  }

  /** While a publisher is jammed, a subscriber in line is never served, nor is anyone behind it. */
  lemma {:induction false} LineHeld(q: State, es: seq<Event>, p: nat, c: nat, i: nat)
    requires B.SizesAgree(q.bus) && Jammed(q.bus, p, c) && NoRelief(es, c)
    requires i < |q.waiting| && q.waiting[i].ToSubscribe?
    ensures Grants(q, es) <= i && Jammed(Run(q, es).bus, p, c)
    decreases |es|
  {
    if es != [] {
      JamStays(q, es[0], p, c);
      if es[0].Grant? && Grantable(q) {
        assert i > 0 && Apply(q, es[0]).waiting[i - 1] == q.waiting[i];
        LineHeld(Apply(q, es[0]), es[1..], p, c, i - 1);
      } else {
        assert Apply(q, es[0]).waiting[i] == q.waiting[i];
        LineHeld(Apply(q, es[0]), es[1..], p, c, i);
      }
    }
  }

  function Granting(k: nat): seq<Event> { seq(k, i => Grant) }

  lemma {:induction false} PublishersPass(q: State, k: nat)
    requires B.SizesAgree(q.bus) && k <= |q.waiting| && forall i :: 0 <= i < k ==> q.waiting[i].ToPublish?
    ensures Grants(q, Granting(k)) == k
    decreases k
  {
    if k > 0 {
      assert Granting(k)[1..] == Granting(k - 1);
      PublishersPass(Apply(q, Grant), k - 1);
    }
  }

  /** While a publisher is jammed, someone in line, on whatever subject, can be served without help from the full
      channel's receiver exactly when no subscriber stands there or ahead. */
  lemma ServedExactly(q: State, p: nat, c: nat, k: nat)
    requires Inv(q) && Jammed(q.bus, p, c) && k < |q.waiting|
    ensures (exists es :: NoRelief(es, c) && Grants(q, es) > k)
            <==> (forall i :: 0 <= i <= k ==> q.waiting[i].ToPublish?)
  {
    if forall i :: 0 <= i <= k ==> q.waiting[i].ToPublish? {
      PublishersPass(q, k + 1);
      assert NoRelief(Granting(k + 1), c);
    } else {
      var i :| 0 <= i <= k && q.waiting[i].ToSubscribe?;
      forall es | NoRelief(es, c) ensures Grants(q, es) <= k { LineHeld(q, es, p, c, i); }
    }
  }

  /** Only the publisher itself reads the channel, and only while it is not publishing. */
  ghost predicate ReadsItself(q: State, es: seq<Event>, p: nat, c: nat)
    requires B.SizesAgree(q.bus)
    decreases |es|
  {
    es != [] ==>
      && (Relieves(es[0], c) ==> p < |q.bus.publishers| && q.bus.publishers[p].Resting?)
      && ReadsItself(Apply(q, es[0]), es[1..], p, c)
  }

  /** A task jammed at a channel that only it reads stays so on every run, and one subscriber in line then stops all
      publishers behind it for good. */
  lemma {:induction false} SelfJamIsForever(q: State, es: seq<Event>, p: nat, c: nat)
    requires B.SizesAgree(q.bus) && Jammed(q.bus, p, c) && ReadsItself(q, es, p, c)
    ensures NoRelief(es, c) && Jammed(Run(q, es).bus, p, c)
    ensures forall i :: 0 <= i < |q.waiting| && q.waiting[i].ToSubscribe? ==> Grants(q, es) <= i
    decreases |es|
  {
    if es != [] {
      assert !Relieves(es[0], c);
      JamStays(q, es[0], p, c);
      SelfJamIsForever(Apply(q, es[0]), es[1..], p, c);
    }
    forall i | 0 <= i < |q.waiting| && q.waiting[i].ToSubscribe? ensures Grants(q, es) <= i {
      LineHeld(q, es, p, c, i);
    }
  }

  // ---- When the bus is stuck ------------------------------------------------

  /** There is something left to do, and only a receiver can bring it forward. */
  ghost predicate Stuck(q: State)
    requires B.SizesAgree(q.bus)
  {
    && (q.waiting != [] || !q.bus.Unlocked())
    && Apply(q, Grant) == q
    && forall p :: Apply(q, Inside(B.Send(p))) == q && Apply(q, Inside(B.Finish(p))) == q
  }

  ghost predicate AtFullChannel(b: B.State, p: nat)
    requires p < |b.publishers| && b.publishers[p].Sending?
  {
    exists c :: Jammed(b, p, c)
  }

  lemma GrantMoves(q: State)
    requires B.SizesAgree(q.bus)
    ensures Apply(q, Grant) == q <==> !Grantable(q)
  {
    if Grantable(q) {
      assert |Apply(q, Grant).waiting| < |q.waiting|;
    }
  }

  lemma PublisherMoves(q: State, p: nat)
    requires Inv(q) && p < |q.bus.publishers| && q.bus.publishers[p].Sending? && !AtFullChannel(q.bus, p)
    ensures Apply(q, Inside(B.Send(p))) != q || Apply(q, Inside(B.Finish(p))) != q
  {
    var w := q.bus.publishers[p];
    assert B.PublisherOk(q.bus, p);
    if w.sent < |w.registered| {
      assert !Jammed(q.bus, p, w.registered[w.sent]);
      assert Apply(q, Inside(B.Send(p))).bus.publishers[p] == w.(sent := w.sent + 1);
    } else {
      assert Apply(q, Inside(B.Finish(p))).bus.publishers[p].Resting?;
    }
  }

  lemma JammedStands(q: State, p: nat)
    requires B.SizesAgree(q.bus)
    requires p < |q.bus.publishers| && q.bus.publishers[p].Sending? ==> AtFullChannel(q.bus, p)
    ensures Apply(q, Inside(B.Send(p))) == q && Apply(q, Inside(B.Finish(p))) == q
  {
  }

  /** The bus is stuck exactly when publishers are under way, each of them at a full channel, and the line, if there
      is one, begins with a subscriber. */
  lemma StuckExactly(q: State)
    requires Inv(q)
    ensures Stuck(q) <==>
            && !q.bus.Unlocked()
            && (forall p :: 0 <= p < |q.bus.publishers| && q.bus.publishers[p].Sending? ==> AtFullChannel(q.bus, p))
            && (q.waiting != [] ==> q.waiting[0].ToSubscribe?)
  {
    GrantMoves(q);
    if Stuck(q) {
      forall p | 0 <= p < |q.bus.publishers| && q.bus.publishers[p].Sending? ensures AtFullChannel(q.bus, p) {
        if !AtFullChannel(q.bus, p) { PublisherMoves(q, p); }
      }
    } else if
      && !q.bus.Unlocked()
      && (forall p :: 0 <= p < |q.bus.publishers| && q.bus.publishers[p].Sending? ==> AtFullChannel(q.bus, p))
      && (q.waiting != [] ==> q.waiting[0].ToSubscribe?)
    {
      forall p: nat ensures Apply(q, Inside(B.Send(p))) == q && Apply(q, Inside(B.Finish(p))) == q {
        JammedStands(q, p);
      }
    }
  }

  // ---- Which buses can come to a halt ---------------------------------------

  /** The bus is stuck with a publication in line that would not need to send anything at all. */
  ghost predicate Halted(q: State, other: string)
    requires B.SizesAgree(q.bus)
  {
    && Stuck(q) && q.bus.Registered(other) == []
    && exists j :: 0 <= j < |q.waiting| && q.waiting[j].ToPublish? && q.waiting[j].subject == other
  }

  /** A halt needs the receiver of a full channel to end. */
  lemma HaltHolds(q: State, other: string)
    requires Inv(q) && Halted(q, other)
    ensures exists p, c :: Jammed(q.bus, p, c) && forall es :: NoRelief(es, c) ==> Grants(q, es) == 0
  {
    StuckExactly(q);
    var p :| 0 <= p < |q.bus.publishers| && !q.bus.publishers[p].Resting?;
    assert AtFullChannel(q.bus, p);
    var c :| Jammed(q.bus, p, c);
    forall es | NoRelief(es, c) ensures Grants(q, es) == 0 { LineHeld(q, es, p, c, 0); }
  }

  function Logged(k: nat): seq<B.Message> { seq(k, i requires 0 <= i < k => B.Message(0, i, "")) }

  function Delivered(k: nat): seq<B.Delivery> {
    seq(k, i requires 0 <= i < k => B.Delivery(B.Message(0, i, ""), [0]))
  }

  /** One subscriber, which has not read any of the `k` messages of the first publisher. */
  function Unread(n: nat, subject: string, k: nat): State
    requires n > 0
  {
    State(B.State(map[subject := [0]], [B.Channel(Logged(k), 0, true)],
                  B.Empty(n).publishers, B.Empty(n).serials[0 := k], Delivered(k)), [])
  }

  /** The first publisher has the lock for one more. */
  function Publishing(n: nat, subject: string, k: nat): State
    requires n > 0
  {
    var q := Unread(n, subject, k);
    q.(bus := q.bus.(publishers := q.bus.publishers[0 := B.Sending(B.Message(0, k, ""), subject, [0], 0)],
                     serials := q.bus.serials[0 := k + 1]))
  }

  lemma Subscribed(n: nat, subject: string)
    requires n > 0
    ensures Run(Start(n), [Asks(ToSubscribe(subject)), Grant]) == Unread(n, subject, 0)
  {
    RunTwo(Start(n), Asks(ToSubscribe(subject)), Grant);
    var a := Apply(Start(n), Asks(ToSubscribe(subject)));
    assert a.waiting == [ToSubscribe(subject)];
    var t := Apply(a, Grant);
    assert a.bus.Registered(subject) + [0] == [0] && Logged(0) == [];
    assert t.bus == B.Apply(a.bus, B.Subscribe(subject));
    assert t.bus.subscribers == map[subject := [0]] && t.bus.channels == [B.Channel(Logged(0), 0, true)];
    assert t.bus.serials == Unread(n, subject, 0).bus.serials;
  }

  lemma PublishBegins(n: nat, subject: string, k: nat)
    requires n > 0
    ensures Run(Unread(n, subject, k), [Asks(ToPublish(0, subject, "")), Grant]) == Publishing(n, subject, k)
  {
    var q := Unread(n, subject, k);
    RunTwo(q, Asks(ToPublish(0, subject, "")), Grant);
    var a := Apply(q, Asks(ToPublish(0, subject, "")));
    assert a.waiting == [ToPublish(0, subject, "")];
    assert Apply(a, Grant).bus.serials == Publishing(n, subject, k).bus.serials;
  }

  lemma PublishEnds(n: nat, subject: string, k: nat)
    requires n > 0 && k < CAPACITY
    ensures Run(Publishing(n, subject, k), [Inside(B.Send(0)), Inside(B.Finish(0))]) == Unread(n, subject, k + 1)
  {
    var q := Publishing(n, subject, k);
    RunTwo(q, Inside(B.Send(0)), Inside(B.Finish(0)));
    var a := Apply(q, Inside(B.Send(0)));
    assert Logged(k) + [B.Message(0, k, "")] == Logged(k + 1);
    assert a.bus.channels == [B.Channel(Logged(k + 1), 0, true)];
    var b := Apply(a, Inside(B.Finish(0)));
    assert b.bus.publishers == B.Empty(n).publishers && b.bus.done == Delivered(k + 1);
    assert b.bus.serials == B.Empty(n).serials[0 := k + 1];
  }

  lemma {:induction false} UnreadReachable(n: nat, subject: string, k: nat) returns (es: seq<Event>)
    requires n > 0 && k <= CAPACITY
    ensures Run(Start(n), es) == Unread(n, subject, k)
  {
    if k == 0 {
      es := [Asks(ToSubscribe(subject)), Grant];
      Subscribed(n, subject);
    } else {
      var before := UnreadReachable(n, subject, k - 1);
      var asks, sends := [Asks(ToPublish(0, subject, "")), Grant], [Inside(B.Send(0)), Inside(B.Finish(0))];
      PublishBegins(n, subject, k - 1);
      PublishEnds(n, subject, k - 1);
      RunAppend(Start(n), before, asks);
      RunAppend(Start(n), before + asks, sends);
      es := before + asks + sends;
    }
  }

  lemma HaltFrom(n: nat, busy: string, other: string)
    requires n >= 2 && busy != other && Inv(Publishing(n, busy, CAPACITY))
    ensures var q := Publishing(n, busy, CAPACITY);
            Halted(Run(q, [Asks(ToSubscribe(busy)), Asks(ToPublish(1, other, ""))]), other)
  {
    var q := Publishing(n, busy, CAPACITY);
    var asks := [Asks(ToSubscribe(busy)), Asks(ToPublish(1, other, ""))];
    RunTwo(q, asks[0], asks[1]);
    var t := Run(q, asks);
    assert t == q.(waiting := [ToSubscribe(busy), ToPublish(1, other, "")]);
    RunKeepsInv(q, asks);
    assert Jammed(t.bus, 0, 0);
    StuckExactly(t);
    assert t.waiting[1].ToPublish? && t.waiting[1].subject == other;
  }

  lemma HaltReachable(n: nat, busy: string, other: string)
    requires n >= 2 && busy != other
    ensures exists es :: Halted(Run(Start(n), es), other)
  {
    var filling := UnreadReachable(n, busy, CAPACITY);
    var asks := [Asks(ToPublish(0, busy, "")), Grant];
    var more := [Asks(ToSubscribe(busy)), Asks(ToPublish(1, other, ""))];
    PublishBegins(n, busy, CAPACITY);
    RunAppend(Start(n), filling, asks);
    RunKeepsInv(Start(n), filling + asks);
    HaltFrom(n, busy, other);
    RunAppend(Start(n), filling + asks, more);
    assert Halted(Run(Start(n), filling + asks + more), other);
  }

  lemma HaltNeedsTwo(q: State, other: string)
    requires Inv(q) && Halted(q, other)
    ensures |q.bus.publishers| >= 2
  {
    StuckExactly(q);
    var p :| 0 <= p < |q.bus.publishers| && !q.bus.publishers[p].Resting?;
    var j :| 0 <= j < |q.waiting| && q.waiting[j].ToPublish?;
    assert q.waiting[j].publisher != p;
  }

  /** From the empty bus a halt of another subject can be reached exactly when there is a second publisher to halt. */
  lemma HaltReachableExactly(n: nat, other: string)
    ensures (exists es :: Halted(Run(Start(n), es), other)) <==> n >= 2
  {
    if n >= 2 {
      assert other + "'" != other;
      HaltReachable(n, other + "'", other);
    } else {
      forall es ensures !Halted(Run(Start(n), es), other) {
        RunKeepsInv(Start(n), es);
        if Halted(Run(Start(n), es), other) { HaltNeedsTwo(Run(Start(n), es), other); }
      }
    }
  }
}
