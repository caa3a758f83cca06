/** The traffic shaper: one semaphore per tag, and a map mutex held while waiting for a permit. */
module Shaper {
  import opened Common

  datatype Stage = Fresh | Waiting | Running | Finished

  datatype Request = Request(tag: string, stage: Stage)

  /** `holder` has the map mutex. All clones of a shaper share the map and the limit. */
  datatype State = State(limit: Option<nat>, permits: map<string, nat>, holder: Option<nat>, requests: seq<Request>)

  function Start(limit: Option<nat>): State { State(limit, map[], None, []) }

  datatype Event = Arrive(tag: string) | Lock(request: nat) | Acquire(request: nat) | Complete(request: nat)

  /** One atomic step; a step that must wait changes nothing. */
  function Apply(s: State, e: Event): State {
    match e
    case Arrive(tag) => s.(requests := s.requests + [Request(tag, Fresh)])
    case Lock(r) =>
      if r >= |s.requests| || !s.requests[r].stage.Fresh? then s
      else if s.limit.None? then Move(s, r, Running)
      else if s.holder.Some? then s
      else
        var tag := s.requests[r].tag;
        Move(s, r, Waiting).(holder := Some(r),
                             permits := if tag in s.permits then s.permits else s.permits[tag := s.limit.value])
    case Acquire(r) =>
      if s.holder != Some(r) || r >= |s.requests| then s
      else
        var tag := s.requests[r].tag;
        if tag !in s.permits || s.permits[tag] == 0 then s
        else Move(s, r, Running).(holder := None, permits := s.permits[tag := s.permits[tag] - 1])
    case Complete(r) =>
      if r >= |s.requests| || !s.requests[r].stage.Running? then s
      else
        var tag := s.requests[r].tag;
        Move(s, r, Finished).(permits := if tag in s.permits then s.permits[tag := s.permits[tag] + 1] else s.permits)
  }

  function Move(s: State, r: nat, stage: Stage): State
    requires r < |s.requests|
  {
    s.(requests := s.requests[r := s.requests[r].(stage := stage)])
  }

  function Run(s: State, es: seq<Event>): State
    decreases |es|
  {
    if es == [] then s else Run(Apply(s, es[0]), es[1..])
  }

  lemma {:induction false} RunAppend(s: State, es: seq<Event>, fs: seq<Event>)
    ensures Run(s, es + fs) == Run(Run(s, es), fs)
    decreases |es|
  {
    if es == [] {
      assert es + fs == fs;
    } else {
      assert (es + fs)[1..] == es[1..] + fs;
      RunAppend(Apply(s, es[0]), es[1..], fs);
    }
  }

  lemma RunPush(s: State, es: seq<Event>, e: Event)
    ensures Run(s, es + [e]) == Apply(Run(s, es), e)
  {
    RunAppend(s, es, [e]);
  }

  lemma RunTwo(s: State, e: Event, f: Event)
    ensures Run(s, [e, f]) == Apply(Apply(s, e), f)
  {
    assert [e, f] == [e] + [f];
    RunPush(s, [e], f);
  }

  lemma RunThree(s: State, e: Event, f: Event, g: Event)
    ensures Run(s, [e, f, g]) == Apply(Apply(Apply(s, e), f), g)
  {
    assert [e, f, g] == [e, f] + [g];
    RunTwo(s, e, f);
    RunPush(s, [e, f], g);
  }

  /** Requests of one tag that are past the shaper and not yet done. */
  function InFlight(rs: seq<Request>, tag: string): nat {
    if rs == [] then 0
    else (if rs[0] == Request(tag, Running) then 1 else 0) + InFlight(rs[1..], tag)
  }

  lemma {:induction false} InFlightUpdate(rs: seq<Request>, i: nat, r: Request, tag: string)
    requires i < |rs|
    ensures InFlight(rs[i := r], tag) + (if rs[i] == Request(tag, Running) then 1 else 0)
            == InFlight(rs, tag) + (if r == Request(tag, Running) then 1 else 0)
  {
    if i > 0 {
      InFlightUpdate(rs[1..], i - 1, r, tag);
      assert rs[i := r][1..] == rs[1..][i - 1 := r];
    } else {
      assert rs[0 := r][1..] == rs[1..];
    }
  }

  lemma {:induction false} InFlightPush(rs: seq<Request>, r: Request, tag: string)
    requires !r.stage.Running?
    ensures InFlight(rs + [r], tag) == InFlight(rs, tag)
  {
    if rs != [] {
      assert (rs + [r])[1..] == rs[1..] + [r];
      InFlightPush(rs[1..], r, tag);
    }
  }

  ghost predicate Conserved(s: State, tag: string) {
    s.limit.Some? ==>
      if tag in s.permits then s.permits[tag] + InFlight(s.requests, tag) == s.limit.value
      else InFlight(s.requests, tag) == 0
  }

  /** Permits and holders add up for every tag, and whoever waits holds the map mutex. */
  ghost predicate Inv(s: State) {
    && (forall tag :: Conserved(s, tag))
    && (forall r :: 0 <= r < |s.requests| && s.requests[r].stage.Waiting? ==> s.holder == Some(r))
    && (s.holder.Some? ==> s.limit.Some? && s.holder.value < |s.requests|
                           && s.requests[s.holder.value].stage.Waiting? && s.requests[s.holder.value].tag in s.permits)
    && (s.limit.Some? ==>
          forall r :: 0 <= r < |s.requests| && s.requests[r].stage.Running? ==> s.requests[r].tag in s.permits)
  }

  lemma StepConserves(s: State, e: Event, tag: string)
    requires Inv(s)
    ensures Conserved(Apply(s, e), tag)
  {
    assert Conserved(s, tag);
    var t := Apply(s, e);
    match e {
      case Arrive(new_) => InFlightPush(s.requests, Request(new_, Fresh), tag);
      case Lock(r) => if r < |s.requests| && t != s { InFlightUpdate(s.requests, r, t.requests[r], tag); }
      case Acquire(r) => if r < |s.requests| && t != s { InFlightUpdate(s.requests, r, t.requests[r], tag); }
      case Complete(r) => if r < |s.requests| && t != s { InFlightUpdate(s.requests, r, t.requests[r], tag); }
    }
  }

  lemma StepKeepsInv(s: State, e: Event)
    requires Inv(s)
    ensures Inv(Apply(s, e))
  {
    forall tag ensures Conserved(Apply(s, e), tag) { StepConserves(s, e, tag); }
  }

  lemma {:induction false} RunKeepsInv(s: State, es: seq<Event>)
    requires Inv(s)
    ensures Inv(Run(s, es)) && Run(s, es).limit == s.limit
    decreases |es|
  {
    if es != [] {
      StepKeepsInv(s, es[0]);
      RunKeepsInv(Apply(s, es[0]), es[1..]);
    }
  }

  /** Under any schedule, whatever the clones: permits left plus requests in flight make the limit, so no tag ever
      exceeds it, and at most one request waits on any semaphore at all. */
  lemma LimitHolds(limit: nat, es: seq<Event>, tag: string)
    ensures var s := Run(Start(Some(limit)), es);
            && InFlight(s.requests, tag) <= limit
            && (tag in s.permits ==> s.permits[tag] + InFlight(s.requests, tag) == limit)
            && (forall r, q :: 0 <= r < q < |s.requests| ==>
                  !(s.requests[r].stage.Waiting? && s.requests[q].stage.Waiting?))
  {
    RunKeepsInv(Start(Some(limit)), es);
    var s := Run(Start(Some(limit)), es);
    assert Conserved(s, tag);
  }

  // ---- Progress -------------------------------------------------------------

  function Weight(stage: Stage): nat {
    match stage
    case Fresh => 3
    case Waiting => 2
    case Running => 1
    case Finished => 0
  }

  /** Steps that can still be taken before every request is done. */
  function Remaining(rs: seq<Request>): nat {
    if rs == [] then 0 else Weight(rs[0].stage) + Remaining(rs[1..])
  }

  lemma {:induction false} RemainingUpdate(rs: seq<Request>, i: nat, r: Request)
    requires i < |rs|
    ensures Remaining(rs[i := r]) + Weight(rs[i].stage) == Remaining(rs) + Weight(r.stage)
  {
    if i > 0 {
      RemainingUpdate(rs[1..], i - 1, r);
      assert rs[i := r][1..] == rs[1..][i - 1 := r];
    } else {
      assert rs[0 := r][1..] == rs[1..];
    }
  }

  /** Every step that does anything brings the requests present closer to their end. */
  lemma StepDecreases(s: State, e: Event)
    requires Inv(s) && !e.Arrive? && Apply(s, e) != s
    ensures Remaining(Apply(s, e).requests) < Remaining(s.requests)
  {
    RemainingUpdate(s.requests, e.request, Apply(s, e).requests[e.request]);
  }

  /** The steps of a run that did something. */
  function Effective(s: State, es: seq<Event>): nat
    decreases |es|
  {
    if es == [] then 0 else (if Apply(s, es[0]) != s then 1 else 0) + Effective(Apply(s, es[0]), es[1..])
  }

  /** However they are scheduled, the requests present take at most three steps each. */
  lemma {:induction false} RunsEnd(s: State, es: seq<Event>)
    requires Inv(s) && forall e :: e in es ==> !e.Arrive?
    ensures Effective(s, es) + Remaining(Run(s, es).requests) <= Remaining(s.requests) <= 3 * |s.requests|
    decreases |es|
  {
    RemainingBound(s.requests);
    if es != [] {
      StepKeepsInv(s, es[0]);
      if Apply(s, es[0]) != s { StepDecreases(s, es[0]); }
      RunsEnd(Apply(s, es[0]), es[1..]);
    }
  }

  lemma RemainingBound(rs: seq<Request>)
    ensures Remaining(rs) <= 3 * |rs|
  {
  }

  ghost predicate AllFinished(s: State) {
    forall r :: 0 <= r < |s.requests| ==> s.requests[r].stage.Finished?
  }

  ghost predicate Stuck(s: State) {
    !AllFinished(s) && forall e: Event :: !e.Arrive? ==> Apply(s, e) == s
  }

  lemma {:induction false} SomeoneRuns(rs: seq<Request>, tag: string) returns (r: nat)
    requires InFlight(rs, tag) > 0
    ensures r < |rs| && rs[r] == Request(tag, Running)
  {
    if rs[0] == Request(tag, Running) {
      r := 0;
    } else {
      r := SomeoneRuns(rs[1..], tag);
      r := r + 1;
    }
  }

  /** With a limit of at least one, or none, some request can always move on until all are done. */
  lemma NeverStuck(s: State)
    requires Inv(s) && s.limit != Some(0)
    ensures !Stuck(s)
  {
    if !AllFinished(s) {
      var e := Complete(0);
      if s.holder.Some? {
        var tag := s.requests[s.holder.value].tag;
        assert Conserved(s, tag);
        if s.permits[tag] > 0 {
          e := Acquire(s.holder.value);
        } else {
          var r := SomeoneRuns(s.requests, tag);
          e := Complete(r);
        }
      } else {
        var r :| 0 <= r < |s.requests| && !s.requests[r].stage.Finished?;
        e := if s.requests[r].stage.Fresh? then Lock(r) else Complete(r);
      }
      var moved := Apply(s, e).requests;
      assert moved != s.requests by {
        assert moved[e.request].stage != s.requests[e.request].stage;
      }
    }
  }

  /** A lone request waiting on a semaphore that never had a permit. */
  const DEADLOCK: State := State(Some(0), map["t" := 0], Some(0), [Request("t", Waiting)])

  lemma ZeroReachesDeadlock()
    ensures Run(Start(Some(0)), [Arrive("t")] + [Lock(0)]) == DEADLOCK
  {
    var s := Apply(Start(Some(0)), Arrive("t"));
    assert s == State(Some(0), map[], None, [Request("t", Fresh)]);
    assert Run(Start(Some(0)), [Arrive("t")]) == s;
    RunPush(Start(Some(0)), [Arrive("t")], Lock(0));
    assert Apply(s, Lock(0)).requests == DEADLOCK.requests;
  }

  lemma DeadlockSticks()
    ensures Stuck(DEADLOCK)
  {
    assert DEADLOCK.requests[0].stage.Waiting?;
  }

  /** A deadlock is reachable exactly when the configured limit is zero. */
  lemma DeadlockExactly(limit: Option<nat>)
    ensures (exists es :: Stuck(Run(Start(limit), es))) <==> limit == Some(0)
  {
    if limit == Some(0) {
      ZeroReachesDeadlock();
      DeadlockSticks();
    } else {
      forall es ensures !Stuck(Run(Start(limit), es)) {
        RunKeepsInv(Start(limit), es);
        NeverStuck(Run(Start(limit), es));
      }
    }
  }

  // ---- Head of line ---------------------------------------------------------

  /** No request of this tag completes during the run. */
  predicate NoneCompletes(s: State, es: seq<Event>, tag: string)
    decreases |es|
  {
    es != [] ==>
      && !(es[0].Complete? && es[0].request < |s.requests| && s.requests[es[0].request] == Request(tag, Running))
      && NoneCompletes(Apply(s, es[0]), es[1..], tag)
  }

  /** The holder of the map mutex waits for a permit of a busy tag. */
  ghost predicate HeldUp(s: State) {
    Inv(s) && s.holder.Some? && s.permits[s.requests[s.holder.value].tag] == 0
  }

  /** The requests that were fresh are still fresh, and so are those that came after. */
  ghost predicate NothingGotIn(before: seq<Request>, after: seq<Request>) {
    && |before| <= |after|
    && forall r :: 0 <= r < |after| ==>
         if r < |before| then (before[r].stage.Fresh? || after[r].stage.Running? ==> after[r] == before[r])
         else after[r].stage.Fresh?
  }

  lemma HeldUpStep(s: State, e: Event)
    requires HeldUp(s) && NoneCompletes(s, [e], s.requests[s.holder.value].tag)
    ensures var t := Apply(s, e);
            && HeldUp(t) && t.holder == s.holder && NothingGotIn(s.requests, t.requests)
            && t.requests[t.holder.value] == s.requests[s.holder.value]
  {
    StepKeepsInv(s, e);
  }

  /** While the holder waits for a permit of a busy tag, no request of any tag, busy or idle, gets in until one of
      the holder's tag completes. */
  lemma {:induction false} HeadOfLine(s: State, es: seq<Event>)
    requires HeldUp(s) && NoneCompletes(s, es, s.requests[s.holder.value].tag)
    ensures var t := Run(s, es);
            HeldUp(t) && t.holder == s.holder && NothingGotIn(s.requests, t.requests)
    decreases |es|
  {
    if es != [] {
      assert NoneCompletes(Apply(s, es[0]), [es[0]][1..], s.requests[s.holder.value].tag);
      HeldUpStep(s, es[0]);
      HeadOfLine(Apply(s, es[0]), es[1..]);
    }
  }

  lemma HolderServed(s: State, q: nat)
    requires HeldUp(s) && q < |s.requests| && s.requests[q] == Request(s.requests[s.holder.value].tag, Running)
    ensures var h, tag := s.holder.value, s.requests[q].tag;
            Apply(Apply(s, Complete(q)), Acquire(h))
            == s.(holder := None, requests := s.requests[q := Request(tag, Finished)][h := Request(tag, Running)])
  {
    var h, tag := s.holder.value, s.requests[q].tag;
    var a := Apply(s, Complete(q));
    assert a.permits == s.permits[tag := 1];
    assert a.permits[tag := 0] == s.permits;
    assert Apply(a, Acquire(h)).permits == s.permits;
  }

  lemma NextServed(s: State, i: nat)
    requires s.holder.None? && s.limit.Some? && i < |s.requests| && s.requests[i].stage.Fresh?
    requires var tag := s.requests[i].tag; if tag in s.permits then s.permits[tag] > 0 else s.limit.value > 0
    ensures var t := Apply(Apply(s, Lock(i)), Acquire(i));
            t.holder.None? && t.requests == s.requests[i := Request(s.requests[i].tag, Running)]
  {
  }

  /** The hold-up ends with one completion: some request of the holder's tag is running, and once it is done the
      holder gets its permit, and any fresh request of another tag below its limit can follow at once. */
  lemma HeadOfLineEnds(s: State, i: nat)
    requires HeldUp(s) && s.limit != Some(0)
    requires i < |s.requests| && s.requests[i].stage.Fresh?
    requires InFlight(s.requests, s.requests[i].tag) < s.limit.value
    ensures var h := s.holder.value;
            var busy, idle := s.requests[h].tag, s.requests[i].tag;
            exists q: nat :: q < |s.requests| && s.requests[q] == Request(busy, Running)
              && Run(s, [Complete(q), Acquire(h)] + [Lock(i), Acquire(i)]).requests
                 == s.requests[q := Request(busy, Finished)][h := Request(busy, Running)][i := Request(idle, Running)]
  {
    var h := s.holder.value;
    assert Conserved(s, s.requests[h].tag) && Conserved(s, s.requests[i].tag);
    var q := SomeoneRuns(s.requests, s.requests[h].tag);
    HolderServed(s, q);
    RunTwo(s, Complete(q), Acquire(h));
    var t := Run(s, [Complete(q), Acquire(h)]);
    NextServed(t, i);
    RunTwo(t, Lock(i), Acquire(i));
    RunAppend(s, [Complete(q), Acquire(h)], [Lock(i), Acquire(i)]);
  }

  /** `n` requests of one tag running under a limit of `limit`, and none else. */
  function Busy(limit: nat, tag: string, n: nat): State
    requires n <= limit
  {
    State(Some(limit), if n == 0 then map[] else map[tag := limit - n], None, seq(n, i => Request(tag, Running)))
  }

  /** The calls that get there. */
  function Filling(tag: string, n: nat): seq<Event> {
    if n == 0 then [] else Filling(tag, n - 1) + [Arrive(tag), Lock(n - 1), Acquire(n - 1)]
  }

  lemma OneMoreIn(limit: nat, tag: string, n: nat)
    requires n < limit
    ensures Run(Busy(limit, tag, n), [Arrive(tag), Lock(n), Acquire(n)]) == Busy(limit, tag, n + 1)
  {
    var s := Busy(limit, tag, n);
    RunThree(s, Arrive(tag), Lock(n), Acquire(n));
    var a := Apply(s, Arrive(tag));
    var b := Apply(a, Lock(n));
    assert b.requests == s.requests + [Request(tag, Waiting)] && b.permits == map[tag := limit - n];
    var c := Apply(b, Acquire(n));
    assert c.requests == Busy(limit, tag, n + 1).requests && c.permits == map[tag := limit - n - 1];
  }

  lemma {:induction false} BusyReachable(limit: nat, tag: string, n: nat)
    requires n <= limit
    ensures Run(Start(Some(limit)), Filling(tag, n)) == Busy(limit, tag, n)
    decreases n
  {
    if n > 0 {
      BusyReachable(limit, tag, n - 1);
      OneMoreIn(limit, tag, n - 1);
      RunAppend(Start(Some(limit)), Filling(tag, n - 1), [Arrive(tag), Lock(n - 1), Acquire(n - 1)]);
    } else {
      assert Busy(limit, tag, 0).requests == [];
    }
  }

  /** A request of an idle tag waits behind the holder, which waits on a busy one. */
  ghost predicate HoldsUpIdle(s: State, busy: string, idle: string) {
    && HeldUp(s) && s.requests[s.holder.value].tag == busy
    && Request(idle, Fresh) in s.requests && InFlight(s.requests, idle) == 0
  }

  /** Under every limit a busy tag can come to hold up an idle one. */
  lemma HeadOfLineReachable(limit: nat, busy: string, idle: string)
    requires busy != idle
    ensures exists es :: HoldsUpIdle(Run(Start(Some(limit)), es), busy, idle)
  {
    var start, full := Start(Some(limit)), Busy(limit, busy, limit);
    var last := [Arrive(busy), Arrive(idle), Lock(limit)];
    BusyReachable(limit, busy, limit);
    RunAppend(start, Filling(busy, limit), last);
    RunThree(full, Arrive(busy), Arrive(idle), Lock(limit));
    RunKeepsInv(start, Filling(busy, limit) + last);
    HoldsUpFrom(full, Run(start, Filling(busy, limit) + last), limit, busy, idle);
  }

  lemma HoldsUpFrom(full: State, s: State, limit: nat, busy: string, idle: string)
    requires busy != idle && full == Busy(limit, busy, limit)
    requires s == Apply(Apply(Apply(full, Arrive(busy)), Arrive(idle)), Lock(limit)) && Inv(s)
    ensures HoldsUpIdle(s, busy, idle)
  {
    assert s.requests == full.requests + [Request(busy, Waiting), Request(idle, Fresh)];
    assert s.requests[limit + 1] == Request(idle, Fresh);
    assert s.permits == map[busy := 0] && s.holder == Some(limit);
    assert Conserved(s, idle);
  }

  /** A busy tag can hold up an idle one exactly when there is a limit at all. */
  lemma HeadOfLineExactly(limit: Option<nat>, busy: string, idle: string)
    requires busy != idle
    ensures (exists es :: HoldsUpIdle(Run(Start(limit), es), busy, idle)) <==> limit.Some?
  {
    if limit.Some? {
      HeadOfLineReachable(limit.value, busy, idle);
    } else {
      forall es ensures !HoldsUpIdle(Run(Start(limit), es), busy, idle) {
        RunKeepsInv(Start(limit), es);
      }
    }
  }

  // ---- Who gets in while nobody finishes ------------------------------------

  ghost predicate NoComplete(es: seq<Event>) { forall e :: e in es ==> !e.Complete? }

  /** One if the holder is about to take a permit of this tag. */
  function Ahead(s: State, tag: string): nat {
    if s.holder.Some? && s.holder.value < |s.requests| && s.requests[s.holder.value].tag == tag then 1 else 0
  }

  /** The permits of a tag nobody has taken yet. */
  function Free(s: State, tag: string): nat
    requires s.limit.Some?
  {
    if tag in s.permits then s.permits[tag] else s.limit.value
  }

  lemma FreeIsRest(s: State, tag: string)
    requires Inv(s) && s.limit.Some?
    ensures Free(s, tag) + InFlight(s.requests, tag) == s.limit.value
  {
    assert Conserved(s, tag);
  }

  /** Request `i` has no permit left for it: the holder, if of its tag, takes the last one. */
  ghost predicate ShutOut(s: State, i: nat) {
    && Inv(s) && s.limit.Some? && i < |s.requests|
    && var tag := s.requests[i].tag;
       if s.requests[i].stage.Fresh? then Free(s, tag) <= Ahead(s, tag)
       else s.requests[i].stage.Waiting? && Free(s, tag) == 0
  }

  lemma ShutOutStep(s: State, e: Event, i: nat)
    requires ShutOut(s, i) && !e.Complete?
    ensures ShutOut(Apply(s, e), i)
  {
    StepKeepsInv(s, e);
  }

  lemma {:induction false} ShutOutStays(s: State, es: seq<Event>, i: nat)
    requires ShutOut(s, i) && NoComplete(es)
    ensures ShutOut(Run(s, es), i)
    decreases |es|
  {
    if es != [] {
      ShutOutStep(s, es[0], i);
      ShutOutStays(Apply(s, es[0]), es[1..], i);
    }
  }

  lemma {:induction false} NoCompleteOfTag(s: State, es: seq<Event>, tag: string)
    requires NoComplete(es)
    ensures NoneCompletes(s, es, tag)
    decreases |es|
  {
    if es != [] {
      assert !es[0].Complete?;
      NoCompleteOfTag(Apply(s, es[0]), es[1..], tag);
    }
  }

  /** The request runs at the end, and no other had to finish for it. */
  ghost predicate LetsIn(s: State, es: seq<Event>, i: nat) {
    NoComplete(es) && i < |Run(s, es).requests| && Run(s, es).requests[i].stage.Running?
  }

  lemma HolderMoves(s: State)
    requires Inv(s) && s.holder.Some? && !HeldUp(s)
    ensures var tag := s.requests[s.holder.value].tag;
            Apply(s, Acquire(s.holder.value))
            == s.(holder := None, requests := s.requests[s.holder.value := Request(tag, Running)],
                  permits := s.permits[tag := s.permits[tag] - 1])
  {
  }

  /** With a permit to spare and the holder, if any, able to go on, the request gets in at once. */
  lemma GetsIn(s: State, i: nat)
    requires Inv(s) && s.limit.Some? && !HeldUp(s)
    requires i < |s.requests| && s.requests[i].stage.Fresh?
    requires Free(s, s.requests[i].tag) > Ahead(s, s.requests[i].tag)
    ensures exists es :: LetsIn(s, es, i)
  {
    var turn := [Lock(i), Acquire(i)];
    if s.holder.None? {
      NextServed(s, i);
      RunTwo(s, Lock(i), Acquire(i));
      assert LetsIn(s, turn, i);
    } else {
      var h := s.holder.value;
      var t := Apply(s, Acquire(h));
      HolderMoves(s);
      NextServed(t, i);
      RunTwo(t, Lock(i), Acquire(i));
      assert Run(s, [Acquire(h)]) == t;
      RunAppend(s, [Acquire(h)], turn);
      assert LetsIn(s, [Acquire(h)] + turn, i);
    }
  }

  lemma GetsInUnlimited(s: State, i: nat)
    requires s.limit.None? && i < |s.requests| && s.requests[i].stage.Fresh?
    ensures exists es :: LetsIn(s, es, i)
  {
    assert Run(s, [Lock(i)]) == Apply(s, Lock(i));
    assert LetsIn(s, [Lock(i)], i);
  }

  /** Exactly when a waiting caller gets in although nobody finishes: there is no limit, or the holder is not held up
      and leaves a permit of the caller's tag. So an idle tag waits exactly while the holder is held up. */
  lemma GetsInExactly(s: State, i: nat)
    requires Inv(s) && i < |s.requests| && s.requests[i].stage.Fresh?
    ensures var tag := s.requests[i].tag;
            (exists es :: LetsIn(s, es, i)) <==>
            s.limit.None? || (!HeldUp(s) && InFlight(s.requests, tag) + Ahead(s, tag) < s.limit.value)
  {
    var tag := s.requests[i].tag;
    if s.limit.None? {
      GetsInUnlimited(s, i);
    } else {
      FreeIsRest(s, tag);
      if HeldUp(s) {
        forall es ensures !LetsIn(s, es, i) { HeldUpKeepsOut(s, es, i); }
      } else if Free(s, tag) <= Ahead(s, tag) {
        forall es ensures !LetsIn(s, es, i) {
          if NoComplete(es) { ShutOutStays(s, es, i); }
        }
      } else {
        GetsIn(s, i);
      }
    }
  }

  lemma HeldUpKeepsOut(s: State, es: seq<Event>, i: nat)
    requires HeldUp(s) && i < |s.requests| && s.requests[i].stage.Fresh?
    ensures !LetsIn(s, es, i)
  {
    if NoComplete(es) {
      NoCompleteOfTag(s, es, s.requests[s.holder.value].tag);
      HeadOfLine(s, es);
    }
  }
}
