/** The risk supervisor as a function of what it consumes: exposures, error window, breaker. */
module Risk {
  import opened Common
  import opened Trading

  const WINDOW: int := 60_000_000_000 // one minute, in nanoseconds

  datatype Limits = Limits(maxDailyLossAbs: real, maxTotalNotional: real, maxOpenPositions: nat,
                           maxErrorRate: Option<real>)

  datatype Exposures = Exposures(byKey: map<string, real>, dailyPnl: real, totalNotional: real, openPositions: nat) {
    function Of(key: string): real { Amount(byKey, key) }

    /** Stored exposures are positive, and the two totals are exactly their sum and count. */
    ghost predicate Kept() {
      && (forall k :: k in byKey ==> byKey[k] > 0.0)
      && totalNotional == Sum(byKey)
      && openPositions == |byKey|
    }

    predicate Within(limits: Limits) {
      && dailyPnl > -limits.maxDailyLossAbs
      && totalNotional <= limits.maxTotalNotional
      && openPositions <= limits.maxOpenPositions
    }
  }

  const NO_EXPOSURE: Exposures := Exposures(map[], 0.0, 0.0, 0)

  /** An entry is kept only while it is positive. */
  function Refile(m: map<string, real>, key: string, value: real): map<string, real> {
    if value <= 0.0 then m - {key} else m[key := value]
  }

  ghost function RecordOrder(x: Exposures, r: Result): Exposures {
    if !r.status.Filled? then x
    else
      var key := SymbolKey(r.symbol);
      var value := x.Of(key) + r.NetBought();
      var byKey := Refile(x.byKey, key, value);
      Exposures(byKey, x.dailyPnl - r.NetBought(), Sum(byKey), |byKey|)
  }

  ghost function Fold(x: Exposures, results: seq<Result>): Exposures
    decreases |results|
  {
    if results == [] then x else Fold(RecordOrder(x, results[0]), results[1..])
  }

  lemma {:induction false} FoldAppend(x: Exposures, a: seq<Result>, b: seq<Result>)
    ensures Fold(x, a + b) == Fold(Fold(x, a), b)
    decreases |a|
  {
    if a == [] {
      assert a + b == b;
    } else {
      assert (a + b)[1..] == a[1..] + b;
      FoldAppend(RecordOrder(x, a[0]), a[1..], b);
    }
  }

  // ---- The clamped walk -----------------------------------------------------

  function Clamp(x: real): real { if x <= 0.0 then 0.0 else x }

  /** One result moves one exposure by its net bought amount, clamped at zero, and no other. */
  lemma RecordOrderMoves(x: Exposures, r: Result, key: string)
    requires x.Kept()
    ensures var after := RecordOrder(x, r);
            && after.Kept()
            && after.dailyPnl == x.dailyPnl - r.NetBought()
            && after.Of(key) == (if SymbolKey(r.symbol) == key then Clamp(x.Of(key) + r.NetBought()) else x.Of(key))
  {
    SumNonNegative(x.byKey);
    assert x.byKey == map[] ==> Sum(x.byKey) == 0.0;
  }

  /** A result moves the exposure its symbol names, as the supervisor spells it, and no other. */
  lemma ExposureByName(x: Exposures, r: Result, key: string)
    requires x.Kept()
    ensures var after := RecordOrder(x, r);
            var moved := x.Of(key) + r.NetBought();
            after.Of(key) == if !Names(key, r.symbol) then x.Of(key) else if moved <= 0.0 then 0.0 else moved
  {
    KeyIsName(r.symbol, r.symbol, key);
    RecordOrderMoves(x, r, key);
  }

  /** Two buys open one position or two, by the names of their symbols alone. */
  lemma ExposureSharedExactly(s: Result, t: Result)
    requires s.status.Filled? && s.side.Buy? && s.filledSizeQuote > 0.0
    requires t.status.Filled? && t.side.Buy? && t.filledSizeQuote > 0.0
    ensures Fold(NO_EXPOSURE, [s, t]).openPositions == if SameName(s.symbol, t.symbol) then 1 else 2
  {
    KeyIsName(s.symbol, t.symbol, "");
    var one := RecordOrder(NO_EXPOSURE, s);
    assert one.byKey == map[SymbolKey(s.symbol) := s.filledSizeQuote];
    var two := RecordOrder(one, t);
    assert [s, t][1..] == [t];
    assert Fold(one, [t]) == two;
    assert two.byKey.Keys == {SymbolKey(s.symbol), SymbolKey(t.symbol)};
    assert |two.byKey| == |two.byKey.Keys|;
  }

  lemma {:induction false} FoldKept(x: Exposures, results: seq<Result>)
    requires x.Kept()
    ensures Fold(x, results).Kept()
    ensures Fold(x, results).dailyPnl == x.dailyPnl - Net(results)
    decreases |results|
  {
    if results != [] {
      RecordOrderMoves(x, results[0], "");
      FoldKept(RecordOrder(x, results[0]), results[1..]);
    }
  }

  /** Seen from any point of a run, an exposure is at least what was net bought since,
      and one of those amounts is reached unless the exposure still carries the starting one. */
  lemma {:induction false} WalkReflects(x: Exposures, results: seq<Result>, key: string)
    requires x.Kept()
    ensures var end := Fold(x, results).Of(key);
            && end >= 0.0
            && end >= x.Of(key) + NetFor(results, key)
            && (forall i :: 0 <= i <= |results| ==> end >= NetFor(results[i..], key))
            && (|| end == x.Of(key) + NetFor(results, key)
                || exists i :: 0 <= i <= |results| && end == NetFor(results[i..], key))
    decreases |results|
  {
    assert results[|results|..] == [];
    if results != [] {
      var after := RecordOrder(x, results[0]);
      var rest := results[1..];
      RecordOrderMoves(x, results[0], key);
      WalkReflects(after, rest, key);
      var end := Fold(x, results).Of(key);
      assert results[0..] == results;
      forall i | 0 <= i <= |results| ensures end >= NetFor(results[i..], key) {
        if i > 0 { assert results[i..] == rest[i - 1..]; }
      }
      if end != after.Of(key) + NetFor(rest, key) {
        var i :| 0 <= i <= |rest| && end == NetFor(rest[i..], key);
        assert results[i + 1..] == rest[i..];
      } else if after.Of(key) == 0.0 {
        assert results[1..] == rest;
      }
    }
  }

  /** The exposure of a symbol is the largest net amount bought over any suffix of the run. */
  lemma ExposureIsMaxSuffix(results: seq<Result>, key: string)
    ensures var end := Fold(NO_EXPOSURE, results).Of(key);
            && (forall i :: 0 <= i <= |results| ==> NetFor(results[i..], key) <= end)
            && (exists i :: 0 <= i <= |results| && NetFor(results[i..], key) == end)
  {
    WalkReflects(NO_EXPOSURE, results, key);
    assert results[0..] == results;
  }

  /** What clamping throws away at one result. */
  function ClampedAway(x: Exposures, r: Result): real {
    Clamp(-(x.Of(SymbolKey(r.symbol)) + r.NetBought()))
  }

  ghost function TotalClamped(x: Exposures, results: seq<Result>): real
    decreases |results|
  {
    if results == [] then 0.0
    else ClampedAway(x, results[0]) + TotalClamped(RecordOrder(x, results[0]), results[1..])
  }

  lemma RecordOrderBalance(x: Exposures, r: Result)
    requires x.Kept()
    ensures var after := RecordOrder(x, r);
            after.totalNotional + after.dailyPnl == x.totalNotional + x.dailyPnl + ClampedAway(x, r)
  {
    var key := SymbolKey(r.symbol);
    var value := x.Of(key) + r.NetBought();
    if value <= 0.0 {
      SumRemove(x.byKey, key);
    } else {
      SumUpdate(x.byKey, key, value);
    }
  }

  /** Notional plus profit only ever grows, by exactly the amount clamped away. */
  lemma {:induction false} NotionalPlusPnl(x: Exposures, results: seq<Result>)
    requires x.Kept()
    ensures var end := Fold(x, results);
            && end.totalNotional + end.dailyPnl == x.totalNotional + x.dailyPnl + TotalClamped(x, results)
            && TotalClamped(x, results) >= 0.0
    decreases |results|
  {
    if results != [] {
      RecordOrderBalance(x, results[0]);
      RecordOrderMoves(x, results[0], "");
      NotionalPlusPnl(RecordOrder(x, results[0]), results[1..]);
    }
  }

  /** What can be in flight and still leave `amount` of a symbol covered: only sells take exposure away. */
  ghost function PendingSells(results: seq<Result>, key: string): real {
    if results == [] then 0.0
    else (if SymbolKey(results[0].symbol) == key then Clamp(-results[0].NetBought()) else 0.0)
         + PendingSells(results[1..], key)
  }

  lemma {:induction false} FoldLosesOnlySells(x: Exposures, results: seq<Result>, key: string)
    requires x.Kept()
    ensures Fold(x, results).Of(key) >= x.Of(key) - PendingSells(results, key)
    decreases |results|
  {
    if results != [] {
      RecordOrderMoves(x, results[0], key);
      FoldLosesOnlySells(RecordOrder(x, results[0]), results[1..], key);
    }
  }

  // ---- Errors, evaluation and the breaker -----------------------------------

  datatype State = State(book: Exposures, active: bool, lastErrors: seq<int>)

  const FRESH: State := State(NO_EXPOSURE, false, [])

  /** Drops from the front while the front is older than the cutoff, and stops at the first that is not. */
  function Prune(errors: seq<int>, cutoff: int): seq<int> {
    if errors != [] && errors[0] < cutoff then Prune(errors[1..], cutoff) else errors
  }

  predicate TooManyErrors(count: nat, limits: Limits) {
    limits.maxErrorRate.Some? && count as real > limits.maxErrorRate.value
  }

  /** One evaluation: the new state, and whether it tripped the breaker. */
  function Evaluate(s: State, limits: Limits, now: int): (State, bool) {
    if s.active then (s, false)
    else if !s.book.Within(limits) then (s.(active := true), true)
    else if limits.maxErrorRate.Some? then
      var recent := Prune(s.lastErrors, now - WINDOW);
      var trip := TooManyErrors(|recent|, limits);
      (s.(lastErrors := recent, active := trip), trip)
    else (s, false)
  }

  /** What the supervisor's loop can be woken by, and the operator's reset. */
  datatype Input = Order(result: Result) | ErrorEvent | Tick | Configure(newLimits: Limits) | Reset

  datatype Stamped = Stamped(now: int, input: Input)

  datatype Supervisor = Supervisor(state: State, limits: Limits)

  /** The state handed to `Evaluate` after recording one input. */
  ghost function Fed(v: Supervisor, i: Stamped): State {
    match i.input
    case Order(r) => v.state.(book := RecordOrder(v.state.book, r))
    case ErrorEvent => v.state.(lastErrors := v.state.lastErrors + [i.now])
    case _ => v.state
  }

  /** One pass of the loop: the new supervisor, and whether the breaker tripped. */
  ghost function Step(v: Supervisor, i: Stamped): (Supervisor, bool) {
    match i.input
    case Configure(limits) => (v.(limits := limits), false)
    case Reset => (v.(state := v.state.(active := false)), false)
    case _ => var (s, trip) := Evaluate(Fed(v, i), v.limits, i.now); (v.(state := s), trip)
  }

  ghost function Run(v: Supervisor, inputs: seq<Stamped>): Supervisor {
    if inputs == [] then v
    else Step(Run(v, inputs[..|inputs| - 1]), inputs[|inputs| - 1]).0
  }

  ghost predicate Clocked(inputs: seq<Stamped>) {
    forall i, j :: 0 <= i < j < |inputs| ==> inputs[i].now <= inputs[j].now
  }

  /** The time of every error event of a run: nothing is ever dropped here. */
  function ErrorTimes(inputs: seq<Stamped>): seq<int> {
    if inputs == [] then []
    else
      var last := inputs[|inputs| - 1];
      ErrorTimes(inputs[..|inputs| - 1]) + (if last.input.ErrorEvent? then [last.now] else [])
  }

  function CountFrom(times: seq<int>, cutoff: int): nat {
    if times == [] then 0 else (if times[0] >= cutoff then 1 else 0) + CountFrom(times[1..], cutoff)
  }

  ghost predicate Sorted(times: seq<int>) {
    forall i, j :: 0 <= i < j < |times| ==> times[i] <= times[j]
  }

  /** `kept` is what is left of `times` after dropping only entries older than `cutoff`. */
  ghost predicate LiveSuffix(kept: seq<int>, times: seq<int>, cutoff: int) {
    && |kept| <= |times|
    && kept == times[|times| - |kept|..]
    && Sorted(times)
    && forall i :: 0 <= i < |times| - |kept| ==> times[i] < cutoff
  }

  lemma {:induction false} PruneKeepsLiveSuffix(kept: seq<int>, times: seq<int>, cutoff: int, earlier: int)
    requires LiveSuffix(kept, times, earlier) && earlier <= cutoff
    ensures LiveSuffix(Prune(kept, cutoff), times, cutoff)
    ensures Prune(kept, cutoff) == [] || Prune(kept, cutoff)[0] >= cutoff
    decreases |kept|
  {
    if kept != [] && kept[0] < cutoff {
      assert kept[1..] == times[|times| - |kept| + 1..];
      PruneKeepsLiveSuffix(kept[1..], times, cutoff, cutoff);
    }
  }

  lemma {:induction false} CountSplit(a: seq<int>, b: seq<int>, cutoff: int)
    ensures CountFrom(a + b, cutoff) == CountFrom(a, cutoff) + CountFrom(b, cutoff)
  {
    if a == [] {
      assert a + b == b;
    } else {
      assert (a + b)[1..] == a[1..] + b;
      CountSplit(a[1..], b, cutoff);
    }
  }

  lemma {:induction false} CountOfAll(times: seq<int>, cutoff: int)
    requires forall i :: 0 <= i < |times| ==> times[i] >= cutoff
    ensures CountFrom(times, cutoff) == |times|
  {
    if times != [] { CountOfAll(times[1..], cutoff); }
  }

  lemma {:induction false} CountOfNone(times: seq<int>, cutoff: int)
    requires forall i :: 0 <= i < |times| ==> times[i] < cutoff
    ensures CountFrom(times, cutoff) == 0
  {
    if times != [] { CountOfNone(times[1..], cutoff); }
  }

  /** Pruning the deque counts exactly the errors of the whole history inside the window. */
  lemma PruneCountsHistory(kept: seq<int>, times: seq<int>, cutoff: int, earlier: int)
    requires LiveSuffix(kept, times, earlier) && earlier <= cutoff
    ensures |Prune(kept, cutoff)| == CountFrom(times, cutoff)
  {
    PruneKeepsLiveSuffix(kept, times, cutoff, earlier);
    var recent := Prune(kept, cutoff);
    var gone := times[..|times| - |recent|];
    assert times == gone + recent;
    forall i | 0 <= i < |recent| ensures recent[i] >= cutoff {
      assert recent[0] >= cutoff;
    }
    CountSplit(gone, recent, cutoff);
    CountOfNone(gone, cutoff);
    CountOfAll(recent, cutoff);
  }

  function ClockOf(inputs: seq<Stamped>, otherwise: int): int {
    if inputs == [] then otherwise else inputs[|inputs| - 1].now
  }

  /** Every error ever recorded lies no later than the clock, in order. */
  lemma {:induction false} ErrorTimesSorted(inputs: seq<Stamped>)
    requires Clocked(inputs)
    ensures Sorted(ErrorTimes(inputs))
    ensures forall t :: t in ErrorTimes(inputs) ==> inputs != [] && t <= inputs[|inputs| - 1].now
  {
    if inputs != [] {
      var before, now := inputs[..|inputs| - 1], inputs[|inputs| - 1].now;
      ErrorTimesSorted(before);
      forall t | t in ErrorTimes(before) ensures t <= now {
        assert t <= before[|before| - 1].now;
      }
      var times := ErrorTimes(before);
      assert forall k :: 0 <= k < |times| ==> times[k] in times;
    }
  }

  /** The cutoff up to which entries may be gone after `inputs`, seen from time `now`. */
  function Horizon(inputs: seq<Stamped>, now: int): int { ClockOf(inputs, now) - WINDOW }

  /** Feeding one more input to the deque keeps it a live suffix of the longer history. */
  lemma FeedKeepsLiveSuffix(kept: seq<int>, inputs: seq<Stamped>, i: Stamped)
    requires Clocked(inputs + [i]) && Clocked(inputs)
    requires LiveSuffix(kept, ErrorTimes(inputs), Horizon(inputs, i.now))
    ensures var fed := if i.input.ErrorEvent? then kept + [i.now] else kept;
            LiveSuffix(fed, ErrorTimes(inputs + [i]), Horizon(inputs, i.now))
    ensures Horizon(inputs, i.now) <= i.now - WINDOW
  {
    var all := inputs + [i];
    assert all[..|all| - 1] == inputs;
    ErrorTimesSorted(all);
    assert inputs != [] ==> all[|inputs| - 1].now <= all[|inputs|].now;
  }

  lemma EvaluateKeepsLiveSuffix(s: State, limits: Limits, now: int, times: seq<int>, earlier: int)
    requires LiveSuffix(s.lastErrors, times, earlier) && earlier <= now - WINDOW
    ensures var (after, tripped) := Evaluate(s, limits, now);
            && LiveSuffix(after.lastErrors, times, now - WINDOW)
            && after.book == s.book
            && (after.active <==> s.active || tripped)
            && (tripped <==> !s.active && !(s.book.Within(limits)
                                            && !TooManyErrors(CountFrom(times, now - WINDOW), limits)))
  {
    PruneKeepsLiveSuffix(s.lastErrors, times, now - WINDOW, earlier);
    PruneCountsHistory(s.lastErrors, times, now - WINDOW, earlier);
  }

  lemma StepKeepsLiveSuffix(v: Supervisor, i: Stamped, times: seq<int>, earlier: int)
    requires LiveSuffix(Fed(v, i).lastErrors, times, earlier) && earlier <= i.now - WINDOW
    ensures LiveSuffix(Step(v, i).0.state.lastErrors, times, i.now - WINDOW)
  {
    if Evaluates(i.input) {
      EvaluateKeepsLiveSuffix(Fed(v, i), v.limits, i.now, times, earlier);
    }
  }

  /** However often pruning was skipped, the deque is the history less entries out of every later window. */
  lemma {:induction false} LazyWindow(limits: Limits, inputs: seq<Stamped>, now: int)
    requires Clocked(inputs)
    ensures LiveSuffix(Run(Supervisor(FRESH, limits), inputs).state.lastErrors, ErrorTimes(inputs),
                       Horizon(inputs, now))
    decreases |inputs|
  {
    if inputs != [] {
      var before, i := inputs[..|inputs| - 1], inputs[|inputs| - 1];
      assert inputs == before + [i];
      LazyWindow(limits, before, i.now);
      var v := Run(Supervisor(FRESH, limits), before);
      FeedKeepsLiveSuffix(v.state.lastErrors, before, i);
      StepKeepsLiveSuffix(v, i, ErrorTimes(inputs), Horizon(before, i.now));
    }
  }

  /** Whatever was skipped before, `prune_errors` at any later time returns the plain count of the last minute. */
  lemma LazyWindowCounts(limits: Limits, inputs: seq<Stamped>, now: int)
    requires Clocked(inputs) && ClockOf(inputs, now) <= now
    ensures |Prune(Run(Supervisor(FRESH, limits), inputs).state.lastErrors, now - WINDOW)|
            == CountFrom(ErrorTimes(inputs), now - 60_000_000_000)
            == |ErrorsSince(inputs, now - 60_000_000_000)|
  {
    LazyWindow(limits, inputs, now);
    PruneCountsHistory(Run(Supervisor(FRESH, limits), inputs).state.lastErrors, ErrorTimes(inputs),
                       now - WINDOW, Horizon(inputs, now));
    ErrorsCounted(inputs, now - WINDOW);
  }

  /** The error events of a history from `cutoff` on, by their place in it. */
  ghost function ErrorsSince(inputs: seq<Stamped>, cutoff: int): set<nat> {
    set n: nat | n < |inputs| && inputs[n].input.ErrorEvent? && inputs[n].now >= cutoff
  }

  lemma {:induction false} ErrorsCounted(inputs: seq<Stamped>, cutoff: int)
    ensures CountFrom(ErrorTimes(inputs), cutoff) == |ErrorsSince(inputs, cutoff)|
  {
    if inputs == [] {
      assert ErrorsSince(inputs, cutoff) == {};
    } else {
      var before, last := inputs[..|inputs| - 1], inputs[|inputs| - 1];
      ErrorsCounted(before, cutoff);
      CountSplit(ErrorTimes(before), if last.input.ErrorEvent? then [last.now] else [], cutoff);
      if last.input.ErrorEvent? && last.now >= cutoff {
        assert ErrorsSince(inputs, cutoff) == ErrorsSince(before, cutoff) + {|before|};
      } else {
        assert ErrorsSince(inputs, cutoff) == ErrorsSince(before, cutoff);
      }
    }
  }

  /** A limit is broken, on the figures and on the whole history: the loss reached, the notional or the positions
      passed, or more errors in the last minute than allowed. */
  ghost predicate LimitBroken(v: Supervisor, inputs: seq<Stamped>, now: int) {
    || v.state.book.dailyPnl <= -v.limits.maxDailyLossAbs
    || v.state.book.totalNotional > v.limits.maxTotalNotional
    || v.state.book.openPositions > v.limits.maxOpenPositions
    || (v.limits.maxErrorRate.Some?
        && |ErrorsSince(inputs, now - 60_000_000_000)| as real > v.limits.maxErrorRate.value)
  }

  lemma HealthyExactly(v: Supervisor, inputs: seq<Stamped>, now: int)
    ensures Healthy(v, ErrorTimes(inputs), now) <==> !LimitBroken(v, inputs, now)
  {
    ErrorsCounted(inputs, now - WINDOW);
  }

  /** The limits as a reader of the whole error history states them. */
  ghost predicate Healthy(v: Supervisor, times: seq<int>, now: int) {
    && v.state.book.Within(v.limits)
    && !TooManyErrors(CountFrom(times, now - WINDOW), v.limits)
  }

  ghost predicate Evaluates(i: Input) { i.Order? || i.ErrorEvent? || i.Tick? }

  /** The deque, with one more input fed to it, is a live suffix of the history. */
  lemma FedWindow(limits: Limits, inputs: seq<Stamped>, i: Stamped)
    requires Clocked(inputs + [i])
    ensures var v := Run(Supervisor(FRESH, limits), inputs);
            LiveSuffix(Fed(v, i).lastErrors, ErrorTimes(inputs + [i]), Horizon(inputs, i.now))
    ensures Horizon(inputs, i.now) <= i.now - WINDOW
  {
    var all := inputs + [i];
    assert forall k :: 0 <= k < |inputs| ==> all[k] == inputs[k];
    LazyWindow(limits, inputs, i.now);
    FeedKeepsLiveSuffix(Run(Supervisor(FRESH, limits), inputs).state.lastErrors, inputs, i);
  }

  lemma StepTripsExactly(v: Supervisor, i: Stamped, times: seq<int>, earlier: int)
    requires Evaluates(i.input)
    requires LiveSuffix(Fed(v, i).lastErrors, times, earlier) && earlier <= i.now - WINDOW
    ensures var (after, tripped) := Step(v, i);
            && (tripped <==> !v.state.active && !Healthy(after, times, i.now))
            && (after.state.active <==> v.state.active || tripped)
            && (after.state.active || Healthy(after, times, i.now))
  {
    EvaluateKeepsLiveSuffix(Fed(v, i), v.limits, i.now, times, earlier);
  }

  /** Each order, error or tick trips the breaker exactly when it was clear and a limit is now broken;
      afterwards the breaker is active or no limit is broken. */
  lemma TripsExactly(limits: Limits, inputs: seq<Stamped>, i: Stamped)
    requires Clocked(inputs + [i]) && (i.input.Order? || i.input.ErrorEvent? || i.input.Tick?)
    ensures var before, all := Run(Supervisor(FRESH, limits), inputs), inputs + [i];
            var (after, tripped) := Step(before, i);
            && (tripped <==> !before.state.active && LimitBroken(after, all, i.now))
            && (after.state.active <==> before.state.active || tripped)
            && (after.state.active || !LimitBroken(after, all, i.now))
  {
    FedWindow(limits, inputs, i);
    var before := Run(Supervisor(FRESH, limits), inputs);
    StepTripsExactly(before, i, ErrorTimes(inputs + [i]), Horizon(inputs, i.now));
    HealthyExactly(Step(before, i).0, inputs + [i], i.now);
  }

  function Size(r: Result): real { if r.filledSizeQuote < 0.0 then -r.filledSizeQuote else r.filledSizeQuote }

  /** An order consumed while all limits hold can overshoot them by its own size at most. */
  lemma BoundedOvershoot(limits: Limits, inputs: seq<Stamped>, i: Stamped)
    requires i.input.Order?
    requires var v := Run(Supervisor(FRESH, limits), inputs); v.state.book.Within(v.limits)
    ensures var v := Run(Supervisor(FRESH, limits), inputs);
            var book := Step(v, i).0.state.book;
            && book.totalNotional <= v.limits.maxTotalNotional + Size(i.input.result)
            && book.openPositions <= v.limits.maxOpenPositions + 1
            && book.dailyPnl > -v.limits.maxDailyLossAbs - Size(i.input.result)
  {
    var v := Run(Supervisor(FRESH, limits), inputs);
    BookIsFoldOfOrders(limits, inputs);
    FoldKept(NO_EXPOSURE, Orders(inputs));
    RecordOrderGrowth(v.state.book, i.input.result);
    EvaluateKeepsBook(Fed(v, i), v.limits, i.now);
  }

  lemma EvaluateKeepsBook(s: State, limits: Limits, now: int)
    ensures Evaluate(s, limits, now).0.book == s.book
  {
  }

  lemma RecordOrderGrowth(x: Exposures, r: Result)
    requires x.Kept()
    ensures var after := RecordOrder(x, r);
            && after.totalNotional <= x.totalNotional + Size(r)
            && after.openPositions <= x.openPositions + 1
            && after.dailyPnl >= x.dailyPnl - Size(r)
  {
    var key := SymbolKey(r.symbol);
    var value := x.Of(key) + r.NetBought();
    MapSizes(x.byKey, key, value);
    if value <= 0.0 {
      SumRemove(x.byKey, key);
    } else {
      SumUpdate(x.byKey, key, value);
    }
  }

  /** The order results among what was consumed, in order. */
  function Orders(inputs: seq<Stamped>): seq<Result> {
    if inputs == [] then []
    else
      var last := inputs[|inputs| - 1].input;
      Orders(inputs[..|inputs| - 1]) + (if last.Order? then [last.result] else [])
  }

  /** Over any run the books depend on the order results alone, in their order. */
  lemma {:induction false} BookIsFoldOfOrders(limits: Limits, inputs: seq<Stamped>)
    ensures Run(Supervisor(FRESH, limits), inputs).state.book == Fold(NO_EXPOSURE, Orders(inputs))
  {
    if inputs != [] {
      var before, i := inputs[..|inputs| - 1], inputs[|inputs| - 1];
      BookIsFoldOfOrders(limits, before);
      var v := Run(Supervisor(FRESH, limits), before);
      EvaluateKeepsBook(Fed(v, i), v.limits, i.now);
      if i.input.Order? {
        assert Fold(v.state.book, [i.input.result]) == RecordOrder(v.state.book, i.input.result);
        FoldAppend(NO_EXPOSURE, Orders(before), [i.input.result]);
      } else {
        assert Orders(inputs) == Orders(before);
      }
    }
  }

  /** Trips less the resets that found the breaker active. */
  ghost function NetTrips(v: Supervisor, inputs: seq<Stamped>): int {
    if inputs == [] then 0
    else
      var before, i := Run(v, inputs[..|inputs| - 1]), inputs[|inputs| - 1];
      NetTrips(v, inputs[..|inputs| - 1])
      + (if Step(before, i).1 then 1 else 0)
      - (if i.input.Reset? && before.state.active then 1 else 0)
  }

  lemma {:induction false} TripsAlternateWithResets(limits: Limits, inputs: seq<Stamped>)
    ensures NetTrips(Supervisor(FRESH, limits), inputs)
            == if Run(Supervisor(FRESH, limits), inputs).state.active then 1 else 0
  {
    if inputs != [] {
      TripsAlternateWithResets(limits, inputs[..|inputs| - 1]);
    }
  }
}
