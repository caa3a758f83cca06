/** The risk supervisor as the object that updates its status, exposure map and error deque in place. */
module RiskSupervisors {
  import opened Common
  import opened Trading
  import opened Risk

  const TRIP_SUBJECTS: seq<string> :=
    ["control.strategy.pause_all", "control.exec.block_new_orders", "log.event"]
  const RESET_SUBJECTS: seq<string> := ["control.exec.reset_circuit", "control.strategy.resume_all"]

  /** Adds up the values of a map in an arbitrary order. */
  method SumValues(m: map<string, real>) returns (total: real)
    ensures total == Sum(m)
  {
    total := 0.0;
    var rest := m;
    while rest != map[]
      invariant total + Sum(rest) == Sum(m)
      decreases |rest|
    {
      var k :| k in rest;
      SumSplit(rest, k);
      total := total + rest[k];
      rest := rest - {k};
    }
  }

  class RiskSupervisor {
    var limits: Limits
    var dailyPnlQuote: real
    var totalNotional: real
    var openPositions: nat
    var circuitBreakerActive: bool
    var lastErrors: seq<int>
    var exposure: map<string, real>

    ghost function View(): Supervisor
      reads this
    {
      Supervisor(State(Exposures(exposure, dailyPnlQuote, totalNotional, openPositions),
                       circuitBreakerActive, lastErrors), limits)
    }

    constructor (limits: Limits)
      ensures View() == Supervisor(FRESH, limits)
    {
      this.limits := limits;
      dailyPnlQuote, totalNotional, openPositions := 0.0, 0.0, 0;
      circuitBreakerActive, lastErrors, exposure := false, [], map[];
    }

    /** Moves one exposure, and drops it if nothing positive is left; returns the profit it makes. */
    method MoveExposure(result: Result) returns (pnlDelta: real)
      requires result.status.Filled?
      modifies this`exposure
      ensures var key := SymbolKey(result.symbol);
              exposure == Refile(old(exposure), key, Amount(old(exposure), key) + result.NetBought())
      ensures pnlDelta == -result.NetBought()
    {
      var symbolKey := SymbolKey(result.symbol);
      var entry := Amount(exposure, symbolKey);
      match result.side {
        case Buy =>
          entry := entry + result.filledSizeQuote;
          pnlDelta := -result.filledSizeQuote;
        case Sell =>
          entry := entry - result.filledSizeQuote;
          pnlDelta := result.filledSizeQuote;
      }
      exposure := exposure[symbolKey := entry];
      if entry <= 0.0 {
        exposure := exposure - {symbolKey};
        assert exposure == old(exposure) - {symbolKey};
      }
    }

    method RecordOrder(result: Result)
      modifies this`exposure, this`dailyPnlQuote, this`totalNotional, this`openPositions
      ensures View().state.book == Risk.RecordOrder(old(View().state.book), result)
    {
      if result.status.Filled? {
        var pnlDelta := MoveExposure(result);
        dailyPnlQuote := dailyPnlQuote + pnlDelta;
        totalNotional := SumValues(exposure);
        openPositions := |exposure|;
      }
    }

    method RecordError(now: int)
      modifies this`lastErrors
      ensures lastErrors == old(lastErrors) + [now]
    {
      lastErrors := lastErrors + [now];
    }

    method PruneErrors(now: int) returns (count: nat)
      modifies this`lastErrors
      ensures lastErrors == Prune(old(lastErrors), now - WINDOW) && count == |lastErrors|
    {
      var cutoff := now - WINDOW;
      while lastErrors != [] && lastErrors[0] < cutoff
        invariant Prune(lastErrors, cutoff) == Prune(old(lastErrors), cutoff)
        decreases |lastErrors|
      {
        lastErrors := lastErrors[1..];
      }
      count := |lastErrors|;
    }

    /** Publishes nothing when the breaker is already active. */
    method TriggerBreaker() returns (sent: seq<string>)
      modifies this`circuitBreakerActive
      ensures circuitBreakerActive
      ensures sent == if old(circuitBreakerActive) then []
                      else ["control.strategy.pause_all", "control.exec.block_new_orders", "log.event"]
    {
      if circuitBreakerActive {
        return [];
      }
      circuitBreakerActive := true;
      sent := TRIP_SUBJECTS;
    }

    method Evaluate(now: int) returns (sent: seq<string>)
      modifies this`circuitBreakerActive, this`lastErrors
      ensures var (after, tripped) := Risk.Evaluate(old(View().state), limits, now);
              View().state == after && sent == if tripped then TRIP_SUBJECTS else []
    {
      sent := [];
      if circuitBreakerActive {
        return;
      }
      if dailyPnlQuote <= -limits.maxDailyLossAbs
         || totalNotional > limits.maxTotalNotional
         || openPositions > limits.maxOpenPositions
      {
        sent := TriggerBreaker();
        return;
      }
      if limits.maxErrorRate.Some? {
        var count := PruneErrors(now);
        if count as real > limits.maxErrorRate.value {
          sent := TriggerBreaker();
        }
      }
    }

    method ResetCircuit() returns (sent: seq<string>)
      modifies this`circuitBreakerActive
      ensures !circuitBreakerActive
      ensures sent == ["control.exec.reset_circuit", "control.strategy.resume_all"]
    {
      circuitBreakerActive := false;
      sent := RESET_SUBJECTS;
    }

    /** One pass of the select loop, or a reset. */
    method Consume(i: Stamped) returns (sent: seq<string>)
      modifies this
      ensures var (after, tripped) := Step(old(View()), i);
              && View() == after
              && sent == if tripped then TRIP_SUBJECTS else if i.input.Reset? then RESET_SUBJECTS else []
    {
      sent := [];
      match i.input {
        case Order(result) =>
          RecordOrder(result);
          sent := Evaluate(i.now);
        case ErrorEvent =>
          RecordError(i.now);
          sent := Evaluate(i.now);
        case Tick =>
          sent := Evaluate(i.now);
        case Configure(newLimits) =>
          limits := newLimits;
        case Reset =>
          sent := ResetCircuit();
      }
    }

    /** A whole run of the loop. */
    method ConsumeAll(inputs: seq<Stamped>)
      modifies this
      ensures View() == Run(old(View()), inputs)
    {
      for n := 0 to |inputs|
        invariant View() == Run(old(View()), inputs[..n])
      {
        assert inputs[..n + 1][..n] == inputs[..n];
        var _ := Consume(inputs[n]);
      }
      assert inputs[..|inputs|] == inputs;
    }
  }
}
