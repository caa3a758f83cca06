/** The execution service in simulated mode, as the object that updates its fields in place. */
module ExecutionServices {
  import opened Common
  import opened Trading
  import opened Ledger
  import N = Node

  /** Commands met one after another while the flag does not change. */
  function Tagged(cmds: seq<Command>, blocked: bool): seq<Ticket> {
    seq(|cmds|, i requires 0 <= i < |cmds| => Ticket(cmds[i], blocked))
  }

  class ExecutionService {
    var balanceUsdt: real
    var positions: map<string, real>
    var fillCounter: real
    var blockNewOrders: bool

    ghost function View(): Book
      reads this
    {
      Book(balanceUsdt, positions, fillCounter)
    }

    constructor (initialBalanceUsdt: real)
      ensures View() == Opening(initialBalanceUsdt) == Book(initialBalanceUsdt, map[], 30000.0) && !blockNewOrders
    {
      balanceUsdt, positions, fillCounter, blockNewOrders := initialBalanceUsdt, map[], FIRST_PRICE, false;
    }

    method NextFillPrice(limit: Option<real>) returns (price: real)
      modifies this`fillCounter
      ensures (View(), price) == Quote(old(View()), limit)
    {
      if limit.Some? {
        return limit.value;
      }
      fillCounter := fillCounter + PRICE_STEP;
      return fillCounter;
    }

    method HandleCommand(cmd: Command) returns (r: Result)
      modifies this`balanceUsdt, this`positions, this`fillCounter
      ensures (View(), r) == Handle(old(View()), Ticket(cmd, blockNewOrders))
    {
      if blockNewOrders {
        return Result(cmd.id, cmd.symbol, cmd.side, Rejected("circuit breaker active"), 0.0, 0.0);
      }
      var fillPrice := NextFillPrice(cmd.limitPrice);
      var symbolKey := SymbolKey(cmd.symbol);
      var baseUnits := if fillPrice > 0.0 then cmd.sizeQuote / fillPrice else 0.0;
      var status;
      match cmd.side {
        case Buy =>
          if balanceUsdt >= cmd.sizeQuote {
            balanceUsdt := balanceUsdt - cmd.sizeQuote;
            var entry := Amount(positions, symbolKey);
            positions := positions[symbolKey := entry + baseUnits];
            status := Filled;
          } else {
            status := Rejected("insufficient balance");
          }
        case Sell =>
          var entry := Amount(positions, symbolKey);
          positions := positions[symbolKey := entry];
          if entry >= baseUnits {
            positions := positions[symbolKey := entry - baseUnits];
            assert positions == old(positions)[symbolKey := entry - baseUnits];
            balanceUsdt := balanceUsdt + cmd.sizeQuote;
            status := Filled;
          } else {
            status := Rejected("insufficient position");
          }
      }
      var filled := status.Filled?;
      r := Result(cmd.id, cmd.symbol, cmd.side, status,
                  if filled then cmd.sizeQuote else 0.0, if filled then fillPrice else 0.0);
    }

    /** The command loop over a batch: nothing else touches the ledger between two commands. */
    method ProcessCommands(cmds: seq<Command>) returns (results: seq<Result>)
      modifies this`balanceUsdt, this`positions, this`fillCounter
      ensures View() == Run(old(View()), Tagged(cmds, blockNewOrders))
      ensures results == Results(old(View()), Tagged(cmds, blockNewOrders))
    {
      results := [];
      ghost var all := Tagged(cmds, blockNewOrders);
      for i := 0 to |cmds|
        invariant View() == Run(old(View()), all[..i])
        invariant results == Results(old(View()), all[..i])
      {
        RunAppend(old(View()), all[..i], [all[i]]);
        assert all[..i + 1] == all[..i] + [all[i]];
        assert Run(View(), [all[i]]) == Handle(View(), all[i]).0;
        assert Results(View(), [all[i]]) == [Handle(View(), all[i]).1];
        var r := HandleCommand(cmds[i]);
        results := results + [r];
      }
      assert all[..|cmds|] == all;
    }

    /** The control task takes a block message; `s` is the node around this executor. */
    method OnBlockMessage(ghost s: N.Sys)
      requires s.blocked == blockNewOrders && s.blocks > 0
      modifies this`blockNewOrders
      ensures blockNewOrders
      ensures N.ExecutorStep(s, N.TakeBlock) == s.(blocks := s.blocks - 1, blocked := blockNewOrders)
    {
      blockNewOrders := true;
    }

    /** The control task takes a reset message. */
    method OnResetMessage(ghost s: N.Sys)
      requires s.blocked == blockNewOrders && s.resets > 0
      modifies this`blockNewOrders
      ensures !blockNewOrders
      ensures N.ExecutorStep(s, N.TakeReset) == s.(resets := s.resets - 1, blocked := blockNewOrders)
    {
      blockNewOrders := false;
    }
  }
}
