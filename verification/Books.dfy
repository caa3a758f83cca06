/** The two independently kept books side by side: the executor's and the supervisor's. */
module Books {
  import opened Common
  import opened Trading
  import opened Ledger
  import opened Risk

  /** The supervisor's view never exceeds what the executor holds, marked at the current price. */
  ghost predicate Joint(b: Book, x: Exposures) {
    && b.Solvent()
    && x.Kept()
    && forall key :: Covered(b, x, key)
  }

  ghost predicate Covered(b: Book, x: Exposures, key: string) {
    x.Of(key) <= Worth(b.counter, b.Position(key))
  }

  /** The price only rises, so quoting keeps every exposure covered. */
  lemma QuoteKeepsJoint(b: Book, x: Exposures)
    requires Joint(b, x)
    ensures Joint(Quote(b, None).0, x)
  {
    var quoted := Quote(b, None).0;
    forall key ensures Covered(quoted, x, key) {
      assert Covered(b, x, key);
      Distribute(b.Position(key), b.counter, PRICE_STEP);
    }
  }

  /** Settling at the current price and recording the result keeps every exposure covered. */
  lemma SettleKeepsJoint(b: Book, x: Exposures, c: Command)
    requires Joint(b, x) && c.sizeQuote >= 0.0
    ensures var (after, r) := Settle(b, c, b.counter);
            Joint(after, RecordOrder(x, r))
  {
    var units := Units(c.sizeQuote, b.counter);
    UnitsWorth(c.sizeQuote, b.counter);
    UnitsSign(c.sizeQuote, b.counter);
    FillKeepsJoint(b, x, c, units);
    var status := Fill(b, c, units).1;
    RecordOrderIgnoresPrice(x, Settle(b, c, b.counter).1, Filling(c, status));
  }

  /** The result of a fill, with the price left out. */
  function Filling(c: Command, status: Status): Result {
    Result(c.id, c.symbol, c.side, status, if status.Filled? then c.sizeQuote else 0.0, 0.0)
  }

  lemma RecordOrderIgnoresPrice(x: Exposures, r: Result, s: Result)
    requires r.symbol == s.symbol && r.side == s.side && r.status == s.status && r.filledSizeQuote == s.filledSizeQuote
    ensures RecordOrder(x, r) == RecordOrder(x, s)
  {
  }

  /** Buying or selling `units` worth `size` at `price` moves an exposure and its cover together. */
  lemma CoverMoves(price: real, held: real, units: real, size: real, exposure: real)
    requires price > 0.0 && Worth(price, units) == size && exposure <= Worth(price, held)
    ensures exposure + size <= Worth(price, held + units)
    ensures units <= held ==> Clamp(exposure - size) <= Worth(price, held - units)
  {
    Distribute(price, held, units);
    Distribute(price, held, -units);
    assert price * -units == -size;
    if units <= held {
      assert Worth(price, held - units) >= 0.0;
    }
  }

  /** The executor's side of one fill, against any exposure covered before it. */
  lemma FillCovers(b: Book, c: Command, units: real, key: string, exposure: real)
    requires b.counter > 0.0 && Worth(b.counter, units) == c.sizeQuote && c.sizeQuote >= 0.0
    requires 0.0 <= exposure <= Worth(b.counter, b.Position(key))
    ensures var (after, status) := Fill(b, c, units);
            var moved := if SymbolKey(c.symbol) == key
                         then Clamp(exposure + Filling(c, status).NetBought()) else exposure;
            moved <= Worth(after.counter, after.Position(key))
  {
    var (after, status) := Fill(b, c, units);
    var held := b.Position(key);
    CoverMoves(b.counter, held, units, c.sizeQuote, exposure);
    if key != SymbolKey(c.symbol) || !status.Filled? {
      assert after.Position(key) == held;
    } else if c.side.Buy? {
      assert after.Position(key) == held + units;
    } else {
      assert after.Position(key) == held - units;
    }
  }

  lemma FillKeepsJoint(b: Book, x: Exposures, c: Command, units: real)
    requires Joint(b, x) && c.sizeQuote >= 0.0
    requires units >= 0.0 && Worth(b.counter, units) == c.sizeQuote
    ensures var (after, status) := Fill(b, c, units);
            Joint(after, RecordOrder(x, Filling(c, status)))
  {
    var (after, status) := Fill(b, c, units);
    var y := RecordOrder(x, Filling(c, status));
    FillSolvent(b, c, units);
    RecordOrderMoves(x, Filling(c, status), "");
    forall key ensures Covered(after, y, key) {
      assert Covered(b, x, key);
      RecordOrderMoves(x, Filling(c, status), key);
      FillCovers(b, c, units, key, x.Of(key));
    }
  }

  lemma OpeningIsJoint(balance: real)
    requires balance >= 0.0
    ensures Joint(Opening(balance), NO_EXPOSURE)
  {
  }

  lemma HandleKeepsJoint(b: Book, x: Exposures, t: Ticket)
    requires Joint(b, x) && t.cmd.IsPlain()
    ensures var (after, r) := Handle(b, t); Joint(after, RecordOrder(x, r))
  {
    if !t.blocked {
      QuoteKeepsJoint(b, x);
      SettleKeepsJoint(Quote(b, None).0, x, t.cmd);
    }
  }

  ghost predicate AllPlain(ts: seq<Ticket>) { forall t :: t in ts ==> t.cmd.IsPlain() }

  lemma {:induction false} RunKeepsJoint(b: Book, x: Exposures, ts: seq<Ticket>)
    requires Joint(b, x) && AllPlain(ts)
    ensures Joint(Ledger.Run(b, ts), Fold(x, Results(b, ts)))
    decreases |ts|
  {
    if ts != [] {
      var (after, r) := Handle(b, ts[0]);
      HandleKeepsJoint(b, x, ts[0]);
      RunKeepsJoint(after, RecordOrder(x, r), ts[1..]);
      assert Results(b, ts)[1..] == Results(after, ts[1..]);
    }
  }

  /** Cash moves by exactly the net bought amount the results report, whatever the orders. */
  lemma {:induction false} CashMatchesResults(b: Book, ts: seq<Ticket>)
    ensures Ledger.Run(b, ts).balance == b.balance - Net(Results(b, ts))
    decreases |ts|
  {
    if ts != [] {
      CashMatchesResults(Handle(b, ts[0]).0, ts[1..]);
      assert Results(b, ts)[1..] == Results(Handle(b, ts[0]).0, ts[1..]);
    }
  }

  lemma JointTotals(b: Book, x: Exposures)
    requires Joint(b, x)
    ensures x.totalNotional <= Worth(b.counter, Sum(b.positions))
  {
    MarkedSum(b.positions, b.counter);
    MarkedCovers(b, x, Marked(b.positions, b.counter));
  }

  lemma MarkedCovers(b: Book, x: Exposures, marked: map<string, real>)
    requires Joint(b, x) && marked.Keys == b.positions.Keys
    requires forall k :: k in marked ==> marked[k] == Worth(b.counter, b.positions[k])
    ensures Sum(x.byKey) <= Sum(marked)
  {
    forall k | k in marked ensures marked[k] >= 0.0 { WorthNonNegative(b.counter, b.positions[k]); }
    forall k | k in x.byKey ensures x.byKey[k] <= Amount(marked, k) {
      assert Covered(b, x, k);
    }
    SumMonotone(x.byKey, marked);
  }

  lemma WorthNonNegative(price: real, units: real)
    requires price >= 0.0 && units >= 0.0
    ensures Worth(price, units) >= 0.0
  {
  }

  /** The sandwich: cash spent <= the supervisor's notional <= marked value held, symbol by symbol and in
      total, and the supervisor's profit figure is exactly the change in cash. */
  lemma Sandwich(balance: real, ts: seq<Ticket>)
    requires balance >= 0.0 && AllPlain(ts)
    ensures var b := Ledger.Run(Opening(balance), ts);
            var x := Fold(NO_EXPOSURE, Results(Opening(balance), ts));
            && Joint(b, x)
            && (forall key :: x.Of(key) <= Worth(b.counter, b.Position(key)))
            && balance - b.balance <= x.totalNotional <= Worth(b.counter, Sum(b.positions))
            && x.dailyPnl == b.balance - balance
  {
    OpeningIsJoint(balance);
    RunKeepsJoint(Opening(balance), NO_EXPOSURE, ts);
    var b, rs := Ledger.Run(Opening(balance), ts), Results(Opening(balance), ts);
    var x := Fold(NO_EXPOSURE, rs);
    JointTotals(b, x);
    CashMatchesResults(Opening(balance), ts);
    FoldKept(NO_EXPOSURE, rs);
    NotionalPlusPnl(NO_EXPOSURE, rs);
    forall key ensures x.Of(key) <= Worth(b.counter, b.Position(key)) { assert Covered(b, x, key); }
  }

  /** Any unblocked market sell no larger than the supervisor's exposure, less sells still in flight, fills. */
  lemma CoveredSellFills(b: Book, x: Exposures, pending: seq<Result>, c: Command)
    requires Joint(b, Fold(x, pending)) && x.Kept()
    requires c.IsPlain() && c.side.Sell?
    requires var key := SymbolKey(c.symbol); c.sizeQuote <= x.Of(key) - PendingSells(pending, key) || c.sizeQuote == 0.0
    ensures Handle(b, Ticket(c, false)).1.status == Filled
  {
    var key := SymbolKey(c.symbol);
    FoldLosesOnlySells(x, pending, key);
    var quoted := Quote(b, None).0;
    QuoteKeepsJoint(b, Fold(x, pending));
    assert Covered(quoted, Fold(x, pending), key);
    if c.sizeQuote == 0.0 { WorthNonNegative(quoted.counter, quoted.Position(key)); }
    FillsExactly(b, Ticket(c, false));
  }
}
