/** The simulated cash and position ledger of the execution service. */
module Ledger {
  import opened Common
  import opened Trading

  const FIRST_PRICE: real := 30000.0
  const PRICE_STEP: real := 10.0

  datatype Book = Book(balance: real, positions: map<string, real>, counter: real) {
    function Position(key: string): real { Amount(positions, key) }

    /** Cash plus positions marked at the current synthetic price. */
    ghost function Equity(): real { balance + Worth(counter, Sum(positions)) }

    ghost predicate Solvent() { balance >= 0.0 && NonNegative(positions) && counter > 0.0 }
  }

  function Opening(balance: real): Book {
    Book(balance, map[], FIRST_PRICE)
  }

  /** A command as the command loop meets it: with the state of the circuit-breaker flag at that moment. */
  datatype Ticket = Ticket(cmd: Command, blocked: bool)

  function BreakerRejection(c: Command): Result {
    Result(c.id, c.symbol, c.side, Rejected("circuit breaker active"), 0.0, 0.0)
  }

  function Quote(b: Book, limit: Option<real>): (Book, real) {
    match limit
    case Some(price) => (b, price)
    case None => (b.(counter := b.counter + PRICE_STEP), b.counter + PRICE_STEP)
  }

  function Units(size: real, price: real): real {
    if price > 0.0 then size / price else 0.0
  }

  /** Moves cash against `units` of the symbol, if the book can afford it. */
  function Fill(b: Book, c: Command, units: real): (Book, Status) {
    var key := SymbolKey(c.symbol);
    var held := b.Position(key);
    match c.side
    case Buy =>
      if b.balance >= c.sizeQuote
      then (Book(b.balance - c.sizeQuote, b.positions[key := held + units], b.counter), Filled)
      else (b, Rejected("insufficient balance"))
    case Sell =>
      if held >= units
      then (Book(b.balance + c.sizeQuote, b.positions[key := held - units], b.counter), Filled)
      else (b.(positions := b.positions[key := held]), Rejected("insufficient position"))
  }

  /** The second half of handling a command: the price is already known. */
  function Settle(b: Book, c: Command, price: real): (Book, Result) {
    var (after, status) := Fill(b, c, Units(c.sizeQuote, price));
    (after, Result(c.id, c.symbol, c.side, status,
                   if status.Filled? then c.sizeQuote else 0.0, if status.Filled? then price else 0.0))
  }

  function Handle(b: Book, t: Ticket): (Book, Result) {
    if t.blocked then (b, BreakerRejection(t.cmd))
    else
      var (quoted, price) := Quote(b, t.cmd.limitPrice);
      Settle(quoted, t.cmd, price)
  }

  function Run(b: Book, ts: seq<Ticket>): Book
    decreases |ts|
  {
    if ts == [] then b else Run(Handle(b, ts[0]).0, ts[1..])
  }

  function Results(b: Book, ts: seq<Ticket>): seq<Result>
    decreases |ts|
  {
    if ts == [] then [] else var (after, r) := Handle(b, ts[0]); [r] + Results(after, ts[1..])
  }

  lemma {:induction false} RunAppend(b: Book, ts: seq<Ticket>, us: seq<Ticket>)
    ensures Run(b, ts + us) == Run(Run(b, ts), us)
    ensures Results(b, ts + us) == Results(b, ts) + Results(Run(b, ts), us)
    decreases |ts|
  {
    if ts == [] {
      assert ts + us == us;
    } else {
      assert (ts + us)[1..] == ts[1..] + us;
      RunAppend(Handle(b, ts[0]).0, ts[1..], us);
    }
  }

  // ---- Self-financing -------------------------------------------------------

  lemma UnitsWorth(size: real, price: real)
    requires price > 0.0
    ensures Worth(price, Units(size, price)) == size
  {
  }

  /** Market orders that got as far as a price, filled or not. */
  function PricedAtMarket(ts: seq<Ticket>): nat {
    if ts == [] then 0
    else (if !ts[0].blocked && ts[0].cmd.IsMarket() then 1 else 0) + PricedAtMarket(ts[1..])
  }

  lemma {:induction false} CounterFrom(b: Book, ts: seq<Ticket>)
    ensures Run(b, ts).counter == b.counter + 10.0 * PricedAtMarket(ts) as real
    decreases |ts|
  {
    if ts != [] {
      CounterFrom(Handle(b, ts[0]).0, ts[1..]);
    }
  }

  /** The synthetic price starts at 30000 and counts the market orders priced, in tens; limit orders leave it. */
  lemma CounterCounts(balance: real, ts: seq<Ticket>)
    ensures Run(Opening(balance), ts).counter == 30000.0 + 10.0 * PricedAtMarket(ts) as real
  {
    CounterFrom(Opening(balance), ts);
  }

  /** What one priced order adds to marked equity: the price rise on everything held just before it,
      and, for a limit order only, the gap between its own price and the mark. */
  ghost function Gain(b: Book, t: Ticket): real {
    if t.blocked then 0.0
    else if t.cmd.IsMarket() then PRICE_STEP * Sum(b.positions)
    else if !Handle(b, t).1.status.Filled? then 0.0
    else
      var markValue := Worth(b.counter, Units(t.cmd.sizeQuote, t.cmd.limitPrice.value));
      if t.cmd.side.Buy? then markValue - t.cmd.sizeQuote else t.cmd.sizeQuote - markValue
  }

  ghost function Gains(b: Book, ts: seq<Ticket>): real
    decreases |ts|
  {
    if ts == [] then 0.0 else Gain(b, ts[0]) + Gains(Handle(b, ts[0]).0, ts[1..])
  }

  /** The units a fill adds to, or takes from, its symbol. */
  function Moved(b: Book, c: Command, units: real): real {
    if !Fill(b, c, units).1.Filled? then 0.0 else if c.side.Buy? then units else -units
  }

  lemma FillTotal(b: Book, c: Command, units: real)
    ensures Sum(Fill(b, c, units).0.positions) == Sum(b.positions) + Moved(b, c, units)
  {
    var key := SymbolKey(c.symbol);
    SumUpdate(b.positions, key, b.Position(key) + Moved(b, c, units));
  }

  lemma FillMarks(b: Book, c: Command, units: real)
    ensures var after := Fill(b, c, units).0;
            after.counter == b.counter
            && after.Equity()
               == after.balance + Worth(b.counter, Sum(b.positions)) + Worth(b.counter, Moved(b, c, units))
  {
    FillTotal(b, c, units);
    Distribute(b.counter, Sum(b.positions), Moved(b, c, units));
  }

  lemma WorthNegates(price: real, units: real)
    ensures Worth(price, -units) == -Worth(price, units)
    ensures Worth(price, 0.0) == 0.0
  {
  }

  lemma FillEquity(b: Book, c: Command, units: real)
    ensures var (after, status) := Fill(b, c, units);
            && after.counter == b.counter
            && after.Equity() == b.Equity() +
               (if !status.Filled? then 0.0
                else if c.side.Buy? then Worth(b.counter, units) - c.sizeQuote
                else c.sizeQuote - Worth(b.counter, units))
  {
    FillMarks(b, c, units);
    WorthNegates(b.counter, units);
  }

  lemma HandleEquity(b: Book, t: Ticket)
    requires b.counter > 0.0
    ensures var after := Handle(b, t).0;
            && after.Equity() == b.Equity() + Gain(b, t)
            && after.counter == b.counter + (if !t.blocked && t.cmd.IsMarket() then PRICE_STEP else 0.0)
  {
    if !t.blocked {
      var (quoted, price) := Quote(b, t.cmd.limitPrice);
      FillEquity(quoted, t.cmd, Units(t.cmd.sizeQuote, price));
      if t.cmd.IsMarket() {
        UnitsWorth(t.cmd.sizeQuote, price);
        Distribute(Sum(b.positions), b.counter, PRICE_STEP);
      }
    }
  }

  /** Over every run, marked equity moves by the recorded gains and by nothing else. */
  lemma {:induction false} SelfFinancing(b: Book, ts: seq<Ticket>)
    requires b.counter > 0.0
    ensures Run(b, ts).Equity() == b.Equity() + Gains(b, ts)
    decreases |ts|
  {
    if ts != [] {
      HandleEquity(b, ts[0]);
      SelfFinancing(Handle(b, ts[0]).0, ts[1..]);
    }
  }

  /** Total held just before each priced order, summed over a run. */
  ghost function HeldBefore(b: Book, ts: seq<Ticket>): real
    decreases |ts|
  {
    if ts == [] then 0.0
    else (if ts[0].blocked then 0.0 else Sum(b.positions)) + HeldBefore(Handle(b, ts[0]).0, ts[1..])
  }

  ghost predicate AllMarket(ts: seq<Ticket>) { forall t :: t in ts ==> t.cmd.IsMarket() }

  ghost predicate NoShortSize(ts: seq<Ticket>) { forall t :: t in ts ==> t.cmd.sizeQuote >= 0.0 }

  lemma {:induction false} MarketGains(b: Book, ts: seq<Ticket>)
    requires AllMarket(ts)
    ensures Gains(b, ts) == PRICE_STEP * HeldBefore(b, ts)
    decreases |ts|
  {
    if ts != [] {
      MarketGains(Handle(b, ts[0]).0, ts[1..]);
    }
  }

  /** The market-only form, from the opening book: rejected but priced orders count too. */
  lemma MarketSelfFinancing(balance: real, ts: seq<Ticket>)
    requires AllMarket(ts)
    ensures var end := Run(Opening(balance), ts);
            end.balance + Worth(end.counter, Sum(end.positions)) == balance + 10.0 * HeldBefore(Opening(balance), ts)
  {
    SelfFinancing(Opening(balance), ts);
    MarketGains(Opening(balance), ts);
  }

  // ---- What a result says about the book ------------------------------------

  /** An order fills exactly when the flag is clear and its side can pay: cash for a buy; for a sell, a holding
      worth its size at the fill price (and any non-negative holding at a price of zero or less). */
  lemma FillsExactly(b: Book, t: Ticket)
    ensures var price := Quote(b, t.cmd.limitPrice).1;
            var held := b.Position(SymbolKey(t.cmd.symbol));
            Handle(b, t).1.status.Filled? <==>
            && !t.blocked
            && (t.cmd.side.Buy? ==> t.cmd.sizeQuote <= b.balance)
            && (t.cmd.side.Sell? ==> if price > 0.0 then t.cmd.sizeQuote <= Worth(price, held) else held >= 0.0)
  {
    var price := Quote(b, t.cmd.limitPrice).1;
    if price > 0.0 { UnitsAffordable(t.cmd.sizeQuote, price, b.Position(SymbolKey(t.cmd.symbol))); }
  }

  lemma UnitsAffordable(size: real, price: real, held: real)
    requires price > 0.0
    ensures Units(size, price) <= held <==> size <= Worth(price, held)
  {
    var units := Units(size, price);
    UnitsWorth(size, price);
    Distribute(price, held, units - held);
  }

  /** A result accounts for its order: the cash it reports moved, units worth that cash at the average price it
      reports changed hands, every other symbol is untouched, and a rejection reports and moves nothing. */
  lemma ResultAccounts(b: Book, t: Ticket, other: string)
    ensures var (after, r) := Handle(b, t);
            var key := SymbolKey(t.cmd.symbol);
            && r.commandId == t.cmd.id && r.symbol == t.cmd.symbol && r.side == t.cmd.side
            && after.balance == b.balance - r.NetBought()
            && (r.status.Filled? ==> r.filledSizeQuote == t.cmd.sizeQuote)
            && (r.status.Filled? && r.avgPrice > 0.0 ==>
                  Worth(r.avgPrice, after.Position(key) - b.Position(key)) == r.NetBought())
            && (r.status.Filled? && r.avgPrice <= 0.0 ==> after.Position(key) == b.Position(key))
            && (r.status.Filled? && t.cmd.IsMarket() ==> r.avgPrice == after.counter)
            && (r.status.Filled? && !t.cmd.IsMarket() ==> r.avgPrice == t.cmd.limitPrice.value)
            && (other != key || !r.status.Filled? ==> after.Position(other) == b.Position(other))
            && (!r.status.Filled? ==> r.filledSizeQuote == 0.0 && r.avgPrice == 0.0 && after.balance == b.balance)
            && (t.blocked ==> after == b && r.status == Rejected("circuit breaker active"))
            && (!t.blocked && !r.status.Filled? ==>
                  r.status == Rejected(if t.cmd.side.Buy? then "insufficient balance" else "insufficient position"))
  {
    var price := Quote(b, t.cmd.limitPrice).1;
    if price > 0.0 {
      UnitsWorth(t.cmd.sizeQuote, price);
      assert Worth(price, -Units(t.cmd.sizeQuote, price)) == -Worth(price, Units(t.cmd.sizeQuote, price));
    }
  }

  // ---- Orders by the name of their symbol -----------------------------------

  /** An order is checked against the holding its symbol names, and moves that one and no other; a sell files it even
      if there is nothing to sell. */
  lemma HoldingsByName(b: Book, t: Ticket, key: string)
    ensures var (after, r) := Handle(b, t);
            var price := if t.cmd.limitPrice.Some? then t.cmd.limitPrice.value else b.counter + 10.0;
            && (!Names(key, t.cmd.symbol) ==> after.Position(key) == b.Position(key))
            && (key in after.positions <==>
                  (|| key in b.positions
                   || (Names(key, t.cmd.symbol) && !t.blocked && (t.cmd.side.Sell? || r.status.Filled?))))
            && (Names(key, t.cmd.symbol) && t.cmd.side.Sell? && price > 0.0 ==>
                  (r.status.Filled? <==> !t.blocked && t.cmd.sizeQuote <= Worth(price, b.Position(key))))
            && (Names(key, t.cmd.symbol) && r.status.Filled? ==>
                  r.avgPrice == price
                  && (price > 0.0 ==> Worth(price, after.Position(key) - b.Position(key)) == r.NetBought())
                  && (price <= 0.0 ==> after.Position(key) == b.Position(key)))
  {
    KeyIsName(t.cmd.symbol, t.cmd.symbol, key);
    ResultAccounts(b, t, key);
    FillsExactly(b, t);
  }

  /** No order of a run adds to this symbol: those in its name only sell. */
  ghost predicate NeverBought(ts: seq<Ticket>, symbol: Symbol) {
    forall t :: t in ts && SameName(t.cmd.symbol, symbol) ==> t.cmd.side.Sell? && t.cmd.sizeQuote >= 0.0
  }

  lemma EmptyStays(b: Book, t: Ticket, key: string)
    requires b.Position(key) == 0.0 && b.counter > 0.0
    requires SymbolKey(t.cmd.symbol) == key ==> t.cmd.side.Sell? && t.cmd.sizeQuote >= 0.0
    ensures Handle(b, t).0.Position(key) == 0.0 && Handle(b, t).0.counter > 0.0
  {
    HandleEquity(b, t);
    ResultAccounts(b, t, key);
    if SymbolKey(t.cmd.symbol) == key && !t.blocked {
      var price := Quote(b, t.cmd.limitPrice).1;
      if price > 0.0 && t.cmd.sizeQuote > 0.0 { MarkGap(t.cmd.sizeQuote, price, price); }
    }
  }

  lemma {:induction false} EmptyThroughout(b: Book, ts: seq<Ticket>, symbol: Symbol)
    requires b.Position(SymbolKey(symbol)) == 0.0 && b.counter > 0.0 && NeverBought(ts, symbol)
    ensures Run(b, ts).Position(SymbolKey(symbol)) == 0.0 && Run(b, ts).counter > 0.0
    decreases |ts|
  {
    if ts != [] {
      KeyIsName(ts[0].cmd.symbol, symbol, "");
      EmptyStays(b, ts[0], SymbolKey(symbol));
      EmptyThroughout(Handle(b, ts[0]).0, ts[1..], symbol);
    }
  }

  /** A market sell of positive size in a symbol never bought under any spelling is rejected, after any run. */
  lemma NeverBoughtNeverSold(balance: real, ts: seq<Ticket>, c: Command)
    requires NeverBought(ts, c.symbol) && c.IsMarket() && c.side.Sell? && c.sizeQuote > 0.0
    ensures Handle(Run(Opening(balance), ts), Ticket(c, false)).1.status == Rejected("insufficient position")
  {
    var b := Run(Opening(balance), ts);
    EmptyThroughout(Opening(balance), ts, c.symbol);
    FillsExactly(b, Ticket(c, false));
    ResultAccounts(b, Ticket(c, false), "");
    assert Worth(Quote(b, None).1, 0.0) == 0.0;
  }

  /** Two symbols share one holding exactly when base and quote, put together, agree but for case: what was bought in
      the one can then be sold in the other. */
  lemma HoldingSharedExactly(balance: real, s: Symbol, t: Symbol, size: real)
    requires 0.0 < size <= balance
    ensures var bought := Handle(Opening(balance), Ticket(Command("", s, Buy, size, None), false)).0;
            Handle(bought, Ticket(Command("", t, Sell, size, None), false)).1.status.Filled? <==> SameName(s, t)
  {
    var buy, sell := Ticket(Command("", s, Buy, size, None), false), Ticket(Command("", t, Sell, size, None), false);
    var (bought, r) := Handle(Opening(balance), buy);
    KeyIsName(s, t, "");
    FillsExactly(Opening(balance), buy);
    ResultAccounts(Opening(balance), buy, SymbolKey(t));
    FillsExactly(bought, sell);
    var held, price := bought.Position(SymbolKey(t)), bought.counter;
    if SameName(s, t) {
      assert Worth(price, held) == size;
      ProductSign(price, held);
      Distribute(held, price, 10.0);
    } else {
      assert Worth(price + 10.0, held) == 0.0;
    }
  }

  // ---- Solvency -------------------------------------------------------------

  /** What a caller can check before an order: it then leaves no negative cash and no negative position. */
  predicate Harmless(b: Book, c: Command) {
    c.sizeQuote >= 0.0 ||
    (c.side.Sell? && b.balance + c.sizeQuote >= 0.0) ||
    (c.side.Buy? && b.Position(SymbolKey(c.symbol))
                    + Units(c.sizeQuote, Quote(b, c.limitPrice).1) >= 0.0)
  }

  lemma FillSolvent(b: Book, c: Command, units: real)
    requires b.Solvent()
    requires c.sizeQuote >= 0.0 ==> units >= 0.0
    requires c.sizeQuote < 0.0 ==> units <= 0.0
    ensures Fill(b, c, units).0.Solvent() <==>
            c.sizeQuote >= 0.0 || (c.side.Sell? && b.balance + c.sizeQuote >= 0.0)
            || (c.side.Buy? && b.Position(SymbolKey(c.symbol)) + units >= 0.0)
  {
    var key := SymbolKey(c.symbol);
    var after := Fill(b, c, units).0;
    if key in after.positions {
      assert after.Solvent() ==> after.positions[key] >= 0.0;
    }
  }

  /** Exactly the harmless orders keep a solvent book solvent, whatever their limit price. */
  lemma SolventExactly(b: Book, c: Command)
    requires b.Solvent()
    ensures Handle(b, Ticket(c, false)).0.Solvent() <==> Harmless(b, c)
  {
    var (quoted, price) := Quote(b, c.limitPrice);
    UnitsSign(c.sizeQuote, price);
    FillSolvent(quoted, c, Units(c.sizeQuote, price));
  }

  lemma UnitsSign(size: real, price: real)
    ensures size >= 0.0 ==> Units(size, price) >= 0.0
    ensures size < 0.0 ==> Units(size, price) <= 0.0
  {
  }

  /** No run of orders of non-negative size, limit or market, overdraws cash or a position. */
  lemma {:induction false} RunSolvent(b: Book, ts: seq<Ticket>)
    requires b.Solvent() && NoShortSize(ts)
    ensures Run(b, ts).Solvent()
    decreases |ts|
  {
    if ts != [] {
      SolventExactly(b, ts[0].cmd);
      RunSolvent(Handle(b, ts[0]).0, ts[1..]);
    }
  }

  /** A market-only run never marks below its opening balance. */
  lemma EquityNeverBelowOpening(balance: real, ts: seq<Ticket>)
    requires balance >= 0.0 && AllMarket(ts) && NoShortSize(ts)
    ensures var end := Run(Opening(balance), ts);
            end.Solvent() && end.Equity() >= balance
  {
    RunSolvent(Opening(balance), ts);
    MarketSelfFinancing(balance, ts);
    HeldBeforeNonNegative(Opening(balance), ts);
  }

  lemma {:induction false} HeldBeforeNonNegative(b: Book, ts: seq<Ticket>)
    requires b.Solvent() && NoShortSize(ts)
    ensures HeldBefore(b, ts) >= 0.0
    decreases |ts|
  {
    if ts != [] {
      SumNonNegative(b.positions);
      SolventExactly(b, ts[0].cmd);
      HeldBeforeNonNegative(Handle(b, ts[0]).0, ts[1..]);
    }
  }

  // ---- Which orders lose equity ---------------------------------------------

  /** Whether a limit order can be paid for, at its own price. */
  predicate Affords(b: Book, c: Command)
    requires c.limitPrice.Some?
  {
    var limit, held := c.limitPrice.value, b.Position(SymbolKey(c.symbol));
    match c.side
    case Buy => c.sizeQuote <= b.balance
    case Sell => if limit > 0.0 then c.sizeQuote <= Worth(limit, held) else held >= 0.0
  }

  /** What a caller can check before an order: it is a limit order that fills on the wrong side of the mark. A price
      of zero or less moves cash for no units at all, so it is wrong for whoever pays. */
  predicate LosesEquity(b: Book, c: Command) {
    && c.limitPrice.Some? && Affords(b, c)
    && var limit, pays := c.limitPrice.value, if c.side.Buy? then c.sizeQuote else -c.sizeQuote;
       if pays > 0.0 then limit > b.counter || limit <= 0.0 else pays < 0.0 && 0.0 < limit < b.counter
  }

  lemma ProductSign(x: real, y: real)
    ensures x > 0.0 && y > 0.0 ==> Worth(x, y) > 0.0
    ensures x > 0.0 && y < 0.0 ==> Worth(x, y) < 0.0
    ensures x < 0.0 && y > 0.0 ==> Worth(x, y) < 0.0
    ensures x < 0.0 && y < 0.0 ==> Worth(x, y) > 0.0
    ensures x == 0.0 || y == 0.0 ==> Worth(x, y) == 0.0
  {
  }

  /** Units bought for `size` at a positive limit are marked at `size` plus the gap to the mark on each unit. */
  lemma MarkGap(size: real, limit: real, mark: real)
    requires limit > 0.0
    ensures Worth(mark, Units(size, limit)) - size == Worth(mark - limit, Units(size, limit))
    ensures (size > 0.0 ==> Units(size, limit) > 0.0) && (size < 0.0 ==> Units(size, limit) < 0.0)
  {
    var units := Units(size, limit);
    UnitsWorth(size, limit);
    Distribute(units, mark - limit, limit);
  }

  /** The gain of a filled limit order, by sign alone. */
  lemma GapSign(size: real, limit: real, mark: real)
    requires mark > 0.0
    ensures var gap := Worth(mark, Units(size, limit)) - size;
            && (size > 0.0 ==> (gap < 0.0 <==> limit > mark || limit <= 0.0) && (gap > 0.0 <==> 0.0 < limit < mark))
            && (size < 0.0 ==> (gap > 0.0 <==> limit > mark || limit <= 0.0) && (gap < 0.0 <==> 0.0 < limit < mark))
            && (size == 0.0 ==> gap == 0.0)
  {
    if limit > 0.0 {
      MarkGap(size, limit, mark);
      ProductSign(mark - limit, Units(size, limit));
    }
    ProductSign(mark, Units(size, limit));
  }

  /** Exactly these orders leave a solvent book marked below what it was, whatever their size. */
  lemma LosesExactly(b: Book, c: Command)
    requires b.Solvent()
    ensures Handle(b, Ticket(c, false)).0.Equity() < b.Equity() <==> LosesEquity(b, c)
  {
    HandleEquity(b, Ticket(c, false));
    if c.IsMarket() {
      SumNonNegative(b.positions);
    } else {
      FillsExactly(b, Ticket(c, false));
      GapSign(c.sizeQuote, c.limitPrice.value, b.counter);
    }
  }

  /** Each order of the run that meets a clear flag is harmless at its point. */
  predicate AllHarmless(b: Book, ts: seq<Ticket>)
    decreases |ts|
  {
    ts != [] ==> (ts[0].blocked || Harmless(b, ts[0].cmd)) && AllHarmless(Handle(b, ts[0]).0, ts[1..])
  }

  /** None of them loses equity at its point. */
  predicate NoneLoses(b: Book, ts: seq<Ticket>)
    decreases |ts|
  {
    ts != [] ==> (ts[0].blocked || !LosesEquity(b, ts[0].cmd)) && NoneLoses(Handle(b, ts[0]).0, ts[1..])
  }

  /** Marked equity never falls from one order to the next. */
  ghost predicate NeverFalls(b: Book, ts: seq<Ticket>)
    decreases |ts|
  {
    ts != [] ==> Handle(b, ts[0]).0.Equity() >= b.Equity() && NeverFalls(Handle(b, ts[0]).0, ts[1..])
  }

  /** Over every run of harmless orders, limit and market: the book stays solvent, its equity never falls exactly
      when no order loses, and it then ends no lower than it began. */
  lemma {:induction false} EquityKeptExactly(b: Book, ts: seq<Ticket>)
    requires b.Solvent() && AllHarmless(b, ts)
    ensures Run(b, ts).Solvent()
    ensures NeverFalls(b, ts) <==> NoneLoses(b, ts)
    ensures NoneLoses(b, ts) ==> Run(b, ts).Equity() >= b.Equity()
    decreases |ts|
  {
    if ts != [] {
      var t := ts[0];
      if !t.blocked {
        assert t == Ticket(t.cmd, false);
        SolventExactly(b, t.cmd);
        LosesExactly(b, t.cmd);
      }
      EquityKeptExactly(Handle(b, t).0, ts[1..]);
    }
  }

  /** Limit orders at work: one above the mark and one at zero each cost a buyer, the second its whole size;
      and a sell at zero is paid for without any position. */
  lemma LimitOrdersEscape()
    ensures exists c: Command :: c.sizeQuote >= 0.0 && Handle(Opening(100.0), Ticket(c, false)).0.Equity() < 100.0
    ensures exists c: Command :: c.sizeQuote > 0.0 && c.side.Buy?
                                 && Handle(Opening(100.0), Ticket(c, false)).0.Equity() == 100.0 - c.sizeQuote
    ensures exists c: Command :: c.sizeQuote > 0.0 && c.side.Sell?
                                 && Handle(Opening(100.0), Ticket(c, false)).1.status.Filled?
  {
    var dear := Command("", Symbol("a", "b"), Buy, 60.0, Some(60000.0));
    LosesExactly(Opening(100.0), dear);
    assert Handle(Opening(100.0), Ticket(dear, false)).0.Equity() < 100.0;
    var wasted := Command("", Symbol("a", "b"), Buy, 60.0, Some(0.0));
    HandleEquity(Opening(100.0), Ticket(wasted, false));
    assert Handle(Opening(100.0), Ticket(wasted, false)).0.Equity() == 40.0;
    var free := Command("", Symbol("a", "b"), Sell, 60.0, Some(0.0));
    assert Handle(Opening(100.0), Ticket(free, false)).1.status.Filled?;
  }
}
