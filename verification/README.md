# The order, risk and telemetry core of W2UOS, modelled in Dafny

This project models the parts of W2UOS (a Rust trading node) in which separately running services must agree:
the simulated ledger of the execution service, the risk supervisor that rebuilds its own books from the results it
hears about, the circuit breaker between them, the message bus and the traffic shaper underneath, the latency
telemetry, the configuration overlay and the backtest replay. Each file states what the running system promises as
lemmas over every input, every run or every interleaving.

How it is laid out:

- `Common`, `Sorting`, `Trading`: options, sums over finite maps, a stable sort, orders and results.
- `Ledger`, `Risk`: the two books as functions of what they are fed. `ExecutionService`, `RiskSupervisor` are the
  objects that update their fields in place; each method's new state is tied to those functions.
- `Books`: the two books side by side on one run.
- `Node`: executor, supervisor and strategy host as one step relation. An event is one atomic step of one task; a step
  that is not possible, or whose queue is full, changes nothing. Any sequence of events is therefore a run, and every
  interleaving is one. `RunRefines` brings every such run back to the sequential ledger and supervisor.
- `Breaker`: what a trip freezes, and runs that lead to one. `Stalls`: when a trip costs the supervisor itself.
  `Resets`: when a reset releases the executor, and when it leaves the breaker without effect. `StrategyHost` is the
  host as an object.
- `Bus`, `LocalBus`: the bus protocol with its invariant, and the object made of its atomic sections. `LockQueue`: the
  same bus behind its fair lock, where a waiting subscriber comes before later publishers.
- `Shaper`, `TrafficShaper`: the same for the traffic shaper.
- `Latency`, `Percentiles`, `LogService`: the three-stage join, order statistics, and the log service's buffers.
- `ConfigMerge`: the overlay merge, its path-by-path meaning and its laws.
- `Replay`, `Metrics`, `Backtest`: order and pace of a replay, running metrics, and the engine.

Reading conventions. `f64` amounts are `real`, 0.95 and 0.99 are 19/20 and 99/100, instants are whole nanoseconds. NaN,
infinities, rounding and integer overflow are not modelled. Execution is in simulated mode. Both services compute the
same symbol key (w2uos-exec/src/service.rs:111-113, w2uos-kernel/src/risk_supervisor.rs:60-61); it is one function here.

Where the code does something other than one might expect:

- `RiskSupervisorService::start` runs a deep copy of the service (w2uos-kernel/src/risk_supervisor.rs:228-235, 258-267).
  A reset is modelled both on the running worker (`OperatorReset(true)`) and on the original handle
  (`OperatorReset(false)`), which is where the API's reset arrives (w2uos-api/src/context.rs:182-188). Once the block
  of a trip has been consumed, a reset leaves the breaker able to block again if and only if it reached the worker and
  the log queue lets the trip end (`Resets.ResetRearmsExactly`); after the other kind, once it has released the
  executor, nothing but a reset of the worker leads to another block (`Resets.DetachedResetDisarms`), and every start
  can lead there (`Resets.DisarmReachable`).
- Block and reset travel on separate queues. A reset asked for while the block is still pending may be overtaken by
  it; the reset is sure to release the executor if and only if no block is pending (`Resets.ResetReleasesExactly`).
- A tripped supervisor publishes an Error log to a bounded queue that only its own loop drains. It is lost for good if
  and only if that queue is full before its last message (`Stalls.LostExactly`). Every start with a subscription can
  lead there, whatever its limits, by one order and ordinary logging (`Stalls.OneOrderStalls`); the order is a sell of
  negative size, or, where all the cash makes a forbidden loss, a plain buy (`Stalls.OneBuyStalls`).
- A publisher keeps the bus lock while it waits for room, and a subscriber waiting for the lock holds up all publishers
  behind it, on every subject. While a publisher is at a full channel, someone in line is served without that
  channel's receiver if and only if no subscriber stands there or ahead (`LockQueue.ServedExactly`); if the receiver is
  the publisher itself, as for the supervisor's own log, this lasts for good (`LockQueue.SelfJamIsForever`).
  Subscriptions do arrive at run time, one for each WebSocket client and subject (w2uos-api/src/server.rs:259-263).
- A shaper limit of zero deadlocks the first request (`Shaper.DeadlockExactly`). Since the map mutex is held while
  waiting, a busy tag can hold up an idle one if and only if there is a limit (`Shaper.HeadOfLineExactly`): a fresh
  request gets in before any other finishes if and only if there is none, or the holder of the mutex is not held up
  and leaves a permit (`Shaper.GetsInExactly`). One completion of the busy tag ends it (`Shaper.HeadOfLineEnds`).
- `max_drawdown` is the drawdown at the end, not the deepest of the run; the two agree all along if and only if no fill
  leaves the running profit positive during a drawdown (`Metrics.DrawdownKeptExactly`).
- A trade counts as a win when the running profit is not negative. The wins are the trades' own all along if and only
  if no losing trade leaves that profit non-negative and no winning one leaves it negative
  (`Metrics.WinsTrueExactly`); otherwise they are off by exactly the number of such trades (`Metrics.WinsExactly`).
- A limit order may fill on the wrong side of the mark, and one priced at zero or less moves cash for no units:
  `Ledger.LosesExactly` says which orders lose equity. Orders of negative size are accepted; `Ledger.SolventExactly`
  says which orders keep a solvent book solvent.

## Model

| member | source | states |
|---|---|---|
| Trading.KeyIsName | w2uos-exec/src/service.rs:111-113 | a symbol's key spells base then quote in capitals, and two symbols share it if and only if these agree letter by letter but for ASCII case |
| Ledger.HoldingsByName | w2uos-exec/src/service.rs:167-196 | an order is checked against the holding its symbol names, moves that one by units worth its size, and leaves every other name alone |
| Ledger.NeverBoughtNeverSold | w2uos-exec/src/service.rs:186-195 | after any run, a positive market sell in a symbol never bought under any spelling is rejected for lack of position |
| Ledger.HoldingSharedExactly | w2uos-exec/src/service.rs:111-113 | what was bought in one symbol can be sold in another if and only if their names agree |
| Ledger.FillsExactly | w2uos-exec/src/service.rs:125-196 | an order fills if and only if the flag is clear and its side can pay at the price it got; a sell needs a holding worth its size |
| Ledger.ResultAccounts | w2uos-exec/src/service.rs:125-215 | a result reports exactly the cash that moved; units worth that cash at the reported price changed hands; nothing else moves; a rejection moves nothing and names the flag, the balance or the position |
| Ledger.HandleEquity | w2uos-exec/src/service.rs:115-196 | one order changes marked equity by its recorded gain only, and the mark rises by 10 exactly for priced market orders, rejected ones included |
| Ledger.CounterCounts | w2uos-exec/src/service.rs:115-123 | the synthetic price is 30000 plus 10 for every market order priced so far, rejected ones included |
| Ledger.SelfFinancing | w2uos-exec/src/service.rs:115-196 | over every run, limit orders included, marked equity is the opening equity plus the recorded gains |
| Ledger.MarketSelfFinancing | w2uos-exec/src/service.rs:115-196 | market-only: cash + price x total held = opening cash + 10 x the sum of totals held just before each priced order |
| Ledger.SolventExactly | w2uos-exec/src/service.rs:170-196 | exactly the orders meeting a condition checkable beforehand keep cash and positions non-negative, whatever the limit price |
| Ledger.RunSolvent | w2uos-exec/src/service.rs:176-196 | no run of orders of non-negative size overdraws cash or a position |
| Ledger.EquityNeverBelowOpening | w2uos-exec/src/service.rs:115-196 | market-only runs stay solvent and never mark below the opening balance |
| Ledger.LosesExactly | w2uos-exec/src/service.rs:115-196 | on a solvent book an order of any size lowers marked equity if and only if it is an affordable limit order on the wrong side of the mark, a price of zero or less included |
| Ledger.EquityKeptExactly | w2uos-exec/src/service.rs:115-196 | over every run of harmless orders, limit and market, the book stays solvent; its equity never falls if and only if no order loses at its point, and then ends no lower than it began |
| Ledger.LimitOrdersEscape | w2uos-exec/src/service.rs:115-118 | the conditions above are met: a buy above the mark, a buy at zero that loses its whole size, a sell at zero without a holding |
| Ledger.RunAppend | w2uos-exec/src/service.rs:290-304 | a run and its results split at any point |
| ExecutionServices.ExecutionService.NextFillPrice | w2uos-exec/src/service.rs:115-123 | a limit price is used as it is; otherwise the counter rises by 10 and is the price |
| ExecutionServices.ExecutionService.HandleCommand | w2uos-exec/src/service.rs:125-216 | the in-place update reaches the ledger function's book and result |
| ExecutionServices.ExecutionService.ProcessCommands | w2uos-exec/src/service.rs:290-304 | the command loop computes the sequential run and its results |
| ExecutionServices.ExecutionService.OnBlockMessage | w2uos-exec/src/service.rs:246-258 | the in-place update is the node's step that takes a block |
| ExecutionServices.ExecutionService.OnResetMessage | w2uos-exec/src/service.rs:260-269 | the in-place update is the node's step that takes a reset |
| Risk.RecordOrderMoves | w2uos-kernel/src/risk_supervisor.rs:57-83 | a result moves one exposure by its net bought amount clamped at zero, keeps stored exposures positive and the totals exact |
| Risk.ExposureByName | w2uos-kernel/src/risk_supervisor.rs:60-77 | the exposure it moves is the one its symbol names, and every other name is left alone |
| Risk.ExposureSharedExactly | w2uos-kernel/src/risk_supervisor.rs:60-81 | two buys make one open position if their symbols' names agree, and two otherwise |
| Risk.WalkReflects | w2uos-kernel/src/risk_supervisor.rs:62-77 | from any state, an exposure is the reflected walk of its net bought amounts |
| Risk.ExposureIsMaxSuffix | w2uos-kernel/src/risk_supervisor.rs:62-77 | an exposure is the maximum over all suffixes, the empty one included, of net bought quote |
| Risk.NotionalPlusPnl | w2uos-kernel/src/risk_supervisor.rs:79-81 | notional plus profit only grows, and by exactly what was clamped away |
| Risk.FoldKept | w2uos-kernel/src/risk_supervisor.rs:75-81 | over any results, totals stay exact and profit is minus the net bought |
| Risk.FoldLosesOnlySells | w2uos-kernel/src/risk_supervisor.rs:62-77 | results in flight can take at most their sells off an exposure |
| Risk.PruneCountsHistory | w2uos-kernel/src/risk_supervisor.rs:90-101 | pruning a live suffix counts exactly the errors of the whole history inside the window |
| Risk.LazyWindow | w2uos-kernel/src/risk_supervisor.rs:85-101 | with a non-decreasing clock the deque is a sorted suffix of all error times, missing only entries out of every later window |
| Risk.LazyWindowCounts | w2uos-kernel/src/risk_supervisor.rs:90-150 | however often pruning was skipped, it returns the number of error events of the history in the last 60 seconds |
| Risk.TripsExactly | w2uos-kernel/src/risk_supervisor.rs:128-184 | each order, error or tick trips if and only if the breaker was clear and now the loss is reached, notional or positions are passed, or more errors than allowed lie in the last 60 seconds of the history |
| Risk.BoundedOvershoot | w2uos-kernel/src/risk_supervisor.rs:128-150 | an order consumed while limits hold overshoots notional and loss by at most its size and positions by at most one |
| Risk.BookIsFoldOfOrders | w2uos-kernel/src/risk_supervisor.rs:193-217 | over any run the books depend on the order results alone, in order |
| Risk.TripsAlternateWithResets | w2uos-kernel/src/risk_supervisor.rs:112-166 | trips less effective resets are 0 or 1 and equal the active flag |
| RiskSupervisors.SumValues | w2uos-kernel/src/risk_supervisor.rs:80 | adding the map's values in any order gives its sum |
| RiskSupervisors.RiskSupervisor.MoveExposure | w2uos-kernel/src/risk_supervisor.rs:60-77 | the in-place entry update, with removal at zero or less |
| RiskSupervisors.RiskSupervisor.RecordOrder | w2uos-kernel/src/risk_supervisor.rs:57-83 | the in-place update reaches the book function's state |
| RiskSupervisors.RiskSupervisor.PruneErrors | w2uos-kernel/src/risk_supervisor.rs:90-101 | the loop leaves the pruned deque and returns its length |
| RiskSupervisors.RiskSupervisor.TriggerBreaker | w2uos-kernel/src/risk_supervisor.rs:152-184 | sets the flag and publishes pause, block and the log, once |
| RiskSupervisors.RiskSupervisor.Evaluate | w2uos-kernel/src/risk_supervisor.rs:128-150 | reaches the evaluation function's state and publishes exactly on a trip |
| RiskSupervisors.RiskSupervisor.ResetCircuit | w2uos-kernel/src/risk_supervisor.rs:112-122 | clears the flag and publishes reset, then resume |
| RiskSupervisors.RiskSupervisor.Consume | w2uos-kernel/src/risk_supervisor.rs:192-217 | one pass of the select loop is one supervisor step, with its messages |
| RiskSupervisors.RiskSupervisor.ConsumeAll | w2uos-kernel/src/risk_supervisor.rs:186-219 | the loop computes the supervisor's run |
| Books.HandleKeepsJoint | w2uos-exec/src/service.rs:120-196 | one market order, recorded on the other side, keeps every exposure covered by the marked position |
| Books.CashMatchesResults | w2uos-exec/src/service.rs:176-215 | cash moves by exactly the net bought amount the results report, for any orders |
| Books.Sandwich | w2uos-kernel/src/risk_supervisor.rs:57-83 | cash spent <= total notional <= marked value held, exposure by exposure and in total; the profit figure is the change in cash |
| Books.CoveredSellFills | w2uos-exec/src/service.rs:186-195 | an unblocked market sell no larger than the supervisor's exposure less sells in flight fills |
| Node.RunRefines | w2uos-exec/src/service.rs:222-304 | under every interleaving the executor is the sequential ledger on the commands taken, and results consumed, queued and in hand are its results in order |
| Node.OutsideFrame | w2uos-kernel/src/risk_supervisor.rs:186-219 | no step outside the executor touches its ledger, and a consumed result is the head of the queue |
| Node.Reconciliation | w2uos-exec/src/service.rs:297-304 | in every reachable state, cash gained = the supervisor's profit less the net bought still in flight, published or not |
| Node.SandwichInFlight | w2uos-kernel/src/risk_supervisor.rs:194-197 | in every reachable state of a market-only run the sandwich holds once what is in flight is folded in |
| Node.CoveredSellNeverRejected | w2uos-exec/src/service.rs:186-195 | from every reachable state a covered market sell that passes the flag check settles as filled, whatever runs before it settles |
| Node.CourseIsSet | w2uos-exec/src/service.rs:167-215 | until the next command is taken nothing changes what the one in hand will do and report |
| Node.SupervisedStep | w2uos-kernel/src/risk_supervisor.rs:193-217 | inside the node, after each order, error or tick consumed the breaker is active or no limit is broken, and it trips exactly when one was |
| Node.TripsMatchFlag | w2uos-kernel/src/risk_supervisor.rs:168-205 | trips less effective resets equal the flag although the supervisor consumes its own Error log |
| Node.CommandsConserved | w2uos-kernel/src/strategy_host.rs:119-136 | every order published is taken once, in publication order, or is still queued |
| Node.LogStep | w2uos-kernel/src/risk_supervisor.rs:168-205 | who puts which level on the log queue, and who takes what off it: only a trip, or an outsider, puts an Error there |
| Node.LogsConserved | w2uos-kernel/src/risk_supervisor.rs:199-205 | every log published is taken once, in publication order, or is still queued |
| Node.ErrorsAreErrorLogs | w2uos-kernel/src/risk_supervisor.rs:199-205 | the errors the supervisor records over any run are the Error logs taken off its queue, each at its time and in order, and no other level |
| Node.OneErrorTrips | w2uos-kernel/src/risk_supervisor.rs:144-148 | with a rate of zero allowed, the first Error log taken trips the breaker |
| Node.ClockMoves | w2uos-kernel/src/risk_supervisor.rs:85-92 | the time errors are stamped with moves by what passes, and by no step of a task |
| Node.RunWithinCapacity | w2uos-bus/src/lib.rs:60 | no run of the node puts more than 1024 messages into any of its queues |
| Breaker.TripArrives | w2uos-kernel/src/risk_supervisor.rs:157-166 | without a reset, block and pause stay on their way until they are in force |
| Breaker.Frozen | w2uos-exec/src/service.rs:126-138 | with the flag up for good, at most the one command past the check fills, the final book is settled beforehand and every command taken is rejected |
| Breaker.Silenced | w2uos-kernel/src/strategy_host.rs:103-136 | with the host paused for good, a subscription publishes the rest of its current snapshot in order and nothing more |
| Breaker.FreezeAfterTrip | w2uos-kernel/src/strategy_host.rs:236-262 | from the trip on, whatever runs until block and pause are consumed, afterwards the node is frozen as above |
| Breaker.OrderTrips | w2uos-kernel/src/risk_supervisor.rs:57-166 | one filled order that books a loss at the limit or beyond, carried through every task, trips the breaker |
| Resets.ResetArrives | w2uos-kernel/src/risk_supervisor.rs:112-122 | reset and resume stay on their way until they are consumed |
| Resets.RaceReachable | w2uos-exec/src/service.rs:246-269 | every start can lead to a block and a reset both queued, where the order of consumption decides |
| Resets.ResetReleasesExactly | w2uos-exec/src/service.rs:246-269 | through either handle a reset may always release the executor once all messages are consumed, and is sure to if and only if no block is pending when it is asked for |
| Resets.DetachedResetDisarms | w2uos-kernel/src/risk_supervisor.rs:157-166 | while the worker stays active with its block consumed, no run without a reset of the worker brings another block |
| Resets.ResetRearmsExactly | w2uos-kernel/src/risk_supervisor.rs:112-122 | once the block of a trip is consumed, a reset leaves a run that releases the executor and later blocks it again if and only if it reached the worker and the log queue lets the trip end |
| Resets.DisarmReachable | w2uos-kernel/src/risk_supervisor.rs:228-267 | from every start a trip and one reset through the original handle lead to a node with a limit broken and the executor trading, which nothing but a reset of the worker blocks again |
| Stalls.SelfSendStalls | w2uos-kernel/src/risk_supervisor.rs:177-183 | in the middle of a trip with its log queue full the supervisor consumes nothing more on any run; a reset only clears its flag |
| Stalls.LostExactly | w2uos-kernel/src/risk_supervisor.rs:152-184 | with queues within capacity, no run brings the supervisor back to its loop if and only if a trip is under way and the log queue is full |
| Stalls.TripLosesExactly | w2uos-kernel/src/risk_supervisor.rs:152-205 | a trip loses the supervisor at once if and only if the log queue was full and the message that trips it did not come from there |
| Stalls.FloodLoses | w2uos-kernel/src/risk_supervisor.rs:177-183 | however much room the log queue had, ordinary logging before the trip's last message loses it |
| Stalls.StallReachable | w2uos-kernel/src/risk_supervisor.rs:177-205 | every start, whatever its limits, can lead to a lost supervisor |
| Stalls.OneOrderStalls | w2uos-kernel/src/risk_supervisor.rs:177-205 | so can one order and ordinary logging, with the configured limits left alone, whatever they are |
| Stalls.OneBuyStalls | w2uos-kernel/src/risk_supervisor.rs:177-205 | a plain buy for all the cash is such an order when spending it makes a forbidden loss |
| StrategyHosts.StrategyHost.OnPauseMessage | w2uos-kernel/src/strategy_host.rs:236-248 | the in-place update is the node's step that takes a pause |
| StrategyHosts.StrategyHost.OnResumeMessage | w2uos-kernel/src/strategy_host.rs:250-262 | the in-place update is the node's step that takes a resume |
| StrategyHosts.StrategyHost.OnSnapshot | w2uos-kernel/src/strategy_host.rs:103-111 | a paused host drops the snapshot, otherwise it starts on the planned orders |
| StrategyHosts.StrategyHost.PublishNext | w2uos-kernel/src/strategy_host.rs:119-136 | one turn of the loop publishes the next planned order if the queue has room |
| StrategyHosts.StrategyHost.HandleSnapshot | w2uos-kernel/src/strategy_host.rs:96-160 | uninterrupted: nothing if paused, else the planned orders in order as far as the queue has room, then the log event; the same as that run of the node |
| Bus.SendKeepsInv | w2uos-bus/src/lib.rs:51-54 | one send keeps capacity, per-publisher order and the one-copy accounting of every publication |
| Bus.SubscribeKeepsInv | w2uos-bus/src/lib.rs:59-67 | a subscription under the write lock keeps them too |
| Bus.RunKeepsInv | w2uos-bus/src/lib.rs:46-73 | every run of publishers, subscribers and readers keeps them |
| Bus.ExactlyOnce | w2uos-bus/src/lib.rs:48-57 | a completed publish left exactly one copy with every live subscriber registered at its read lock, at most one with dead ones, none elsewhere |
| Bus.BoundedAndInOrder | w2uos-bus/src/lib.rs:60 | no queue exceeds 1024, and each publisher's messages arrive in publication order |
| Bus.ListFixedWhileSending | w2uos-bus/src/lib.rs:49-66 | the list a publisher iterates cannot change under it |
| Bus.FinishedFirst | w2uos-bus/src/lib.rs:48-57 | if one publication finishes before another begins, every channel that ever holds both holds them in that order |
| Bus.DisagreementNeedsOverlap | w2uos-bus/src/lib.rs:48-57 | two subscribers see two publications in opposite orders only if these overlap in time |
| Bus.SubscribersMayDisagree | w2uos-bus/src/lib.rs:48-57 | with at least two publishers, a run in which two subscribers of one subject see them in opposite orders |
| Bus.DisagreementExactly | w2uos-bus/src/lib.rs:48-57 | two subscribers can come to see two messages in opposite orders if and only if there are at least two publishers |
| LockQueue.RunIsBusRun | w2uos-bus/src/lib.rs:48-66 | every run behind the fair lock is a run of the bus protocol, so all of the above holds there |
| LockQueue.RunKeepsInv | w2uos-bus/src/lib.rs:48-66 | and it keeps publishers in line at rest, each of them in line once |
| LockQueue.GrantOpens | w2uos-bus/src/lib.rs:49-66 | a granted lock begins the publication on the list then registered, or registers the subscription |
| LockQueue.ReliefEndsJam | w2uos-bus/src/lib.rs:51-54 | when the receiver of the full channel takes a message the publisher's is delivered; when it goes away the publisher skips it |
| LockQueue.LineHeld | w2uos-bus/src/lib.rs:49-61 | while a publisher is at a full channel nobody gets past a subscriber in line, on any run without that channel's receiver |
| LockQueue.ServedExactly | w2uos-bus/src/lib.rs:49-61 | then someone in line can be served without that receiver if and only if no subscriber stands there or ahead |
| LockQueue.SelfJamIsForever | w2uos-kernel/src/risk_supervisor.rs:177-199 | a publisher at a full channel only it reads stays there on every run, and nobody ever gets past a subscriber in line |
| LockQueue.StuckExactly | w2uos-bus/src/lib.rs:48-66 | only a receiver can bring the bus forward if and only if publishers are under way, each at a full channel, and the line, if any, begins with a subscriber |
| LockQueue.HaltHolds | w2uos-bus/src/lib.rs:48-66 | then some full channel is such that nobody in line is served before its receiver moves |
| LockQueue.HaltReachableExactly | w2uos-bus/src/lib.rs:48-66 | a halt of a publication that would have nobody to send to is reachable if and only if there are two publishers |
| LocalBuses.LocalBus.Subscribe | w2uos-bus/src/lib.rs:59-72 | registers a fresh channel, or waits while a publisher holds the read lock |
| LocalBuses.LocalBus.BeginPublish | w2uos-bus/src/lib.rs:48-50 | takes the read lock and the subject's list |
| LocalBuses.LocalBus.EndPublish | w2uos-bus/src/lib.rs:55-57 | releases it once every subscriber on the list was served |
| LocalBuses.LocalBus.SendNext | w2uos-bus/src/lib.rs:51-54 | one atomic send: a full channel waits, a dropped receiver is skipped |
| LocalBuses.LocalBus.SendAll | w2uos-bus/src/lib.rs:51-54 | the send loop, and where it stops |
| LocalBuses.LocalBus.Publish | w2uos-bus/src/lib.rs:48-57 | an uninterrupted publish is one run of the protocol and completes if and only if no live channel on its list is full |
| LocalBuses.LocalBus.Receive | w2uos-bus/src/lib.rs:11-14 | a receiver takes the head of its queue |
| Shaper.StepConserves | w2uos-net/src/traffic.rs:58-66 | each step keeps permits plus requests in flight equal to the limit, tag by tag |
| Shaper.LimitHolds | w2uos-net/src/traffic.rs:58-98 | under any schedule of all clones no tag exceeds the limit and at most one request waits on any semaphore |
| Shaper.NeverStuck | w2uos-net/src/traffic.rs:90-98 | with a limit of at least one, or none, some unfinished request can always move |
| Shaper.RunsEnd | w2uos-net/src/traffic.rs:68-99 | the requests present take at most three steps each, however scheduled |
| Shaper.DeadlockExactly | w2uos-net/src/traffic.rs:59-65 | a deadlock is reachable if and only if the limit is zero |
| Shaper.HeadOfLine | w2uos-net/src/traffic.rs:60-65 | while the mutex holder waits on a busy tag no fresh or new request of any tag moves until that tag completes one |
| Shaper.GetsInExactly | w2uos-net/src/traffic.rs:58-66 | a fresh request gets in before any request finishes if and only if there is no limit, or the holder is not held up and its tag still has a permit after the holder's |
| Shaper.HeadOfLineEnds | w2uos-net/src/traffic.rs:60-98 | some request of the holder's tag is running; its completion lets the holder through and any fresh request of a tag below its limit after it |
| Shaper.HeadOfLineExactly | w2uos-net/src/traffic.rs:58-66 | a busy tag can come to hold up a request of an idle one if and only if there is a limit |
| TrafficShapers.TrafficShaper.Execute | w2uos-net/src/traffic.rs:68-88 | a call adds a request that has not reached the map yet |
| TrafficShapers.TrafficShaper.LockMap | w2uos-net/src/traffic.rs:58-64 | takes the map mutex if free and finds or creates the tag's semaphore |
| TrafficShapers.TrafficShaper.AcquirePermit | w2uos-net/src/traffic.rs:65-66 | takes a permit exactly when there is one, and keeps the tag within its limit |
| TrafficShapers.TrafficShaper.DropPermit | w2uos-net/src/traffic.rs:95-98 | a finished or failed request gives its permit back |
| Latency.TableIsOpenSegments | w2uos-log/src/service.rs:43-70 | the table holds of each trace the latest times since its previous emission, never all three |
| Latency.EmitsExactlySegments | w2uos-log/src/service.rs:55-70 | an event emits a record if and only if it completes its trace's open segment, and the record carries that segment's latest times |
| Latency.TableHolds | w2uos-log/src/service.rs:43-70 | the table has an entry for exactly the traces mentioned, under any stage, since their previous emission |
| Latency.StampsExactly | w2uos-log/src/service.rs:48-70 | an event emits if and only if tick, strategy_decision and order_result all occurred since its trace's previous emission; the three stamps are the latest times under these names, the figures their differences cut to milliseconds |
| Latency.BoundaryIsAfterEmission | w2uos-log/src/service.rs:70 | where a trace's gathering begins is just after the last event that emitted a record of it |
| Latency.EmissionsNeedStages | w2uos-log/src/service.rs:48-70 | emissions of a trace never exceed the count of any of its three stages |
| Latency.PartsNearTotal | w2uos-log/src/service.rs:60-68 | each figure is its interval truncated toward zero, and the two parts sum to the total within one millisecond |
| LogServices.TrimAsYouGo | w2uos-log/src/service.rs:73-77 | trimming after every push keeps what trimming once at the end would |
| LogServices.LogService.RecordLatency | w2uos-log/src/service.rs:37-84 | the in-place join, with the record buffer trimmed to 2000 |
| LogServices.LogService.HandleEvent | w2uos-log/src/service.rs:86-110 | keeps both buffers the ends of the full logs and the table the join of the whole history |
| LogServices.LogService.RecentEvents | w2uos-log/src/service.rs:161-166 | returns the last min(limit, 1000) events ever handled, in order |
| LogServices.LogService.LatencySummary | w2uos-log/src/service.rs:168-187 | summarises the tick-to-result figures of the last 2000 records ever emitted |
| LogServices.LogService.LatencyHistogram | w2uos-log/src/service.rs:189-233 | counts the same records by bucket |
| Percentiles.SortSorted | w2uos-log/src/service.rs:174 | the sort used is an ascending permutation |
| Percentiles.RankWithin | w2uos-log/src/service.rs:177-185 | the k-th value is within a bound if and only if more than k values are |
| Percentiles.RanksInRange | w2uos-log/src/service.rs:177-178 | both percentile indices are in range, and ordered |
| Percentiles.Mean | w2uos-log/src/service.rs:176-177 | the sum divided by the count |
| Percentiles.Summarise | w2uos-log/src/service.rs:170-186 | minimum, mean, and percentiles told by counting: p95 is within a bound if and only if at least 95 of 100 values are, p99 likewise; no data when empty |
| Percentiles.Histogram | w2uos-log/src/service.rs:226-230 | each value is counted in the first bucket that admits it, or in none |
| Percentiles.CumulativeCounts | w2uos-log/src/service.rs:189-230 | buckets added up to the bound 10, 25, 50, 100, 250, 500, 1000 or 5000 count the values within it |
| Percentiles.PercentilesMatchHistogram | w2uos-log/src/service.rs:168-233 | p95 (p99) is within a bucket bound if and only if the buckets up to it hold 95 (99) of 100 values |
| Percentiles.SummaryOrdered | w2uos-log/src/service.rs:175-186 | min <= p95 <= p99 <= max and min <= mean <= max |
| ConfigMerge.MergeInto | w2uos-config/src/lib.rs:334-351 | the in-place loop, in any order of entries, computes the merge |
| ConfigMerge.MergeByPath | w2uos-config/src/lib.rs:334-351 | path by path: an overlay entry wins, a base entry survives exactly where the overlay is silent and casts no shadow |
| ConfigMerge.SameByPath | w2uos-config/src/lib.rs:334-351 | trees that agree at every path are equal, so the path reading determines the merge |
| ConfigMerge.MergeIdempotent | w2uos-config/src/lib.rs:264-273 | applying an overlay twice, or a tree to itself, changes nothing |
| ConfigMerge.MergeIdentity | w2uos-config/src/lib.rs:334-351 | the empty table yields to every tree, and changes nothing exactly on tables |
| ConfigMerge.RegroupAtPath | w2uos-config/src/lib.rs:334-351 | at a path, regrouping three layers shows exactly when a first-layer entry resurfaces there |
| ConfigMerge.MergeAssociativeExactly | w2uos-config/src/lib.rs:334-351 | (a+b)+c = a+(b+c) if and only if no entry resurfaces |
| ConfigMerge.MergeAssociative | w2uos-config/src/lib.rs:334-351 | in particular when no path is table, scalar, table |
| ConfigMerge.GroupingMatters | w2uos-config/src/lib.rs:346-349 | a concrete case where the grouping matters |
| Replay.SortIsStable | w2uos-backtest/src/lib.rs:86 | the replay order is a stable permutation in time order |
| Replay.TiesFollowLists | w2uos-backtest/src/lib.rs:72-86 | simultaneous snapshots come in the order their lists were loaded |
| Replay.PauseExactly | w2uos-backtest/src/lib.rs:119-127 | a pause is the gap divided by the larger of the speed factor and 0.01, at most 250 ms, and none if time went back |
| Replay.ReplayBounded | w2uos-backtest/src/lib.rs:119-127 | total sleep is at most 250 ms per gap and at most the span over the larger of the speed factor and 0.01 |
| Replay.KeepsTimeExactly | w2uos-backtest/src/lib.rs:119-127 | the replay keeps scaled time if and only if no scaled gap exceeds the cap |
| Backtests.BacktestEngine.Gather | w2uos-backtest/src/lib.rs:72-84 | appends the loaded lists in order |
| Backtests.BacktestEngine.Publish | w2uos-backtest/src/lib.rs:101-129 | the loop's status readings, last time and total sleep, with the metrics task recording what it hears meanwhile |
| Backtests.BacktestEngine.Run | w2uos-backtest/src/lib.rs:71-141 | publishes the sorted lists, ends not running at progress 1 with the report of what the metrics task had recorded by then |
| Backtests.ReadingsRise | w2uos-backtest/src/lib.rs:112-117 | the time read never goes back; progress rises strictly to 1 exactly at the last snapshot |
| Backtests.ProgressIsShare | w2uos-backtest/src/lib.rs:114-115 | the progress read is the share of snapshots published so far |
| Backtests.BacktestMetrics.Record | w2uos-backtest/src/lib.rs:158-168 | keeps the fields the metrics of everything recorded |
| Backtests.BacktestMetrics.RecordEach | w2uos-backtest/src/lib.rs:92-98 | the task's loop records every result it receives, in order |
| Backtests.BacktestMetrics.Update | w2uos-backtest/src/lib.rs:158-168 | the in-place update reaches the metrics function's state |
| Backtests.BacktestMetrics.ToReport | w2uos-backtest/src/lib.rs:170-187 | profit, count, win rate and drawdown told from the fills recorded, the ratios in range |
| Metrics.ClosedForm | w2uos-backtest/src/lib.rs:158-168 | profit is the filled total, equity the weighted total, the peak the highest prefix equity or zero, wins the prefixes without loss |
| Metrics.ReportRanges | w2uos-backtest/src/lib.rs:170-187 | win rate lies in [0, 1] and drawdown is not negative |
| Metrics.NoLossWithoutNegativeFills | w2uos-backtest/src/lib.rs:158-187 | with no negative fill every trade wins and drawdown is zero |
| Metrics.ReportDescribes | w2uos-backtest/src/lib.rs:170-187 | over any results: the win rate is the share of prefixes without loss, the drawdown the share of the highest prefix equity lost at the end |
| Metrics.ForgetsExactly | w2uos-backtest/src/lib.rs:158-175 | one result lowers the drawdown to report if and only if it is a fill that leaves the running profit positive during a drawdown |
| Metrics.DrawdownKeptExactly | w2uos-backtest/src/lib.rs:158-175 | the drawdown reported is the deepest so far at every point of a run if and only if it has no such fill |
| Metrics.DrawdownForgets | w2uos-backtest/src/lib.rs:170-175 | a case of it: a full drawdown on the way is reported as none |
| Metrics.WinsExactly | w2uos-backtest/src/lib.rs:158-168 | the wins counted are the trades' own, plus losing trades that leave the running profit non-negative, less winning ones that leave it negative |
| Metrics.WinsTrueExactly | w2uos-backtest/src/lib.rs:158-168 | the two agree at every point of a run if and only if it has no such trade |
| Metrics.WinRateFlatters | w2uos-backtest/src/lib.rs:158-180 | a case of it: a win rate of 1 with a losing trade |

## Left out

- Live OKX execution, REST and WebSocket adapters, request signing and proxies: foreign calls.
- Execution and strategy configuration updates, and the error branch of the command loop: reached only with an exchange client.
- SQL and file sinks, the trade log and the historical store: I/O; loaded snapshot lists are arbitrary inputs.
- HTTP routes, authentication, dashboard, kernel registry, cluster heartbeats, config watcher: plumbing.
- Environment overrides, secret resolution, redaction, defaults: single-branch facts.
- JSON encoding and timestamps on results: messages arrive as the typed values sent; exchange, order type and trace id are carried through unread.
- The strategy engine: any finite list of planned orders, with ids already given.
- Upper-casing of symbols outside ASCII.
- Underflow of `Instant::now() - 60 s` on a machine just started.
- Fairness of the runtime: `Shaper` proves that a step is always enabled and that runs are bounded, not which request goes first; `LocalBus` shows atomic sections, each run by one task.
- ConfigMerge.MergeInto: the exclusive reference to the base tree is a value that the loop rebuilds entry by entry, because Rust rules out aliasing of it.
- Start-up and shutdown: in `Node` every service has subscribed before the first message and keeps running; the bus lock and later subscribers are in `LockQueue`, as delays that `Node`'s runs allow.
- Other subscribers of a subject: in `Node` a full queue elsewhere only delays a step, which every run already allows.
