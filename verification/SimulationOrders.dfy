/** The paper-trading session: ticks, the queue of waiting limit orders, and what becomes of every order. */
module SimulationOrders {
  import opened Prelude
  import opened SimulationLedger

  /** The market price an order is compared with; `None` when the quote could not be read. */
  type Quotes = Signal -> Option<real>

  /** A tick has one price for all its signals. */
  function TickQuote(marketPrice: real): Quotes {
    (order: Signal) => Some(marketPrice)
  }

  /** A pass over the queue has one price per stock code. */
  function PassQuotes(prices: map<string, real>): Quotes {
    (order: Signal) => if order.key.stock in prices then Some(prices[order.key.stock]) else None
  }

  /** An order that can fill at its quote; one without a quote waits. */
  predicate FillsNow(order: Signal, quotes: Quotes) {
    quotes(order).Some? && CanFillAtPrice(order, quotes(order).value)
  }

  function Waiting(orders: seq<Signal>, quotes: Quotes): seq<Signal> {
    if orders == [] then []
    else
      var last := orders[|orders| - 1];
      Waiting(orders[..|orders| - 1], quotes) + if FillsNow(last, quotes) then [] else [last]
  }

  function Attempts(orders: seq<Signal>, quotes: Quotes): seq<Event> {
    if orders == [] then []
    else
      var last := orders[|orders| - 1];
      Attempts(orders[..|orders| - 1], quotes)
      + if FillsNow(last, quotes) then [Execute(last, quotes(last).value)] else []
  }

  /** Only a limit order that can fill is attempted, and then at a price no worse than its limit or the market. */
  lemma {:induction false} AttemptsRespectLimits(orders: seq<Signal>, quotes: Quotes)
    ensures forall event :: event in Attempts(orders, quotes) ==>
              && event.Execute? && event.signal in orders && FillsNow(event.signal, quotes)
              && quotes(event.signal) == Some(event.marketPrice)
              && var paid := FillPrice(event.signal, event.marketPrice);
                 if event.signal.side == Buy then event.signal.price <= 0.0 || event.marketPrice <= paid <= event.signal.price
                 else event.signal.price <= 0.0 || event.signal.price <= paid <= event.marketPrice
  {
    if orders != [] {
      AttemptsRespectLimits(orders[..|orders| - 1], quotes);
    }
  }

  /** And an order waits exactly when there is no quote for it, or its limit is not met. */
  lemma {:induction false} WaitsExactlyWhen(orders: seq<Signal>, quotes: Quotes)
    ensures forall order :: order in Waiting(orders, quotes) <==>
              && order in orders
              && (quotes(order).None? || (order.price > 0.0 && if order.side == Buy then quotes(order).value > order.price
                                                               else quotes(order).value < order.price))
  {
    if orders != [] {
      var n := |orders| - 1;
      WaitsExactlyWhen(orders[..n], quotes);
      assert orders == orders[..n] + [orders[n]];
    }
  }

  // ---------------------------------------------------------------------------
  // The session
  // ---------------------------------------------------------------------------

  /** One session: its ledger, its queue of waiting orders, and whether it is running. */
  datatype Desk = Desk(account: Account, pending: seq<Signal>, running: bool)

  datatype Action =
    | Tick(signals: seq<Signal>, marketPrice: real)
    | Pass(prices: map<string, real>)
    | CancelPending
    | SetRunning(running: bool)
    | UpdateQuote(key: Key, price: real)
    | EditSettings(quota: real)
    | ResetSession

  function Open(quota: real): Desk {
    Desk(CreateSession(quota), [], true)
  }

  /** Every order given to the market at these quotes: tried now, or waiting behind the ones already there. */
  function Place(desk: Desk, queued: seq<Signal>, orders: seq<Signal>, quotes: Quotes): Desk {
    Desk(Run(desk.account, Attempts(orders, quotes)), queued + Waiting(orders, quotes), desk.running)
  }

  function Act(desk: Desk, action: Action): Desk {
    match action
    case Tick(signals, marketPrice) =>
      if desk.running then Place(desk, desk.pending, signals, TickQuote(marketPrice)) else desk
    case Pass(prices) =>
      if desk.running then Place(desk, [], desk.pending, PassQuotes(prices)) else desk.(pending := [])
    case CancelPending => desk.(pending := [])
    case SetRunning(running) => desk.(running := running)
    case UpdateQuote(key, price) => desk.(account := UpdatePrice(desk.account, key, price))
    case EditSettings(quota) => desk.(account := UpdateQuota(desk.account, quota))
    case ResetSession => Desk(AfterReset(desk.account), [], true)
  }

  /** A session that is reset is a new one with the same quota. */
  lemma ResetStartsOver(desk: Desk)
    ensures Act(desk, ResetSession) == Open(desk.account.quota)
  {
  }

  function Trading(desk: Desk, actions: seq<Action>): Desk {
    if actions == [] then desk else Act(Trading(desk, actions[..|actions| - 1]), actions[|actions| - 1])
  }

  // ---------------------------------------------------------------------------
  // Conservation of orders
  // ---------------------------------------------------------------------------

  /** What identifies an order in the trade log as well as in the queue. */
  datatype Ticket = Ticket(key: Key, side: Side, quantity: int)

  function TicketOf(order: Signal): Ticket {
    Ticket(order.key, order.side, order.quantity)
  }

  function Tickets(orders: seq<Signal>): multiset<Ticket> {
    if orders == [] then multiset{} else Tickets(orders[..|orders| - 1]) + multiset{TicketOf(orders[|orders| - 1])}
  }

  /** One per row of the log, whether it was filled or refused. */
  function Logged(trades: seq<Trade>): multiset<Ticket> {
    if trades == [] then multiset{}
    else
      var t := trades[|trades| - 1];
      Logged(trades[..|trades| - 1]) + multiset{Ticket(t.key, t.side, t.quantity)}
  }

  /** Orders a running session was given since the last reset. */
  function Given(desk: Desk, actions: seq<Action>): multiset<Ticket> {
    if actions == [] then multiset{}
    else
      var before, action := actions[..|actions| - 1], actions[|actions| - 1];
      if action.ResetSession? then multiset{}
      else
        Given(desk, before)
        + if action.Tick? && Trading(desk, before).running then Tickets(action.signals) else multiset{}
  }

  /** Orders thrown out of the queue since the last reset: at the close, or because the session had stopped. */
  function Dropped(desk: Desk, actions: seq<Action>): multiset<Ticket> {
    if actions == [] then multiset{}
    else
      var before, action := actions[..|actions| - 1], actions[|actions| - 1];
      if action.ResetSession? then multiset{}
      else
        Dropped(desk, before)
        + if action.CancelPending? || (action.Pass? && !Trading(desk, before).running)
          then Tickets(Trading(desk, before).pending) else multiset{}
  }

  lemma TicketsAppend(orders: seq<Signal>, order: Signal)
    ensures Tickets(orders + [order]) == Tickets(orders) + multiset{TicketOf(order)}
  {
    assert (orders + [order])[..|orders|] == orders;
  }

  lemma Associate(a: multiset<Ticket>, b: multiset<Ticket>, c: multiset<Ticket>)
    ensures a + b + c == a + (b + c)
  {
  }

  lemma {:induction false} TicketsConcat(a: seq<Signal>, b: seq<Signal>)
    ensures Tickets(a + b) == Tickets(a) + Tickets(b)
  {
    if b == [] {
      assert a + b == a;
    } else {
      hide Tickets;
      var before, last := b[..|b| - 1], b[|b| - 1];
      TicketsConcat(a, before);
      assert b == before + [last] && a + b == (a + before) + [last];
      TicketsAppend(before, last);
      TicketsAppend(a + before, last);
      Associate(Tickets(a), Tickets(before), multiset{TicketOf(last)});
    }
  }

  lemma LoggedAppend(trades: seq<Trade>, t: Trade)
    ensures Logged(trades + [t]) == Logged(trades) + multiset{Ticket(t.key, t.side, t.quantity)}
  {
    assert (trades + [t])[..|trades|] == trades;
  }

  /** An attempt leaves exactly one row in the log, filled or refused. */
  lemma AttemptIsLoggedOnce(account: Account, order: Signal, marketPrice: real)
    ensures Logged(AfterExecution(account, order, marketPrice).trades) == Logged(account.trades) + multiset{TicketOf(order)}
  {
    var price := FillPrice(order, marketPrice);
    LoggedAppend(account.trades, ToTrade(order, price, Fills(account, order, price)));
  }

  /** Giving orders to the market loses none: each is logged once or waits. */
  lemma {:induction false} PlacingLosesNothing(account: Account, orders: seq<Signal>, quotes: Quotes)
    ensures Logged(Run(account, Attempts(orders, quotes)).trades) + Tickets(Waiting(orders, quotes))
         == Logged(account.trades) + Tickets(orders)
  {
    if orders != [] {
      hide Step, FillsNow, Run, Logged, Waiting, Attempts, Tickets;
      var before, last := orders[..|orders| - 1], orders[|orders| - 1];
      assert orders == before + [last];
      PlacingLosesNothing(account, before, quotes);
      PlaceOne(before, last, quotes);
      TicketsAppend(before, last);
      var logged := Logged(Run(account, Attempts(before, quotes)).trades);
      OneMore(logged, Tickets(Waiting(before, quotes)), Logged(account.trades), Tickets(before), TicketOf(last));
      if FillsNow(last, quotes) {
        var price := Quoted(last, quotes);
        RunAppend(account, Attempts(before, quotes), Execute(last, price));
        StepExecutes(Run(account, Attempts(before, quotes)), last, price);
        assert Logged(Run(account, Attempts(orders, quotes)).trades) == logged + multiset{TicketOf(last)};
      } else {
        TicketsAppend(Waiting(before, quotes), last);
      }
    }
  }

  lemma OneMore(a: multiset<Ticket>, b: multiset<Ticket>, c: multiset<Ticket>, d: multiset<Ticket>, t: Ticket)
    requires a + b == c + d
    ensures (a + multiset{t}) + b == c + (d + multiset{t})
    ensures a + (b + multiset{t}) == c + (d + multiset{t})
  {
    assert (a + multiset{t}) + b == a + b + multiset{t};
    assert a + (b + multiset{t}) == a + b + multiset{t};
    assert c + (d + multiset{t}) == c + d + multiset{t};
  }

  lemma PlaceOne(before: seq<Signal>, last: Signal, quotes: Quotes)
    ensures FillsNow(last, quotes) ==>
              && Waiting(before + [last], quotes) == Waiting(before, quotes)
              && Attempts(before + [last], quotes) == Attempts(before, quotes) + [Execute(last, Quoted(last, quotes))]
    ensures !FillsNow(last, quotes) ==>
              && Waiting(before + [last], quotes) == Waiting(before, quotes) + [last]
              && Attempts(before + [last], quotes) == Attempts(before, quotes)
  {
    hide FillsNow;
    assert (before + [last])[..|before|] == before;
  }

  function Quoted(order: Signal, quotes: Quotes): real
    requires FillsNow(order, quotes)
  {
    quotes(order).value
  }

  lemma NothingPlaced(account: Account, quotes: Quotes)
    ensures Attempts([], quotes) == [] && Waiting([], quotes) == [] && Run(account, []) == account
  {
  }

  lemma StepExecutes(account: Account, order: Signal, marketPrice: real)
    ensures Logged(Step(account, Execute(order, marketPrice)).trades) == Logged(account.trades) + multiset{TicketOf(order)}
  {
    AttemptIsLoggedOnce(account, order, marketPrice);
  }

  /** Where every order given since the last reset has gone. */
  ghost predicate Accounted(desk: Desk, actions: seq<Action>) {
    var now := Trading(desk, actions);
    Given(desk, actions) == Logged(now.account.trades) + Tickets(now.pending) + Dropped(desk, actions)
  }

  lemma PlaceAccounts(desk: Desk, queued: seq<Signal>, orders: seq<Signal>, quotes: Quotes)
    ensures var now := Place(desk, queued, orders, quotes);
            Logged(now.account.trades) + Tickets(now.pending)
              == Logged(desk.account.trades) + Tickets(queued) + Tickets(orders)
  {
    hide Tickets, Logged, Waiting, Attempts, Run;
    var now := Place(desk, queued, orders, quotes);
    PlacingLosesNothing(desk.account, orders, quotes);
    TicketsConcat(queued, Waiting(orders, quotes));
    Regroup(Logged(now.account.trades), Tickets(Waiting(orders, quotes)),
            Logged(desk.account.trades), Tickets(orders), Tickets(queued));
  }

  lemma Regroup(a: multiset<Ticket>, b: multiset<Ticket>, c: multiset<Ticket>, d: multiset<Ticket>, e: multiset<Ticket>)
    requires a + b == c + d
    ensures a + (e + b) == c + e + d
  {
    assert a + (e + b) == a + b + e && c + e + d == c + d + e;
  }

  lemma NoTickets()
    ensures Tickets([]) == multiset{} && Logged([]) == multiset{}
  {
  }

  lemma ActAccounts(quota: real, before: seq<Action>, action: Action)
    requires Accounted(Open(quota), before)
    ensures Accounted(Open(quota), before + [action])
  {
    hide Tickets, Logged, Place, Run, UpdatePrice, UpdateQuota;
    var start := Open(quota);
    var desk := Trading(start, before);
    assert (before + [action])[..|before|] == before;
    NoTickets();
    match action {
      case Tick(signals, marketPrice) =>
        PlaceAccounts(desk, desk.pending, signals, TickQuote(marketPrice));
      case Pass(prices) =>
        PlaceAccounts(desk, [], desk.pending, PassQuotes(prices));
      case UpdateQuote(key, price) => LogStays(desk.account, key, price);
      case EditSettings(quota) => EditKeepsLog(desk.account, quota);
      case CancelPending =>
      case SetRunning(running) =>
      case ResetSession =>
    }
  }

  lemma LogStays(account: Account, key: Key, price: real)
    ensures UpdatePrice(account, key, price).trades == account.trades
  {
  }

  lemma EditKeepsLog(account: Account, quota: real)
    ensures UpdateQuota(account, quota).trades == account.trades
  {
  }

  /**
   No order is lost and none is filled twice: whatever ticks, queue passes, cancellations, stops,
   edits and resets come in whatever order, every order a running session was given since the last
   reset is exactly one of a row of the trade log, an order still waiting, or one thrown out of the queue.
   */
  lemma {:induction false} EveryOrderIsAccountedFor(quota: real, actions: seq<Action>)
    ensures Accounted(Open(quota), actions)
  {
    if actions == [] {
      NoTickets();
    } else {
      hide Accounted;
      var before := actions[..|actions| - 1];
      EveryOrderIsAccountedFor(quota, before);
      ActAccounts(quota, before, actions[|actions| - 1]);
      assert before + [actions[|actions| - 1]] == actions;
    }
  }

  // ---------------------------------------------------------------------------
  // The session's ledger is the ledger
  // ---------------------------------------------------------------------------

  /** The ledger events one action amounts to. */
  function EventsOf(desk: Desk, action: Action): seq<Event> {
    match action
    case Tick(signals, marketPrice) => if desk.running then Attempts(signals, TickQuote(marketPrice)) else []
    case Pass(prices) => if desk.running then Attempts(desk.pending, PassQuotes(prices)) else []
    case UpdateQuote(key, price) => [Reprice(key, price)]
    case EditSettings(quota) => [EditQuota(quota)]
    case ResetSession => [Reset]
    case _ => []
  }

  function Ledger(desk: Desk, actions: seq<Action>): seq<Event> {
    if actions == [] then []
    else
      var before := actions[..|actions| - 1];
      Ledger(desk, before) + EventsOf(Trading(desk, before), actions[|actions| - 1])
  }

  lemma {:induction false} RunConcat(account: Account, a: seq<Event>, b: seq<Event>)
    ensures Run(account, a + b) == Run(Run(account, a), b)
  {
    if b == [] {
      assert a + b == a;
    } else {
      hide Step;
      var n := |b| - 1;
      RunConcat(account, a, b[..n]);
      assert (a + b)[..|a + b| - 1] == a + b[..n];
    }
  }

  lemma ActIsEvents(desk: Desk, action: Action)
    ensures Act(desk, action).account == Run(desk.account, EventsOf(desk, action))
  {
    hide AfterExecution, Attempts, UpdateQuota, UpdatePrice;
    var events := EventsOf(desk, action);
    if |events| == 1 {
      RunAppend(desk.account, [], events[0]);
      assert [] + [events[0]] == events;
    }
  }

  lemma {:induction false} TradingIsRun(desk: Desk, actions: seq<Action>)
    ensures Trading(desk, actions).account == Run(desk.account, Ledger(desk, actions))
  {
    if actions != [] {
      hide Act, EventsOf, Run;
      var before, action := actions[..|actions| - 1], actions[|actions| - 1];
      TradingIsRun(desk, before);
      ActIsEvents(Trading(desk, before), action);
      RunConcat(desk.account, Ledger(desk, before), EventsOf(Trading(desk, before), action));
    } else {
      assert Run(desk.account, []) == desk.account;
    }
  }

  /** Strategies ask for a positive number of shares, and quotes are not negative. */
  predicate Reasonable(action: Action) {
    match action
    case Tick(signals, marketPrice) => marketPrice >= 0.0 && forall s :: s in signals ==> s.quantity > 0
    case Pass(prices) => forall stock :: stock in prices ==> prices[stock] >= 0.0
    case _ => true
  }

  lemma {:induction false} WaitingAreOrders(orders: seq<Signal>, quotes: Quotes)
    ensures forall s :: s in Waiting(orders, quotes) ==> s in orders
  {
    if orders != [] {
      WaitingAreOrders(orders[..|orders| - 1], quotes);
    }
  }

  lemma {:induction false} ReasonableRunsAreSensible(quota: real, actions: seq<Action>)
    requires forall action :: action in actions ==> Reasonable(action)
    ensures forall s :: s in Trading(Open(quota), actions).pending ==> s.quantity > 0
    ensures forall event :: event in Ledger(Open(quota), actions) ==> Sensible(event)
  {
    if actions != [] {
      hide Attempts, Waiting, FillsNow, Run;
      var start := Open(quota);
      var before, action := actions[..|actions| - 1], actions[|actions| - 1];
      ReasonableRunsAreSensible(quota, before);
      var desk := Trading(start, before);
      assert Reasonable(action);
      match action {
        case Tick(signals, marketPrice) =>
          AttemptsRespectLimits(signals, TickQuote(marketPrice));
          WaitingAreOrders(signals, TickQuote(marketPrice));
        case Pass(prices) =>
          AttemptsRespectLimits(desk.pending, PassQuotes(prices));
          WaitingAreOrders(desk.pending, PassQuotes(prices));
        case _ =>
      }
    }
  }

  /** So the books of a whole session are kept: the conservation laws hold after any sequence of actions. */
  lemma SessionKeepsBooks(quota: real, actions: seq<Action>)
    requires quota >= 0.0 && forall action :: action in actions ==> Reasonable(action)
    ensures var account, events := Trading(Open(quota), actions).account, Ledger(Open(quota), actions);
            && LedgerOk(account)
            && AbsReal(Drift(account, Gains(CreateSession(quota), events))) <= 0.005 * Edits(events) as real
  {
    hide Run, LedgerOk, Drift, Gains, Edits, Trading, Ledger;
    TradingIsRun(Open(quota), actions);
    ReasonableRunsAreSensible(quota, actions);
    LedgerConserves(quota, Ledger(Open(quota), actions));
  }

  // ---------------------------------------------------------------------------
  // The session as an object
  // ---------------------------------------------------------------------------

  class Session {
    var quota: real
    var cash: real
    var positions: seq<Position>
    var trades: seq<Trade>
    var pendingOrders: seq<Signal>
    var running: bool

    function View(): Desk
      reads this
    {
      Desk(Books(), pendingOrders, running)
    }

    function Books(): Account
      reads this
    {
      Account(quota, cash, positions, trades)
    }

    constructor (quota: real)
      ensures View() == Open(quota)
    {
      this.quota, this.cash, this.positions, this.trades := quota, quota, [], [];
      this.pendingOrders, this.running := [], true;
    }

    /** One serial fill attempt. */
    method VirtualExecute(signal: Signal, marketPrice: real)
      modifies this
      ensures View() == old(View()).(account := AfterExecution(old(Books()), signal, marketPrice))
    {
      var price := FillPrice(signal, marketPrice);
      var totalAmount := price * signal.quantity as real;
      var i := IndexOf(positions, signal.key);
      if signal.side == Buy {
        if totalAmount > cash {
          trades := trades + [ToTrade(signal, price, false)];
          return;
        }
        trades := trades + [ToTrade(signal, price, true)];
        positions := AfterBuy(positions, signal, price);
        cash := cash - totalAmount;
      } else {
        if i == |positions| || positions[i].quantity < signal.quantity {
          trades := trades + [ToTrade(signal, price, false)];
          return;
        }
        trades := trades + [ToTrade(signal, price, true)];
        positions := AfterSell(positions, signal, price, i);
        cash := cash + totalAmount;
      }
    }

    /** The signals of one tick, in order: filled at once if the market allows it, queued otherwise. */
    method ExecuteSimulationTick(signals: seq<Signal>, marketPrice: real)
      modifies this
      ensures View() == Act(old(View()), Tick(signals, marketPrice))
    {
      hide AfterExecution, Attempts, Waiting, Run;
      if !running { return; }
      ghost var quotes := TickQuote(marketPrice);
      NothingPlaced(Books(), quotes);
      for i := 0 to |signals|
        invariant View() == Place(old(View()), old(pendingOrders), signals[..i], quotes)
      {
        var signal := signals[i];
        assert signals[..i + 1] == signals[..i] + [signal];
        PlaceOne(signals[..i], signal, quotes);
        if CanFillAtPrice(signal, marketPrice) {
          VirtualExecute(signal, marketPrice);
          RunAppend(old(Books()), Attempts(signals[..i], quotes), Execute(signal, marketPrice));
        } else {
          pendingOrders := pendingOrders + [signal];
        }
      }
      assert signals[..|signals|] == signals;
    }

    /** One pass over the queue; what cannot fill stays, in order. A session that has stopped loses its queue. */
    method CheckPendingOrders(prices: map<string, real>)
      modifies this
      ensures View() == Act(old(View()), Pass(prices))
    {
      hide AfterExecution, Attempts, Waiting, Run;
      ghost var quotes := PassQuotes(prices);
      NothingPlaced(Books(), quotes);
      if pendingOrders == [] { return; }
      if !running {
        pendingOrders := [];
        return;
      }
      var orders, remaining := pendingOrders, [];
      for i := 0 to |orders|
        invariant View() == old(View()).(account := Run(old(Books()), Attempts(orders[..i], quotes)))
        invariant remaining == Waiting(orders[..i], quotes)
      {
        var order := orders[i];
        assert orders[..i + 1] == orders[..i] + [order];
        PlaceOne(orders[..i], order, quotes);
        if order.key.stock !in prices || !CanFillAtPrice(order, prices[order.key.stock]) {
          remaining := remaining + [order];
        } else {
          VirtualExecute(order, prices[order.key.stock]);
          RunAppend(old(Books()), Attempts(orders[..i], quotes), Execute(order, prices[order.key.stock]));
        }
      }
      assert orders[..|orders|] == orders;
      pendingOrders := remaining;
    }

    method CancelPendingOrders()
      modifies this
      ensures View() == Act(old(View()), CancelPending)
    {
      pendingOrders := [];
    }

    method UpdateStatus(running: bool)
      modifies this
      ensures View() == Act(old(View()), SetRunning(running))
    {
      this.running := running;
    }

    method UpdateSettings(quota: real) returns (accepted: bool)
      modifies this
      ensures View() == Act(old(View()), EditSettings(quota))
      ensures accepted <==> quota > 0.0 && old(cash) + (quota - old(this.quota)) >= 0.0
    {
      if quota <= 0.0 { return false; }
      var nextCash := cash + (quota - this.quota);
      if nextCash < 0.0 { return false; }
      this.quota, cash := quota, RoundQuota(nextCash);
      accepted := true;
    }

    method Reset()
      modifies this
      ensures View() == Act(old(View()), ResetSession)
    {
      pendingOrders := [];
      trades, positions, cash, running := [], [], quota, true;
    }
  }
}
