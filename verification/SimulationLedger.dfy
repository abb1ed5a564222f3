/** The paper-trading ledger: virtual fills, position averaging, quota edits and reset. Money is exact. */
module SimulationLedger {
  import opened Prelude

  /** Positions are keyed by venue and stock. */
  datatype Key = Key(exchange: string, stock: string)

  datatype Position = Position(
    key: Key, quantity: int, avgPrice: real, currentPrice: real, totalInvested: real, profitLoss: real)

  /** One trade row; rows are kept in the order they were created. */
  datatype Trade = Trade(key: Key, side: Side, quantity: int, price: real, executed: bool)

  datatype Account = Account(quota: real, cash: real, positions: seq<Position>, trades: seq<Trade>)

  datatype Signal = Signal(key: Key, side: Side, quantity: int, price: real)

  datatype Event =
    | Execute(signal: Signal, marketPrice: real)
    | Reprice(key: Key, price: real)
    | EditQuota(quota: real)
    | Reset

  /** Strategies ask for a positive number of shares, and quotes are not negative. */
  predicate Sensible(event: Event) {
    match event
    case Execute(signal, marketPrice) => signal.quantity > 0 && marketPrice >= 0.0
    case _ => true
  }

  function CreateSession(quota: real): Account {
    Account(quota, quota, [], [])
  }

  // ---------------------------------------------------------------------------
  // The position table
  // ---------------------------------------------------------------------------

  /** The row of `key`, or the length of the table. */
  function IndexOf(positions: seq<Position>, key: Key): (i: nat)
    ensures i <= |positions|
    ensures i < |positions| ==> positions[i].key == key
    ensures forall j :: 0 <= j < i ==> positions[j].key != key
  {
    if positions == [] then 0
    else if positions[0].key == key then 0
    else 1 + IndexOf(positions[1..], key)
  }

  predicate UniqueKeys(positions: seq<Position>) {
    forall i, j :: 0 <= i < j < |positions| ==> positions[i].key != positions[j].key
  }

  function Without(positions: seq<Position>, i: nat): seq<Position>
    requires i < |positions|
  {
    positions[..i] + positions[i + 1..]
  }

  /** `positions.reduce((sum, p) => sum + value(p), 0)`. */
  function Sum(positions: seq<Position>, value: Position -> real): real {
    if positions == [] then 0.0 else Sum(positions[..|positions| - 1], value) + value(positions[|positions| - 1])
  }

  function Invested(): Position -> real {
    (p: Position) => p.totalInvested
  }

  lemma {:induction false} SumOfUpdate(positions: seq<Position>, i: nat, p: Position, value: Position -> real)
    requires i < |positions|
    ensures Sum(positions[i := p], value) == Sum(positions, value) - value(positions[i]) + value(p)
  {
    var n := |positions| - 1;
    var updated := positions[i := p];
    if i < n {
      SumOfUpdate(positions[..n], i, p, value);
      assert updated[..n] == positions[..n][i := p];
    } else {
      assert updated[..n] == positions[..n];
    }
  }

  lemma {:induction false} SumWithout(positions: seq<Position>, i: nat, value: Position -> real)
    requires i < |positions|
    ensures Sum(Without(positions, i), value) == Sum(positions, value) - value(positions[i])
  {
    var n := |positions| - 1;
    if i < n {
      SumWithout(positions[..n], i, value);
      assert Without(positions, i)[..n - 1] == Without(positions[..n], i);
    } else {
      assert Without(positions, i) == positions[..n];
    }
  }

  lemma SumOfAppend(positions: seq<Position>, p: Position, value: Position -> real)
    ensures Sum(positions + [p], value) == Sum(positions, value) + value(p)
  {
    assert (positions + [p])[..|positions|] == positions;
  }

  // ---------------------------------------------------------------------------
  // Virtual execution
  // ---------------------------------------------------------------------------

  function FillPrice(signal: Signal, marketPrice: real): real {
    if signal.price > 0.0 then signal.price else marketPrice
  }

  /** `canFillAtPrice`: market orders always fill, a limit order when the market is at least as good. */
  predicate CanFillAtPrice(signal: Signal, marketPrice: real) {
    || signal.price <= 0.0
    || (signal.side == Buy && marketPrice <= signal.price)
    || (signal.side == Sell && signal.price <= marketPrice)
  }

  function Bought(p: Position, quantity: int, price: real): Position
    requires p.quantity + quantity != 0
  {
    var newQuantity := p.quantity + quantity;
    var newAvg := (p.avgPrice * p.quantity as real + price * quantity as real) / newQuantity as real;
    p.(quantity := newQuantity, avgPrice := newAvg, currentPrice := price,
       totalInvested := p.totalInvested + price * quantity as real,
       profitLoss := (price - newAvg) * newQuantity as real)
  }

  function Opened(key: Key, quantity: int, price: real): Position {
    Position(key, quantity, price, price, price * quantity as real, 0.0)
  }

  function Reduced(p: Position, quantity: int, price: real): Position {
    var newQuantity := p.quantity - quantity;
    p.(quantity := newQuantity, currentPrice := price, totalInvested := p.avgPrice * newQuantity as real,
       profitLoss := (price - p.avgPrice) * newQuantity as real)
  }

  function ToTrade(signal: Signal, price: real, executed: bool): Trade {
    Trade(signal.key, signal.side, signal.quantity, price, executed)
  }

  /** A position that would be averaged over no shares is left alone; sensible signals never get there. */
  function AfterBuy(positions: seq<Position>, signal: Signal, price: real): seq<Position> {
    var i := IndexOf(positions, signal.key);
    if i == |positions| then positions + [Opened(signal.key, signal.quantity, price)]
    else if positions[i].quantity + signal.quantity == 0 then positions
    else positions[i := Bought(positions[i], signal.quantity, price)]
  }

  function AfterSell(positions: seq<Position>, signal: Signal, price: real, i: nat): seq<Position>
    requires i < |positions|
  {
    if positions[i].quantity == signal.quantity then Without(positions, i)
    else positions[i := Reduced(positions[i], signal.quantity, price)]
  }

  predicate Fills(account: Account, signal: Signal, price: real) {
    match signal.side
    case Buy => price * signal.quantity as real <= account.cash
    case Sell =>
      var i := IndexOf(account.positions, signal.key);
      i < |account.positions| && signal.quantity <= account.positions[i].quantity
  }

  function AfterExecution(account: Account, signal: Signal, marketPrice: real): Account {
    var price := FillPrice(signal, marketPrice);
    var amount := price * signal.quantity as real;
    var filled := Fills(account, signal, price);
    var logged := account.(trades := account.trades + [ToTrade(signal, price, filled)]);
    if !filled then logged
    else if signal.side == Buy then
      logged.(positions := AfterBuy(account.positions, signal, price), cash := account.cash - amount)
    else
      logged.(positions := AfterSell(account.positions, signal, price, IndexOf(account.positions, signal.key)),
              cash := account.cash + amount)
  }

  function WithPrice(p: Position, price: real): Position {
    p.(currentPrice := price, profitLoss := (price - p.avgPrice) * p.quantity as real)
  }

  function UpdatePrice(account: Account, key: Key, price: real): Account {
    var i := IndexOf(account.positions, key);
    if i == |account.positions| then account
    else account.(positions := account.positions[i := WithPrice(account.positions[i], price)])
  }

  /** `Math.round(value * 100) / 100`. */
  function RoundQuota(value: real): real {
    (value * 100.0 + 0.5).Floor as real / 100.0
  }

  lemma RoundingError(value: real)
    ensures RoundQuota(value) * 100.0 == (RoundQuota(value) * 100.0).Floor as real
    ensures -0.005 < RoundQuota(value) - value <= 0.005
    ensures value >= 0.0 ==> RoundQuota(value) >= 0.0
  {
  }

  /** A quota edit is refused when it is not positive or would take cash below zero. */
  function UpdateQuota(account: Account, quota: real): Account {
    var nextCash := account.cash + (quota - account.quota);
    if quota <= 0.0 || nextCash < 0.0 then account
    else account.(quota := quota, cash := RoundQuota(nextCash))
  }

  function AfterReset(account: Account): Account {
    Account(account.quota, account.quota, [], [])
  }

  function Step(account: Account, event: Event): Account {
    match event
    case Execute(signal, marketPrice) => AfterExecution(account, signal, marketPrice)
    case Reprice(key, price) => UpdatePrice(account, key, price)
    case EditQuota(quota) => UpdateQuota(account, quota)
    case Reset => AfterReset(account)
  }

  function Run(account: Account, events: seq<Event>): Account {
    if events == [] then account else Step(Run(account, events[..|events| - 1]), events[|events| - 1])
  }

  // ---------------------------------------------------------------------------
  // What the ledger is worth, by an independent account of the same events
  // ---------------------------------------------------------------------------

  /** Gain of a sale over the average price of the position it is taken from. */
  function Gain(account: Account, event: Event): real {
    if event.Execute? && event.signal.side == Sell then
      var price := FillPrice(event.signal, event.marketPrice);
      var i := IndexOf(account.positions, event.signal.key);
      if Fills(account, event.signal, price) && i < |account.positions| then
        (price - account.positions[i].avgPrice) * event.signal.quantity as real
      else 0.0
    else 0.0
  }

  /** Gains since the last reset. */
  function Gains(account: Account, events: seq<Event>): real {
    if events == [] then 0.0
    else
      var before, event := events[..|events| - 1], events[|events| - 1];
      if event.Reset? then 0.0 else Gains(account, before) + Gain(Run(account, before), event)
  }

  /** Quota edits since the last reset. */
  function Edits(events: seq<Event>): nat {
    if events == [] then 0
    else
      var before, event := events[..|events| - 1], events[|events| - 1];
      if event.Reset? then 0 else Edits(before) + if event.EditQuota? then 1 else 0
  }

  /** Executed shares of one position, bought positive and sold negative. */
  function NetQuantity(trades: seq<Trade>, key: Key): int {
    if trades == [] then 0
    else
      var t := trades[|trades| - 1];
      NetQuantity(trades[..|trades| - 1], key)
      + (if !t.executed || t.key != key then 0 else if t.side == Buy then t.quantity else -t.quantity)
  }

  ghost predicate PositionOk(p: Position, trades: seq<Trade>) {
    && p.quantity > 0
    && p.totalInvested == p.avgPrice * p.quantity as real
    && p.profitLoss == (p.currentPrice - p.avgPrice) * p.quantity as real
    && p.quantity == NetQuantity(trades, p.key)
  }

  ghost predicate PositionsOk(positions: seq<Position>, trades: seq<Trade>) {
    && UniqueKeys(positions)
    && (forall i :: 0 <= i < |positions| ==> PositionOk(positions[i], trades))
    && (forall key :: IndexOf(positions, key) == |positions| ==> NetQuantity(trades, key) == 0)
  }

  ghost predicate LedgerOk(account: Account) {
    account.cash >= 0.0 && account.quota >= 0.0 && PositionsOk(account.positions, account.trades)
  }

  /** How far cash and invested capital are from quota plus gains. */
  function Drift(account: Account, gains: real): real {
    account.cash + Sum(account.positions, Invested()) - account.quota - gains
  }

  lemma IndexIsUnique(positions: seq<Position>, i: nat, key: Key)
    requires UniqueKeys(positions) && i < |positions| && positions[i].key == key
    ensures IndexOf(positions, key) == i
  {
  }

  lemma NetAfter(trades: seq<Trade>, t: Trade, key: Key)
    ensures NetQuantity(trades + [t], key)
         == NetQuantity(trades, key)
            + (if !t.executed || t.key != key then 0 else if t.side == Buy then t.quantity else -t.quantity)
  {
    assert (trades + [t])[..|trades|] == trades;
  }

  lemma DivideBack(x: real, n: real)
    requires n != 0.0
    ensures x / n * n == x
  {
  }

  lemma MissingAfterReplacing(positions: seq<Position>, i: nat, p: Position, key: Key)
    requires i < |positions| && p.key == positions[i].key
    ensures IndexOf(positions, key) < |positions| ==> IndexOf(positions[i := p], key) < |positions|
  {
    var k := IndexOf(positions, key);
    if k < |positions| {
      assert positions[i := p][k].key == key;
    }
  }

  lemma MissingAfterAppending(positions: seq<Position>, p: Position, key: Key)
    ensures IndexOf(positions, key) < |positions| || key == p.key ==> IndexOf(positions + [p], key) <= |positions|
  {
    var k := IndexOf(positions, key);
    if k < |positions| {
      assert (positions + [p])[k].key == key;
    } else {
      assert (positions + [p])[|positions|] == p;
    }
  }

  lemma MissingAfterRemoving(positions: seq<Position>, i: nat, key: Key)
    requires i < |positions| && key != positions[i].key
    ensures IndexOf(positions, key) < |positions| ==> IndexOf(Without(positions, i), key) < |positions| - 1
  {
    var k := IndexOf(positions, key);
    if k < |positions| {
      assert Without(positions, i)[if k < i then k else k - 1].key == key;
    }
  }

  lemma ReplacedOk(positions: seq<Position>, trades: seq<Trade>, t: Trade, i: nat, p: Position)
    requires PositionsOk(positions, trades) && i < |positions|
    requires p.key == positions[i].key && (t.executed ==> t.key == p.key)
    requires PositionOk(p, trades + [t])
    ensures PositionsOk(positions[i := p], trades + [t])
  {
    hide IndexOf, NetQuantity;
    var updated := positions[i := p];
    forall j | 0 <= j < |updated|
      ensures PositionOk(updated[j], trades + [t])
    {
      NetAfter(trades, t, updated[j].key);
    }
    forall key | IndexOf(updated, key) == |updated|
      ensures NetQuantity(trades + [t], key) == 0
    {
      NetAfter(trades, t, key);
      assert updated[i].key != key;
      MissingAfterReplacing(positions, i, p, key);
    }
  }

  lemma AbsentKey(positions: seq<Position>, key: Key)
    requires IndexOf(positions, key) == |positions|
    ensures forall j :: 0 <= j < |positions| ==> positions[j].key != key
  {
  }

  lemma OtherPositionOk(p: Position, trades: seq<Trade>, t: Trade)
    requires PositionOk(p, trades) && (!t.executed || t.key != p.key)
    ensures PositionOk(p, trades + [t])
  {
    hide NetQuantity;
    NetAfter(trades, t, p.key);
  }

  lemma AppendedOk(positions: seq<Position>, trades: seq<Trade>, t: Trade, p: Position)
    requires PositionsOk(positions, trades) && IndexOf(positions, p.key) == |positions|
    requires t.executed && t.key == p.key && PositionOk(p, trades + [t])
    ensures PositionsOk(positions + [p], trades + [t])
  {
    hide IndexOf, NetQuantity, PositionOk;
    var all := positions + [p];
    AbsentKey(positions, p.key);
    forall j | 0 <= j < |all|
      ensures PositionOk(all[j], trades + [t])
    {
      if j < |positions| {
        OtherPositionOk(positions[j], trades, t);
      }
    }
    forall key | IndexOf(all, key) == |all|
      ensures NetQuantity(trades + [t], key) == 0
    {
      NetAfter(trades, t, key);
      MissingAfterAppending(positions, p, key);
    }
  }

  lemma RemovedOk(positions: seq<Position>, trades: seq<Trade>, t: Trade, i: nat)
    requires PositionsOk(positions, trades) && i < |positions|
    requires t.executed && t.key == positions[i].key && NetQuantity(trades + [t], t.key) == 0
    ensures PositionsOk(Without(positions, i), trades + [t])
  {
    hide IndexOf, NetQuantity;
    var rest := Without(positions, i);
    forall j | 0 <= j < |rest|
      ensures PositionOk(rest[j], trades + [t]) && rest[j].key != t.key
    {
      assert rest[j] == positions[if j < i then j else j + 1];
      NetAfter(trades, t, rest[j].key);
    }
    forall key | IndexOf(rest, key) == |rest|
      ensures NetQuantity(trades + [t], key) == 0
    {
      NetAfter(trades, t, key);
      if key != t.key {
        MissingAfterRemoving(positions, i, key);
      }
    }
  }

  /** A limit order fills once the market is at its limit or better, and pays the limit; one without a limit pays the market. */
  lemma LimitsExactly(order: Signal, marketPrice: real)
    ensures order.price <= 0.0 ==> CanFillAtPrice(order, marketPrice) && FillPrice(order, marketPrice) == marketPrice
    ensures order.price > 0.0 ==>
              && FillPrice(order, marketPrice) == order.price
              && (CanFillAtPrice(order, marketPrice) <==>
                    if order.side == Buy then order.price - marketPrice >= 0.0 else marketPrice - order.price >= 0.0)
  {
  }

  /** An edit is refused when it is not positive or takes out more than there is in cash; otherwise cash moves with the quota. */
  lemma QuotaEditExactly(account: Account, quota: real)
    ensures var after := UpdateQuota(account, quota);
            if quota > 0.0 && account.quota - quota <= account.cash
            then after == account.(quota := quota, cash := after.cash)
                 && -0.005 < (after.cash - quota) - (account.cash - account.quota) <= 0.005
                 && after.cash * 100.0 == (after.cash * 100.0).Floor as real
            else after == account
  {
    hide RoundQuota;
    RoundingError(account.cash + (quota - account.quota));
  }

  /** Positions of other keys are none of the order's business. */
  ghost predicate OthersStay(before: seq<Position>, after: seq<Position>, key: Key) {
    forall p: Position :: p.key != key ==> (p in after <==> p in before)
  }

  lemma OthersStayWhenReplaced(positions: seq<Position>, i: nat, p: Position)
    requires i < |positions| && p.key == positions[i].key
    ensures OthersStay(positions, positions[i := p], p.key)
  {
    forall q: Position | q.key != p.key && q in positions
      ensures q in positions[i := p]
    {
      var k :| 0 <= k < |positions| && positions[k] == q;
      assert positions[i := p][k] == q;
    }
  }

  lemma OthersStayWhenRemoved(positions: seq<Position>, i: nat)
    requires i < |positions|
    ensures OthersStay(positions, Without(positions, i), positions[i].key)
  {
    assert positions == positions[..i] + [positions[i]] + positions[i + 1..];
  }

  /** The position of `key` shows the price, and every other one is as before. */
  lemma RepriceExactly(account: Account, key: Key, price: real)
    requires UniqueKeys(account.positions)
    ensures var after := UpdatePrice(account, key, price);
            && after == account.(positions := after.positions)
            && OthersStay(account.positions, after.positions, key)
            && (forall p :: p in account.positions && p.key == key ==>
                  p.(currentPrice := price, profitLoss := (price - p.avgPrice) * p.quantity as real) in after.positions)
  {
    var i := IndexOf(account.positions, key);
    if i < |account.positions| {
      OthersStayWhenReplaced(account.positions, i, WithPrice(account.positions[i], price));
      var after := UpdatePrice(account, key, price).positions;
      forall p | p in account.positions && p.key == key
        ensures p.(currentPrice := price, profitLoss := (price - p.avgPrice) * p.quantity as real) in after
      {
        OneRowOfKey(account.positions, i, p);
        assert after[i] == p.(currentPrice := price, profitLoss := (price - p.avgPrice) * p.quantity as real);
      }
    }
  }

  lemma OneRowOfKey(positions: seq<Position>, i: nat, p: Position)
    requires UniqueKeys(positions) && i < |positions| && p in positions && p.key == positions[i].key
    ensures p == positions[i]
  {
    var k :| 0 <= k < |positions| && positions[k] == p;
  }

  lemma FilledExactlyWhen(account: Account, order: Signal, price: real)
    requires PositionsOk(account.positions, account.trades) && order.quantity > 0
    ensures Fills(account, order, price)
       <==> if order.side == Buy then price * order.quantity as real <= account.cash
            else order.quantity <= NetQuantity(account.trades, order.key)
  {
    hide NetQuantity;
    var i := IndexOf(account.positions, order.key);
    if i < |account.positions| {
      assert PositionOk(account.positions[i], account.trades);
    }
  }

  lemma BuyMovesItsPosition(positions: seq<Position>, order: Signal, price: real)
    requires order.side == Buy && UniqueKeys(positions)
    requires forall p :: p in positions ==> p.quantity > 0
    requires order.quantity > 0
    ensures var after := AfterBuy(positions, order, price);
            && OthersStay(positions, after, order.key)
            && forall p :: p in after && p.key == order.key ==> p.currentPrice == price
  {
    var i := IndexOf(positions, order.key);
    if i < |positions| {
      assert positions[i] in positions;
      OthersStayWhenReplaced(positions, i, Bought(positions[i], order.quantity, price));
      assert forall j :: 0 <= j < |positions| && positions[j].key == order.key ==> j == i;
    }
  }

  lemma SaleMovesItsPosition(positions: seq<Position>, order: Signal, price: real, i: nat)
    requires UniqueKeys(positions) && i < |positions| && positions[i].key == order.key
    ensures var after := AfterSell(positions, order, price, i);
            && OthersStay(positions, after, order.key)
            && forall p :: p in after && p.key == order.key ==> p.currentPrice == price
  {
    OthersStayWhenRemoved(positions, i);
    OthersStayWhenReplaced(positions, i, Reduced(positions[i], order.quantity, price));
  }

  /**
   What an attempt does: one row in the log at the limit or the market price, filled exactly when the cash
   covers it or the log says the shares are held; then cash moves by the amount and the position of the
   order's key, and of no other, shows the price.
   */
  lemma ExecutionExactly(account: Account, order: Signal, marketPrice: real)
    requires PositionsOk(account.positions, account.trades) && order.quantity > 0
    ensures var price := if order.price > 0.0 then order.price else marketPrice;
            var filled := if order.side == Buy then price * order.quantity as real <= account.cash
                          else order.quantity <= NetQuantity(account.trades, order.key);
            var after := AfterExecution(account, order, marketPrice);
            && after.trades == account.trades + [Trade(order.key, order.side, order.quantity, price, filled)]
            && after.quota == account.quota
            && after.cash == account.cash + (if !filled then 0.0
                                             else if order.side == Buy then -price * order.quantity as real
                                             else price * order.quantity as real)
            && OthersStay(account.positions, after.positions, order.key)
            && (!filled ==> after.positions == account.positions)
            && (filled ==> forall p :: p in after.positions && p.key == order.key ==> p.currentPrice == price)
  {
    hide NetQuantity, IndexOf, AfterBuy, AfterSell, UniqueKeys, OthersStay, Fills;
    LimitsExactly(order, marketPrice);
    var price := FillPrice(order, marketPrice);
    FilledExactlyWhen(account, order, price);
    if Fills(account, order, price) {
      PositionMoves(account, order, price);
    }
    assert OthersStay(account.positions, account.positions, order.key) by { NothingMoves(account.positions, order.key); }
  }

  lemma NothingMoves(positions: seq<Position>, key: Key)
    ensures OthersStay(positions, positions, key)
  {
  }

  lemma PositionMoves(account: Account, order: Signal, price: real)
    requires PositionsOk(account.positions, account.trades) && order.quantity > 0 && Fills(account, order, price)
    ensures order.side == Sell ==> IndexOf(account.positions, order.key) < |account.positions|
    ensures var after := if order.side == Buy then AfterBuy(account.positions, order, price)
                         else AfterSell(account.positions, order, price, IndexOf(account.positions, order.key));
            && OthersStay(account.positions, after, order.key)
            && forall p :: p in after && p.key == order.key ==> p.currentPrice == price
  {
    hide NetQuantity, AfterBuy, AfterSell, OthersStay, UniqueKeys;
    if order.side == Buy {
      BuyMovesItsPosition(account.positions, order, price);
    } else {
      SaleMovesItsPosition(account.positions, order, price, IndexOf(account.positions, order.key));
    }
  }

  lemma UntouchedOk(positions: seq<Position>, trades: seq<Trade>, t: Trade)
    requires PositionsOk(positions, trades) && !t.executed
    ensures PositionsOk(positions, trades + [t])
  {
    hide IndexOf, NetQuantity;
    forall key
      ensures NetQuantity(trades + [t], key) == NetQuantity(trades, key)
    {
      NetAfter(trades, t, key);
    }
  }

  // ---------------------------------------------------------------------------
  // Every event keeps the books
  // ---------------------------------------------------------------------------

  /** The ledger invariant holds again, and the drift has moved by at most `slack`. */
  ghost predicate Kept(before: Account, after: Account, gain: real, slack: real) {
    LedgerOk(after) && AbsReal(Drift(after, gain) - Drift(before, 0.0)) <= slack
  }

  lemma BoughtIsOk(p: Position, trades: seq<Trade>, signal: Signal, price: real)
    requires PositionOk(p, trades) && p.quantity + signal.quantity > 0 && signal.key == p.key && signal.side == Buy
    ensures var after := Bought(p, signal.quantity, price);
            && after.key == p.key
            && PositionOk(after, trades + [ToTrade(signal, price, true)])
            && after.totalInvested == p.totalInvested + price * signal.quantity as real
  {
    hide NetQuantity;
    NetAfter(trades, ToTrade(signal, price, true), p.key);
    AveragingConserves(p, signal.quantity, price);
  }

  lemma OpenedIsOk(trades: seq<Trade>, signal: Signal, price: real)
    requires NetQuantity(trades, signal.key) == 0 && signal.quantity > 0 && signal.side == Buy
    ensures PositionOk(Opened(signal.key, signal.quantity, price), trades + [ToTrade(signal, price, true)])
  {
    NetAfter(trades, ToTrade(signal, price, true), signal.key);
  }

  /** Shares of the position of a key. */
  function HeldAt(positions: seq<Position>, key: Key): int {
    var i := IndexOf(positions, key);
    if i == |positions| then 0 else positions[i].quantity
  }

  lemma HeldIsNotNegative(account: Account, key: Key)
    requires LedgerOk(account)
    ensures HeldAt(account.positions, key) >= 0
  {
    hide NetQuantity;
    var i := IndexOf(account.positions, key);
    if i < |account.positions| {
      ListedIsLong(account.positions, account.trades, i);
    }
  }

  lemma BuyKeepsBooks(account: Account, signal: Signal, marketPrice: real)
    requires LedgerOk(account) && signal.side == Buy && HeldAt(account.positions, signal.key) + signal.quantity > 0
    requires Fills(account, signal, FillPrice(signal, marketPrice))
    ensures Kept(account, AfterExecution(account, signal, marketPrice), 0.0, 0.0)
  {
    hide IndexOf, NetQuantity, PositionsOk, Sum, Bought, PositionOk;
    var price := FillPrice(signal, marketPrice);
    var t := ToTrade(signal, price, true);
    var i := IndexOf(account.positions, signal.key);
    if i == |account.positions| {
      var p := Opened(signal.key, signal.quantity, price);
      MissingPositionIsFlat(account.positions, account.trades, signal.key);
      OpenedIsOk(account.trades, signal, price);
      AppendedOk(account.positions, account.trades, t, p);
      SumOfAppend(account.positions, p, Invested());
    } else {
      ListedPositionIsOk(account.positions, account.trades, i);
      ListedIsLong(account.positions, account.trades, i);
      var p := Bought(account.positions[i], signal.quantity, price);
      BoughtIsOk(account.positions[i], account.trades, signal, price);
      ReplacedOk(account.positions, account.trades, t, i, p);
      SumOfUpdate(account.positions, i, p, Invested());
    }
  }

  /**
   The ledger does not look at the share count of a purchase. One that fills keeps the books if and only
   if the position then holds a positive number of shares; a strategy that asks for a positive number
   never breaks them.
   */
  lemma PurchaseKeepsBooksExactlyWhen(account: Account, signal: Signal, marketPrice: real)
    requires LedgerOk(account) && signal.side == Buy && Fills(account, signal, FillPrice(signal, marketPrice))
    ensures LedgerOk(AfterExecution(account, signal, marketPrice))
       <==> HeldAt(account.positions, signal.key) + signal.quantity > 0
  {
    hide IndexOf, NetQuantity, PositionsOk, Sum, Bought, PositionOk;
    var price := FillPrice(signal, marketPrice);
    var i := IndexOf(account.positions, signal.key);
    if HeldAt(account.positions, signal.key) + signal.quantity > 0 {
      BuyKeepsBooks(account, signal, marketPrice);
    } else {
      var after := AfterExecution(account, signal, marketPrice);
      if PositionsOk(after.positions, after.trades) {
        ListedIsLong(after.positions, after.trades, i);
        if i < |account.positions| {
          ListedPositionIsOk(account.positions, account.trades, i);
          if account.positions[i].quantity + signal.quantity == 0 {
            NothingLeftIsNoPosition(account.positions[i], account.trades, ToTrade(signal, price, true), after.positions, i);
          } else {
            BoughtHolds(account.positions[i], signal.quantity, price);
          }
        }
      }
    }
  }

  lemma BoughtHolds(p: Position, quantity: int, price: real)
    requires p.quantity + quantity != 0
    ensures Bought(p, quantity, price).quantity == p.quantity + quantity
  {
  }

  /** A position left alone by a purchase that nets it to nothing disagrees with the log. */
  lemma NothingLeftIsNoPosition(p: Position, trades: seq<Trade>, t: Trade, after: seq<Position>, i: nat)
    requires PositionOk(p, trades) && t.executed && t.side == Buy && t.key == p.key && p.quantity + t.quantity == 0
    requires i < |after| && after[i] == p
    ensures !PositionsOk(after, trades + [t])
  {
    hide IndexOf;
    NetAfter(trades, t, p.key);
    if PositionsOk(after, trades + [t]) {
      ListedPositionIsOk(after, trades + [t], i);
    }
  }

  lemma MissingPositionIsFlat(positions: seq<Position>, trades: seq<Trade>, key: Key)
    requires PositionsOk(positions, trades) && IndexOf(positions, key) == |positions|
    ensures NetQuantity(trades, key) == 0
  {
  }

  lemma ListedIsLong(positions: seq<Position>, trades: seq<Trade>, i: nat)
    requires PositionsOk(positions, trades) && i < |positions|
    ensures positions[i].quantity > 0
  {
    assert PositionOk(positions[i], trades);
  }

  lemma ListedPositionIsOk(positions: seq<Position>, trades: seq<Trade>, i: nat)
    requires PositionsOk(positions, trades) && i < |positions|
    ensures PositionOk(positions[i], trades)
  {
  }

  /** The weighted average spends exactly what was paid. */
  lemma AveragingConserves(p: Position, quantity: int, price: real)
    requires p.quantity + quantity != 0 && p.totalInvested == p.avgPrice * p.quantity as real
    ensures var after := Bought(p, quantity, price);
            after.totalInvested == after.avgPrice * after.quantity as real
            && after.totalInvested == p.totalInvested + price * quantity as real
  {
    DivideBack(p.avgPrice * p.quantity as real + price * quantity as real, (p.quantity + quantity) as real);
  }

  lemma SellKeepsBooks(account: Account, signal: Signal, marketPrice: real)
    requires LedgerOk(account) && Sensible(Execute(signal, marketPrice)) && signal.side == Sell
    requires Fills(account, signal, FillPrice(signal, marketPrice))
    ensures Kept(account, AfterExecution(account, signal, marketPrice), Gain(account, Execute(signal, marketPrice)), 0.0)
  {
    hide IndexOf, NetQuantity, PositionsOk, Sum;
    var price := FillPrice(signal, marketPrice);
    var t := ToTrade(signal, price, true);
    var i := IndexOf(account.positions, signal.key);
    var p := account.positions[i];
    ListedPositionIsOk(account.positions, account.trades, i);
    NetAfter(account.trades, t, signal.key);
    SplitShares(p.avgPrice, price, p.quantity, signal.quantity);
    assert price * signal.quantity as real >= 0.0;
    if p.quantity == signal.quantity {
      RemovedOk(account.positions, account.trades, t, i);
      SumWithout(account.positions, i, Invested());
    } else {
      var rest := Reduced(p, signal.quantity, price);
      ReplacedOk(account.positions, account.trades, t, i, rest);
      SumOfUpdate(account.positions, i, rest, Invested());
    }
  }

  lemma SplitShares(avg: real, price: real, held: int, sold: int)
    ensures avg * held as real == avg * (held - sold) as real + avg * sold as real
    ensures (price - avg) * sold as real == price * sold as real - avg * sold as real
  {
    assert (held - sold) as real == held as real - sold as real;
  }

  lemma RepriceKeepsBooks(account: Account, key: Key, price: real)
    requires LedgerOk(account)
    ensures Kept(account, UpdatePrice(account, key, price), 0.0, 0.0)
  {
    hide NetQuantity, Sum, IndexOf;
    var i := IndexOf(account.positions, key);
    if i < |account.positions| {
      var p := WithPrice(account.positions[i], price);
      SumOfUpdate(account.positions, i, p, Invested());
      var updated := account.positions[i := p];
      forall k | IndexOf(updated, k) == |updated|
        ensures IndexOf(account.positions, k) == |account.positions|
      {
        MissingAfterReplacing(account.positions, i, p, k);
      }
    }
  }

  /** No event can break the books: an execution or repricing moves the drift by nothing, an edit by half a cent. */
  lemma StepKeepsBooks(account: Account, event: Event)
    requires LedgerOk(account) && Sensible(event)
    ensures LedgerOk(Step(account, event))
    ensures !event.Reset? ==>
              Kept(account, Step(account, event), Gain(account, event), if event.EditQuota? then 0.005 else 0.0)
    ensures event.Reset? ==> Drift(Step(account, event), 0.0) == 0.0
  {
    hide IndexOf, NetQuantity, PositionsOk, Bought, Reduced, AfterBuy, AfterSell;
    match event {
      case Execute(signal, marketPrice) =>
        var price := FillPrice(signal, marketPrice);
        if !Fills(account, signal, price) {
          UntouchedOk(account.positions, account.trades, ToTrade(signal, price, false));
        } else if signal.side == Buy {
          HeldIsNotNegative(account, signal.key);
          BuyKeepsBooks(account, signal, marketPrice);
        } else {
          SellKeepsBooks(account, signal, marketPrice);
        }
      case Reprice(key, price) => RepriceKeepsBooks(account, key, price);
      case EditQuota(quota) => RoundingError(account.cash + (quota - account.quota));
      case Reset => EmptyLedgerOk();
    }
  }

  lemma EmptyLedgerOk()
    ensures PositionsOk([], [])
  {
  }

  /**
   Conservation, for any sequence of executions, repricings, quota edits and resets: cash never goes
   negative; every position holds exactly the shares bought minus those sold and is invested at its
   average price; cash plus invested capital equals quota plus gains, to the last digit when the
   quota was not edited since the last reset, and within half a cent per edit otherwise.
   */
  lemma {:induction false} LedgerConserves(quota: real, events: seq<Event>)
    requires quota >= 0.0 && forall event :: event in events ==> Sensible(event)
    ensures LedgerOk(Run(CreateSession(quota), events))
    ensures AbsReal(Drift(Run(CreateSession(quota), events), Gains(CreateSession(quota), events)))
            <= 0.005 * Edits(events) as real
  {
    var start := CreateSession(quota);
    if events == [] {
      EmptyLedgerOk();
    } else {
      hide LedgerOk, Step, Gain, Kept;
      var before, event := events[..|events| - 1], events[|events| - 1];
      LedgerConserves(quota, before);
      assert Sensible(event);
      StepKeepsBooks(Run(start, before), event);
      if !event.Reset? {
        DriftAfter(Run(start, before), event, Gains(start, before));
      }
    }
  }

  lemma DriftAfter(account: Account, event: Event, gains: real)
    requires Kept(account, Step(account, event), Gain(account, event), if event.EditQuota? then 0.005 else 0.0)
    ensures AbsReal(Drift(Step(account, event), gains + Gain(account, event)))
            <= AbsReal(Drift(account, gains)) + if event.EditQuota? then 0.005 else 0.0
  {
    hide Step, Gain, LedgerOk, Sum;
  }

  lemma RunAppend(account: Account, events: seq<Event>, event: Event)
    ensures Run(account, events + [event]) == Step(Run(account, events), event)
  {
    assert (events + [event])[..|events|] == events;
  }
}
