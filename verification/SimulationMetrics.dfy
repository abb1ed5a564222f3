/** The performance report: realised profit is replayed from the trade log, not read from the ledger. */
module SimulationMetrics {
  import opened Prelude
  import opened SimulationLedger

  predicate IsFill(t: Trade, side: Side, stock: string) {
    t.executed && t.side == side && t.key.stock == stock
  }

  /** Shares traded on one side of a stock; the replay looks at the stock code alone. */
  function Shares(trades: seq<Trade>, side: Side, stock: string): int {
    if trades == [] then 0
    else
      var t := trades[|trades| - 1];
      Shares(trades[..|trades| - 1], side, stock) + if IsFill(t, side, stock) then t.quantity else 0
  }

  function Cost(trades: seq<Trade>, stock: string): real {
    if trades == [] then 0.0
    else
      var t := trades[|trades| - 1];
      Cost(trades[..|trades| - 1], stock) + if IsFill(t, Buy, stock) then t.quantity as real * t.price else 0.0
  }

  /** Average price over every purchase so far, or zero once nothing is left. */
  function ReplayedAverage(before: seq<Trade>, stock: string): real {
    var bought := Shares(before, Buy, stock);
    if bought - Shares(before, Sell, stock) > 0 && bought != 0 then Cost(before, stock) / bought as real else 0.0
  }

  /** The average spreads the whole cost over all shares ever bought, as long as some are left. */
  lemma AverageSpreadsTheCost(before: seq<Trade>, stock: string)
    requires Shares(before, Buy, stock) >= 0
    ensures var bought, sold := Shares(before, Buy, stock), Shares(before, Sell, stock);
            && (bought > sold && bought > 0 ==> ReplayedAverage(before, stock) * bought as real == Cost(before, stock))
            && (bought <= sold || bought == 0 ==> ReplayedAverage(before, stock) == 0.0)
  {
    hide Shares, Cost;
  }

  /** Profit the replay attributes to a sale made after the trades `before`. */
  function ReplayedGain(before: seq<Trade>, t: Trade): real {
    if t.executed && t.side == Sell then (t.price - ReplayedAverage(before, t.key.stock)) * t.quantity as real else 0.0
  }

  /** `realizedPnL`. */
  function Realized(trades: seq<Trade>): real {
    if trades == [] then 0.0
    else
      var before := trades[..|trades| - 1];
      Realized(before) + ReplayedGain(before, trades[|trades| - 1])
  }

  function Unrealized(positions: seq<Position>): real {
    Sum(positions, (p: Position) => p.profitLoss)
  }

  function MarketValue(): Position -> real {
    (p: Position) => p.quantity as real * p.currentPrice
  }

  function TotalReturnAmount(account: Account): real {
    Sum(account.positions, MarketValue()) + account.cash - account.quota
  }

  /** Executed sales, and those of them the replay finds no loss in. */
  function Sales(trades: seq<Trade>): nat {
    if trades == [] then 0
    else
      var t := trades[|trades| - 1];
      Sales(trades[..|trades| - 1]) + if t.executed && t.side == Sell then 1 else 0
  }

  function Wins(trades: seq<Trade>): nat {
    if trades == [] then 0
    else
      var before, t := trades[..|trades| - 1], trades[|trades| - 1];
      Wins(before) + if t.executed && t.side == Sell && ReplayedGain(before, t) >= 0.0 then 1 else 0
  }

  predicate IsSale(trades: seq<Trade>, i: nat)
    requires i < |trades|
  {
    trades[i].executed && trades[i].side == Sell
  }

  /** A sale at no less than the replayed average. */
  predicate IsWin(trades: seq<Trade>, i: nat)
    requires i < |trades|
  {
    IsSale(trades, i) && trades[i].price >= ReplayedAverage(trades[..i], trades[i].key.stock)
  }

  function WinningSales(trades: seq<Trade>): set<nat> {
    set i: nat | i < |trades| && IsWin(trades, i)
  }

  function AllSales(trades: seq<Trade>): set<nat> {
    set i: nat | i < |trades| && IsSale(trades, i)
  }

  /** A sale without loss is won, and so is one that breaks even. */
  lemma {:induction false} WinsAreCounted(trades: seq<Trade>)
    requires forall i :: 0 <= i < |trades| ==> trades[i].quantity > 0
    ensures Wins(trades) == |WinningSales(trades)| && Sales(trades) == |AllSales(trades)|
  {
    if trades != [] {
      hide ReplayedGain, IsSale, IsWin, WinningSales, AllSales, Wins, Sales;
      WinsAreCounted(trades[..|trades| - 1]);
      LastSale(trades);
      LastCounts(trades);
      LastListed(trades);
    } else {
      assert WinningSales(trades) == {} && AllSales(trades) == {};
    }
  }

  lemma LastCounts(trades: seq<Trade>)
    requires trades != []
    ensures var n := |trades| - 1;
            var sale := trades[n].executed && trades[n].side == Sell;
            && Sales(trades) == Sales(trades[..n]) + (if sale then 1 else 0)
            && Wins(trades) == Wins(trades[..n]) + if sale && ReplayedGain(trades[..n], trades[n]) >= 0.0 then 1 else 0
  {
    hide ReplayedGain;
  }

  lemma LastListed(trades: seq<Trade>)
    requires trades != []
    requires forall i: nat :: i < |trades| - 1 ==>
               (IsSale(trades, i) <==> IsSale(trades[..|trades| - 1], i)) && (IsWin(trades, i) <==> IsWin(trades[..|trades| - 1], i))
    ensures var n: nat := |trades| - 1;
            && |WinningSales(trades)| == |WinningSales(trades[..n])| + (if IsWin(trades, n) then 1 else 0)
            && |AllSales(trades)| == |AllSales(trades[..n])| + if IsSale(trades, n) then 1 else 0
  {
    hide IsSale, IsWin;
    var n: nat := |trades| - 1;
    assert WinningSales(trades) == WinningSales(trades[..n]) + if IsWin(trades, n) then {n} else {};
    assert AllSales(trades) == AllSales(trades[..n]) + if IsSale(trades, n) then {n} else {};
  }

  lemma LastSale(trades: seq<Trade>)
    requires trades != [] && forall i :: 0 <= i < |trades| ==> trades[i].quantity > 0
    ensures var n := |trades| - 1;
            && (forall i: nat :: i < n ==>
                  (IsSale(trades, i) <==> IsSale(trades[..n], i)) && (IsWin(trades, i) <==> IsWin(trades[..n], i)))
            && (IsSale(trades, n) <==> trades[n].executed && trades[n].side == Sell)
            && (IsWin(trades, n) <==>
                  trades[n].executed && trades[n].side == Sell && ReplayedGain(trades[..n], trades[n]) >= 0.0)
  {
    hide ReplayedAverage, ReplayedGain;
    var n := |trades| - 1;
    GainSign(trades, n);
    assert forall i: nat :: i < n ==> trades[..n][..i] == trades[..i];
  }

  lemma GainSign(trades: seq<Trade>, n: nat)
    requires n < |trades| && trades[n].quantity > 0
    ensures IsSale(trades, n) ==>
              (ReplayedGain(trades[..n], trades[n]) >= 0.0
               <==> trades[n].price >= ReplayedAverage(trades[..n], trades[n].key.stock))
  {
    hide ReplayedAverage;
    var gap, q := trades[n].price - ReplayedAverage(trades[..n], trades[n].key.stock), trades[n].quantity as real;
    if gap >= 0.0 {
      assert gap * q >= 0.0;
    } else {
      TimesPositive(gap, q);
      assert gap * q < 0.0;
    }
  }

  datatype Report = Report(totalReturnAmount: real, realized: real, unrealized: real, wins: nat, losses: nat)

  lemma SharesStep(trades: seq<Trade>, i: nat, side: Side, stock: string)
    requires i < |trades|
    ensures Shares(trades[..i + 1], side, stock)
         == Shares(trades[..i], side, stock) + if IsFill(trades[i], side, stock) then trades[i].quantity else 0
    ensures Cost(trades[..i + 1], stock)
         == Cost(trades[..i], stock) + if IsFill(trades[i], Buy, stock) then trades[i].quantity as real * trades[i].price else 0.0
  {
    assert trades[..i + 1][..i] == trades[..i];
  }

  /** The inner replay for the sale at position `i`: trades are in the order they were made. */
  method ReplayAverage(trades: seq<Trade>, i: nat) returns (average: real)
    requires i < |trades| && trades[i].side == Sell
    ensures average == ReplayedAverage(trades[..i], trades[i].key.stock)
  {
    hide Shares, Cost;
    var stock := trades[i].key.stock;
    var totalBuyQty, totalBuyCost, totalSoldQty := 0, 0.0, 0;
    EmptyReplay(trades, stock);
    for j := 0 to |trades|
      invariant totalBuyQty == Shares(trades[..if j < i then j else i], Buy, stock)
      invariant totalBuyCost == Cost(trades[..if j < i then j else i], stock)
      invariant totalSoldQty == Shares(trades[..if j < i then j else i], Sell, stock)
    {
      if j < i {
        SharesStep(trades, j, Buy, stock);
        SharesStep(trades, j, Sell, stock);
      }
      if j <= i && IsFill(trades[j], Buy, stock) {
        totalBuyQty := totalBuyQty + trades[j].quantity;
        totalBuyCost := totalBuyCost + trades[j].quantity as real * trades[j].price;
      }
      if j < i && IsFill(trades[j], Sell, stock) {
        totalSoldQty := totalSoldQty + trades[j].quantity;
      }
    }
    average := if totalBuyQty - totalSoldQty > 0 && totalBuyQty != 0 then totalBuyCost / totalBuyQty as real else 0.0;
  }

  lemma EmptyReplay(trades: seq<Trade>, stock: string)
    ensures Shares(trades[..0], Buy, stock) == 0 && Shares(trades[..0], Sell, stock) == 0 && Cost(trades[..0], stock) == 0.0
  {
  }

  lemma NothingReported()
    ensures Realized([]) == 0.0 && Sales([]) == 0 && Wins([]) == 0
  {
  }

  lemma ReportAppend(trades: seq<Trade>, t: Trade)
    ensures var sale := t.executed && t.side == Sell;
            var gain := ReplayedGain(trades, t);
            && Realized(trades + [t]) == Realized(trades) + gain
            && Sales(trades + [t]) == Sales(trades) + (if sale then 1 else 0)
            && Wins(trades + [t]) == Wins(trades) + if sale && gain >= 0.0 then 1 else 0
  {
    assert (trades + [t])[..|trades|] == trades;
  }

  method GetMetrics(account: Account) returns (report: Report)
    ensures report.totalReturnAmount == TotalReturnAmount(account)
    ensures report.realized == Realized(account.trades)
    ensures report.unrealized == Unrealized(account.positions)
    ensures report.wins == Wins(account.trades) && report.wins + report.losses == Sales(account.trades)
  {
    hide ReplayedAverage, Realized, Sales, Wins;
    var trades := account.trades;
    NothingReported();
    var totalProfit, totalLoss, wins, losses := 0.0, 0.0, 0, 0;
    for i := 0 to |trades|
      invariant totalProfit - totalLoss == Realized(trades[..i])
      invariant wins == Wins(trades[..i]) && wins + losses == Sales(trades[..i])
    {
      assert trades[..i + 1] == trades[..i] + [trades[i]];
      ReportAppend(trades[..i], trades[i]);
      if trades[i].executed && trades[i].side == Sell {
        var avgBuyPrice := ReplayAverage(trades, i);
        var pnl := (trades[i].price - avgBuyPrice) * trades[i].quantity as real;
        if pnl >= 0.0 {
          wins, totalProfit := wins + 1, totalProfit + pnl;
        } else {
          losses, totalLoss := losses + 1, totalLoss + AbsReal(pnl);
        }
      }
    }
    assert trades[..|trades|] == trades;
    var total := Sum(account.positions, MarketValue()) + account.cash - account.quota;
    report := Report(total, totalProfit - totalLoss, Unrealized(account.positions), wins, losses);
  }

  // ---------------------------------------------------------------------------
  // When the replay agrees with the ledger
  // ---------------------------------------------------------------------------

  /** No stock is bought again after it was sold, and no stock is traded on two venues. */
  ghost predicate Plain(trades: seq<Trade>) {
    && (forall i, j :: 0 <= i < j < |trades| && IsFill(trades[i], Sell, trades[j].key.stock) ==>
          !IsFill(trades[j], Buy, trades[j].key.stock))
    && (forall i, j :: 0 <= i < |trades| && 0 <= j < |trades| && trades[i].key.stock == trades[j].key.stock ==>
          trades[i].key == trades[j].key)
  }

  ghost predicate PositiveFills(trades: seq<Trade>) {
    forall i :: 0 <= i < |trades| ==> trades[i].quantity > 0
  }

  /** The ledger's average of a position is the average over all its purchases. */
  ghost predicate AverageIsLifetime(p: Position, trades: seq<Trade>) {
    p.avgPrice * Shares(trades, Buy, p.key.stock) as real == Cost(trades, p.key.stock)
  }

  ghost predicate Averaged(account: Account) {
    && PositiveFills(account.trades)
    && forall i :: 0 <= i < |account.positions| ==> AverageIsLifetime(account.positions[i], account.trades)
  }

  lemma SharesAppend(trades: seq<Trade>, t: Trade, side: Side, stock: string)
    ensures Shares(trades + [t], side, stock) == Shares(trades, side, stock) + if IsFill(t, side, stock) then t.quantity else 0
    ensures Cost(trades + [t], stock) == Cost(trades, stock) + if IsFill(t, Buy, stock) then t.quantity as real * t.price else 0.0
  {
    SharesStep(trades + [t], |trades|, side, stock);
    assert (trades + [t])[..|trades| + 1] == trades + [t];
    assert (trades + [t])[..|trades|] == trades;
  }

  /** On one venue, the net quantity of the ledger is purchases minus sales of the stock. */
  lemma {:induction false} NetIsSharesApart(trades: seq<Trade>, key: Key)
    requires forall i :: 0 <= i < |trades| && trades[i].key.stock == key.stock ==> trades[i].key == key
    ensures NetQuantity(trades, key) == Shares(trades, Buy, key.stock) - Shares(trades, Sell, key.stock)
  {
    if trades != [] {
      var n := |trades| - 1;
      NetIsSharesApart(trades[..n], key);
    }
  }

  lemma {:induction false} NoFillsNoShares(trades: seq<Trade>, side: Side, stock: string)
    requires PositiveFills(trades)
    ensures Shares(trades, side, stock) >= 0
    ensures Shares(trades, side, stock) == 0 <==> forall i :: 0 <= i < |trades| ==> !IsFill(trades[i], side, stock)
  {
    if trades != [] {
      var n := |trades| - 1;
      NoFillsNoShares(trades[..n], side, stock);
      assert forall i :: 0 <= i < n ==> trades[..n][i] == trades[i];
    }
  }

  lemma {:induction false} NoSharesNoCost(trades: seq<Trade>, stock: string)
    requires forall i :: 0 <= i < |trades| ==> !IsFill(trades[i], Buy, stock)
    ensures Cost(trades, stock) == 0.0
  {
    if trades != [] {
      NoSharesNoCost(trades[..|trades| - 1], stock);
    }
  }

  lemma PlainPrefix(trades: seq<Trade>, t: Trade)
    requires Plain(trades + [t])
    ensures Plain(trades)
    ensures forall i :: 0 <= i < |trades| && trades[i].key.stock == t.key.stock ==> trades[i].key == t.key
    ensures t.executed && t.side == Buy ==> forall i :: 0 <= i < |trades| ==> !IsFill(trades[i], Sell, t.key.stock)
  {
    var all := trades + [t];
    assert forall i :: 0 <= i < |trades| ==> all[i] == trades[i];
    assert all[|trades|] == t;
  }

  // ---------------------------------------------------------------------------
  // Shares bought minus shares sold are the shares held
  // ---------------------------------------------------------------------------

  function HeldOf(stock: string): Position -> real {
    (p: Position) => if p.key.stock == stock then p.quantity as real else 0.0
  }

  ghost predicate TalliedFor(account: Account, stock: string) {
    Sum(account.positions, HeldOf(stock))
      == (Shares(account.trades, Buy, stock) - Shares(account.trades, Sell, stock)) as real
  }

  /** Over all venues together, the positions of a stock hold what was bought and not sold. */
  ghost predicate Tallied(account: Account) {
    forall stock :: TalliedFor(account, stock)
  }

  lemma NothingTallies(quota: real)
    ensures Tallied(CreateSession(quota))
  {
  }

  lemma FillTallies(account: Account, signal: Signal, price: real, stock: string)
    requires LedgerOk(account) && TalliedFor(account, stock) && signal.quantity > 0 && Fills(account, signal, price)
    ensures var positions :=
              if signal.side == Buy then AfterBuy(account.positions, signal, price)
              else AfterSell(account.positions, signal, price, IndexOf(account.positions, signal.key));
            TalliedFor(account.(positions := positions, trades := account.trades + [ToTrade(signal, price, true)]), stock)
  {
    hide Sum, Shares, Cost, IndexOf, NetQuantity;
    var t, positions := ToTrade(signal, price, true), account.positions;
    var i := IndexOf(positions, signal.key);
    SharesAppend(account.trades, t, Buy, stock);
    SharesAppend(account.trades, t, Sell, stock);
    if i < |positions| {
      assert PositionOk(positions[i], account.trades);
    }
    if signal.side == Buy {
      if i == |positions| {
        SumOfAppend(positions, Opened(signal.key, signal.quantity, price), HeldOf(stock));
      } else {
        SumOfUpdate(positions, i, Bought(positions[i], signal.quantity, price), HeldOf(stock));
      }
    } else if positions[i].quantity == signal.quantity {
      SumWithout(positions, i, HeldOf(stock));
    } else {
      SumOfUpdate(positions, i, Reduced(positions[i], signal.quantity, price), HeldOf(stock));
    }
  }

  lemma StepTallies(account: Account, event: Event)
    requires LedgerOk(account) && Tallied(account) && Sensible(event)
    ensures Tallied(Step(account, event))
  {
    hide LedgerOk, Sum, Shares, Cost, IndexOf, AfterBuy, AfterSell;
    forall stock
      ensures TalliedFor(Step(account, event), stock)
    {
      assert TalliedFor(account, stock);
      match event {
        case Execute(signal, marketPrice) =>
          var price := FillPrice(signal, marketPrice);
          if Fills(account, signal, price) {
            FillTallies(account, signal, price, stock);
          } else {
            SharesAppend(account.trades, ToTrade(signal, price, false), Buy, stock);
            SharesAppend(account.trades, ToTrade(signal, price, false), Sell, stock);
          }
        case Reprice(key, price) => RepriceTallies(account, key, price, stock);
        case EditQuota(quota) =>
        case Reset => NothingTallies(account.quota);
          assert TalliedFor(CreateSession(account.quota), stock);
      }
    }
  }

  lemma RepriceTallies(account: Account, key: Key, price: real, stock: string)
    requires TalliedFor(account, stock)
    ensures TalliedFor(UpdatePrice(account, key, price), stock)
  {
    hide Sum, Shares;
    var i := IndexOf(account.positions, key);
    if i < |account.positions| {
      SumOfUpdate(account.positions, i, WithPrice(account.positions[i], price), HeldOf(stock));
    }
  }

  lemma {:induction false} HeldIsPositive(positions: seq<Position>, stock: string)
    requires forall i :: 0 <= i < |positions| ==> positions[i].quantity > 0
    ensures Sum(positions, HeldOf(stock)) >= 0.0
  {
    if positions != [] {
      HeldIsPositive(positions[..|positions| - 1], stock);
    }
  }

  /** Two positions of one stock are both part of what is held of it. */
  lemma HeldInTwo(positions: seq<Position>, i: nat, j: nat)
    requires i < |positions| && j < |positions| && positions[i].key.stock == positions[j].key.stock
    requires forall k :: 0 <= k < |positions| ==> positions[k].quantity > 0
    ensures Sum(positions, HeldOf(positions[i].key.stock)) >= positions[i].quantity as real
    ensures i != j ==> Sum(positions, HeldOf(positions[i].key.stock)) > positions[i].quantity as real
  {
    hide Sum;
    var stock := positions[i].key.stock;
    var rest := Without(positions, i);
    SumWithout(positions, i, HeldOf(stock));
    HeldIsPositive(rest, stock);
    if i != j {
      var k := if j < i then j else j - 1;
      assert rest[k] == positions[j];
      SumWithout(rest, k, HeldOf(stock));
      HeldIsPositive(Without(rest, k), stock);
    }
  }

  lemma AllLong(account: Account)
    requires LedgerOk(account)
    ensures forall i :: 0 <= i < |account.positions| ==> account.positions[i].quantity > 0
  {
    hide NetQuantity, IndexOf;
    assert forall i :: 0 <= i < |account.positions| ==> PositionOk(account.positions[i], account.trades);
  }

  /** A held position is no more than was ever bought of the stock, and less when it is held elsewhere too. */
  lemma HeldWasBought(account: Account, i: nat, j: nat)
    requires LedgerOk(account) && Tallied(account) && PositiveFills(account.trades)
    requires i < |account.positions| && j < |account.positions|
    requires account.positions[i].key.stock == account.positions[j].key.stock
    ensures var stock := account.positions[i].key.stock;
            && 0 < account.positions[i].quantity <= Shares(account.trades, Buy, stock)
            && Shares(account.trades, Buy, stock) - Shares(account.trades, Sell, stock) > 0
            && (i != j ==> account.positions[i].quantity < Shares(account.trades, Buy, stock))
  {
    hide LedgerOk, Sum, Shares;
    var stock := account.positions[i].key.stock;
    AllLong(account);
    HeldInTwo(account.positions, i, j);
    assert TalliedFor(account, stock);
    NoFillsNoShares(account.trades, Sell, stock);
  }

  // ---------------------------------------------------------------------------
  // Purchases
  // ---------------------------------------------------------------------------

  /** All shares ever bought of the stock are still in this position, or the price is their average. */
  predicate BuysEvenly(account: Account, signal: Signal, price: real) {
    var bought := Shares(account.trades, Buy, signal.key.stock);
    bought == HeldAt(account.positions, signal.key) || price * bought as real == Cost(account.trades, signal.key.stock)
  }

  /** The new average of a held position is the new lifetime average exactly when the purchase was even. */
  lemma AverageStaysLifetime(p: Position, n: int, price: real, bought: int, cost: real)
    requires 0 < p.quantity <= bought && n > 0 && p.avgPrice * bought as real == cost
    ensures Bought(p, n, price).avgPrice * (bought + n) as real == cost + n as real * price
       <==> bought == p.quantity || price * bought as real == cost
  {
    var q, b, m := p.quantity as real, bought as real, n as real;
    var after := Bought(p, n, price).avgPrice;
    assert (p.quantity + n) as real == q + m && (bought + n) as real == b + m;
    DivideBack(p.avgPrice * q + price * m, q + m);
    assert after * (q + m) == p.avgPrice * q + price * m;
    var gap := after * (b + m) - (cost + m * price);
    assert gap * (q + m) == m * ((b - q) * (price - p.avgPrice)) by {
      GapTimesShares(after, p.avgPrice, price, q, b, m);
    }
    NoFactorNoProduct(gap, q + m);
    NoFactorNoProduct((b - q) * (price - p.avgPrice), m);
    NoProductNoFactor(b - q, price - p.avgPrice);
    SamePrice(p.avgPrice, price, b);
  }

  lemma GapTimesShares(after: real, avg: real, price: real, q: real, b: real, m: real)
    requires after * (q + m) == avg * q + price * m
    ensures (after * (b + m) - (avg * b + m * price)) * (q + m) == m * ((b - q) * (price - avg))
  {
    var left := after * (b + m) * (q + m);
    assert left == (after * (q + m)) * (b + m);
    assert left == (avg * q + price * m) * (b + m);
    assert (avg * q + price * m) * (b + m) == avg * q * b + avg * q * m + price * m * b + price * m * m;
    assert (avg * b + m * price) * (q + m) == avg * b * q + avg * b * m + m * price * q + m * price * m;
    assert m * ((b - q) * (price - avg)) == m * (b * price - b * avg - q * price + q * avg);
  }

  lemma NoFactorNoProduct(x: real, y: real)
    requires y > 0.0
    ensures x * y == 0.0 <==> x == 0.0
    ensures y * x == 0.0 <==> x == 0.0
  {
  }

  lemma NoProductNoFactor(x: real, y: real)
    ensures x * y == 0.0 <==> x == 0.0 || y == 0.0
  {
  }

  /** A position that is not traded stays at the lifetime average exactly when the price is that average. */
  lemma SamePrice(avg: real, price: real, b: real)
    requires b > 0.0
    ensures price - avg == 0.0 <==> price * b == avg * b
  {
    NoFactorNoProduct(price - avg, b);
    assert (price - avg) * b == price * b - avg * b;
  }

  lemma OtherStaysLifetime(avg: real, n: int, price: real, bought: int, cost: real)
    requires bought > 0 && n > 0 && avg * bought as real == cost
    ensures avg * (bought + n) as real == cost + n as real * price <==> price * bought as real == cost
  {
    assert (bought + n) as real == bought as real + n as real;
    assert avg * (bought + n) as real == cost + avg * n as real;
    SamePrice(avg, price, bought as real);
    SamePrice(avg, price, n as real);
  }

  function Purchase(account: Account, signal: Signal, price: real): Account {
    account.(positions := AfterBuy(account.positions, signal, price), trades := account.trades + [ToTrade(signal, price, true)])
  }

  /** A first purchase on a venue. */
  lemma OpenedStaysLifetime(account: Account, signal: Signal, price: real)
    requires PositiveFills(account.trades) && signal.side == Buy && signal.quantity > 0
    requires IndexOf(account.positions, signal.key) == |account.positions|
    ensures AverageIsLifetime(Opened(signal.key, signal.quantity, price), account.trades + [ToTrade(signal, price, true)])
       <==> BuysEvenly(account, signal, price)
  {
    hide Shares, Cost, IndexOf;
    var stock := signal.key.stock;
    var bought := Shares(account.trades, Buy, stock);
    SharesAppend(account.trades, ToTrade(signal, price, true), Buy, stock);
    NoFillsNoShares(account.trades, Buy, stock);
    if bought == 0 {
      NoSharesNoCost(account.trades, stock);
    }
    assert (bought + signal.quantity) as real == bought as real + signal.quantity as real;
    assert price * (bought + signal.quantity) as real == price * bought as real + signal.quantity as real * price;
  }

  lemma HeldStaysLifetime(account: Account, signal: Signal, price: real, i: nat)
    requires LedgerOk(account) && Tallied(account) && Averaged(account) && signal.side == Buy && signal.quantity > 0
    requires i < |account.positions| && i == IndexOf(account.positions, signal.key)
    ensures account.positions[i].quantity > 0
    ensures AverageIsLifetime(Bought(account.positions[i], signal.quantity, price), account.trades + [ToTrade(signal, price, true)])
       <==> BuysEvenly(account, signal, price)
  {
    hide LedgerOk, Shares, Cost, Tallied, IndexOf;
    var stock := signal.key.stock;
    SharesAppend(account.trades, ToTrade(signal, price, true), Buy, stock);
    HeldWasBought(account, i, i);
    assert AverageIsLifetime(account.positions[i], account.trades);
    AverageStaysLifetime(account.positions[i], signal.quantity, price,
                         Shares(account.trades, Buy, stock), Cost(account.trades, stock));
  }

  /** Another position: on the same stock it stays at the lifetime average exactly when the purchase is even. */
  lemma AnotherStaysLifetime(account: Account, signal: Signal, price: real, j: nat)
    requires LedgerOk(account) && Tallied(account) && Averaged(account) && signal.side == Buy && signal.quantity > 0
    requires j < |account.positions| && j != IndexOf(account.positions, signal.key)
    ensures AverageIsLifetime(account.positions[j], account.trades + [ToTrade(signal, price, true)])
       <==> account.positions[j].key.stock != signal.key.stock || BuysEvenly(account, signal, price)
  {
    hide LedgerOk, Shares, Cost, Tallied, IndexOf;
    var p := account.positions[j];
    var i := IndexOf(account.positions, signal.key);
    SharesAppend(account.trades, ToTrade(signal, price, true), Buy, p.key.stock);
    assert AverageIsLifetime(p, account.trades);
    if p.key.stock == signal.key.stock {
      HeldWasBought(account, j, j);
      OtherStaysLifetime(p.avgPrice, signal.quantity, price,
                         Shares(account.trades, Buy, p.key.stock), Cost(account.trades, p.key.stock));
      if i < |account.positions| {
        HeldWasBought(account, i, j);
      }
    }
  }

  /** What a purchase does to the average of the position at `j`. */
  lemma PurchaseAt(account: Account, signal: Signal, price: real, j: nat)
    requires LedgerOk(account) && Tallied(account) && Averaged(account) && signal.side == Buy && signal.quantity > 0
    requires j < |AfterBuy(account.positions, signal, price)|
    ensures var after := Purchase(account, signal, price);
            (AverageIsLifetime(after.positions[j], after.trades) <==>
             (after.positions[j].key.stock != signal.key.stock || BuysEvenly(account, signal, price)))
  {
    hide LedgerOk, Averaged, Tallied, AverageIsLifetime, BuysEvenly, Bought;
    var i := IndexOf(account.positions, signal.key);
    assert PositiveFills(account.trades) by { AveragedFills(account); }
    if i == |account.positions| && j == i {
      OpenedStaysLifetime(account, signal, price);
    } else if i == j {
      HeldStaysLifetime(account, signal, price, i);
      BoughtKeepsKey(account.positions[i], signal.quantity, price);
    } else {
      AnotherStaysLifetime(account, signal, price, j);
      AllLong(account);
    }
  }

  lemma BoughtKeepsKey(p: Position, n: int, price: real)
    requires p.quantity + n != 0
    ensures Bought(p, n, price).key == p.key
  {
  }

  lemma AveragedFills(account: Account)
    requires Averaged(account)
    ensures PositiveFills(account.trades)
  {
  }

  /** A purchase keeps the averages lifetime averages exactly when it is even. */
  lemma PurchaseKeepsAverages(account: Account, signal: Signal, price: real)
    requires LedgerOk(account) && Tallied(account) && Averaged(account) && signal.side == Buy && signal.quantity > 0
    ensures Averaged(Purchase(account, signal, price)) <==> BuysEvenly(account, signal, price)
  {
    hide LedgerOk, BuysEvenly, AverageIsLifetime, Tallied;
    var after := Purchase(account, signal, price);
    forall j | 0 <= j < |after.positions|
      ensures BuysEvenly(account, signal, price) ==> AverageIsLifetime(after.positions[j], after.trades)
    {
      PurchaseAt(account, signal, price, j);
    }
    var i := IndexOf(account.positions, signal.key);
    AllLong(account);
    assert i < |after.positions| && after.positions[i].key == signal.key;
    PurchaseAt(account, signal, price, i);
  }

  /** A sale leaves every average alone. */
  lemma SaleKeepsAverages(account: Account, signal: Signal, price: real)
    requires Averaged(account) && signal.side == Sell && signal.quantity > 0
    requires Fills(account, signal, price)
    ensures Averaged(account.(positions := AfterSell(account.positions, signal, price, IndexOf(account.positions, signal.key)),
                              trades := account.trades + [ToTrade(signal, price, true)]))
  {
    hide Shares, Cost, IndexOf;
    var t := ToTrade(signal, price, true);
    var i := IndexOf(account.positions, signal.key);
    var after := AfterSell(account.positions, signal, price, i);
    forall j | 0 <= j < |after|
      ensures AverageIsLifetime(after[j], account.trades + [t])
    {
      SharesAppend(account.trades, t, Buy, after[j].key.stock);
      var k := if |after| == |account.positions| || j < i then j else j + 1;
      assert after[j].avgPrice == account.positions[k].avgPrice && after[j].key == account.positions[k].key;
    }
  }

  lemma OrdinaryKeepsAverages(account: Account, positions: seq<Position>, more: seq<Trade>)
    requires Averaged(account) && |positions| == |account.positions|
    requires forall j :: 0 <= j < |positions| ==>
               positions[j].avgPrice == account.positions[j].avgPrice && positions[j].key == account.positions[j].key
    requires more == [] || (|more| == 1 && !more[0].executed && more[0].quantity > 0)
    ensures Averaged(account.(positions := positions, trades := account.trades + more))
  {
    hide Shares, Cost;
    if more == [] {
      assert account.trades + more == account.trades;
    } else {
      forall j | 0 <= j < |positions|
        ensures AverageIsLifetime(positions[j], account.trades + more)
      {
        SharesAppend(account.trades, more[0], Buy, positions[j].key.stock);
        assert more == [more[0]];
        assert AverageIsLifetime(account.positions[j], account.trades);
      }
    }
  }

  /** Unless reset, no event forgets a trade, so a plain log was plain before. */
  lemma EarlierLogIsPlain(account: Account, event: Event)
    requires !event.Reset? && Plain(Step(account, event).trades)
    ensures Plain(account.trades)
  {
    hide Plain;
    if event.Execute? {
      var t := Step(account, event).trades[|account.trades|];
      assert Step(account, event).trades == account.trades + [t];
      PlainPrefix(account.trades, t);
    }
  }

  // ---------------------------------------------------------------------------
  // Sales
  // ---------------------------------------------------------------------------

  /** Whatever is sold next, the replay gains what the ledger gains. */
  ghost predicate SalesReplay(account: Account) {
    forall signal: Signal, marketPrice: real :: signal.side == Sell && signal.quantity > 0 ==>
      var event := Execute(signal, marketPrice);
      var price := FillPrice(signal, marketPrice);
      ReplayedGain(account.trades, ToTrade(signal, price, Fills(account, signal, price))) == Gain(account, event)
  }

  lemma SaleReplays(account: Account, signal: Signal, marketPrice: real)
    requires LedgerOk(account) && Tallied(account) && PositiveFills(account.trades)
    requires signal.side == Sell && signal.quantity > 0
    ensures var price := FillPrice(signal, marketPrice);
            var i := IndexOf(account.positions, signal.key);
            && (!Fills(account, signal, price) ==>
                  ReplayedGain(account.trades, ToTrade(signal, price, false)) == Gain(account, Execute(signal, marketPrice)))
            && (Fills(account, signal, price) ==>
                  (ReplayedGain(account.trades, ToTrade(signal, price, true)) == Gain(account, Execute(signal, marketPrice))
                   <==> AverageIsLifetime(account.positions[i], account.trades)))
  {
    hide LedgerOk, Shares, Cost, Tallied;
    var price := FillPrice(signal, marketPrice);
    if Fills(account, signal, price) {
      var i := IndexOf(account.positions, signal.key);
      var p := account.positions[i];
      HeldWasBought(account, i, i);
      var bought, cost := Shares(account.trades, Buy, p.key.stock), Cost(account.trades, p.key.stock);
      var replayed := cost / bought as real;
      assert ReplayedAverage(account.trades, p.key.stock) == replayed;
      DivideBack(cost, bought as real);
      SamePrice(replayed, p.avgPrice, bought as real);
      SamePrice(price - replayed, price - p.avgPrice, signal.quantity as real);
    }
  }

  /** The next sale is replayed right, whatever it is, exactly when every average is a lifetime average. */
  lemma SalesReplayExactlyWhen(account: Account)
    requires LedgerOk(account) && Tallied(account) && PositiveFills(account.trades)
    ensures SalesReplay(account) <==> Averaged(account)
  {
    hide LedgerOk, Tallied, AverageIsLifetime, ReplayedGain, Gain, IndexOf;
    if Averaged(account) {
      forall signal: Signal, marketPrice: real | signal.side == Sell && signal.quantity > 0
        ensures var event := Execute(signal, marketPrice);
                var price := FillPrice(signal, marketPrice);
                ReplayedGain(account.trades, ToTrade(signal, price, Fills(account, signal, price))) == Gain(account, event)
      {
        SaleReplays(account, signal, marketPrice);
      }
    }
    if SalesReplay(account) {
      AllLong(account);
      forall i | 0 <= i < |account.positions|
        ensures AverageIsLifetime(account.positions[i], account.trades)
      {
        var one := Signal(account.positions[i].key, Sell, 1, 1.0);
        LedgerIsUnique(account);
        IndexIsUnique(account.positions, i, one.key);
        SaleReplays(account, one, 0.0);
        assert Gain(account, Execute(one, 0.0))
            == ReplayedGain(account.trades, ToTrade(one, FillPrice(one, 0.0), Fills(account, one, FillPrice(one, 0.0))));
      }
    }
  }

  lemma LedgerIsUnique(account: Account)
    requires LedgerOk(account)
    ensures UniqueKeys(account.positions)
  {
  }

  // ---------------------------------------------------------------------------
  // Whole histories
  // ---------------------------------------------------------------------------

  /** The event is not a purchase that upsets the replay. */
  predicate EvenStep(account: Account, event: Event) {
    event.Execute? && event.signal.side == Buy && Fills(account, event.signal, FillPrice(event.signal, event.marketPrice)) ==>
      BuysEvenly(account, event.signal, FillPrice(event.signal, event.marketPrice))
  }

  lemma StepKeepsAverages(account: Account, event: Event)
    requires LedgerOk(account) && Tallied(account) && Averaged(account) && Sensible(event)
    ensures PositiveFills(Step(account, event).trades)
    ensures Averaged(Step(account, event)) <==> EvenStep(account, event)
  {
    hide LedgerOk, Tallied, IndexOf, PositionsOk, AverageIsLifetime, AfterBuy, AfterSell, BuysEvenly, Fills;
    match event {
      case Execute(signal, marketPrice) =>
        var price := FillPrice(signal, marketPrice);
        if !Fills(account, signal, price) {
          OrdinaryKeepsAverages(account, account.positions, [ToTrade(signal, price, false)]);
        } else if signal.side == Buy {
          PurchaseKeepsAverages(account, signal, price);
          assert Averaged(Step(account, event)) <==> Averaged(Purchase(account, signal, price));
        } else {
          SaleKeepsAverages(account, signal, price);
        }
      case Reprice(key, price) =>
        RepriceKeepsAverages(account, key, price);
      case EditQuota(quota) =>
      case Reset =>
    }
  }

  lemma RepriceKeepsAverages(account: Account, key: Key, price: real)
    requires Averaged(account)
    ensures Averaged(UpdatePrice(account, key, price))
  {
    OrdinaryKeepsAverages(account, UpdatePrice(account, key, price).positions, []);
    assert account.trades + [] == account.trades;
  }

  /** Since the last reset, every filled purchase was even. */
  predicate BoughtEvenly(quota: real, events: seq<Event>) {
    events == [] || events[|events| - 1].Reset? ||
    var before := events[..|events| - 1];
    BoughtEvenly(quota, before) && EvenStep(Run(CreateSession(quota), before), events[|events| - 1])
  }

  /** At every moment since the last reset, now included, the next sale is replayed right. */
  ghost predicate AlwaysReplays(quota: real, events: seq<Event>) {
    && SalesReplay(Run(CreateSession(quota), events))
    && (events == [] || events[|events| - 1].Reset? || AlwaysReplays(quota, events[..|events| - 1]))
  }

  ghost predicate AlwaysAveraged(quota: real, events: seq<Event>) {
    && Averaged(Run(CreateSession(quota), events))
    && (events == [] || events[|events| - 1].Reset? || AlwaysAveraged(quota, events[..|events| - 1]))
  }

  lemma {:induction false} RunTallies(quota: real, events: seq<Event>)
    requires quota >= 0.0 && forall event :: event in events ==> Sensible(event)
    ensures var account := Run(CreateSession(quota), events);
            LedgerOk(account) && Tallied(account) && PositiveFills(account.trades)
  {
    hide LedgerOk, Tallied, Step;
    LedgerConserves(quota, events);
    if events == [] {
      NothingTallies(quota);
    } else {
      var before, event := events[..|events| - 1], events[|events| - 1];
      RunTallies(quota, before);
      assert Sensible(event);
      StepTallies(Run(CreateSession(quota), before), event);
      StepKeepsFills(Run(CreateSession(quota), before), event);
    }
  }

  lemma StepKeepsFills(account: Account, event: Event)
    requires PositiveFills(account.trades) && Sensible(event)
    ensures PositiveFills(Step(account, event).trades)
  {
    hide Fills, AfterBuy, AfterSell;
  }

  lemma FromReset(account: Account)
    ensures Averaged(Step(account, Reset))
  {
  }

  /** The lifetime averages survive exactly the histories that bought evenly. */
  lemma {:induction false} AveragesExactlyWhen(quota: real, events: seq<Event>)
    requires quota >= 0.0 && forall event :: event in events ==> Sensible(event)
    ensures AlwaysAveraged(quota, events) <==> BoughtEvenly(quota, events)
  {
    hide LedgerOk, Tallied, Step, Averaged, EvenStep;
    if events == [] {
      EmptyIsAveraged(quota);
    } else {
      var before, event := events[..|events| - 1], events[|events| - 1];
      assert Sensible(event);
      if event.Reset? {
        FromReset(Run(CreateSession(quota), before));
      } else {
        RunTallies(quota, before);
        AveragesExactlyWhen(quota, before);
        if AlwaysAveraged(quota, before) {
          StepKeepsAverages(Run(CreateSession(quota), before), event);
        }
      }
    }
  }

  lemma EmptyIsAveraged(quota: real)
    ensures Averaged(CreateSession(quota))
  {
  }

  lemma {:induction false} ReplaysExactlyWhenAveraged(quota: real, events: seq<Event>)
    requires quota >= 0.0 && forall event :: event in events ==> Sensible(event)
    ensures AlwaysReplays(quota, events) <==> AlwaysAveraged(quota, events)
  {
    hide LedgerOk, Tallied, Averaged, SalesReplay, Run;
    RunTallies(quota, events);
    SalesReplayExactlyWhen(Run(CreateSession(quota), events));
    if events != [] {
      ReplaysExactlyWhenAveraged(quota, events[..|events| - 1]);
    }
  }

  /**
   When the replayed profit can be trusted: at every moment since the last reset the next sale, whatever
   it is, is credited the ledger's own gain, if and only if every purchase of a stock that had been sold
   or is also held on another venue was made at exactly the average price paid so far.
   */
  lemma ReplayIsExactWhen(quota: real, events: seq<Event>)
    requires quota >= 0.0 && forall event :: event in events ==> Sensible(event)
    ensures AlwaysReplays(quota, events) <==> BoughtEvenly(quota, events)
  {
    hide AlwaysReplays, AlwaysAveraged, BoughtEvenly;
    ReplaysExactlyWhenAveraged(quota, events);
    AveragesExactlyWhen(quota, events);
  }

  /** One event keeps the replayed profit in step with the ledger's. */
  lemma StepReplays(account: Account, event: Event)
    requires LedgerOk(account) && Tallied(account) && Averaged(account) && Sensible(event) && !event.Reset?
    ensures Realized(Step(account, event).trades) == Realized(account.trades) + Gain(account, event)
  {
    hide Tallied, LedgerOk, Realized, ReplayedAverage, IndexOf, AverageIsLifetime, AfterBuy, AfterSell, UpdatePrice;
    match event {
      case Execute(signal, marketPrice) =>
        var price := FillPrice(signal, marketPrice);
        ReportAppend(account.trades, ToTrade(signal, price, Fills(account, signal, price)));
        if signal.side == Sell {
          SaleReplays(account, signal, marketPrice);
        }
      case Reprice(key, price) => RepriceKeepsLog(account, key, price);
      case EditQuota(quota) =>
    }
  }

  lemma RepriceKeepsLog(account: Account, key: Key, price: real)
    ensures UpdatePrice(account, key, price).trades == account.trades
  {
  }

  lemma {:induction false} ReplayFollowsTheLedger(quota: real, events: seq<Event>)
    requires quota >= 0.0 && forall event :: event in events ==> Sensible(event)
    requires BoughtEvenly(quota, events)
    ensures Realized(Run(CreateSession(quota), events).trades) == Gains(CreateSession(quota), events)
  {
    if events != [] {
      hide Step, Realized, Averaged, LedgerOk, Tallied, Gain, EvenStep;
      var before, event := events[..|events| - 1], events[|events| - 1];
      assert Sensible(event);
      if event.Reset? {
        ResetForgets(Run(CreateSession(quota), before));
      } else {
        ReplayFollowsTheLedger(quota, before);
        RunTallies(quota, before);
        AveragesExactlyWhen(quota, before);
        StepReplays(Run(CreateSession(quota), before), event);
      }
    }
  }

  /** In particular, a history in which no stock is bought back after a sale, and none on two venues, is even. */
  lemma {:induction false} NoBuyBackIsEven(quota: real, events: seq<Event>)
    requires quota >= 0.0 && forall event :: event in events ==> Sensible(event)
    requires Plain(Run(CreateSession(quota), events).trades)
    ensures BoughtEvenly(quota, events)
  {
    if events != [] && !events[|events| - 1].Reset? {
      hide Plain, Step, LedgerOk, Tallied, EvenStep;
      var before, event := events[..|events| - 1], events[|events| - 1];
      EarlierLogIsPlain(Run(CreateSession(quota), before), event);
      NoBuyBackIsEven(quota, before);
      RunTallies(quota, before);
      PlainStepIsEven(Run(CreateSession(quota), before), event);
    }
  }

  lemma PlainStepIsEven(account: Account, event: Event)
    requires LedgerOk(account) && PositiveFills(account.trades) && !event.Reset? && Plain(Step(account, event).trades)
    ensures EvenStep(account, event)
  {
    hide Plain, NetQuantity, Shares, Cost, IndexOf, AfterBuy, AfterSell;
    if event.Execute? {
      var signal, price := event.signal, FillPrice(event.signal, event.marketPrice);
      if signal.side == Buy && Fills(account, signal, price) {
        PlainPrefix(account.trades, ToTrade(signal, price, true));
        NetIsSharesApart(account.trades, signal.key);
        NoFillsNoShares(account.trades, Sell, signal.key.stock);
        var i := IndexOf(account.positions, signal.key);
        assert i < |account.positions| ==> PositionOk(account.positions[i], account.trades);
      }
    }
  }

  lemma ResetForgets(account: Account)
    ensures Averaged(Step(account, Reset)) && Realized(Step(account, Reset).trades) == 0.0
  {
  }

  lemma {:induction false} ValueSplits(positions: seq<Position>, trades: seq<Trade>)
    requires forall i :: 0 <= i < |positions| ==> PositionOk(positions[i], trades)
    ensures Sum(positions, MarketValue()) == Unrealized(positions) + Sum(positions, Invested())
  {
    if positions != [] {
      hide NetQuantity;
      var n := |positions| - 1;
      ValueSplits(positions[..n], trades);
      var p := positions[n];
      assert (p.currentPrice - p.avgPrice) * p.quantity as real
          == p.quantity as real * p.currentPrice - p.avgPrice * p.quantity as real;
    }
  }

  /**
   The report is consistent: after every history that bought evenly, realised plus unrealised profit is
   the total return, to the last digit when the quota was not edited since the last reset and within
   half a cent per edit otherwise.
   */
  lemma ProfitsAddUp(quota: real, events: seq<Event>)
    requires quota >= 0.0 && forall event :: event in events ==> Sensible(event)
    requires BoughtEvenly(quota, events)
    ensures var account := Run(CreateSession(quota), events);
            AbsReal(TotalReturnAmount(account) - Realized(account.trades) - Unrealized(account.positions))
            <= 0.005 * Edits(events) as real
  {
    hide BoughtEvenly, Run, Realized, Unrealized, Gains, Edits;
    var account := Run(CreateSession(quota), events);
    LedgerConserves(quota, events);
    ReplayFollowsTheLedger(quota, events);
    ValueSplits(account.positions, account.trades);
  }

  /** A stock sold and bought back is replayed at its lifetime average, and the report no longer adds up. */
  lemma BuyingBackBreaksTheReport()
    ensures var key := Key("KRX", "005930");
            var account := Run(CreateSession(100.0),
                               [Execute(Signal(key, Buy, 1, 10.0), 10.0), Execute(Signal(key, Sell, 1, 20.0), 20.0),
                                Execute(Signal(key, Buy, 1, 30.0), 30.0), Execute(Signal(key, Sell, 1, 30.0), 30.0)]);
            TotalReturnAmount(account) == 10.0 && Realized(account.trades) == 20.0 && Unrealized(account.positions) == 0.0
  {
    hide Step, Realized;
    var key := Key("KRX", "005930");
    var e1, e2 := Execute(Signal(key, Buy, 1, 10.0), 10.0), Execute(Signal(key, Sell, 1, 20.0), 20.0);
    var e3, e4 := Execute(Signal(key, Buy, 1, 30.0), 30.0), Execute(Signal(key, Sell, 1, 30.0), 30.0);
    var t1, t2 := Trade(key, Buy, 1, 10.0, true), Trade(key, Sell, 1, 20.0, true);
    var t3, t4 := Trade(key, Buy, 1, 30.0, true), Trade(key, Sell, 1, 30.0, true);
    var start := CreateSession(100.0);
    FourTrades(key, t1, t2, t3, t4);
    RoundTrip(start, key, 10.0, 20.0);
    RoundTrip(Account(100.0, 110.0, [], [t1, t2]), key, 30.0, 30.0);
    RunAppend(start, [], e1);
    RunAppend(start, [e1], e2);
    RunAppend(start, [e1, e2], e3);
    RunAppend(start, [e1, e2, e3], e4);
    assert [] + [e1] == [e1] && [e1] + [e2] == [e1, e2] && [e1, e2] + [e3] == [e1, e2, e3];
    assert [e1, e2, e3] + [e4] == [e1, e2, e3, e4];
    assert [] + [t1, t2] == [t1, t2] && [t1, t2] + [t3, t4] == [t1, t2, t3, t4];
  }

  /** One share bought into an empty account and sold again. */
  lemma RoundTrip(account: Account, key: Key, paid: real, got: real)
    requires account.positions == [] && 0.0 < paid <= account.cash && 0.0 < got
    ensures var bought := Step(account, Execute(Signal(key, Buy, 1, paid), paid));
            Step(bought, Execute(Signal(key, Sell, 1, got), got))
              == Account(account.quota, account.cash - paid + got, [],
                         account.trades + [Trade(key, Buy, 1, paid, true), Trade(key, Sell, 1, got, true)])
  {
    var held := Opened(key, 1, paid);
    var bought := Step(account, Execute(Signal(key, Buy, 1, paid), paid));
    assert account.positions + [held] == [held];
    assert bought == Account(account.quota, account.cash - paid, [held], account.trades + [Trade(key, Buy, 1, paid, true)]);
    assert Without([held], 0) == [];
    assert (account.trades + [Trade(key, Buy, 1, paid, true)]) + [Trade(key, Sell, 1, got, true)]
        == account.trades + [Trade(key, Buy, 1, paid, true), Trade(key, Sell, 1, got, true)];
  }

  lemma FourTrades(key: Key, t1: Trade, t2: Trade, t3: Trade, t4: Trade)
    requires t1 == Trade(key, Buy, 1, 10.0, true) && t2 == Trade(key, Sell, 1, 20.0, true)
    requires t3 == Trade(key, Buy, 1, 30.0, true) && t4 == Trade(key, Sell, 1, 30.0, true)
    ensures Realized([t1, t2, t3, t4]) == 20.0
  {
    hide Shares, Cost, Realized;
    var stock := key.stock;
    ReportAppend([], t1);
    ReportAppend([t1], t2);
    ReportAppend([t1, t2], t3);
    ReportAppend([t1, t2, t3], t4);
    assert [] + [t1] == [t1] && [t1] + [t2] == [t1, t2] && [t1, t2] + [t3] == [t1, t2, t3];
    assert [t1, t2, t3] + [t4] == [t1, t2, t3, t4];
    assert Shares([], Buy, stock) == 0 && Shares([], Sell, stock) == 0 && Cost([], stock) == 0.0 && Realized([]) == 0.0 by {
      NothingTraded(stock);
    }
    SharesAppend([], t1, Buy, stock);
    SharesAppend([], t1, Sell, stock);
    SharesAppend([t1], t2, Buy, stock);
    SharesAppend([t1], t2, Sell, stock);
    SharesAppend([t1, t2], t3, Buy, stock);
    SharesAppend([t1, t2], t3, Sell, stock);
  }

  lemma NothingTraded(stock: string)
    ensures Shares([], Buy, stock) == 0 && Shares([], Sell, stock) == 0 && Cost([], stock) == 0.0 && Realized([]) == 0.0
  {
  }
}
