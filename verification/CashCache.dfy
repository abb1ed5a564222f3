/** Cached cash balances, one setting per broker and market, with the old single setting kept as a mirror. */
module CashCache {
  import opened Prelude

  /** Currency and amounts of one balance. */
  datatype Money = Money(currencyCode: string, currencyName: Option<string>, amount: real, details: seq<Option<real>>)

  /** The broker is absent in the old setting. */
  datatype Item = Item(broker: Option<Broker>, market: Market, money: Money)

  /** The `AppSetting` table, as far as this service uses it. */
  type Settings = map<string, seq<Item>>

  const LEGACY_KEY: string := "account_status_cache"

  function BrokerName(broker: Broker): string {
    if broker == Kis then "KIS" else "TOSS"
  }

  function MarketName(market: Market): string {
    if market == Domestic then "DOMESTIC" else "OVERSEAS"
  }

  function CacheKey(broker: Broker, market: Market): string {
    LEGACY_KEY + ":" + BrokerName(broker) + ":" + MarketName(market)
  }

  lemma NamesOfTheKeys()
    ensures CacheKey(Kis, Domestic) == "account_status_cache:KIS:DOMESTIC"
    ensures CacheKey(Kis, Overseas) == "account_status_cache:KIS:OVERSEAS"
    ensures CacheKey(Toss, Domestic) == "account_status_cache:TOSS:DOMESTIC"
    ensures CacheKey(Toss, Overseas) == "account_status_cache:TOSS:OVERSEAS"
  {
  }

  /** The four keys are different from each other and from the old one. */
  lemma KeysAreDistinct(b: Broker, m: Market, b': Broker, m': Market)
    ensures CacheKey(b, m) != LEGACY_KEY
    ensures CacheKey(b, m) == CacheKey(b', m') <==> b == b' && m == m'
  {
    var k, k' := CacheKey(b, m), CacheKey(b', m');
    assert |k| == 21 + |BrokerName(b)| + 1 + 8 && |k'| == 21 + |BrokerName(b')| + 1 + 8;
    assert k[|k| - 8..] == MarketName(m) && k'[|k'| - 8..] == MarketName(m');
    if m != m' {
      assert k[|k| - 8..][0] != k'[|k'| - 8..][0];
    }
  }

  function OfMarket(items: seq<Item>, market: Market): seq<Item> {
    if items == [] then []
    else
      var last := items[|items| - 1];
      OfMarket(items[..|items| - 1], market) + if last.market == market then [last] else []
  }

  function NotOfMarket(items: seq<Item>, market: Market): seq<Item> {
    if items == [] then []
    else
      var last := items[|items| - 1];
      NotOfMarket(items[..|items| - 1], market) + if last.market != market then [last] else []
  }

  function Tagged(items: seq<Item>, broker: Option<Broker>): seq<Item> {
    seq(|items|, i requires 0 <= i < |items| => items[i].(broker := broker))
  }

  /** `value ?? []` of a setting. */
  function Saved(settings: Settings, key: string): seq<Item> {
    if key in settings then settings[key] else []
  }

  /** The transaction of `writeCache`. */
  function Written(settings: Settings, broker: Broker, market: Market, balances: seq<Item>): Settings {
    var scoped := settings[CacheKey(broker, market) := Tagged(balances, Some(broker))];
    if broker != Kis then scoped
    else
      scoped[LEGACY_KEY := NotOfMarket(Saved(settings, LEGACY_KEY), market) + Tagged(balances, None)]
  }

  /** What `getCache` shows for one broker and market. */
  function Section(settings: Settings, broker: Broker, market: Market): seq<Item> {
    var key := CacheKey(broker, market);
    var source := if key in settings then settings[key] else if broker == Kis then Saved(settings, LEGACY_KEY) else [];
    Tagged(OfMarket(source, market), Some(broker))
  }

  /** What readers of the old setting see for one market. */
  function LegacySection(settings: Settings, market: Market): seq<Item> {
    OfMarket(Saved(settings, LEGACY_KEY), market)
  }

  const BROKERS: seq<Broker> := [Kis, Toss]
  const MARKETS: seq<Market> := [Domestic, Overseas]

  /** The first `n` sections in the order they are read. */
  function Shown(settings: Settings, n: nat): seq<Item>
    requires n <= 4
  {
    if n == 0 then []
    else Shown(settings, n - 1) + Section(settings, BROKERS[(n - 1) / 2], MARKETS[(n - 1) % 2])
  }

  lemma FourSections(settings: Settings)
    ensures Shown(settings, 4)
         == Section(settings, Kis, Domestic) + Section(settings, Kis, Overseas)
            + Section(settings, Toss, Domestic) + Section(settings, Toss, Overseas)
  {
    hide Section;
    assert Shown(settings, 1) == Section(settings, Kis, Domestic);
    assert Shown(settings, 2) == Shown(settings, 1) + Section(settings, Kis, Overseas);
    assert Shown(settings, 3) == Shown(settings, 2) + Section(settings, Toss, Domestic);
  }

  class CashSync {
    var settings: Settings

    constructor (settings: Settings)
      ensures this.settings == settings
    {
      this.settings := settings;
    }

    method WriteCache(broker: Broker, market: Market, balances: seq<Item>)
      modifies this
      ensures settings == Written(old(settings), broker, market, balances)
    {
      var legacy := Saved(settings, LEGACY_KEY);
      KeysAreDistinct(broker, market, broker, market);
      settings := settings[CacheKey(broker, market) := Tagged(balances, Some(broker))];
      if broker == Kis {
        settings := settings[LEGACY_KEY := NotOfMarket(legacy, market) + Tagged(balances, None)];
      }
    }

    /** `balances` is the answer of the broker for one market; the service stamps the market on it. */
    method RefreshMarketCash(broker: Broker, market: Market, balances: seq<Money>)
      modifies this
      ensures settings == AfterWrite(old(settings), Write(broker, market, balances))
    {
      WriteCache(broker, market, Stamped(balances, market));
    }

    method ReplaceCache(broker: Broker, balances: seq<Item>, authoritative: seq<Market>)
      modifies this
      ensures settings == AfterWrites(old(settings), Replacements(broker, balances, authoritative))
    {
      hide AfterWrite, Written, Tagged, OfMarket, Stamped, Amounts, CacheKey;
      for i := 0 to |authoritative|
        invariant settings == AfterWrites(old(settings), Replacements(broker, balances, authoritative[..i]))
      {
        OneMoreReplacement(old(settings), broker, balances, authoritative, i);
        WriteCache(broker, authoritative[i], Untagged(OfMarket(balances, authoritative[i])));
      }
      assert authoritative[..|authoritative|] == authoritative;
    }

    method ReadSection(broker: Broker, market: Market) returns (balances: seq<Item>)
      ensures balances == Section(settings, broker, market)
    {
      var key := CacheKey(broker, market);
      var source: seq<Item> := [];
      if key in settings {
        source := settings[key];
      } else if broker == Kis {
        source := Saved(settings, LEGACY_KEY);
      }
      balances := Tagged(OfMarket(source, market), Some(broker));
    }

    /** The four sections in order; `None` when all of them are empty. */
    method GetCache() returns (cache: Option<seq<Item>>)
      ensures var all := Section(settings, Kis, Domestic) + Section(settings, Kis, Overseas)
                         + Section(settings, Toss, Domestic) + Section(settings, Toss, Overseas);
              cache == if all == [] then None else Some(all)
    {
      hide Section, Tagged, OfMarket, CacheKey;
      var balances: seq<Item> := [];
      for b := 0 to 2
        invariant balances == Shown(settings, 2 * b)
      {
        for m := 0 to 2
          invariant balances == Shown(settings, 2 * b + m)
        {
          var section := ReadSection(BROKERS[b], MARKETS[m]);
          balances := balances + section;
        }
      }
      FourSections(settings);
      cache := if |balances| == 0 then None else Some(balances);
    }
  }

  // ---------------------------------------------------------------------------
  // The cache against a plain map of the writes
  // ---------------------------------------------------------------------------

  /** One write as its caller sees it. */
  datatype Write = Write(broker: Broker, market: Market, balances: seq<Money>)

  function Stamped(balances: seq<Money>, market: Market): seq<Item> {
    seq(|balances|, i requires 0 <= i < |balances| => Item(None, market, balances[i]))
  }

  function Amounts(items: seq<Item>): seq<Money> {
    seq(|items|, i requires 0 <= i < |items| => items[i].money)
  }

  function Untagged(items: seq<Item>): seq<Item> {
    Tagged(items, None)
  }

  lemma {:induction false} OfMarketIsOfMarket(items: seq<Item>, market: Market)
    ensures forall i :: 0 <= i < |OfMarket(items, market)| ==> OfMarket(items, market)[i].market == market
  {
    if items != [] {
      OfMarketIsOfMarket(items[..|items| - 1], market);
    }
  }

  /** Filtering a list by market leaves exactly what a market's own read would have stamped. */
  lemma StampedAmounts(items: seq<Item>, market: Market)
    ensures Stamped(Amounts(OfMarket(items, market)), market) == Untagged(OfMarket(items, market))
  {
    OfMarketIsOfMarket(items, market);
  }

  function AfterWrite(settings: Settings, write: Write): Settings {
    Written(settings, write.broker, write.market, Stamped(write.balances, write.market))
  }

  function AfterWrites(settings: Settings, writes: seq<Write>): Settings {
    if writes == [] then settings
    else AfterWrite(AfterWrites(settings, writes[..|writes| - 1]), writes[|writes| - 1])
  }

  function Replacements(broker: Broker, balances: seq<Item>, markets: seq<Market>): seq<Write> {
    seq(|markets|, i requires 0 <= i < |markets| => Write(broker, markets[i], Amounts(OfMarket(balances, markets[i]))))
  }

  lemma OneMoreReplacement(settings: Settings, broker: Broker, balances: seq<Item>, markets: seq<Market>, i: nat)
    requires i < |markets|
    ensures AfterWrites(settings, Replacements(broker, balances, markets[..i + 1]))
         == Written(AfterWrites(settings, Replacements(broker, balances, markets[..i])), broker, markets[i],
                    Untagged(OfMarket(balances, markets[i])))
  {
    hide Written, OfMarket, Stamped, Amounts;
    var writes := Replacements(broker, balances, markets[..i]);
    var write := Write(broker, markets[i], Amounts(OfMarket(balances, markets[i])));
    StampedAmounts(balances, markets[i]);
    assert Replacements(broker, balances, markets[..i + 1]) == writes + [write];
    assert (writes + [write])[..|writes|] == writes;
  }

  /** The balances of the last write to a broker's market, if there was one. */
  function LastWrite(writes: seq<Write>, broker: Broker, market: Market): Option<seq<Money>> {
    if writes == [] then None
    else
      var last := writes[|writes| - 1];
      if last.broker == broker && last.market == market then Some(last.balances)
      else LastWrite(writes[..|writes| - 1], broker, market)
  }

  lemma {:induction false} OfMarketOfUniform(items: seq<Item>, other: Market, market: Market)
    requires forall i :: 0 <= i < |items| ==> items[i].market == other
    ensures OfMarket(items, market) == if other == market then items else []
  {
    if items != [] {
      var n := |items| - 1;
      OfMarketOfUniform(items[..n], other, market);
      assert items == items[..n] + [items[n]];
    }
  }

  lemma {:induction false} OfMarketOfConcat(a: seq<Item>, b: seq<Item>, market: Market)
    ensures OfMarket(a + b, market) == OfMarket(a, market) + OfMarket(b, market)
  {
    if b == [] {
      assert a + b == a;
    } else {
      var n := |b| - 1;
      OfMarketOfConcat(a, b[..n], market);
      assert (a + b)[..|a + b| - 1] == a + b[..n];
    }
  }

  lemma {:induction false} OfMarketOfRest(items: seq<Item>, removed: Market, market: Market)
    ensures OfMarket(NotOfMarket(items, removed), market) == if removed == market then [] else OfMarket(items, market)
  {
    if items != [] {
      var n := |items| - 1;
      OfMarketOfRest(items[..n], removed, market);
      var rest := NotOfMarket(items[..n], removed);
      if items[n].market != removed {
        assert (rest + [items[n]])[..|rest|] == rest;
      } else {
        assert rest + [] == rest;
      }
    }
  }

  /** The old setting's section of a market after one write. */
  lemma LegacyAfterWrite(settings: Settings, write: Write, market: Market)
    ensures LegacySection(AfterWrite(settings, write), market)
         == if write.broker == Kis && write.market == market then Stamped(write.balances, market)
            else LegacySection(settings, market)
  {
    hide OfMarket, NotOfMarket, CacheKey;
    KeysAreDistinct(write.broker, write.market, write.broker, write.market);
    if write.broker == Kis {
      RewrittenItems(Saved(settings, LEGACY_KEY), write.market, Tagged(Stamped(write.balances, write.market), None), market);
    }
  }

  lemma RewrittenItems(items: seq<Item>, removed: Market, added: seq<Item>, market: Market)
    requires forall i :: 0 <= i < |added| ==> added[i].market == removed
    ensures OfMarket(NotOfMarket(items, removed) + added, market) == if removed == market then added else OfMarket(items, market)
  {
    hide OfMarket, NotOfMarket;
    OfMarketOfConcat(NotOfMarket(items, removed), added, market);
    OfMarketOfUniform(added, removed, market);
    OfMarketOfRest(items, removed, market);
    assert [] + added == added && OfMarket(items, market) + [] == OfMarket(items, market);
  }

  lemma SectionAfterWrite(settings: Settings, write: Write, broker: Broker, market: Market)
    ensures Section(AfterWrite(settings, write), broker, market)
         == if write.broker == broker && write.market == market then Tagged(Stamped(write.balances, market), Some(broker))
            else Section(settings, broker, market)
  {
    KeysAreDistinct(write.broker, write.market, broker, market);
    KeysAreDistinct(broker, market, broker, market);
    if write.broker == broker && write.market == market {
      OfMarketOfUniform(Tagged(Stamped(write.balances, market), Some(broker)), market, market);
    } else if broker == Kis && CacheKey(broker, market) !in settings {
      LegacyAfterWrite(settings, write, market);
    }
  }

  /**
   The cache is a plain map: after any sequence of writes, the section of a broker's market holds the
   balances last written there, and one never written shows what it showed at the start, which for KIS
   is the section of the old setting. No write disturbs another section.
   */
  lemma {:induction false} CacheIsAMap(settings: Settings, writes: seq<Write>, broker: Broker, market: Market)
    ensures Section(AfterWrites(settings, writes), broker, market)
         == match LastWrite(writes, broker, market)
            case None => Section(settings, broker, market)
            case Some(balances) => Tagged(Stamped(balances, market), Some(broker))
  {
    if writes != [] {
      hide Section, AfterWrite;
      var before := writes[..|writes| - 1];
      CacheIsAMap(settings, before, broker, market);
      SectionAfterWrite(AfterWrites(settings, before), writes[|writes| - 1], broker, market);
    }
  }

  /** The old setting mirrors KIS, without naming a broker: each of its sections is the last KIS write, or still the original. */
  lemma {:induction false} LegacyMirrorsKis(settings: Settings, writes: seq<Write>, market: Market)
    ensures LegacySection(AfterWrites(settings, writes), market)
         == match LastWrite(writes, Kis, market)
            case None => LegacySection(settings, market)
            case Some(balances) => Stamped(balances, market)
  {
    if writes != [] {
      hide LegacySection, AfterWrite;
      var before := writes[..|writes| - 1];
      LegacyMirrorsKis(settings, before, market);
      LegacyAfterWrite(AfterWrites(settings, before), writes[|writes| - 1], market);
    }
  }

  // ---------------------------------------------------------------------------
  // What is shown, item by item
  // ---------------------------------------------------------------------------

  /** `at` lists the places of a market's items, in order and without a gap. */
  predicate ListsMarket(items: seq<Item>, market: Market, at: seq<nat>) {
    && (forall a, b :: 0 <= a < b < |at| ==> at[a] < at[b])
    && (forall a :: 0 <= a < |at| ==> at[a] < |items| && items[at[a]].market == market)
    && (forall i: nat :: i < |items| && items[i].market == market ==> i in at)
  }

  lemma {:induction false} OfMarketExactly(items: seq<Item>, market: Market) returns (at: seq<nat>)
    ensures ListsMarket(items, market, at) && |OfMarket(items, market)| == |at|
    ensures forall a :: 0 <= a < |at| ==> at[a] < |items| && OfMarket(items, market)[a] == items[at[a]]
  {
    if items == [] {
      at := [];
    } else {
      hide ListsMarket;
      var n := |items| - 1;
      var before := OfMarketExactly(items[..n], market);
      at := before + if items[n].market == market then [n] else [];
      OneMorePlace(items, market, before);
    }
  }

  lemma OneMorePlace(items: seq<Item>, market: Market, before: seq<nat>)
    requires items != [] && ListsMarket(items[..|items| - 1], market, before)
    ensures ListsMarket(items, market, before + if items[|items| - 1].market == market then [|items| - 1] else [])
  {
    var n: nat := |items| - 1;
    var at := before + if items[n].market == market then [n] else [];
    forall i: nat | i < |items| && items[i].market == market
      ensures i in at
    {
      if i == n {
        assert at[|before|] == n;
      } else {
        assert i in before;
      }
    }
  }

  /**
   A market that was written shows one item per balance of the last write, in order, under its broker and
   market; one that was not shows the items it had, and a KIS market without a setting of its own those of
   the old setting.
   */
  lemma ShownItemByItem(settings: Settings, writes: seq<Write>, broker: Broker, market: Market) returns (at: seq<nat>)
    ensures var shown := Section(AfterWrites(settings, writes), broker, market);
            match LastWrite(writes, broker, market)
            case Some(balances) =>
              && |shown| == |balances|
              && forall i :: 0 <= i < |shown| ==> shown[i] == Item(Some(broker), market, balances[i])
            case None =>
              var items := if CacheKey(broker, market) in settings then settings[CacheKey(broker, market)]
                           else if broker == Kis && LEGACY_KEY in settings then settings[LEGACY_KEY] else [];
              && ListsMarket(items, market, at) && |shown| == |at|
              && forall a :: 0 <= a < |shown| ==> shown[a] == Item(Some(broker), market, items[at[a]].money)
  {
    hide OfMarket, AfterWrites, LastWrite, CacheKey, ListsMarket;
    CacheIsAMap(settings, writes, broker, market);
    var key := CacheKey(broker, market);
    var items := if key in settings then settings[key] else if broker == Kis then Saved(settings, LEGACY_KEY) else [];
    at := OfMarketExactly(items, market);
    OfMarketIsOfMarket(items, market);
  }
}
