/**
 The orders Korea Investment & Securities still lists as open: one complete read at home, one per
 exchange abroad, put together. A closed cancellation rests on an order being absent from this list.
 */
module OpenOrders {
  import opened Prelude
  import opened Text
  import opened Identity
  import opened Pagination
  import opened OrderHistory
  import opened TradeRecords
  import opened OrderMatcher
  import opened CancellationRecovery

  /** One row of either endpoint; `quantity` is what can still be filled. */
  datatype OpenRow = OpenRow(exchange: Field, orderNo: Field, stockCode: Field, side: Field, quantity: Field, other: bool)

  predicate IsNonemptyOpenRow(row: OpenRow) {
    || IsNonempty(row.exchange) || IsNonempty(row.orderNo) || IsNonempty(row.stockCode)
    || IsNonempty(row.side) || IsNonempty(row.quantity) || row.other
  }

  predicate IsOpen(row: OpenRow) {
    ParseInteger(row.quantity).Some? && ParseInteger(row.quantity).value > 0
  }

  /** The exchanges asked one after the other. */
  function Queried(market: Market): seq<string> {
    if market == Domestic then ["KRX"]
    else ["NASD", "NYSE", "AMEX", "SEHK", "SHAA", "SZAA", "TKSE", "HASE", "VNSE"]
  }

  predicate IsValidOpenRow(market: Market, queried: string, row: OpenRow) {
    && IsOpen(row)
    && NonemptyString(row.orderNo) != "" && NonemptyString(row.stockCode) != ""
    && NonemptyString(row.side) in {"01", "02"}
    && (market == Overseas ==>
          var exchange := NonemptyString(row.exchange);
          (if exchange == "" then queried else Upper(exchange)) in OVERSEAS_EXCHANGES)
  }

  /** Blank rows and rows with nothing left are let through and dropped later. */
  predicate PassesOpenValidation(market: Market, queried: string, row: OpenRow) {
    IsNonemptyOpenRow(row) && ParseInteger(row.quantity) != Some(0) ==> IsValidOpenRow(market, queried, row)
  }

  /** A row without an exchange belongs to the one that was asked. */
  function ExchangeOf(row: OpenRow, queried: string): string {
    var exchange := Upper(KeyText(row.exchange));
    if exchange == "" then queried else exchange
  }

  function IdentityText(exchange: string, orderNo: string): string {
    exchange + "|" + orderNo
  }

  function OpenKey(market: Market, queried: string): OpenRow -> string {
    row => IdentityText(if market == Domestic then "KRX" else ExchangeOf(row, queried), KeyText(row.orderNo))
  }

  /** `fetchPage` throws on a page with an invalid row. */
  function Checked(market: Market, queried: string, server: KisServer<OpenRow>): KisServer<OpenRow> {
    c =>
      match server(c)
      case None => None
      case Some(page) =>
        if page.rows.Some? && exists row :: row in page.rows.value && !PassesOpenValidation(market, queried, row) then None
        else Some(page)
  }

  /** The rows of one complete read: the first of every identity. */
  ghost function CompleteOpenRows(market: Market, queried: string, server: KisServer<OpenRow>): Option<seq<OpenRow>> {
    if exists n :: 0 <= n < MAX_PAGES && KisEndsAt(Checked(market, queried, server), n) then
      var n :| 0 <= n < MAX_PAGES && KisEndsAt(Checked(market, queried, server), n);
      Some(FirstOccurrences(KisRows(Checked(market, queried, server), n + 1), OpenKey(market, queried)))
    else
      None
  }

  method ReadOpenRows(market: Market, queried: string, server: KisServer<OpenRow>)
    returns (result: Result<seq<OpenRow>, PageError>)
    ensures result.Ok? <==> CompleteOpenRows(market, queried, server).Some?
    ensures result.Ok? ==> Some(result.value) == CompleteOpenRows(market, queried, server)
  {
    hide KisEndsAt, KisRows, Checked, FirstOccurrences, RowsAt, IsCompleteRead;
    var read, _ := Paginate(Checked(market, queried, server), OpenKey(market, queried));
    result := read;
  }

  // ---------------------------------------------------------------------------
  // From rows to orders
  // ---------------------------------------------------------------------------

  function OpenOnly(rows: seq<OpenRow>): (open: seq<OpenRow>)
    ensures forall row :: row in open <==> row in rows && IsOpen(row)
  {
    if rows == [] then []
    else
      var last := rows[|rows| - 1];
      OpenOnly(rows[..|rows| - 1]) + if IsOpen(last) then [last] else []
  }

  function ToOpenOrder(market: Market, row: OpenRow): OpenOrder
    requires IsOpen(row)
  {
    OpenOrder(KeyText(row.orderNo), if market == Domestic then None else Some(Upper(KeyText(row.exchange))),
              KeyText(row.stockCode), if KeyText(row.side) == "01" then Sell else Buy, ParseInteger(row.quantity).value)
  }

  predicate AllOpen(rows: seq<OpenRow>) {
    forall row :: row in rows ==> IsOpen(row)
  }

  function ToOpenOrders(market: Market, rows: seq<OpenRow>): (orders: seq<OpenOrder>)
    requires AllOpen(rows)
    ensures |orders| == |rows| && forall i :: 0 <= i < |rows| ==> orders[i] == ToOpenOrder(market, rows[i])
  {
    seq(|rows|, i requires 0 <= i < |rows| => ToOpenOrder(market, rows[i]))
  }

  /** The row with its exchange filled in. */
  function Stamped(row: OpenRow, queried: string): OpenRow {
    row.(exchange := Text(ExchangeOf(row, queried)))
  }

  function StampedAll(rows: seq<OpenRow>, queried: string): (r: seq<OpenRow>)
    ensures |r| == |rows| && forall i :: 0 <= i < |rows| ==> r[i] == Stamped(rows[i], queried)
  {
    seq(|rows|, i requires 0 <= i < |rows| => Stamped(rows[i], queried))
  }

  /** What identifies an order once its exchange is filled in. */
  function OrderIdentity(row: OpenRow): string {
    IdentityText(Upper(KeyText(row.exchange)), KeyText(row.orderNo))
  }

  /** The broker's endpoint, by the exchange asked for. */
  type OpenEndpoint = string -> KisServer<OpenRow>

  /** The rows of the first `k` exchanges, if all could be read. */
  ghost function OverseasRows(endpoint: OpenEndpoint, k: nat): Option<seq<OpenRow>>
    requires k <= |Queried(Overseas)|
  {
    if k == 0 then Some([])
    else
      var queried := Queried(Overseas)[k - 1];
      var before, rows := OverseasRows(endpoint, k - 1), CompleteOpenRows(Overseas, queried, endpoint(queried));
      if before.None? || rows.None? then None else Some(before.value + StampedAll(rows.value, queried))
  }

  /** The rows that become orders. */
  ghost function ListedRows(market: Market, endpoint: OpenEndpoint): (rows: Option<seq<OpenRow>>)
    ensures rows.Some? ==> AllOpen(rows.value)
  {
    if market == Domestic then
      var rows := CompleteOpenRows(Domestic, "KRX", endpoint("KRX"));
      if rows.None? then None else Some(OpenOnly(rows.value))
    else
      var rows := OverseasRows(endpoint, |Queried(Overseas)|);
      if rows.None? then None
      else
        FirstOccurrencesKeepEveryKey(OpenOnly(rows.value), OrderIdentity);
        Some(FirstOccurrences(OpenOnly(rows.value), OrderIdentity))
  }

  method GetDomesticUnfilledOrders(endpoint: OpenEndpoint) returns (result: Result<seq<OpenOrder>, PageError>)
    ensures result.Ok? <==> ListedRows(Domestic, endpoint).Some?
    ensures result.Ok? ==> result.value == ToOpenOrders(Domestic, ListedRows(Domestic, endpoint).value)
  {
    hide CompleteOpenRows, IsOpen;
    var read := ReadOpenRows(Domestic, "KRX", endpoint("KRX"));
    match read {
      case Err(error) => result := Err(error);
      case Ok(rows) => result := Ok(ToOpenOrders(Domestic, OpenOnly(rows)));
    }
  }

  lemma OverseasFailsEarly(endpoint: OpenEndpoint, k: nat, m: nat)
    requires k <= m <= |Queried(Overseas)| && OverseasRows(endpoint, k).None?
    ensures OverseasRows(endpoint, m).None?
  {
    if k < m {
      OverseasFailsEarly(endpoint, k, m - 1);
    }
  }

  method ReadOverseasRows(endpoint: OpenEndpoint) returns (result: Result<seq<OpenRow>, PageError>)
    ensures result.Ok? <==> OverseasRows(endpoint, |Queried(Overseas)|).Some?
    ensures result.Ok? ==> Some(result.value) == OverseasRows(endpoint, |Queried(Overseas)|)
  {
    hide CompleteOpenRows;
    var exchanges := Queried(Overseas);
    var rows: seq<OpenRow> := [];
    for k := 0 to |exchanges|
      invariant OverseasRows(endpoint, k) == Some(rows)
    {
      var read := ReadOpenRows(Overseas, exchanges[k], endpoint(exchanges[k]));
      if read.Err? {
        OverseasFailsEarly(endpoint, k + 1, |exchanges|);
        return Err(read.error);
      }
      rows := rows + StampedAll(read.value, exchanges[k]);
    }
    result := Ok(rows);
  }

  lemma NothingOpen()
    ensures OpenOnly([]) == []
    ensures FirstOccurrences([], OrderIdentity) == [] && KeysOf([], OrderIdentity) == {}
  {
  }

  lemma OpenOnlyStep(rows: seq<OpenRow>, i: nat)
    requires i < |rows|
    ensures OpenOnly(rows[..i + 1]) == OpenOnly(rows[..i]) + if IsOpen(rows[i]) then [rows[i]] else []
  {
    assert rows[..i + 1][..i] == rows[..i];
  }

  method GetOverseasUnfilledOrders(endpoint: OpenEndpoint) returns (result: Result<seq<OpenOrder>, PageError>)
    ensures result.Ok? <==> ListedRows(Overseas, endpoint).Some?
    ensures result.Ok? ==> result.value == ToOpenOrders(Overseas, ListedRows(Overseas, endpoint).value)
  {
    hide OverseasRows, FirstOccurrences, KeysOf, OpenOnly, OrderIdentity, IsOpen;
    var read := ReadOverseasRows(endpoint);
    if read.Err? { return Err(read.error); }
    var rows := read.value;
    var orders: seq<OpenOrder>, identities: set<string> := [], {};
    ghost var kept: seq<OpenRow> := [];
    NothingOpen();
    for i := 0 to |rows|
      invariant kept == FirstOccurrences(OpenOnly(rows[..i]), OrderIdentity) && AllOpen(kept)
      invariant identities == KeysOf(OpenOnly(rows[..i]), OrderIdentity)
      invariant orders == ToOpenOrders(Overseas, kept)
    {
      ghost var before := OpenOnly(rows[..i]);
      OpenOnlyStep(rows, i);
      if !IsOpen(rows[i]) {
        assert before + [] == before;
        continue;
      }
      FirstOccurrencesAppend(before, rows[i], OrderIdentity);
      KeysOfAppend(before, rows[i], OrderIdentity);
      var identity := OrderIdentity(rows[i]);
      if identity !in identities {
        identities := identities + {identity};
        orders := orders + [ToOpenOrder(Overseas, rows[i])];
        kept := kept + [rows[i]];
      } else {
        assert kept + [] == kept;
        assert identities + {identity} == identities;
      }
    }
    assert rows[..|rows|] == rows;
    result := Ok(orders);
  }

  method GetUnfilledOrders(market: Market, endpoint: OpenEndpoint) returns (result: Result<seq<OpenOrder>, PageError>)
    ensures result.Ok? <==> ListedRows(market, endpoint).Some?
    ensures result.Ok? ==> result.value == ToOpenOrders(market, ListedRows(market, endpoint).value)
  {
    if market == Domestic {
      result := GetDomesticUnfilledOrders(endpoint);
    } else {
      result := GetOverseasUnfilledOrders(endpoint);
    }
  }

  // ---------------------------------------------------------------------------
  // What the list contains
  // ---------------------------------------------------------------------------

  lemma UpperKeepsTrimmed(s: string)
    requires IsTrimmed(s)
    ensures IsTrimmed(Upper(s))
  {
  }

  lemma NumbersAreTrimmed(n: int)
    ensures IsTrimmed(DecimalInt(n))
  {
    var s := DecimalInt(n);
    var digits := Decimal(if n < 0 then -n else n);
    assert IsDigit(digits[0]) && IsDigit(digits[|digits| - 1]);
    assert s[|s| - 1] == digits[|digits| - 1];
  }

  lemma KeyTextIsTrimmed(field: Field)
    ensures IsTrimmed(KeyText(field))
  {
    hide Trim, DecimalInt;
    match field {
      case Text(t) => TrimTrims(t);
      case Whole(n) => NumbersAreTrimmed(n);
      case _ =>
    }
  }

  lemma ExchangeNamesAreUpper(queried: string)
    requires queried in Queried(Overseas)
    ensures IsTrimmed(queried) && Upper(queried) == queried
  {
    assert forall i :: 0 <= i < |queried| ==> 'A' <= queried[i] <= 'Z';
  }

  /** Filling in the exchange does not change what the row is identified by. */
  lemma StampingKeepsIdentity(row: OpenRow, queried: string)
    requires queried in Queried(Overseas)
    ensures Upper(KeyText(Stamped(row, queried).exchange)) == ExchangeOf(row, queried)
    ensures OrderIdentity(Stamped(row, queried)) == OpenKey(Overseas, queried)(row)
  {
    hide Trim, Upper, IsTrimmed, Queried;
    var text := KeyText(row.exchange);
    KeyTextIsTrimmed(row.exchange);
    UpperKeepsTrimmed(text);
    TrimOfTrimmed(Upper(text));
    UpperTwice(text);
    ExchangeNamesAreUpper(queried);
    TrimOfTrimmed(queried);
  }

  /** A row the broker returns first for its identity, when asked for this exchange. */
  ghost predicate IsListed(market: Market, endpoint: OpenEndpoint, queried: string, row: OpenRow) {
    && queried in Queried(market)
    && CompleteOpenRows(market, queried, endpoint(queried)).Some?
    && row in CompleteOpenRows(market, queried, endpoint(queried)).value
  }

  /** The row as it reaches the list. */
  function Filled(market: Market, row: OpenRow, queried: string): OpenRow {
    if market == Domestic then row else Stamped(row, queried)
  }

  function IdentityOf(market: Market, row: OpenRow, queried: string): string {
    OpenKey(market, queried)(row)
  }

  lemma DomesticIsOne()
    ensures Queried(Domestic) == ["KRX"]
  {
  }

  lemma StampingKeepsOpen(row: OpenRow, queried: string)
    ensures IsOpen(Stamped(row, queried)) <==> IsOpen(row)
  {
  }

  /** One read lists no identity twice. */
  lemma ListedApart(market: Market, endpoint: OpenEndpoint, queried: string, i: nat, j: nat)
    requires CompleteOpenRows(market, queried, endpoint(queried)).Some?
    requires i < j < |CompleteOpenRows(market, queried, endpoint(queried)).value|
    ensures var rows := CompleteOpenRows(market, queried, endpoint(queried)).value;
            IdentityOf(market, rows[i], queried) != IdentityOf(market, rows[j], queried)
  {
    hide Checked, KisRows, KisEndsAt, FirstOccurrences, OpenKey;
    var server := endpoint(queried);
    var n :| 0 <= n < MAX_PAGES && KisEndsAt(Checked(market, queried, server), n)
             && CompleteOpenRows(market, queried, server)
                == Some(FirstOccurrences(KisRows(Checked(market, queried, server), n + 1), OpenKey(market, queried)));
    FirstOccurrencesKeepEveryKey(KisRows(Checked(market, queried, server), n + 1), OpenKey(market, queried));
  }

  /** Two rows of one read with the same identity are one row. */
  lemma ListedOnce(market: Market, endpoint: OpenEndpoint, queried: string, a: OpenRow, b: OpenRow)
    requires IsListed(market, endpoint, queried, a) && IsListed(market, endpoint, queried, b)
    requires IdentityOf(market, a, queried) == IdentityOf(market, b, queried)
    ensures a == b
  {
    hide CompleteOpenRows, OpenKey;
    var rows := CompleteOpenRows(market, queried, endpoint(queried)).value;
    var i :| 0 <= i < |rows| && rows[i] == a;
    var j :| 0 <= j < |rows| && rows[j] == b;
    if i < j {
      ListedApart(market, endpoint, queried, i, j);
    } else if j < i {
      ListedApart(market, endpoint, queried, j, i);
    }
  }

  /**
   An open row the `i`-th exchange lists first under its identity, when no exchange asked before lists an
   open row of that identity.
   */
  ghost predicate IsKept(market: Market, endpoint: OpenEndpoint, i: nat, listed: OpenRow) {
    && i < |Queried(market)|
    && IsListed(market, endpoint, Queried(market)[i], listed) && IsOpen(listed)
    && forall j: nat, other :: j < i && IsListed(market, endpoint, Queried(market)[j], other) && IsOpen(other) ==>
         IdentityOf(market, other, Queried(market)[j]) != IdentityOf(market, listed, Queried(market)[i])
  }

  lemma {:induction false} OpenOnlyConcat(a: seq<OpenRow>, b: seq<OpenRow>)
    ensures OpenOnly(a + b) == OpenOnly(a) + OpenOnly(b)
  {
    hide IsOpen, OpenOnly;
    if b == [] {
      NothingOpen();
      assert a + b == a && OpenOnly(a) + [] == OpenOnly(a);
    } else {
      var before, last := b[..|b| - 1], b[|b| - 1];
      OpenOnlyConcat(a, before);
      OpenOnlyAppend(b, before, last);
      OpenOnlyAppend(a + b, a + before, last);
    }
  }

  lemma OpenOnlyAppend(rows: seq<OpenRow>, before: seq<OpenRow>, last: OpenRow)
    requires rows == before + [last]
    ensures OpenOnly(rows) == OpenOnly(before) + if IsOpen(last) then [last] else []
  {
    hide IsOpen;
    assert rows[..|rows| - 1] == before;
  }

  lemma {:induction false} OpenOnlyKeepsDistinct(rows: seq<OpenRow>, key: OpenRow -> string)
    requires forall i, j :: 0 <= i < j < |rows| ==> key(rows[i]) != key(rows[j])
    ensures forall i, j :: 0 <= i < j < |OpenOnly(rows)| ==> key(OpenOnly(rows)[i]) != key(OpenOnly(rows)[j])
  {
    if rows != [] {
      hide IsOpen;
      var before, last := rows[..|rows| - 1], rows[|rows| - 1];
      OpenOnlyKeepsDistinct(before, key);
      var open := OpenOnly(before);
      assert OpenOnly(rows) == if IsOpen(last) then open + [last] else open;
      forall i | 0 <= i < |open|
        ensures key(open[i]) != key(last)
      {
        assert open[i] in open;
        var k :| 0 <= k < |before| && before[k] == open[i];
        assert rows[k] == before[k];
      }
    }
  }

  /** The open rows one exchange contributes, once each. */
  lemma ExchangeContributes(endpoint: OpenEndpoint, queried: string, row: OpenRow)
    requires queried in Queried(Overseas) && CompleteOpenRows(Overseas, queried, endpoint(queried)).Some?
    ensures var open := OpenOnly(StampedAll(CompleteOpenRows(Overseas, queried, endpoint(queried)).value, queried));
            && FirstOccurrences(open, OrderIdentity) == open
            && (row in open <==> exists listed :: IsListed(Overseas, endpoint, queried, listed) && IsOpen(listed)
                                                  && row == Stamped(listed, queried))
  {
    hide CompleteOpenRows, IsOpen, Stamped, OrderIdentity, OpenKey, FirstOccurrences, Queried;
    var rows := CompleteOpenRows(Overseas, queried, endpoint(queried)).value;
    var stamped := StampedAll(rows, queried);
    forall i, j | 0 <= i < j < |stamped|
      ensures OrderIdentity(stamped[i]) != OrderIdentity(stamped[j])
    {
      StampingKeepsIdentity(rows[i], queried);
      StampingKeepsIdentity(rows[j], queried);
      ListedApart(Overseas, endpoint, queried, i, j);
    }
    OpenOnlyKeepsDistinct(stamped, OrderIdentity);
    DistinctRowsAreKept(OpenOnly(stamped), OrderIdentity);
    if row in OpenOnly(stamped) {
      var i :| 0 <= i < |stamped| && stamped[i] == row;
      StampingKeepsOpen(rows[i], queried);
      assert IsListed(Overseas, endpoint, queried, rows[i]);
    }
    if listed :| IsListed(Overseas, endpoint, queried, listed) && IsOpen(listed) && row == Stamped(listed, queried) {
      var i :| 0 <= i < |rows| && rows[i] == listed;
      StampingKeepsOpen(listed, queried);
      assert stamped[i] in stamped;
    }
  }

  /** The identity is new to the first `k` exchanges. */
  ghost predicate NewTo(endpoint: OpenEndpoint, k: nat, identity: string) {
    forall j: nat, other ::
      j < k && j < |Queried(Overseas)| && IsListed(Overseas, endpoint, Queried(Overseas)[j], other) && IsOpen(other) ==>
        IdentityOf(Overseas, other, Queried(Overseas)[j]) != identity
  }

  lemma {:induction false} NewIdentities(endpoint: OpenEndpoint, k: nat, identity: string)
    requires k <= |Queried(Overseas)| && OverseasRows(endpoint, k).Some?
    ensures identity in KeysOf(OpenOnly(OverseasRows(endpoint, k).value), OrderIdentity) <==> !NewTo(endpoint, k, identity)
  {
    hide CompleteOpenRows, IsOpen, Stamped, OrderIdentity, OpenKey, IsListed, KeysOf, NewTo;
    if k == 0 {
      NothingOpen();
      NewToNone(endpoint, identity);
    } else {
      var queried := Queried(Overseas)[k - 1];
      NewIdentities(endpoint, k - 1, identity);
      var before := OverseasRows(endpoint, k - 1).value;
      var stamped := StampedAll(CompleteOpenRows(Overseas, queried, endpoint(queried)).value, queried);
      OpenOnlyConcat(before, stamped);
      KeysOfConcat(OpenOnly(before), OpenOnly(stamped), OrderIdentity);
      ContributedIdentities(endpoint, queried, identity);
      NewToOneMore(endpoint, k, identity);
    }
  }

  lemma NewToNone(endpoint: OpenEndpoint, identity: string)
    ensures NewTo(endpoint, 0, identity)
  {
  }

  /** Some open row of this exchange has the identity. */
  ghost predicate ListsOpen(endpoint: OpenEndpoint, queried: string, identity: string) {
    exists listed :: IsListed(Overseas, endpoint, queried, listed) && IsOpen(listed)
                     && IdentityOf(Overseas, listed, queried) == identity
  }

  lemma NewToOneMore(endpoint: OpenEndpoint, k: nat, identity: string)
    requires 0 < k <= |Queried(Overseas)|
    ensures NewTo(endpoint, k, identity)
       <==> NewTo(endpoint, k - 1, identity) && !ListsOpen(endpoint, Queried(Overseas)[k - 1], identity)
  {
    hide IsListed, IsOpen, OpenKey, Queried;
  }

  lemma ContributedIdentities(endpoint: OpenEndpoint, queried: string, identity: string)
    requires queried in Queried(Overseas) && CompleteOpenRows(Overseas, queried, endpoint(queried)).Some?
    ensures identity in KeysOf(OpenOnly(StampedAll(CompleteOpenRows(Overseas, queried, endpoint(queried)).value, queried)), OrderIdentity)
       <==> ListsOpen(endpoint, queried, identity)
  {
    hide CompleteOpenRows, IsOpen, Stamped, OrderIdentity, OpenKey, IsListed, Queried;
    var open := OpenOnly(StampedAll(CompleteOpenRows(Overseas, queried, endpoint(queried)).value, queried));
    if identity in KeysOf(open, OrderIdentity) {
      var a :| 0 <= a < |open| && OrderIdentity(open[a]) == identity;
      ExchangeContributes(endpoint, queried, open[a]);
      var listed :| IsListed(Overseas, endpoint, queried, listed) && IsOpen(listed) && open[a] == Stamped(listed, queried);
      StampingKeepsIdentity(listed, queried);
    }
    if listed :| IsListed(Overseas, endpoint, queried, listed) && IsOpen(listed)
                 && IdentityOf(Overseas, listed, queried) == identity {
      ExchangeContributes(endpoint, queried, Stamped(listed, queried));
      StampingKeepsIdentity(listed, queried);
      var a :| 0 <= a < |open| && open[a] == Stamped(listed, queried);
      KeyOfRow(open, OrderIdentity, a);
    }
  }

  /** The row stands for what some of the first `k` exchanges contributes to the list. */
  ghost predicate IsContribution(endpoint: OpenEndpoint, k: nat, row: OpenRow) {
    exists i: nat, listed :: i < k && IsKept(Overseas, endpoint, i, listed) && row == Stamped(listed, Queried(Overseas)[i])
  }

  lemma {:induction false} KeptRowsAreContributions(endpoint: OpenEndpoint, k: nat, row: OpenRow)
    requires k <= |Queried(Overseas)| && OverseasRows(endpoint, k).Some?
    ensures row in FirstOccurrences(OpenOnly(OverseasRows(endpoint, k).value), OrderIdentity) <==> IsContribution(endpoint, k, row)
  {
    hide CompleteOpenRows, IsOpen, ExchangeOf, KeyText, Stamped, OrderIdentity, OpenKey, IsListed, FirstOccurrences, KeysOf;
    if k == 0 {
      NothingOpen();
    } else {
      var queried := Queried(Overseas)[k - 1];
      KeptRowsAreContributions(endpoint, k - 1, row);
      var before := OverseasRows(endpoint, k - 1).value;
      var stamped := StampedAll(CompleteOpenRows(Overseas, queried, endpoint(queried)).value, queried);
      OpenOnlyConcat(before, stamped);
      ExchangeContributes(endpoint, queried, row);
      FirstOccurrencesConcat(OpenOnly(before), OpenOnly(stamped), OrderIdentity, row);
      NewIdentities(endpoint, k - 1, OrderIdentity(row));
      LastContribution(endpoint, k, row);
    }
  }

  lemma LastContribution(endpoint: OpenEndpoint, k: nat, row: OpenRow)
    requires 0 < k <= |Queried(Overseas)|
    ensures IsContribution(endpoint, k, row)
       <==> || IsContribution(endpoint, k - 1, row)
            || (NewTo(endpoint, k - 1, OrderIdentity(row))
                && exists listed :: IsListed(Overseas, endpoint, Queried(Overseas)[k - 1], listed) && IsOpen(listed)
                                    && row == Stamped(listed, Queried(Overseas)[k - 1]))
  {
    hide IsOpen, Stamped, OrderIdentity, OpenKey, IsListed, Queried;
    var queried := Queried(Overseas)[k - 1];
    if listed :| IsListed(Overseas, endpoint, queried, listed) && IsOpen(listed) && row == Stamped(listed, queried) {
      StampingKeepsIdentity(listed, queried);
      if NewTo(endpoint, k - 1, OrderIdentity(row)) {
        assert IsKept(Overseas, endpoint, k - 1, listed);
      }
    }
    if i: nat, kept :| i < k && IsKept(Overseas, endpoint, i, kept) && row == Stamped(kept, Queried(Overseas)[i]) {
      StampingKeepsIdentity(kept, Queried(Overseas)[i]);
      if i == k - 1 {
        assert NewTo(endpoint, k - 1, OrderIdentity(row));
      }
    }
  }

  /** The list row by row: exactly the open rows of the first exchange that lists their identity as open. */
  lemma ListIsExactly(market: Market, endpoint: OpenEndpoint, row: OpenRow)
    requires ListedRows(market, endpoint).Some?
    ensures row in ListedRows(market, endpoint).value
       <==> exists i: nat, listed :: IsKept(market, endpoint, i, listed) && row == Filled(market, listed, Queried(market)[i])
  {
    hide CompleteOpenRows, IsOpen, ExchangeOf, KeyText, Stamped, OrderIdentity, OpenKey, OverseasRows, FirstOccurrences;
    if market == Domestic {
      if row in ListedRows(market, endpoint).value {
        assert IsKept(market, endpoint, 0, row);
      }
    } else {
      hide IsListed;
      KeptRowsAreContributions(endpoint, |Queried(Overseas)|, row);
      if i: nat, listed :| IsKept(market, endpoint, i, listed) && row == Filled(market, listed, Queried(market)[i]) {
        assert i < |Queried(Overseas)|;
      }
    }
  }

  /** Every open row the broker returned is on the list, or another open row of its identity is. */
  lemma IdentityIsOnTheList(market: Market, endpoint: OpenEndpoint, queried: string, listed: OpenRow)
    returns (queried': string, listed': OpenRow)
    requires ListedRows(market, endpoint).Some?
    requires IsListed(market, endpoint, queried, listed) && IsOpen(listed)
    ensures IsListed(market, endpoint, queried', listed') && IsOpen(listed')
    ensures IdentityOf(market, listed', queried') == IdentityOf(market, listed, queried)
    ensures Filled(market, listed', queried') in ListedRows(market, endpoint).value
  {
    if market == Domestic {
      hide CompleteOpenRows, IsOpen, OpenKey, Queried;
      DomesticIsOne();
      queried', listed' := queried, listed;
    } else {
      hide CompleteOpenRows, IsOpen, OverseasRows, FirstOccurrences, ExchangeOf, KeyText, Stamped, OrderIdentity, OpenKey, IsListed;
      var identity := IdentityOf(Overseas, listed, queried);
      var i: nat :| i < |Queried(Overseas)| && Queried(Overseas)[i] == queried by { ListedWasQueried(endpoint, queried, listed); }
      assert !NewTo(endpoint, |Queried(Overseas)|, identity);
      NewIdentities(endpoint, |Queried(Overseas)|, identity);
      var open := OpenOnly(OverseasRows(endpoint, |Queried(Overseas)|).value);
      var kept := FirstOccurrences(open, OrderIdentity);
      FirstOccurrencesKeepEveryKey(open, OrderIdentity);
      var a :| 0 <= a < |kept| && OrderIdentity(kept[a]) == identity;
      ListIsExactly(market, endpoint, kept[a]);
      var i': nat, found :| IsKept(market, endpoint, i', found) && kept[a] == Filled(market, found, Queried(market)[i']);
      queried', listed' := Queried(market)[i'], found;
      StampingKeepsIdentity(found, queried');
    }
  }

  lemma ListedWasQueried(endpoint: OpenEndpoint, queried: string, listed: OpenRow)
    requires IsListed(Overseas, endpoint, queried, listed)
    ensures queried in Queried(Overseas)
  {
    hide Queried, CompleteOpenRows;
  }

  /** The `i`-th row of the broker's `n + 1` pages for an exchange is this row, the first of its identity. */
  predicate ListsFirstAt(market: Market, endpoint: OpenEndpoint, queried: string, row: OpenRow, n: nat, i: nat) {
    var served := Checked(market, queried, endpoint(queried));
    && n < MAX_PAGES && KisEndsAt(served, n)
    && i < |KisRows(served, n + 1)| && KisRows(served, n + 1)[i] == row
    && IsFirst(KisRows(served, n + 1), OpenKey(market, queried), i)
  }

  /** The broker's pages for an exchange list this row before any other of its identity. */
  ghost predicate BrokerLists(market: Market, endpoint: OpenEndpoint, queried: string, row: OpenRow) {
    queried in Queried(market) && exists n: nat, i: nat :: ListsFirstAt(market, endpoint, queried, row, n, i)
  }

  /** What is returned are exactly the first rows of their identities. */
  lemma ListedExactlyWhen(market: Market, endpoint: OpenEndpoint, queried: string, row: OpenRow)
    ensures IsListed(market, endpoint, queried, row) <==> BrokerLists(market, endpoint, queried, row)
  {
    hide Checked, KisRows, KisEndsAt, FirstOccurrences, OpenKey, IsFirst, Queried;
    var served, key := Checked(market, queried, endpoint(queried)), OpenKey(market, queried);
    if BrokerLists(market, endpoint, queried, row) {
      var n: nat, i: nat :| ListsFirstAt(market, endpoint, queried, row, n, i);
      KisEndsOnce(served, n);
      FirstOccurrenceOf(KisRows(served, n + 1), key, i);
    }
    if IsListed(market, endpoint, queried, row) {
      var n :| 0 <= n < MAX_PAGES && KisEndsAt(served, n);
      KisEndsOnce(served, n);
      var all := KisRows(served, n + 1);
      var kept := FirstOccurrences(all, key);
      var at := FirstOccurrencesAreExact(all, key);
      var a :| 0 <= a < |kept| && kept[a] == row;
      InRange(all, key, at);
      assert ListsFirstAt(market, endpoint, queried, row, n, at[a]);
    }
  }

  /** What a row of the list is identified by. */
  function ListIdentity(market: Market, row: OpenRow): string {
    if market == Domestic then IdentityText("KRX", KeyText(row.orderNo)) else OrderIdentity(row)
  }

  lemma FilledIdentity(market: Market, row: OpenRow, queried: string)
    requires queried in Queried(market)
    ensures ListIdentity(market, Filled(market, row, queried)) == IdentityOf(market, row, queried)
  {
    hide KeyText, ExchangeOf;
    if market == Overseas {
      StampingKeepsIdentity(row, queried);
    }
  }

  /** An order is on the list exactly when some exchange's pages list an open row first under its identity. */
  lemma OnTheListExactlyWhen(market: Market, endpoint: OpenEndpoint, identity: string)
    requires ListedRows(market, endpoint).Some?
    ensures (exists row :: row in ListedRows(market, endpoint).value && ListIdentity(market, row) == identity)
       <==> (exists queried, first :: BrokerLists(market, endpoint, queried, first) && IsOpen(first)
                                      && IdentityOf(market, first, queried) == identity)
  {
    hide ListedRows, IsOpen, IdentityOf, ListIdentity, Filled, Checked, ListsFirstAt, CompleteOpenRows, Queried;
    if row :| row in ListedRows(market, endpoint).value && ListIdentity(market, row) == identity {
      ListIsExactly(market, endpoint, row);
      var i: nat, listed :| IsKept(market, endpoint, i, listed) && row == Filled(market, listed, Queried(market)[i]);
      var queried := Queried(market)[i];
      FilledIdentity(market, listed, queried);
      ListedExactlyWhen(market, endpoint, queried, listed);
    }
    if queried, first :| BrokerLists(market, endpoint, queried, first) && IsOpen(first)
                         && IdentityOf(market, first, queried) == identity {
      ListedExactlyWhen(market, endpoint, queried, first);
      var queried', listed' := IdentityIsOnTheList(market, endpoint, queried, first);
      FilledIdentity(market, listed', queried');
    }
  }

  // ---------------------------------------------------------------------------
  // No open order is closed
  // ---------------------------------------------------------------------------

  /**
   Exactly when an inspection sees the record's order as open: some exchange's pages list it first under
   its identity, and no exchange asked before lists another open row of that identity.
   */
  lemma OpenOrderIsSeenExactlyWhen(instrument: Instrument, row: Row, endpoint: OpenEndpoint)
    requires ListedRows(instrument.market, endpoint).Some?
    ensures (exists o :: o in ToOpenOrders(instrument.market, ListedRows(instrument.market, endpoint).value)
                         && IsOpenOrder(instrument, row, o))
       <==> (exists i: nat, listed :: IsKept(instrument.market, endpoint, i, listed)
                && IsOpenOrder(instrument, row, OrderListed(instrument.market, listed, Queried(instrument.market)[i])))
  {
    hide IsOpenOrder, IsOpen, ListedRows, Filled, IsListed, Queried, ToOpenOrder;
    var market := instrument.market;
    var rows := ListedRows(market, endpoint).value;
    var orders := ToOpenOrders(market, rows);
    if o :| o in orders && IsOpenOrder(instrument, row, o) {
      var k :| 0 <= k < |orders| && orders[k] == o;
      ListIsExactly(market, endpoint, rows[k]);
      var i: nat, listed :| IsKept(market, endpoint, i, listed) && rows[k] == Filled(market, listed, Queried(market)[i]);
      FilledStaysOpen(market, listed, Queried(market)[i]);
    }
    if i: nat, listed :| IsKept(market, endpoint, i, listed)
                         && IsOpenOrder(instrument, row, OrderListed(market, listed, Queried(market)[i])) {
      FilledStaysOpen(market, listed, Queried(market)[i]);
      var filled := Filled(market, listed, Queried(market)[i]);
      ListIsExactly(market, endpoint, filled);
      var k :| 0 <= k < |rows| && rows[k] == filled;
      assert orders[k] in orders;
    }
  }

  /** Open rows the broker lists under one identity, on whatever exchanges, are the same order as far as the record goes. */
  ghost predicate IdentitiesAreOpenOrders(instrument: Instrument, row: Row, endpoint: OpenEndpoint) {
    forall q, r, a, b ::
      IsListed(instrument.market, endpoint, q, a) && IsOpen(a) && IsListed(instrument.market, endpoint, r, b) && IsOpen(b)
      && IdentityOf(instrument.market, a, q) == IdentityOf(instrument.market, b, r) ==>
        (IsOpenOrder(instrument, row, OrderListed(instrument.market, a, q))
         <==> IsOpenOrder(instrument, row, OrderListed(instrument.market, b, r)))
  }

  /**
   End to end: if the broker lists the record's order as open, on whatever page of whatever exchange and
   under however many of them, and its lists can be read, no inspection judges the cancellation closable.
   */
  lemma AListedOrderIsNeverClosed(
    verdict: Verdict, instrument: Instrument, row: Row, executions: seq<Execution>,
    endpoint: OpenEndpoint, queried: string, listed: OpenRow)
    requires ListedRows(instrument.market, endpoint).Some? && IdentitiesAreOpenOrders(instrument, row, endpoint)
    requires BrokerLists(instrument.market, endpoint, queried, listed) && IsOpen(listed)
    requires IsOpenOrder(instrument, row, OrderListed(instrument.market, listed, queried))
    requires IsVerdict(verdict, instrument, row, executions,
                       ToOpenOrders(instrument.market, ListedRows(instrument.market, endpoint).value))
    ensures !verdict.Closable?
  {
    hide BrokerLists, IsListed, ListedRows, IsOpenOrder, MatchingExecutions, IsUnambiguous, IsOpen, Filled, IdentityOf,
      ToOpenOrder;
    var market := instrument.market;
    ListedExactlyWhen(market, endpoint, queried, listed);
    var q, twin := IdentityIsOnTheList(market, endpoint, queried, listed);
    var rows := ListedRows(market, endpoint).value;
    var orders := ToOpenOrders(market, rows);
    FilledStaysOpen(market, twin, q);
    var i :| 0 <= i < |rows| && rows[i] == Filled(market, twin, q);
    assert orders[i] in orders && orders[i] == OrderListed(market, twin, q);
  }

  lemma FilledStaysOpen(market: Market, listed: OpenRow, queried: string)
    requires IsOpen(listed)
    ensures IsOpen(Filled(market, listed, queried))
    ensures OrderListed(market, listed, queried) == ToOpenOrder(market, Filled(market, listed, queried))
  {
  }

  /** The order a row of the broker's list stands for. */
  function OrderListed(market: Market, listed: OpenRow, queried: string): OpenOrder
    requires IsOpen(listed)
  {
    ToOpenOrder(market, Filled(market, listed, queried))
  }

  // ---------------------------------------------------------------------------
  // Column by column
  // ---------------------------------------------------------------------------

  ghost predicate ShowsRest(row: OpenRow, rest: int) {
    Shows(row.quantity, rest) && rest > 0
  }

  lemma OpenExactlyWhen(row: OpenRow, rest: int)
    ensures IsOpen(row) && ParseInteger(row.quantity) == Some(rest) <==> ShowsRest(row, rest)
    ensures IsOpen(row) <==> exists n :: ShowsRest(row, n)
  {
    hide Shows, ParseInteger;
    ReadsExactlyWhatIsShown(row.quantity, rest);
    if ParseInteger(row.quantity).Some? {
      ReadsExactlyWhatIsShown(row.quantity, ParseInteger(row.quantity).value);
      assert IsOpen(row) ==> ShowsRest(row, ParseInteger(row.quantity).value);
    }
    if n :| ShowsRest(row, n) {
      ReadsExactlyWhatIsShown(row.quantity, n);
    }
  }

  /** The exchange a row is of: its own, or the one that was asked. */
  predicate HasKnownExchange(row: OpenRow, queried: string) {
    (if row.exchange.Text? && !IsBlank(row.exchange.text) then Upper(Trim(row.exchange.text)) else queried) in
      {"NASD", "NYSE", "AMEX", "SEHK", "SHAA", "SZAA", "TKSE", "HASE", "VNSE"}
  }

  /** A page is taken exactly when every row of it is blank, has nothing left, or shows an order that is open. */
  lemma PassesExactlyWhen(market: Market, queried: string, row: OpenRow)
    ensures PassesOpenValidation(market, queried, row)
       <==> || (IsEmptyColumn(row.exchange) && IsEmptyColumn(row.orderNo) && IsEmptyColumn(row.stockCode)
                && IsEmptyColumn(row.side) && IsEmptyColumn(row.quantity) && !row.other)
            || Shows(row.quantity, 0)
            || (&& (exists rest :: ShowsRest(row, rest)) && HasText(row.orderNo) && HasText(row.stockCode)
                && row.side.Text? && (Trim(row.side.text) == "01" || Trim(row.side.text) == "02")
                && (market == Overseas ==> HasKnownExchange(row, queried)))
  {
    hide Shows, IsOpen, ParseInteger, IsEmptyColumn, HasText, IsBlank, Trim, Upper, IsNonempty, ShowsRest;
    assert (exists rest :: ShowsRest(row, rest)) <==> IsOpen(row) by { OpenExactlyWhen(row, 0); }
    ReadsExactlyWhatIsShown(row.quantity, 0);
    EmptyOrNot(row.exchange);
    EmptyOrNot(row.orderNo);
    EmptyOrNot(row.stockCode);
    EmptyOrNot(row.side);
    EmptyOrNot(row.quantity);
    TextColumns(row.orderNo);
    TextColumns(row.stockCode);
    if row.exchange.Text? {
      BlankExactlyWhen(row.exchange.text);
    }
  }

  lemma PagesTakenExactlyWhen(market: Market, queried: string, server: KisServer<OpenRow>, c: KisCursor, page: KisPage<OpenRow>)
    ensures Checked(market, queried, server)(c) == Some(page)
       <==> && server(c) == Some(page)
            && (page.rows.Some? ==> forall row :: row in page.rows.value ==> PassesOpenValidation(market, queried, row))
  {
    hide PassesOpenValidation;
  }

  /** All nine foreign exchanges are asked, each once. */
  lemma EveryExchangeIsAsked(exchange: string)
    ensures exchange in Queried(Overseas)
       <==> exchange in {"NASD", "NYSE", "AMEX", "SEHK", "SHAA", "SZAA", "TKSE", "HASE", "VNSE"}
    ensures |Queried(Overseas)| == 9
  {
  }

  /** Rows whose columns are text, as an order's are; only the exchange may be missing. */
  predicate IsOrderRow(row: OpenRow) {
    row.orderNo.Text? && row.stockCode.Text? && row.side.Text? && (row.exchange.Missing? || row.exchange.Text?)
  }

  /** `exchange` is the one such a row is filed under. */
  function FiledExchange(market: Market, row: OpenRow, queried: string): string
    requires IsOrderRow(row)
  {
    if market == Domestic then "KRX"
    else if row.exchange.Missing? || IsBlank(row.exchange.text) then queried
    else Upper(Trim(row.exchange.text))
  }

  lemma FiledExactly(row: OpenRow, queried: string)
    requires IsOrderRow(row)
    ensures ExchangeOf(row, queried) == FiledExchange(Overseas, row, queried)
  {
    hide Trim, IsBlank;
    if row.exchange.Text? {
      BlankExactlyWhen(row.exchange.text);
      assert |Upper(Trim(row.exchange.text))| == |Trim(row.exchange.text)|;
    } else {
      assert Upper("") == "";
    }
  }

  /** Two rows of orders have one identity exactly when number and, abroad, exchange agree. */
  lemma OpenKeysIdentify(market: Market, queried: string, a: OpenRow, b: OpenRow)
    requires IsOrderRow(a) && IsOrderRow(b)
    requires |FiledExchange(market, a, queried)| == |FiledExchange(market, b, queried)|
    ensures OpenKey(market, queried)(a) == OpenKey(market, queried)(b)
       <==> FiledExchange(market, a, queried) == FiledExchange(market, b, queried) && Trim(a.orderNo.text) == Trim(b.orderNo.text)
  {
    hide Trim, ExchangeOf, IdentityText;
    FiledExactly(a, queried);
    FiledExactly(b, queried);
    var x, y := FiledExchange(market, a, queried), FiledExchange(market, b, queried);
    if IdentityText(x, Trim(a.orderNo.text)) == IdentityText(y, Trim(b.orderNo.text)) {
      TextsKeepParts(x, y, Trim(a.orderNo.text), Trim(b.orderNo.text));
    }
  }

  lemma TextsKeepParts(x: string, y: string, m: string, n: string)
    requires |x| == |y| && IdentityText(x, m) == IdentityText(y, n)
    ensures x == y && m == n
  {
    var s, t := IdentityText(x, m), IdentityText(y, n);
    assert s[..|x|] == x && t[..|x|] == y;
    assert s[|x| + 1..] == m && t[|x| + 1..] == n;
  }

  /**
   A row the broker lists is the rest of the record's order exactly when its columns say so: number,
   exchange, stock, side code, and something left that is no more than was ordered.
   */
  lemma RowIsTheRestExactlyWhen(instrument: Instrument, row: Row, listed: OpenRow, queried: string, rest: int)
    requires IsOrderRow(listed) && ShowsRest(listed, rest)
    requires Upper(Trim(FiledExchange(Overseas, listed, queried))) == FiledExchange(Overseas, listed, queried)
    ensures IsOpen(listed)
    ensures IsOpenOrder(instrument, row, OrderListed(instrument.market, listed, queried))
       <==> && row.orderNo.Some? && Trim(listed.orderNo.text) == Trim(row.orderNo.value)
            && (instrument.market == Overseas ==>
                  FiledExchange(Overseas, listed, queried) == Upper(Trim(instrument.exchangeCode)))
            && Upper(Trim(listed.stockCode.text)) == Upper(Trim(instrument.stockCode))
            && (Trim(listed.side.text) == "01" <==> instrument.side == Sell)
            && rest <= row.quantity
  {
    hide Shows, ParseInteger, IsBlank, Trim, Upper, ExchangeOf;
    OpenExactlyWhen(listed, rest);
    FiledExactly(listed, queried);
    TrimTrims(listed.orderNo.text);
    TrimTrims(listed.stockCode.text);
    var exchange := FiledExchange(Overseas, listed, queried);
    TrimTrims(exchange);
    UpperTwice(Trim(exchange));
    FiledCodeStays(exchange);
  }

  lemma FiledCodeStays(code: string)
    requires Upper(Trim(code)) == code
    ensures Trim(code) == code && Upper(code) == code
  {
    hide Trim;
    TrimTrims(code);
    assert |Upper(Trim(code))| == |Trim(code)|;
    TrimmedExactlyWhen(code, Trim(code));
    var before, after :| IsBlank(before) && IsBlank(after) && code == before + Trim(code) + after;
    assert |before| == 0 && |after| == 0;
  }

  /**
   The list is read whole, but only first rows count: a row with nothing left, listed before the open
   one of the same identity, takes the order off the list at home.
   */
  lemma OnlyFirstRowsCount(endpoint: OpenEndpoint, first: OpenRow)
    requires ListedRows(Domestic, endpoint).Some? && BrokerLists(Domestic, endpoint, "KRX", first)
    ensures (exists row :: row in ListedRows(Domestic, endpoint).value && KeyText(row.orderNo) == KeyText(first.orderNo))
       <==> IsOpen(first)
  {
    hide BrokerLists, IsOpen, KeyText, CompleteOpenRows, Queried;
    DomesticIsOne();
    var rows := CompleteOpenRows(Domestic, "KRX", endpoint("KRX")).value;
    ListedExactlyWhen(Domestic, endpoint, "KRX", first);
    if row :| row in ListedRows(Domestic, endpoint).value && KeyText(row.orderNo) == KeyText(first.orderNo) {
      assert IsListed(Domestic, endpoint, "KRX", row);
      ListedOnce(Domestic, endpoint, "KRX", row, first);
    }
  }
}
