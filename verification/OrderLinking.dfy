/**
 The operator's other two answers to a submission with an unknown outcome: "it became this broker
 order", which links the record to it, and "it is the order of that other record".
 */
module OrderLinking {
  import opened Prelude
  import opened Text
  import opened KstTimestamp
  import opened Identity
  import opened OrderHistory
  import opened OrderMatcher
  import opened TradeRecords
  import opened TradeRecordTable
  import opened OrderProtocol
  import opened OrderTheorems
  import opened OrderWrites
  import opened Collisions
  import opened NotSubmitted

  /** The broker order the operator names. */
  datatype Choice = Choice(orderDate: string, exchangeCode: string, orderNo: string)

  /** `normalizeIdentity`. */
  function NormalizeChoice(input: Choice): Option<Choice> {
    var date, exchange, orderNo := Trim(input.orderDate), Upper(Trim(input.exchangeCode)), Trim(input.orderNo);
    if |date| == 8 && AllDigits(date) && exchange != "" && orderNo != "" then Some(Choice(date, exchange, orderNo)) else None
  }

  /** What the operator typed names this order: a date of eight digits, an exchange and a number, trimmed. */
  predicate Names(input: Choice, choice: Choice) {
    && choice == Choice(Trim(input.orderDate), Upper(Trim(input.exchangeCode)), Trim(input.orderNo))
    && |choice.orderDate| == 8 && AllDigits(choice.orderDate)
    && !IsBlank(input.exchangeCode) && !IsBlank(input.orderNo)
  }

  lemma NamedExactlyWhen(input: Choice, choice: Choice)
    ensures NormalizeChoice(input) == Some(choice) <==> Names(input, choice)
  {
    hide Trim, AllDigits, IsBlank;
    BlankExactlyWhen(input.exchangeCode);
    BlankExactlyWhen(input.orderNo);
    assert |Upper(Trim(input.exchangeCode))| == |Trim(input.exchangeCode)|;
  }

  predicate IsChosen(candidate: Candidate, choice: Choice) {
    && candidate.orderDate == choice.orderDate
    && CandidateExchange(candidate) == choice.exchangeCode
    && CandidateOrderNo(candidate) == choice.orderNo
  }

  /** The first candidate the choice names, or the length of the list. */
  function Find(candidates: seq<Candidate>, choice: Choice): (i: nat)
    ensures i <= |candidates|
    ensures i < |candidates| ==> IsChosen(candidates[i], choice)
    ensures forall j :: 0 <= j < i ==> !IsChosen(candidates[j], choice)
  {
    if candidates == [] || IsChosen(candidates[0], choice) then 0 else 1 + Find(candidates[1..], choice)
  }

  /** The record under review, and what was read about it. */
  datatype Case = Case(id: RecordId, loaded: Row, instrument: Instrument, current: Context, later: Context)
  {
    function Request(): MatchRequest {
      ToMatchRequest(instrument, loaded)
    }

    function Asker(): Requester {
      Requester(id, loaded.broker, instrument.market, later.environment, later.accountHash)
    }

    /** The record is an unknown submission of the account in use before and after the broker was asked. */
    predicate MayReview() {
      && loaded.status == SubmissionUnknown && loaded.submissionStartedAt.Some?
      && IsAccountOf(Request(), current)
      && loaded.environment == Some(later.environment) && loaded.accountHash == Some(later.accountHash)
    }
  }

  /** Every candidate with the stored record it collides with, if any. */
  datatype Review = Review(candidates: seq<Candidate>, collisions: seq<Collision>)

  ghost function CandidatesOf(c: Case, endpoint: Endpoint): Option<seq<Candidate>>
    requires c.loaded.submissionStartedAt.Some?
  {
    var orders := WindowOrders(c.Request(), endpoint);
    if orders.None? then None
    else Some(FirstOccurrences(Normalized(orders.value, c.Request(), c.loaded.submissionStartedAt.value), CandidateKey))
  }

  /** What a complete read of the broker and a look at the stored records show. */
  ghost function ReviewOf(c: Case, endpoint: Endpoint, stored: seq<StoredRow>): Option<Review> {
    if !c.MayReview() then None
    else
      var candidates := CandidatesOf(c, endpoint);
      if candidates.None? then None
      else
        var collisions := AnnotateCandidateCollisions(stored, c.Asker(), candidates.value);
        if collisions.None? then None else Some(Review(candidates.value, collisions.value))
  }

  method ReviewSubmission(c: Case, endpoint: Endpoint, stored: seq<StoredRow>) returns (review: Option<Review>)
    ensures review == ReviewOf(c, endpoint, stored)
  {
    hide WindowOrders, IsAccountOf, FirstOccurrences, Normalized, AnnotateCandidateCollisions;
    if c.loaded.status != SubmissionUnknown { return None; }
    var candidates := FindSubmissionCandidates(c.Request(), c.current, endpoint);
    if candidates.Err? { return None; }
    if c.loaded.environment != Some(c.later.environment) || c.loaded.accountHash != Some(c.later.accountHash) { return None; }
    var collisions := AnnotateCandidateCollisions(stored, c.Asker(), candidates.value);
    review := if collisions.None? then None else Some(Review(candidates.value, collisions.value));
  }

  predicate CanLink(review: Review, choice: Choice) {
    var i := Find(review.candidates, choice);
    i < |review.candidates| && i < |review.collisions| && review.collisions[i] == NoCollision
  }

  predicate CanMatch(review: Review, choice: Choice, existing: RecordId) {
    var i := Find(review.candidates, choice);
    && i < |review.candidates| && i < |review.collisions|
    && (review.collisions[i] == Exact(existing) || review.collisions[i] == Legacy(existing))
  }

  // ---------------------------------------------------------------------------
  // The unique index of broker orders
  // ---------------------------------------------------------------------------

  /** The columns of the partial unique index are all present and equal; the index does not normalise. */
  predicate SameBrokerOrder(a: Row, i: Instrument, b: Row, j: Instrument) {
    && a.environment.Some? && a.environment == b.environment
    && a.accountHash.Some? && a.accountHash == b.accountHash
    && i.market == j.market && i.exchangeCode == j.exchangeCode
    && a.orderDate.Some? && a.orderDate == b.orderDate
    && a.orderNo.Some? && a.orderNo == b.orderNo
  }

  /** An entry of the index; a row with one of the columns missing has none. */
  datatype IndexEntry = IndexEntry(
    environment: Environment, accountHash: string, market: Market, exchangeCode: string, orderDate: string, orderNo: string)

  function EntryOf(row: Row, instrument: Instrument): Option<IndexEntry> {
    match (row.environment, row.accountHash, row.orderDate, row.orderNo)
    case (Some(environment), Some(hash), Some(date), Some(number)) =>
      Some(IndexEntry(environment, hash, instrument.market, instrument.exchangeCode, date, number))
    case _ => None
  }

  lemma SameOrderSameEntry(a: Row, i: Instrument, b: Row, j: Instrument)
    ensures SameBrokerOrder(a, i, b, j) <==> EntryOf(a, i).Some? && EntryOf(a, i) == EntryOf(b, j)
  {
  }

  predicate UniqueOrders(rows: map<RecordId, Row>, instruments: map<RecordId, Instrument>)
    requires rows.Keys <= instruments.Keys
  {
    forall x, y :: x in rows && y in rows && x != y ==> !SameBrokerOrder(rows[x], instruments[x], rows[y], instruments[y])
  }

  /** Storing `row` would break the index. */
  predicate Conflicts(rows: map<RecordId, Row>, instruments: map<RecordId, Instrument>, id: RecordId, row: Row)
    requires rows.Keys <= instruments.Keys && id in instruments
  {
    exists other :: other in rows && other != id && SameBrokerOrder(rows[other], instruments[other], row, instruments[id])
  }

  /** A write is refused by the index exactly when it would store one broker order twice. */
  lemma IndexKeepsOrdersUnique(rows: map<RecordId, Row>, instruments: map<RecordId, Instrument>, id: RecordId, row: Row)
    requires rows.Keys <= instruments.Keys && id in rows && UniqueOrders(rows, instruments)
    ensures UniqueOrders(rows[id := row], instruments) <==> !Conflicts(rows, instruments, id, row)
  {
    var after := rows[id := row];
    if Conflicts(rows, instruments, id, row) {
      var other :| other in rows && other != id && SameBrokerOrder(rows[other], instruments[other], row, instruments[id]);
      assert after[other] == rows[other] && after[id] == row;
    } else {
      forall x, y | x in after && y in after && x != y
        ensures !SameBrokerOrder(after[x], instruments[x], after[y], instruments[y])
      {
        if y == id {
          assert !SameBrokerOrder(rows[x], instruments[x], row, instruments[id]);
        } else if x == id {
          assert !SameBrokerOrder(rows[y], instruments[y], row, instruments[id]);
        }
      }
    }
  }

  // ---------------------------------------------------------------------------
  // The two operations
  // ---------------------------------------------------------------------------

  /** The change that links the record of `c` to a candidate. */
  function Linking(c: Case, row: Row, candidate: Candidate): Change {
    TradeRecords.LinkCandidate(c.id, row, c.loaded, candidate.orderNo, candidate.orderDate, candidate.orderTime)
  }

  /**
   The record becomes the chosen broker order's exactly when that order is still found and collides
   with no stored record, the guard still holds, and the index accepts it; otherwise nothing is written.
   */
  method LinkCandidate(
    table: Table, instruments: map<RecordId, Instrument>, c: Case, input: Choice, endpoint: Endpoint, stored: seq<StoredRow>)
    returns (linked: Option<Candidate>)
    requires table.rows.Keys <= instruments.Keys && c.id in instruments
    modifies table
    ensures linked.Some?
       <==> && NormalizeChoice(input).Some? && ReviewOf(c, endpoint, stored).Some?
            && CanLink(ReviewOf(c, endpoint, stored).value, NormalizeChoice(input).value)
            && c.id in old(table.rows)
            && var review := ReviewOf(c, endpoint, stored).value;
               var candidate := review.candidates[Find(review.candidates, NormalizeChoice(input).value)];
               var change := Linking(c, old(table.rows)[c.id], candidate);
               change.Commit? && !Conflicts(old(table.rows), instruments, c.id, change.row)
    ensures linked.Some? ==>
              var review := ReviewOf(c, endpoint, stored).value;
              linked.value == review.candidates[Find(review.candidates, NormalizeChoice(input).value)]
    ensures table.View() == if linked.Some? then
                              old(table.View()).UpdateMany(c.id, row => Linking(c, row, linked.value))
                            else old(table.View())
    ensures old(UniqueOrders(table.rows, instruments)) ==>
              table.rows.Keys <= instruments.Keys && UniqueOrders(table.rows, instruments)
  {
    hide ReviewOf, NormalizeChoice, SameBrokerOrder;
    var choice := NormalizeChoice(input);
    if choice.None? { return None; }
    var review := ReviewSubmission(c, endpoint, stored);
    if review.None? || !CanLink(review.value, choice.value) { return None; }
    if c.id !in table.rows { return None; }
    var candidate := review.value.candidates[Find(review.value.candidates, choice.value)];
    var change := Linking(c, table.rows[c.id], candidate);
    if change.NoChange? || Conflicts(table.rows, instruments, c.id, change.row) { return None; }
    if UniqueOrders(table.rows, instruments) {
      IndexKeepsOrdersUnique(table.rows, instruments, c.id, change.row);
    }
    var count := table.Apply(c.id, change);
    linked := Some(candidate);
  }

  /** The record is closed as failed exactly when the chosen order is found and collides with just that other record. */
  method ConfirmMatchesExisting(
    table: Table, c: Case, input: Choice, existingTradeRecordId: RecordId, endpoint: Endpoint, stored: seq<StoredRow>)
    returns (confirmed: bool)
    modifies table
    ensures confirmed
       <==> && NormalizeChoice(input).Some? && Trim(existingTradeRecordId) != "" && Trim(existingTradeRecordId) != c.id
            && ReviewOf(c, endpoint, stored).Some?
            && CanMatch(ReviewOf(c, endpoint, stored).value, NormalizeChoice(input).value, Trim(existingTradeRecordId))
            && c.id in old(table.rows)
            && ResolveSubmissionAsFailed(c.id, old(table.rows)[c.id], c.loaded, false).Commit?
    ensures table.View() == if confirmed then
                              old(table.View()).UpdateMany(c.id, row => ResolveSubmissionAsFailed(c.id, row, c.loaded, false))
                            else old(table.View())
  {
    hide ReviewOf, NormalizeChoice, CanMatch;
    var choice := NormalizeChoice(input);
    var existing := Trim(existingTradeRecordId);
    if choice.None? || existing == "" || existing == c.id { return false; }
    var review := ReviewSubmission(c, endpoint, stored);
    if review.None? || !CanMatch(review.value, choice.value, existing) { return false; }
    if c.id !in table.rows { return false; }
    var count := table.Apply(c.id, ResolveSubmissionAsFailed(c.id, table.rows[c.id], c.loaded, false));
    confirmed := count == 1;
  }

  // ---------------------------------------------------------------------------
  // What the answers mean
  // ---------------------------------------------------------------------------

  /**
   The broker's complete history of the window holds an order of the record: its exchange, stock, side
   and quantity, stamped within ten minutes of the start of the submission. The candidate holds the
   columns of that order.
   */
  ghost predicate IsBrokerOrderOf(c: Case, endpoint: Endpoint, candidate: Candidate) {
    var instrument, row := c.instrument, c.loaded;
    row.submissionStartedAt.Some? && WindowOrders(c.Request(), endpoint).Some? &&
    exists order ::
      && order in WindowOrders(c.Request(), endpoint).value
      && order.orderNo.Some? && order.orderDate.Some? && order.orderTime.Some?
      && candidate == Candidate(
           Trim(order.orderNo.value), Upper(Trim(instrument.stockCode)), instrument.side, row.quantity,
           order.filledQuantity, order.remainingQuantity,
           if instrument.market == Domestic then "KRX" else Upper(Trim(instrument.exchangeCode)),
           Trim(order.orderDate.value), Trim(order.orderTime.value))
      && candidate.orderNo != ""
      && order.side == instrument.side && order.orderQuantity == row.quantity
      && order.stockCode.Some? && Upper(Trim(order.stockCode.value)) == candidate.stockCode
      && (instrument.market == Overseas ==>
            order.exchangeCode.Some? && Upper(Trim(order.exchangeCode.value)) == candidate.exchangeCode)
      && var stamp := ParseKstTimestamp(candidate.orderDate, candidate.orderTime);
         stamp.Some? && -600_000 <= stamp.value - row.submissionStartedAt.value <= 600_000
  }

  lemma CandidatesAreBrokerOrders(c: Case, endpoint: Endpoint, order: BrokerOrder, candidate: Candidate)
    requires c.loaded.submissionStartedAt.Some? && WindowOrders(c.Request(), endpoint).Some?
    requires order in WindowOrders(c.Request(), endpoint).value
    requires NormalizeCandidate(order, c.Request(), c.loaded.submissionStartedAt.value) == Some(candidate)
    ensures IsBrokerOrderOf(c, endpoint, candidate)
  {
    hide WindowOrders, NormalizeCandidate, ParseKstTimestamp, Trim, Upper;
    MatchesExactlyWhenItFits(order, c.Request());
  }

  lemma ReviewedCandidates(c: Case, endpoint: Endpoint, stored: seq<StoredRow>, i: nat)
    requires ReviewOf(c, endpoint, stored).Some? && i < |ReviewOf(c, endpoint, stored).value.candidates|
    ensures IsBrokerOrderOf(c, endpoint, ReviewOf(c, endpoint, stored).value.candidates[i])
    ensures forall a :: a in ReviewOf(c, endpoint, stored).value.candidates ==> IsCalendarDate(a.orderDate) && IsTime(a.orderTime)
  {
    hide WindowOrders, NormalizeCandidate, FirstOccurrences, AnnotateCandidateCollisions, IsCalendarDate, IsTime, Normalized,
      IsBrokerOrderOf;
    var orders, submittedAt := WindowOrders(c.Request(), endpoint).value, c.loaded.submissionStartedAt.value;
    var candidates := ReviewOf(c, endpoint, stored).value.candidates;
    CandidatesHaveRealDates(orders, c.Request(), submittedAt);
    FirstOccurrencesKeepEveryKey(Normalized(orders, c.Request(), submittedAt), CandidateKey);
    NormalizedHas(orders, c.Request(), submittedAt);
    assert candidates[i] in candidates;
    var order :| order in orders && NormalizeCandidate(order, c.Request(), submittedAt) == Some(candidates[i]);
    CandidatesAreBrokerOrders(c, endpoint, order, candidates[i]);
  }

  /** The candidate is the named one in so many words, and its columns need no trimming. */
  lemma ChosenIsNamed(c: Case, endpoint: Endpoint, candidate: Candidate, choice: Choice)
    requires IsBrokerOrderOf(c, endpoint, candidate)
    ensures IsChosen(candidate, choice)
       <==> candidate.orderDate == choice.orderDate && candidate.exchangeCode == choice.exchangeCode
            && candidate.orderNo == choice.orderNo
  {
    hide WindowOrders, ParseKstTimestamp, Trim, Upper;
    assert CandidateOrderNo(candidate) == candidate.orderNo by {
      var order :| order in WindowOrders(c.Request(), endpoint).value && order.orderNo.Some?
                   && candidate.orderNo == Trim(order.orderNo.value);
      TrimTrims(order.orderNo.value);
    }
    assert CandidateExchange(candidate) == candidate.exchangeCode by {
      CodesStay(c.instrument.exchangeCode);
      assert Trim("KRX") == "KRX" && Upper("KRX") == "KRX" by { HomeStays(); }
    }
  }

  lemma HomeStays()
    ensures Trim("KRX") == "KRX" && Upper("KRX") == "KRX"
  {
  }

  lemma UpperIsTrimmed(s: string)
    requires IsTrimmed(s)
    ensures IsTrimmed(Upper(s))
  {
  }

  lemma CodesStay(code: string)
    ensures Upper(Trim(Upper(Trim(code)))) == Upper(Trim(code))
  {
    hide Trim;
    TrimTrims(code);
    UpperIsTrimmed(Trim(code));
    assert Trim(Upper(Trim(code))) == Upper(Trim(code)) by { TrimOfTrimmed(Upper(Trim(code))); }
  }

  /** What a link stores: the number and date the operator named, and the broker's time, if the record is still lost. */
  lemma LinkStoresTheNamedOrder(c: Case, endpoint: Endpoint, row: Row, candidate: Candidate, input: Choice)
    requires IsBrokerOrderOf(c, endpoint, candidate)
    requires NormalizeChoice(input).Some? && IsChosen(candidate, NormalizeChoice(input).value)
    ensures Writes(Linking(c, row, candidate),
                   StageOf(row) == Lost && Agrees(row, c.loaded, {BrokerOf, AccountOf}),
                   row.(status := Pending, orderNo := Some(Trim(input.orderNo)), orderDate := Some(Trim(input.orderDate)),
                        orderTime := Some(candidate.orderTime), resolution := Some(LinkedBrokerOrder)),
                   [AuditEntry(c.id, BrokerOrderLinked, Operator, Some(SubmissionUnknown), Some(Pending))])
  {
    hide IsBrokerOrderOf, NormalizeChoice, Trim, IsChosen;
    NamedExactlyWhen(input, NormalizeChoice(input).value);
    ChosenIsNamed(c, endpoint, candidate, NormalizeChoice(input).value);
  }

  /** A record is reviewed exactly when it is an unknown submission of the account in use, then and now, and the broker's history can be read. */
  lemma ReviewedExactlyWhen(c: Case, endpoint: Endpoint, stored: seq<StoredRow>)
    ensures ReviewOf(c, endpoint, stored).Some?
       <==> && c.loaded.status == SubmissionUnknown && c.loaded.submissionStartedAt.Some?
            && c.loaded.environment == Some(c.current.environment) && c.loaded.accountHash == Some(c.current.accountHash)
            && !IsBlank(c.current.accountHash) && c.later == c.current
            && WindowOrders(c.Request(), endpoint).Some?
  {
    hide WindowOrders, FirstOccurrences, Normalized, AnnotateCandidateCollisions, IsBlank;
    if c.MayReview() && WindowOrders(c.Request(), endpoint).Some? {
      AnnotationExists(c, endpoint, stored);
    }
  }

  lemma AnnotationExists(c: Case, endpoint: Endpoint, stored: seq<StoredRow>)
    requires c.MayReview() && CandidatesOf(c, endpoint).Some?
    ensures AnnotateCandidateCollisions(stored, c.Asker(), CandidatesOf(c, endpoint).value).Some?
  {
    hide WindowOrders, FirstOccurrences, Normalized, IsAccountOf, IsCalendarDate, IsTime, CandidateDays;
    var candidates := CandidatesOf(c, endpoint).value;
    CandidatesHaveRealDates(WindowOrders(c.Request(), endpoint).value, c.Request(), c.loaded.submissionStartedAt.value);
    if candidates != [] {
      DaysOfCandidates(candidates, 0);
    }
  }

  /**
   A link is sound: the record is linked only to an order the broker really lists, of the same exchange,
   stock, side and quantity and within ten minutes of the submission, under the number, exchange and date
   the operator named, and no stored record stands for that order.
   */
  lemma LinkIsSound(c: Case, endpoint: Endpoint, stored: seq<StoredRow>, choice: Choice)
    requires ReviewOf(c, endpoint, stored).Some? && CanLink(ReviewOf(c, endpoint, stored).value, choice)
    requires forall row :: row in stored ==> IsNormalised(row)
    ensures var review := ReviewOf(c, endpoint, stored).value;
            var candidate := review.candidates[Find(review.candidates, choice)];
            && IsBrokerOrderOf(c, endpoint, candidate)
            && candidate.orderDate == choice.orderDate && candidate.exchangeCode == choice.exchangeCode
            && candidate.orderNo == choice.orderNo
            && var asker := Requester(c.id, c.loaded.broker, c.instrument.market, c.later.environment, c.later.accountHash);
               forall row :: row in stored ==> !ExactFor(row, asker, candidate) && !LegacyFor(row, asker, candidate)
  {
    hide WindowOrders, FirstOccurrences, Normalized, AnnotateCandidateCollisions, IsNormalised, ExactFor, LegacyFor,
      IsCalendarDate, IsTime, IsBrokerOrderOf, IsChosen;
    var review := ReviewOf(c, endpoint, stored).value;
    var i := Find(review.candidates, choice);
    ReviewedCandidates(c, endpoint, stored, i);
    ChosenIsNamed(c, endpoint, review.candidates[i], choice);
    LinkedOrderIsFree(stored, c.Asker(), review.candidates, i);
  }

  /**
   "It is the order of that record" is sound: the record named is stored in the same market, and holds
   the number of an order the broker lists for the submission, on its date or, for an old record without
   a full identity, within a day of its creation.
   */
  lemma MatchIsSound(c: Case, endpoint: Endpoint, stored: seq<StoredRow>, choice: Choice, existing: RecordId)
    requires ReviewOf(c, endpoint, stored).Some? && CanMatch(ReviewOf(c, endpoint, stored).value, choice, existing)
    requires forall row :: row in stored ==> IsNormalised(row)
    ensures var review := ReviewOf(c, endpoint, stored).value;
            var candidate := review.candidates[Find(review.candidates, choice)];
            && IsBrokerOrderOf(c, endpoint, candidate)
            && candidate.orderDate == choice.orderDate && candidate.exchangeCode == choice.exchangeCode
            && candidate.orderNo == choice.orderNo
            && var asker := Requester(c.id, c.loaded.broker, c.instrument.market, c.later.environment, c.later.accountHash);
               exists row :: row in stored && row.id == existing && existing != c.id
                 && (ExactFor(row, asker, candidate) || LegacyFor(row, asker, candidate))
  {
    hide WindowOrders, FirstOccurrences, Normalized, AnnotateCandidateCollisions, IsNormalised, ExactFor, LegacyFor,
      IsCalendarDate, IsTime, IsBrokerOrderOf;
    var review := ReviewOf(c, endpoint, stored).value;
    var i := Find(review.candidates, choice);
    var candidate := review.candidates[i];
    ReviewedCandidates(c, endpoint, stored, i);
    ChosenIsNamed(c, endpoint, candidate, choice);
    PrefilterLosesNothing(stored, c.Asker(), review.candidates);
    assert IsScanned(review.collisions[i], stored, c.Asker(), candidate);
    if review.collisions[i].Exact? {
      var at :| FirstSuch(stored, at, row => ExactFor(row, c.Asker(), candidate)) && stored[at].id == existing;
      assert stored[at] in stored && ExactFor(stored[at], c.Asker(), candidate);
      HoldersAreOthers(stored[at], c.Asker(), candidate);
    } else {
      var at :| FirstSuch(stored, at, row => LegacyFor(row, c.Asker(), candidate)) && stored[at].id == existing;
      assert stored[at] in stored && LegacyFor(stored[at], c.Asker(), candidate);
      HoldersAreOthers(stored[at], c.Asker(), candidate);
    }
  }

  lemma HoldersAreOthers(row: StoredRow, request: Requester, candidate: Candidate)
    requires ExactFor(row, request, candidate) || LegacyFor(row, request, candidate)
    ensures row.id != request.tradeRecordId
  {
  }

  /**
   The three answers exclude each other: on the same reads "it was never submitted" is possible only
   when neither of the others is, for whatever order is named, and a named order is either linked or
   matched to one record, never both.
   */
  lemma AnswersExclude(
    c: Case, endpoint: Endpoint, stored: seq<StoredRow>, choice: Choice, existing: RecordId, another: RecordId)
    requires ReviewOf(c, endpoint, stored).Some?
    ensures var review := ReviewOf(c, endpoint, stored).value;
            && (NoOrderFound(c.Request(), c.current, endpoint) <==> review.candidates == [])
            && (NoOrderFound(c.Request(), c.current, endpoint) ==>
                  !CanLink(review, choice) && !CanMatch(review, choice, existing))
            && !(CanLink(review, choice) && CanMatch(review, choice, existing))
            && (CanMatch(review, choice, existing) && CanMatch(review, choice, another) ==> existing == another)
  {
    hide WindowOrders, FirstOccurrences, Normalized, AnnotateCandidateCollisions, Matches, IsAccountOf;
    EmptyExactlyWhenNothingMatches(WindowOrders(c.Request(), endpoint).value, c.Request());
  }

  /** And one of the last two is always possible for every candidate: recovery never gets stuck on a complete read. */
  lemma EveryCandidateHasAnAnswer(c: Case, endpoint: Endpoint, stored: seq<StoredRow>, i: nat)
    requires c.MayReview() && CandidatesOf(c, endpoint).Some? && i < |CandidatesOf(c, endpoint).value|
    requires forall row :: row in stored ==> IsNormalised(row)
    ensures ReviewOf(c, endpoint, stored).Some?
    ensures var review := ReviewOf(c, endpoint, stored).value;
            var named := review.candidates[i];
            var choice := Choice(named.orderDate, CandidateExchange(named), CandidateOrderNo(named));
            CanLink(review, choice) || exists existing :: CanMatch(review, choice, existing)
  {
    hide WindowOrders, FirstOccurrences, Normalized, AnnotateCandidateCollisions, IsNormalised, IsAccountOf,
      IsCalendarDate, IsTime, IsScanned;
    var candidates := CandidatesOf(c, endpoint).value;
    CandidatesHaveRealDates(WindowOrders(c.Request(), endpoint).value, c.Request(), c.loaded.submissionStartedAt.value);
    PrefilterLosesNothing(stored, c.Asker(), candidates);
    var review := ReviewOf(c, endpoint, stored).value;
    var named := review.candidates[i];
    var choice := Choice(named.orderDate, CandidateExchange(named), CandidateOrderNo(named));
    var k := Find(review.candidates, choice);
    assert IsChosen(review.candidates[i], choice);
    assert k <= i;
    match review.collisions[k] {
      case NoCollision =>
      case Exact(existing) => assert CanMatch(review, choice, existing);
      case Legacy(existing) => assert CanMatch(review, choice, existing);
    }
  }

  /** A link is one of the steps the lifecycle allows an operator. */
  lemma LinksAreDeeds(phase: Phase, seen: set<Row>, c: Case, candidate: Candidate)
    requires c.loaded in seen && c.MayReview()
    ensures CanDo(phase, seen, OperatorLink(c.loaded, candidate.orderNo, candidate.orderDate, candidate.orderTime))
    ensures CanDo(phase, seen, OperatorFail(c.loaded, false))
  {
  }

  // ---------------------------------------------------------------------------
  // The order of a record that was closed in part
  // ---------------------------------------------------------------------------

  /** The columns the collision check and the index read of a record. */
  function StoredOf(id: RecordId, row: Row, instrument: Instrument, createdAt: int): StoredRow {
    StoredRow(id, row.broker, instrument.market, row.environment, row.accountHash, row.orderDate,
              instrument.exchangeCode, row.orderNo, createdAt)
  }

  /** A later value of the same record: its number may have been cleared, its other identity columns are the same. */
  predicate IsLaterValue(row: Row, later: Row) {
    && later.broker == row.broker && SameContext(later, row) && later.orderDate == row.orderDate
    && (later.orderNo == row.orderNo || later.orderNo.None?)
  }

  /**
   The limit of all this: a record that collides with an order does so until its number is cleared. From
   then on, and only then, the order may be linked to another record and the index agrees.
   */
  lemma OrderIsFreeExactlyWhenNumberCleared(
    id: RecordId, row: Row, later: Row, instrument: Instrument, createdAt: int,
    request: Requester, candidate: Candidate, other: Row, otherInstrument: Instrument)
    requires IsLaterValue(row, later) && IsCalendarDate(candidate.orderDate)
    requires IsNormalised(StoredOf(id, row, instrument, createdAt))
    requires ExactFor(StoredOf(id, row, instrument, createdAt), request, candidate)
    ensures MayLink([StoredOf(id, later, instrument, createdAt)], request, [candidate], 0) <==> later.orderNo.None?
    ensures SameBrokerOrder(later, instrument, other, otherInstrument)
       <==> later.orderNo.Some? && SameBrokerOrder(row, instrument, other, otherInstrument)
  {
    hide IsCalendarDate, AnnotateCandidateCollisions, Trim, Upper, MayLink;
    var stored := StoredOf(id, later, instrument, createdAt);
    assert candidate in [candidate] && stored in [stored];
    assert IsNormalised(stored);
    LinkedOrderIsFree([stored], request, [candidate], 0);
  }

  /** Every closure of a cancellation: the order is freed exactly when it was filled in part. */
  lemma AClosureFreesItsOrderExactlyWhen(
    id: RecordId, row: Row, instrument: Instrument, createdAt: int, executed: int,
    request: Requester, candidate: Candidate, other: Row, otherInstrument: Instrument)
    requires IsCalendarDate(candidate.orderDate)
    requires IsNormalised(StoredOf(id, row, instrument, createdAt))
    requires ExactFor(StoredOf(id, row, instrument, createdAt), request, candidate)
    ensures var closed := Closed(row, row.quantity, executed);
            && (MayLink([StoredOf(id, closed, instrument, createdAt)], request, [candidate], 0) <==> 0 < executed < row.quantity)
            && (SameBrokerOrder(closed, instrument, other, otherInstrument)
                <==> !(0 < executed < row.quantity) && SameBrokerOrder(row, instrument, other, otherInstrument))
  {
    hide IsCalendarDate, MayLink, SameBrokerOrder, IsNormalised, Trim, Upper;
    OrderIsFreeExactlyWhenNumberCleared(
      id, row, Closed(row, row.quantity, executed), instrument, createdAt, request, candidate, other, otherInstrument);
  }

  /** What one deed leaves of the row. */
  function AfterDeed(id: RecordId, row: Row, j: Journal, deed: Deed): Row {
    After(row, OutsideEffect(id, row, j, deed).change)
  }

  /** Every deed of an operator or the reconciler: the order is freed exactly when the deed clears the number. */
  lemma ADeedFreesTheOrderExactlyWhen(
    id: RecordId, row: Row, j: Journal, deed: Deed, instrument: Instrument, createdAt: int,
    request: Requester, candidate: Candidate)
    requires IsCalendarDate(candidate.orderDate) && row.IsOpen()
    requires IsNormalised(StoredOf(id, row, instrument, createdAt))
    requires ExactFor(StoredOf(id, row, instrument, createdAt), request, candidate)
    ensures MayLink([StoredOf(id, AfterDeed(id, row, j, deed), instrument, createdAt)], request, [candidate], 0)
       <==> ClearsNumber(row, deed)
  {
    hide IsCalendarDate, MayLink, IsNormalised, Trim, Upper, OutsideEffect, ClearsNumber, SameBrokerOrder;
    DeedClearsNumberExactlyWhen(id, row, j, deed);
    OrderIsFreeExactlyWhenNumberCleared(
      id, row, AfterDeed(id, row, j, deed), instrument, createdAt, request, candidate, row, instrument);
  }

  lemma DeedClearsNumberExactlyWhen(id: RecordId, row: Row, j: Journal, deed: Deed)
    requires row.IsOpen() && row.orderNo.Some?
    ensures AfterDeed(id, row, j, deed).orderNo.None? <==> ClearsNumber(row, deed)
    ensures row.environment.Some? && row.accountHash.Some? ==> IsLaterValue(row, AfterDeed(id, row, j, deed))
  {
  }
}
