/** Reading a complete order history page by page, from either broker. */
module Pagination {
  import opened Prelude
  import opened Text
  import opened Identity

  const MAX_PAGES: nat := 100

  // ---------------------------------------------------------------------------
  // Continuation chains
  // ---------------------------------------------------------------------------

  /** The `k`-th position of the chain that `next` continues from `start`. */
  function At<C>(next: C -> Option<C>, start: C, k: nat): Option<C> {
    if k == 0 then Some(start)
    else match At(next, start, k - 1)
      case None => None
      case Some(c) => next(c)
  }

  predicate EndsAt<C>(next: C -> Option<C>, ends: C -> bool, start: C, k: nat) {
    At(next, start, k).Some? && ends(At(next, start, k).value)
  }

  lemma {:induction false} AfterBreak<C>(next: C -> Option<C>, start: C, k: nat, n: nat)
    requires At(next, start, k).None? && k <= n
    ensures At(next, start, n).None?
  {
    if k < n {
      AfterBreak(next, start, k, n - 1);
    }
  }

  lemma {:induction false} SamePositionSameFuture<C>(next: C -> Option<C>, start: C, i: nat, j: nat, m: nat)
    requires At(next, start, i) == At(next, start, j)
    ensures At(next, start, i + m) == At(next, start, j + m)
  {
    if m > 0 {
      SamePositionSameFuture(next, start, i, j, m - 1);
    }
  }

  /** A chain that comes back to an earlier position never ends. */
  lemma LoopsNeverEnd<C(!new)>(next: C -> Option<C>, ends: C -> bool, start: C, i: nat, j: nat, n: nat)
    requires forall c :: ends(c) ==> next(c).None?
    requires i < j && At(next, start, i).Some? && At(next, start, i) == At(next, start, j)
    ensures !EndsAt(next, ends, start, n)
  {
    if EndsAt(next, ends, start, n) {
      EndIsLast(next, ends, start, n, j);
      SamePositionSameFuture(next, start, i, j, n - j);
      EndIsLast(next, ends, start, i + (n - j), n);
    }
  }

  lemma EndIsLast<C(!new)>(next: C -> Option<C>, ends: C -> bool, start: C, n: nat, k: nat)
    requires forall c :: ends(c) ==> next(c).None?
    requires EndsAt(next, ends, start, n) && At(next, start, k).Some?
    ensures k <= n
  {
    if n < k {
      AfterBreak(next, start, n + 1, k);
    }
  }

  // ---------------------------------------------------------------------------
  // Korea Investment & Securities
  // ---------------------------------------------------------------------------

  /** A page as the service sees it; `None` stands for a value of the wrong type. */
  datatype KisPage<+R> = KisPage(
    rows: Option<seq<R>>, trCont: Option<string>, fk: Option<string>, nk: Option<string>)

  datatype KisCursor = KisCursor(fk: string, nk: string)

  datatype Tuple = Tuple(trCont: string, fk: string, nk: string)

  datatype PageError =
    | FetchFailed
    | MalformedRows
    | MissingTrCont
    | MissingContext
    | RepeatedTuple
    | TooManyPages

  function Normalize(value: Option<string>): Option<string> {
    if value.None? || Trim(value.value) == "" then None else Some(Trim(value.value))
  }

  function NormalizeUpper(value: Option<string>): Option<string> {
    var normalized := Normalize(value);
    if normalized.None? then None else Some(Upper(normalized.value))
  }

  /** A broker whose page depends only on the continuation context; `None` is a failed request. */
  type KisServer<R> = KisCursor -> Option<KisPage<R>>

  predicate Readable<R>(server: KisServer<R>, c: KisCursor) {
    server(c).Some? && server(c).value.rows.Some? && NormalizeUpper(server(c).value.trCont).Some?
  }

  predicate Continues<R>(server: KisServer<R>, c: KisCursor) {
    Readable(server, c) && NormalizeUpper(server(c).value.trCont).value in {"M", "F"}
  }

  predicate KisEnds<R>(server: KisServer<R>, c: KisCursor) {
    Readable(server, c) && !Continues(server, c)
  }

  function KisNext<R>(server: KisServer<R>, c: KisCursor): Option<KisCursor> {
    if Continues(server, c) && Normalize(server(c).value.fk).Some? && Normalize(server(c).value.nk).Some? then
      Some(KisCursor(Normalize(server(c).value.fk).value, Normalize(server(c).value.nk).value))
    else
      None
  }

  const FIRST_PAGE := KisCursor("", "")

  function KisStep<R>(server: KisServer<R>): KisCursor -> Option<KisCursor> {
    c => KisNext(server, c)
  }

  function KisStop<R>(server: KisServer<R>): KisCursor -> bool {
    c => KisEnds(server, c)
  }

  function KisAt<R>(server: KisServer<R>, k: nat): Option<KisCursor> {
    At(KisStep(server), FIRST_PAGE, k)
  }

  predicate KisEndsAt<R>(server: KisServer<R>, k: nat) {
    EndsAt(KisStep(server), KisStop(server), FIRST_PAGE, k)
  }

  function KisPageRows<R>(server: KisServer<R>, c: KisCursor): seq<R> {
    if server(c).Some? && server(c).value.rows.Some? then server(c).value.rows.value else []
  }

  /** The rows of the first `k` pages. */
  function KisRows<R>(server: KisServer<R>, k: nat): seq<R> {
    if k == 0 || KisAt(server, k - 1).None? then []
    else KisRows(server, k - 1) + KisPageRows(server, KisAt(server, k - 1).value)
  }

  lemma KisPosition<R>(server: KisServer<R>, k: nat, c: KisCursor)
    requires KisAt(server, k) == Some(c)
    ensures KisAt(server, k + 1) == KisNext(server, c)
    ensures KisEndsAt(server, k) <==> KisEnds(server, c)
    ensures KisRows(server, k + 1) == KisRows(server, k) + KisPageRows(server, c)
  {
  }

  // What a complete read is, page by page, in terms of the broker's answers alone.

  /** The continuation mark of an answer, as it is compared. */
  function Mark(trCont: Option<string>): string {
    if trCont.Some? then Upper(Trim(trCont.value)) else ""
  }

  /** The page leads to the cursor `to`: it is marked to continue and names the next cursor. */
  predicate LeadsTo<R>(page: Option<KisPage<R>>, to: KisCursor) {
    && page.Some? && page.value.rows.Some?
    && (Mark(page.value.trCont) == "M" || Mark(page.value.trCont) == "F")
    && page.value.fk.Some? && Trim(page.value.fk.value) == to.fk && to.fk != ""
    && page.value.nk.Some? && Trim(page.value.nk.value) == to.nk && to.nk != ""
  }

  /** The page is the last one: marked, but not to continue. */
  predicate IsLastPage<R>(page: Option<KisPage<R>>) {
    && page.Some? && page.value.rows.Some?
    && Mark(page.value.trCont) != "" && Mark(page.value.trCont) != "M" && Mark(page.value.trCont) != "F"
  }

  /** Cursors from the empty one on, each page leading to the next cursor, up to the last page. */
  ghost predicate IsCompleteRead<R>(server: KisServer<R>, cursors: seq<KisCursor>) {
    && cursors != [] && cursors[0] == KisCursor("", "")
    && (forall i :: 0 <= i < |cursors| - 1 ==> LeadsTo(server(cursors[i]), cursors[i + 1]))
    && IsLastPage(server(cursors[|cursors| - 1]))
  }

  /** All rows of the pages at these cursors, in order. */
  function RowsAt<R>(server: KisServer<R>, cursors: seq<KisCursor>): seq<R> {
    if cursors == [] then []
    else
      var page := server(cursors[|cursors| - 1]);
      RowsAt(server, cursors[..|cursors| - 1]) + if page.Some? && page.value.rows.Some? then page.value.rows.value else []
  }

  lemma MarksDecide<R>(server: KisServer<R>, c: KisCursor)
    ensures IsLastPage(server(c)) <==> KisEnds(server, c)
    ensures forall to :: LeadsTo(server(c), to) <==> KisNext(server, c) == Some(to)
  {
    hide Trim;
    if server(c).Some? && server(c).value.trCont.Some? {
      assert |Upper(Trim(server(c).value.trCont.value))| == |Trim(server(c).value.trCont.value)|;
    }
  }

  /** The cursors a read goes through up to its `n`-th continuation. */
  lemma {:induction false} CursorsOf<R>(server: KisServer<R>, n: nat) returns (cursors: seq<KisCursor>)
    requires KisAt(server, n).Some?
    ensures |cursors| == n + 1 && cursors[0] == KisCursor("", "") && KisAt(server, n) == Some(cursors[n])
    ensures forall i :: 0 <= i < n ==> LeadsTo(server(cursors[i]), cursors[i + 1])
    ensures RowsAt(server, cursors) == KisRows(server, n + 1)
  {
    hide LeadsTo, KisNext;
    var empty: seq<KisCursor> := [];
    if n == 0 {
      cursors := [FIRST_PAGE];
      assert cursors[..0] == empty && KisRows(server, 0) == [];
    } else {
      var before := CursorsOf(server, n - 1);
      cursors := before + [KisAt(server, n).value];
      MarksDecide(server, before[n - 1]);
      assert cursors[..n] == before;
    }
    KisPosition(server, n, cursors[n]);
  }

  lemma {:induction false} CursorsAreAt<R>(server: KisServer<R>, cursors: seq<KisCursor>, n: nat)
    requires n < |cursors| && cursors[0] == KisCursor("", "")
    requires forall i :: 0 <= i < n ==> LeadsTo(server(cursors[i]), cursors[i + 1])
    ensures KisAt(server, n) == Some(cursors[n])
  {
    if n > 0 {
      hide LeadsTo, KisNext;
      CursorsAreAt(server, cursors, n - 1);
      MarksDecide(server, cursors[n - 1]);
      KisPosition(server, n - 1, cursors[n - 1]);
    }
  }

  /** The chain of positions ends after `n + 1` pages exactly when there is a complete read of so many. */
  lemma EndIsACompleteRead<R>(server: KisServer<R>, n: nat)
    ensures KisEndsAt(server, n) <==> exists cursors :: |cursors| == n + 1 && IsCompleteRead(server, cursors)
    ensures forall cursors :: |cursors| == n + 1 && IsCompleteRead(server, cursors) ==> RowsAt(server, cursors) == KisRows(server, n + 1)
  {
    hide LeadsTo, IsLastPage, KisRows, RowsAt, KisEnds;
    if KisEndsAt(server, n) {
      var cursors := CursorsOf(server, n);
      MarksDecide(server, cursors[n]);
      KisPosition(server, n, cursors[n]);
      assert IsCompleteRead(server, cursors);
    }
    forall cursors | |cursors| == n + 1 && IsCompleteRead(server, cursors)
      ensures KisEndsAt(server, n) && RowsAt(server, cursors) == KisRows(server, n + 1)
    {
      CursorsAreAt(server, cursors, n);
      MarksDecide(server, cursors[n]);
      KisPosition(server, n, cursors[n]);
      var same := CursorsOf(server, n);
      forall i | 0 <= i <= n
        ensures same[i] == cursors[i]
      {
        CursorsAreAt(server, cursors, i);
        CursorsAreAt(server, same, i);
      }
      assert same == cursors;
    }
  }

  lemma KisLoopsNeverEnd<R>(server: KisServer<R>, i: nat, j: nat)
    requires i < j && KisAt(server, i).Some? && KisAt(server, i) == KisAt(server, j)
    ensures forall n: nat :: !KisEndsAt(server, n)
  {
    forall n: nat
      ensures !KisEndsAt(server, n)
    {
      LoopsNeverEnd(KisStep(server), KisStop(server), FIRST_PAGE, i, j, n);
    }
  }

  /** Where the chain is neither continued nor ended it has no end at all. */
  lemma KisBroken<R>(server: KisServer<R>, k: nat)
    requires KisAt(server, k).Some?
    requires !KisEnds(server, KisAt(server, k).value) && KisNext(server, KisAt(server, k).value).None?
    requires forall i :: 0 <= i < k ==> !KisEndsAt(server, i)
    ensures forall n: nat :: !KisEndsAt(server, n)
  {
    forall n: nat
      ensures !KisEndsAt(server, n)
    {
      if n > k {
        AfterBreak(KisStep(server), FIRST_PAGE, k + 1, n);
      }
    }
  }

  lemma KisStart<R, K>(server: KisServer<R>, key: R -> K)
    ensures KisAt(server, 0) == Some(FIRST_PAGE) && KisRows(server, 0) == []
    ensures FirstOccurrences<R, K>([], key) == [] && KeysOf<R, K>([], key) == {}
  {
  }

  /** Adds the rows of one page whose identity has not been seen. */
  method AddNewRows<R, K(==)>(ghost before: seq<R>, kept: seq<R>, keys: set<K>, received: seq<R>, key: R -> K)
    returns (rows: seq<R>, seen: set<K>)
    requires kept == FirstOccurrences(before, key) && keys == KeysOf(before, key)
    ensures rows == FirstOccurrences(before + received, key) && seen == KeysOf(before + received, key)
  {
    hide FirstOccurrences, KeysOf;
    rows, seen := kept, keys;
    assert before + received[..0] == before;
    for r := 0 to |received|
      invariant rows == FirstOccurrences(before + received[..r], key)
      invariant seen == KeysOf(before + received[..r], key)
    {
      assert before + received[..r + 1] == (before + received[..r]) + [received[r]];
      FirstOccurrencesAppend(before + received[..r], received[r], key);
      KeysOfAppend(before + received[..r], received[r], key);
      if key(received[r]) !in seen {
        rows := rows + [received[r]];
        seen := seen + {key(received[r])};
      }
    }
    assert received[..|received|] == received;
  }

  /**
   The read succeeds exactly when a complete read of at most 100 pages exists, and then returns the first
   row of every identity on all of its pages, in order; a failure returns no rows. A repeated tuple is
   reported only for a chain that never ends.
   */
  method Paginate<R, K(==)>(server: KisServer<R>, key: R -> K)
    returns (result: Result<seq<R>, PageError>, fetches: nat)
    ensures result.Ok? <==> exists n :: 0 <= n < MAX_PAGES && KisEndsAt(server, n)
    ensures forall n: nat :: KisEndsAt(server, n) && result.Ok? ==>
              result.value == FirstOccurrences(KisRows(server, n + 1), key) && fetches == n + 1
    ensures result.Ok? <==> exists cursors :: |cursors| <= 100 && IsCompleteRead(server, cursors)
    ensures forall cursors :: IsCompleteRead(server, cursors) && result.Ok? ==>
              result.value == FirstOccurrences(RowsAt(server, cursors), key) && fetches == |cursors|
    ensures result == Err(RepeatedTuple) ==> forall n: nat :: !KisEndsAt(server, n)
    ensures fetches <= MAX_PAGES
  {
    result, fetches := PaginateChain(server, key);
    hide KisEndsAt, KisRows, RowsAt, IsCompleteRead, FirstOccurrences;
    forall cursors | IsCompleteRead(server, cursors)
      ensures cursors != [] && KisEndsAt(server, |cursors| - 1)
      ensures RowsAt(server, cursors) == KisRows(server, |cursors|)
    {
      ReadsAreNotEmpty(server, cursors);
      EndIsACompleteRead(server, |cursors| - 1);
    }
    if result.Ok? {
      var n: nat :| n < MAX_PAGES && KisEndsAt(server, n);
      EndIsACompleteRead(server, n);
    }
  }

  lemma ReadsAreNotEmpty<R>(server: KisServer<R>, cursors: seq<KisCursor>)
    requires IsCompleteRead(server, cursors)
    ensures cursors != []
  {
  }

  method PaginateChain<R, K(==)>(server: KisServer<R>, key: R -> K)
    returns (result: Result<seq<R>, PageError>, fetches: nat)
    ensures result.Ok? <==> exists n :: 0 <= n < MAX_PAGES && KisEndsAt(server, n)
    ensures forall n: nat :: KisEndsAt(server, n) && result.Ok? ==>
              result.value == FirstOccurrences(KisRows(server, n + 1), key) && fetches == n + 1
    ensures result == Err(RepeatedTuple) ==> forall n: nat :: !KisEndsAt(server, n)
    ensures fetches <= MAX_PAGES
  {
    hide KisAt, KisEndsAt, KisRows, FirstOccurrences, KeysOf, Normalize, NormalizeUpper;
    KisStart(server, key);
    var rows: seq<R>, seen: set<K> := [], {};
    var visited: set<Tuple> := {};
    var fk, nk := "", "";
    fetches := 0;
    for page := 0 to MAX_PAGES
      invariant fetches == page
      invariant KisAt(server, page) == Some(KisCursor(fk, nk))
      invariant rows == FirstOccurrences(KisRows(server, page), key) && seen == KeysOf(KisRows(server, page), key)
      invariant forall t :: t in visited ==> exists i :: 1 <= i <= page && KisAt(server, i) == Some(KisCursor(t.fk, t.nk))
      invariant forall i :: 0 <= i < page ==> !KisEndsAt(server, i)
    {
      var c := KisCursor(fk, nk);
      KisPosition(server, page, c);
      var response := server(c);
      fetches := fetches + 1;
      if response.None? || response.value.rows.None? {
        KisBroken(server, page);
        return Err(if response.None? then FetchFailed else MalformedRows), fetches;
      }
      var received := response.value.rows.value;
      rows, seen := AddNewRows(KisRows(server, page), rows, seen, received, key);

      var trCont := NormalizeUpper(response.value.trCont);
      if trCont.None? {
        KisBroken(server, page);
        return Err(MissingTrCont), fetches;
      }
      if trCont.value != "M" && trCont.value != "F" {
        KisEndsOnce(server, page);
        return Ok(rows), fetches;
      }
      var nextFk, nextNk := Normalize(response.value.fk), Normalize(response.value.nk);
      if nextFk.None? || nextNk.None? {
        KisBroken(server, page);
        return Err(MissingContext), fetches;
      }
      var tuple := Tuple(trCont.value, nextFk.value, nextNk.value);
      assert KisAt(server, page + 1) == Some(KisCursor(nextFk.value, nextNk.value));
      if tuple in visited {
        var i :| 1 <= i <= page && KisAt(server, i) == Some(KisCursor(tuple.fk, tuple.nk));
        KisLoopsNeverEnd(server, i, page + 1);
        return Err(RepeatedTuple), fetches;
      }
      visited := visited + {tuple};
      fk, nk := nextFk.value, nextNk.value;
    }
    return Err(TooManyPages), fetches;
  }

  lemma KisEndsOnce<R>(server: KisServer<R>, m: nat)
    requires KisEndsAt(server, m)
    ensures forall n: nat :: KisEndsAt(server, n) ==> n == m
  {
    forall n: nat | KisEndsAt(server, n)
      ensures n == m
    {
      EndIsLast(KisStep(server), KisStop(server), FIRST_PAGE, m, n);
      EndIsLast(KisStep(server), KisStop(server), FIRST_PAGE, n, m);
    }
  }

  // ---------------------------------------------------------------------------
  // Toss Securities
  // ---------------------------------------------------------------------------

  datatype TossPage<+R> = TossPage(orders: Option<seq<R>>, hasNext: Option<bool>, nextCursor: Option<string>)

  datatype TossError = TossFetchFailed | MalformedResponse | InvalidContinuation | TossTooManyPages

  /** The first request carries no cursor. */
  type TossServer<R> = Option<string> -> Option<TossPage<R>>

  predicate WellFormed<R>(server: TossServer<R>, c: Option<string>) {
    server(c).Some? && server(c).value.orders.Some? && server(c).value.hasNext.Some?
  }

  predicate TossEnds<R>(server: TossServer<R>, c: Option<string>) {
    WellFormed(server, c) && !server(c).value.hasNext.value
  }

  function TossNext<R>(server: TossServer<R>, c: Option<string>): Option<Option<string>> {
    if WellFormed(server, c) && server(c).value.hasNext.value && Normalize(server(c).value.nextCursor).Some? then
      Some(Normalize(server(c).value.nextCursor))
    else
      None
  }

  function TossStep<R>(server: TossServer<R>): Option<string> -> Option<Option<string>> {
    c => TossNext(server, c)
  }

  function TossStop<R>(server: TossServer<R>): Option<string> -> bool {
    c => TossEnds(server, c)
  }

  function TossAt<R>(server: TossServer<R>, k: nat): Option<Option<string>> {
    At(TossStep(server), None, k)
  }

  predicate TossEndsAt<R>(server: TossServer<R>, k: nat) {
    EndsAt(TossStep(server), TossStop(server), None, k)
  }

  function TossPageRows<R>(server: TossServer<R>, c: Option<string>): seq<R> {
    if server(c).Some? && server(c).value.orders.Some? then server(c).value.orders.value else []
  }

  function TossRows<R>(server: TossServer<R>, k: nat): seq<R> {
    if k == 0 || TossAt(server, k - 1).None? then []
    else TossRows(server, k - 1) + TossPageRows(server, TossAt(server, k - 1).value)
  }

  lemma TossPosition<R>(server: TossServer<R>, k: nat, c: Option<string>)
    requires TossAt(server, k) == Some(c)
    ensures TossAt(server, k + 1) == TossNext(server, c)
    ensures TossEndsAt(server, k) <==> TossEnds(server, c)
    ensures TossRows(server, k + 1) == TossRows(server, k) + TossPageRows(server, c)
  {
  }

  // A complete read in terms of the broker's answers alone.

  predicate TossLeadsTo<R>(page: Option<TossPage<R>>, to: Option<string>) {
    && page.Some? && page.value.orders.Some? && page.value.hasNext == Some(true)
    && page.value.nextCursor.Some? && Trim(page.value.nextCursor.value) != ""
    && to == Some(Trim(page.value.nextCursor.value))
  }

  predicate IsLastTossPage<R>(page: Option<TossPage<R>>) {
    page.Some? && page.value.orders.Some? && page.value.hasNext == Some(false)
  }

  ghost predicate IsCompleteTossRead<R>(server: TossServer<R>, cursors: seq<Option<string>>) {
    && cursors != [] && cursors[0] == None
    && (forall i :: 0 <= i < |cursors| - 1 ==> TossLeadsTo(server(cursors[i]), cursors[i + 1]))
    && IsLastTossPage(server(cursors[|cursors| - 1]))
  }

  /** All orders of the pages at these cursors, in order. */
  function OrdersAt<R>(server: TossServer<R>, cursors: seq<Option<string>>): seq<R> {
    if cursors == [] then []
    else
      var page := server(cursors[|cursors| - 1]);
      OrdersAt(server, cursors[..|cursors| - 1])
      + if page.Some? && page.value.orders.Some? then page.value.orders.value else []
  }

  lemma TossPagesDecide<R>(server: TossServer<R>, c: Option<string>)
    ensures IsLastTossPage(server(c)) <==> TossEnds(server, c)
    ensures forall to :: TossLeadsTo(server(c), to) <==> TossNext(server, c) == Some(to)
  {
    hide Trim;
  }

  lemma {:induction false} TossCursorsOf<R>(server: TossServer<R>, n: nat) returns (cursors: seq<Option<string>>)
    requires TossAt(server, n).Some?
    ensures |cursors| == n + 1 && cursors[0] == None && TossAt(server, n) == Some(cursors[n])
    ensures forall i :: 0 <= i < n ==> TossLeadsTo(server(cursors[i]), cursors[i + 1])
    ensures OrdersAt(server, cursors) == TossRows(server, n + 1)
  {
    hide TossLeadsTo, TossNext;
    if n == 0 {
      var empty: seq<Option<string>> := [];
      cursors := [None];
      assert cursors[..0] == empty && TossRows(server, 0) == [];
    } else {
      var before := TossCursorsOf(server, n - 1);
      cursors := before + [TossAt(server, n).value];
      TossPagesDecide(server, before[n - 1]);
      assert cursors[..n] == before;
    }
    TossPosition(server, n, cursors[n]);
  }

  lemma {:induction false} TossCursorsAreAt<R>(server: TossServer<R>, cursors: seq<Option<string>>, n: nat)
    requires n < |cursors| && cursors[0] == None
    requires forall i :: 0 <= i < n ==> TossLeadsTo(server(cursors[i]), cursors[i + 1])
    ensures TossAt(server, n) == Some(cursors[n])
  {
    if n > 0 {
      hide TossLeadsTo, TossNext;
      TossCursorsAreAt(server, cursors, n - 1);
      TossPagesDecide(server, cursors[n - 1]);
      TossPosition(server, n - 1, cursors[n - 1]);
    }
  }

  lemma TossEndIsACompleteRead<R>(server: TossServer<R>, n: nat)
    ensures TossEndsAt(server, n) <==> exists cursors :: |cursors| == n + 1 && IsCompleteTossRead(server, cursors)
    ensures forall cursors :: |cursors| == n + 1 && IsCompleteTossRead(server, cursors) ==>
              OrdersAt(server, cursors) == TossRows(server, n + 1)
  {
    hide TossLeadsTo, IsLastTossPage, TossRows, OrdersAt, TossEnds;
    if TossEndsAt(server, n) {
      var cursors := TossCursorsOf(server, n);
      TossPagesDecide(server, cursors[n]);
      TossPosition(server, n, cursors[n]);
      assert IsCompleteTossRead(server, cursors);
    }
    forall cursors | |cursors| == n + 1 && IsCompleteTossRead(server, cursors)
      ensures TossEndsAt(server, n) && OrdersAt(server, cursors) == TossRows(server, n + 1)
    {
      TossCursorsAreAt(server, cursors, n);
      TossPagesDecide(server, cursors[n]);
      TossPosition(server, n, cursors[n]);
      var same := TossCursorsOf(server, n);
      forall i | 0 <= i <= n
        ensures same[i] == cursors[i]
      {
        TossCursorsAreAt(server, cursors, i);
        TossCursorsAreAt(server, same, i);
      }
      assert same == cursors;
    }
  }

  lemma TossReadsAreNotEmpty<R>(server: TossServer<R>, cursors: seq<Option<string>>)
    requires IsCompleteTossRead(server, cursors)
    ensures cursors != []
  {
  }

  lemma TossLoopsNeverEnd<R>(server: TossServer<R>, i: nat, j: nat)
    requires i < j && TossAt(server, i).Some? && TossAt(server, i) == TossAt(server, j)
    ensures forall n: nat :: !TossEndsAt(server, n)
  {
    forall n: nat
      ensures !TossEndsAt(server, n)
    {
      LoopsNeverEnd(TossStep(server), TossStop(server), None, i, j, n);
    }
  }

  lemma TossBroken<R>(server: TossServer<R>, k: nat)
    requires TossAt(server, k).Some?
    requires !TossEnds(server, TossAt(server, k).value) && TossNext(server, TossAt(server, k).value).None?
    requires forall i :: 0 <= i < k ==> !TossEndsAt(server, i)
    ensures forall n: nat :: !TossEndsAt(server, n)
  {
    forall n: nat
      ensures !TossEndsAt(server, n)
    {
      if n > k {
        AfterBreak(TossStep(server), None, k + 1, n);
      }
    }
  }

  lemma TossEndsOnce<R>(server: TossServer<R>, m: nat)
    requires TossEndsAt(server, m)
    ensures forall n: nat :: TossEndsAt(server, n) ==> n == m
  {
    forall n: nat | TossEndsAt(server, n)
      ensures n == m
    {
      EndIsLast(TossStep(server), TossStop(server), None, m, n);
      EndIsLast(TossStep(server), TossStop(server), None, n, m);
    }
  }

  lemma TossStart<R>(server: TossServer<R>)
    ensures TossAt(server, 0) == Some(None) && TossRows(server, 0) == []
  {
  }

  /** The same exactness for cursors; every order of every page is returned, in order. */
  method ReadOrders<R>(server: TossServer<R>) returns (result: Result<seq<R>, TossError>, fetches: nat)
    ensures result.Ok? <==> exists cursors :: |cursors| <= 100 && IsCompleteTossRead(server, cursors)
    ensures forall cursors :: IsCompleteTossRead(server, cursors) && result.Ok? ==>
              result.value == OrdersAt(server, cursors) && fetches == |cursors|
    ensures result == Err(InvalidContinuation) ==> forall n: nat :: !TossEndsAt(server, n)
    ensures fetches <= MAX_PAGES
  {
    result, fetches := ReadChain(server);
    hide TossEndsAt, TossRows, OrdersAt, IsCompleteTossRead;
    forall cursors | IsCompleteTossRead(server, cursors)
      ensures cursors != [] && TossEndsAt(server, |cursors| - 1)
      ensures OrdersAt(server, cursors) == TossRows(server, |cursors|)
    {
      TossReadsAreNotEmpty(server, cursors);
      TossEndIsACompleteRead(server, |cursors| - 1);
    }
    if result.Ok? {
      var n: nat :| n < MAX_PAGES && TossEndsAt(server, n);
      TossEndIsACompleteRead(server, n);
    }
  }

  method ReadChain<R>(server: TossServer<R>) returns (result: Result<seq<R>, TossError>, fetches: nat)
    ensures result.Ok? <==> exists n :: 0 <= n < MAX_PAGES && TossEndsAt(server, n)
    ensures forall n: nat :: TossEndsAt(server, n) && result.Ok? ==>
              result.value == TossRows(server, n + 1) && fetches == n + 1
    ensures result == Err(InvalidContinuation) ==> forall n: nat :: !TossEndsAt(server, n)
    ensures fetches <= MAX_PAGES
  {
    hide TossAt, TossEndsAt, TossRows, Normalize;
    assert TossAt(server, 0) == Some(None) && TossRows(server, 0) == [] by { TossStart(server); }
    var orders: seq<R> := [];
    var seenCursors: set<string> := {};
    var cursor: Option<string> := None;
    fetches := 0;
    for page := 0 to MAX_PAGES
      invariant fetches == page
      invariant TossAt(server, page) == Some(cursor)
      invariant orders == TossRows(server, page)
      invariant forall c :: c in seenCursors ==> exists i :: 1 <= i <= page && TossAt(server, i) == Some(Some(c))
      invariant forall i :: 0 <= i < page ==> !TossEndsAt(server, i)
    {
      TossPosition(server, page, cursor);
      var response := server(cursor);
      fetches := fetches + 1;
      if response.None? || response.value.orders.None? || response.value.hasNext.None? {
        TossBroken(server, page);
        return Err(if response.None? then TossFetchFailed else MalformedResponse), fetches;
      }
      orders := orders + response.value.orders.value;
      if !response.value.hasNext.value {
        TossEndsOnce(server, page);
        return Ok(orders), fetches;
      }
      var nextCursor := Normalize(response.value.nextCursor);
      if nextCursor.None? {
        TossBroken(server, page);
        return Err(InvalidContinuation), fetches;
      }
      assert TossAt(server, page + 1) == Some(nextCursor);
      if nextCursor.value in seenCursors {
        var i :| 1 <= i <= page && TossAt(server, i) == Some(nextCursor);
        TossLoopsNeverEnd(server, i, page + 1);
        return Err(InvalidContinuation), fetches;
      }
      seenCursors := seenCursors + {nextCursor.value};
      cursor := nextCursor;
    }
    return Err(TossTooManyPages), fetches;
  }

  /** Open and closed orders merged under their id: a closed order replaces the open one in place. */
  method MergeOrders<R, K(==)>(open: seq<R>, closed: seq<R>, key: R -> K) returns (merged: seq<R>)
    ensures merged == LastOccurrences(open + closed, key)
  {
    var all := open + closed;
    var keys: seq<K>, values: map<K, R> := [], map[];
    for i := 0 to |all|
      invariant values.Keys == KeysOf(all[..i], key)
      invariant |keys| == |FirstOccurrences(all[..i], key)|
      invariant forall a :: 0 <= a < |keys| ==> keys[a] == key(FirstOccurrences(all[..i], key)[a]) && keys[a] in values
      invariant forall k :: k in values ==> values[k] == LastValue(all[..i], key, k)
    {
      var k := key(all[i]);
      assert all[..i + 1] == all[..i] + [all[i]];
      KeysOfAppend(all[..i], all[i], key);
      FirstOccurrencesAppend(all[..i], all[i], key);
      if k !in values {
        keys := keys + [k];
      }
      values := values[k := all[i]];
      assert all[..i + 1][..i] == all[..i];
    }
    assert all[..|all|] == all;
    merged := Values(keys, values);
    assert merged == LastOccurrences(all, key);
  }
}
