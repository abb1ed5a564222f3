/** Daily snapshots of a paper-trading session: profit of the day, running peak and drawdown. */
module SimulationSnapshots {
  import opened Prelude

  /** What a snapshot is taken of: the date in Korea, the session's quota, and what it is worth. */
  datatype Valuation = Valuation(date: string, quota: real, portfolioValue: real, cash: real)
  {
    function Total(): real {
      portfolioValue + cash
    }
  }

  datatype Snapshot = Snapshot(
    date: string, portfolioValue: real, cash: real, totalValue: real,
    dailyPnl: real, dailyPnlRate: real, drawdown: real, peakValue: real)

  function Rate(amount: real, base: real): real {
    if base > 0.0 then amount / base else 0.0
  }

  function SnapshotOf(v: Valuation, prevTotal: real, peak: real): Snapshot {
    Snapshot(v.date, v.portfolioValue, v.cash, v.Total(), v.Total() - prevTotal, Rate(v.Total() - prevTotal, prevTotal),
             Rate(peak - v.Total(), peak), peak)
  }

  /** Rows are kept in the order they were created; an upsert does not move its row. */
  function Measured(rows: seq<Snapshot>, v: Valuation): Snapshot {
    if rows == [] then SnapshotOf(v, v.quota, MaxReal(v.quota, v.Total()))
    else
      var prev := rows[|rows| - 1];
      SnapshotOf(v, prev.totalValue, MaxReal(prev.peakValue, v.Total()))
  }

  /** The row of a date, or the length of the table. */
  function RowOf(rows: seq<Snapshot>, date: string): (i: nat)
    ensures i <= |rows|
    ensures i < |rows| ==> rows[i].date == date
    ensures forall j :: 0 <= j < i ==> rows[j].date != date
  {
    if rows == [] || rows[0].date == date then 0 else 1 + RowOf(rows[1..], date)
  }

  function AfterSnapshot(rows: seq<Snapshot>, v: Valuation): seq<Snapshot> {
    var i := RowOf(rows, v.date);
    if i == |rows| then rows + [Measured(rows, v)] else rows[i := Measured(rows, v)]
  }

  class SnapshotTable {
    var rows: seq<Snapshot>

    constructor ()
      ensures rows == []
    {
      rows := [];
    }

    method TakeSnapshot(v: Valuation)
      modifies this
      ensures rows == AfterSnapshot(old(rows), v)
    {
      var prevTotal, peak := v.quota, v.quota;
      if rows != [] {
        prevTotal, peak := rows[|rows| - 1].totalValue, rows[|rows| - 1].peakValue;
      }
      var snapshot := SnapshotOf(v, prevTotal, MaxReal(peak, v.Total()));
      var i := RowOf(rows, v.date);
      rows := if i == |rows| then rows + [snapshot] else rows[i := snapshot];
    }
  }

  /** The row of the day after a snapshot: what the session is worth, against the row created last or the quota. */
  lemma RowOfTheDay(rows: seq<Snapshot>, v: Valuation) returns (i: nat)
    ensures i < |AfterSnapshot(rows, v)|
    ensures var row, total := AfterSnapshot(rows, v)[i], v.portfolioValue + v.cash;
            var from := if rows == [] then v.quota else rows[|rows| - 1].totalValue;
            var high := if rows == [] then v.quota else rows[|rows| - 1].peakValue;
            && row.date == v.date && row.portfolioValue == v.portfolioValue && row.cash == v.cash
            && row.totalValue == total && row.dailyPnl == total - from
            && row.peakValue == (if high > total then high else total)
            && (from > 0.0 ==> row.dailyPnlRate * from == row.dailyPnl)
            && (from <= 0.0 ==> row.dailyPnlRate == 0.0)
            && (row.peakValue > 0.0 ==> row.drawdown * row.peakValue == row.peakValue - total)
            && (row.peakValue <= 0.0 ==> row.drawdown == 0.0)
    ensures |AfterSnapshot(rows, v)| == |rows| + (if exists k :: 0 <= k < |rows| && rows[k].date == v.date then 0 else 1)
    ensures forall k :: 0 <= k < |rows| && k != i ==> AfterSnapshot(rows, v)[k] == rows[k]
  {
    i := RowOf(rows, v.date);
    var row := AfterSnapshot(rows, v)[i];
    var from := if rows == [] then v.quota else rows[|rows| - 1].totalValue;
    RateTimesBase(row.totalValue - from, from);
    RateTimesBase(row.peakValue - row.totalValue, row.peakValue);
  }

  lemma RateTimesBase(amount: real, base: real)
    ensures base > 0.0 ==> Rate(amount, base) * base == amount
    ensures base <= 0.0 ==> Rate(amount, base) == 0.0
  {
  }

  /** The table after a snapshot of each valuation in turn. */
  function Taken(vs: seq<Valuation>): seq<Snapshot> {
    if vs == [] then [] else AfterSnapshot(Taken(vs[..|vs| - 1]), vs[|vs| - 1])
  }

  // ---------------------------------------------------------------------------
  // What the rows mean
  // ---------------------------------------------------------------------------

  /** A day that is over does not come back. */
  ghost predicate DaysPass(vs: seq<Valuation>) {
    forall i, j, k :: 0 <= i <= j <= k < |vs| && vs[i].date == vs[k].date ==> vs[i].date == vs[j].date
  }

  /** The highest the session has stood at any of these moments, or the quota it started from. */
  function HighWater(vs: seq<Valuation>): real
    requires vs != []
  {
    var last := vs[|vs| - 1];
    if |vs| == 1 then MaxReal(last.quota, last.Total()) else MaxReal(HighWater(vs[..|vs| - 1]), last.Total())
  }

  /** The moment before the last one, or the start. */
  function Before(vs: seq<Valuation>): real
    requires vs != []
  {
    if |vs| == 1 then vs[0].quota else vs[|vs| - 2].Total()
  }

  /** The last moment of `vs`, measured against its whole past instead of against stored rows. */
  function Closing(vs: seq<Valuation>): Snapshot
    requires vs != []
  {
    SnapshotOf(vs[|vs| - 1], Before(vs), HighWater(vs))
  }

  predicate SameDayAgain(vs: seq<Valuation>) {
    |vs| > 1 && vs[|vs| - 2].date == vs[|vs| - 1].date
  }

  /** One row per day: its last moment. */
  function Closings(vs: seq<Valuation>): (rows: seq<Snapshot>)
    ensures vs != [] ==> rows != [] && rows[|rows| - 1] == Closing(vs)
    ensures vs == [] ==> rows == []
  {
    if vs == [] then []
    else
      var earlier := Closings(vs[..|vs| - 1]);
      (if SameDayAgain(vs) then earlier[..|earlier| - 1] else earlier) + [Closing(vs)]
  }

  lemma {:induction false} ClosingsHaveTheDates(vs: seq<Valuation>)
    requires DaysPass(vs)
    ensures forall row :: row in Closings(vs) ==> exists i :: 0 <= i < |vs| && vs[i].date == row.date
    ensures forall i, j :: 0 <= i < j < |Closings(vs)| ==> Closings(vs)[i].date != Closings(vs)[j].date
  {
    if vs != [] {
      hide Closing, DaysPass;
      var before, last := vs[..|vs| - 1], vs[|vs| - 1];
      DaysPassedBefore(vs);
      ClosingsHaveTheDates(before);
      var earlier := Closings(before);
      assert Closing(vs).date == last.date by { ClosingDate(vs); }
      if before != [] {
        ClosingDate(before);
      }
      forall i | 0 <= i < |Closings(vs)| - 1
        ensures Closings(vs)[i].date != last.date
        ensures exists k :: 0 <= k < |vs| && vs[k].date == Closings(vs)[i].date
      {
        assert Closings(vs)[i] == earlier[i] && earlier[i] in earlier;
        var k :| 0 <= k < |before| && before[k].date == earlier[i].date;
        assert vs[k] == before[k];
        EarlierDay(vs, k);
      }
    }
  }

  lemma ClosingDate(vs: seq<Valuation>)
    requires vs != []
    ensures Closing(vs).date == vs[|vs| - 1].date
  {
  }

  lemma DaysPassedBefore(vs: seq<Valuation>)
    requires vs != [] && DaysPass(vs)
    ensures DaysPass(vs[..|vs| - 1])
  {
  }

  /** If an earlier moment has today's date, so has the moment just before. */
  lemma EarlierDay(vs: seq<Valuation>, k: nat)
    requires DaysPass(vs) && k < |vs| - 1
    ensures vs[k].date == vs[|vs| - 1].date ==> vs[|vs| - 2].date == vs[|vs| - 1].date
  {
    assert vs[k].date == vs[|vs| - 1].date ==> vs[k].date == vs[|vs| - 2].date;
  }

  /** Today's row is the last one or missing. */
  lemma RowOfToday(vs: seq<Valuation>)
    requires vs != [] && DaysPass(vs)
    ensures var rows := Closings(vs[..|vs| - 1]);
            RowOf(rows, vs[|vs| - 1].date) == if SameDayAgain(vs) then |rows| - 1 else |rows|
  {
    hide Closing, Closings, DaysPass;
    var before, last := vs[..|vs| - 1], vs[|vs| - 1];
    var rows := Closings(before);
    DaysPassedBefore(vs);
    ClosingsHaveTheDates(before);
    if before != [] {
      ClosingDate(before);
      assert before[|before| - 1] == vs[|vs| - 2];
    }
    var i := RowOf(rows, last.date);
    if i < |rows| {
      assert rows[i] in rows;
      var k :| 0 <= k < |before| && before[k].date == rows[i].date;
      EarlierDay(vs, k);
    }
  }

  /**
   What the table holds: as long as days do not come back, exactly one row per day, its last moment,
   whose peak is the highest value at any moment so far, stored or overwritten, and whose profit is
   measured from the moment before.
   */
  lemma {:induction false} RowsAreClosings(vs: seq<Valuation>)
    requires DaysPass(vs)
    ensures Taken(vs) == Closings(vs)
  {
    if vs != [] {
      hide Closing, Closings, DaysPass, Measured, SameDayAgain;
      var before := vs[..|vs| - 1];
      DaysPassedBefore(vs);
      RowsAreClosings(before);
      var rows := Closings(before);
      RowOfToday(vs);
      MeasuredIsClosing(vs);
      OneClosingMore(vs);
      if SameDayAgain(vs) {
        assert rows[|rows| - 1 := Closing(vs)] == rows[..|rows| - 1] + [Closing(vs)];
      }
    }
  }

  lemma MeasuredIsClosing(vs: seq<Valuation>)
    requires vs != []
    ensures Measured(Closings(vs[..|vs| - 1]), vs[|vs| - 1]) == Closing(vs)
  {
  }

  lemma OneClosingMore(vs: seq<Valuation>)
    requires vs != []
    ensures var earlier := Closings(vs[..|vs| - 1]);
            Closings(vs) == (if SameDayAgain(vs) then earlier[..|earlier| - 1] else earlier) + [Closing(vs)]
    ensures |vs| > 1 ==>
              var earlier := Closings(vs[..|vs| - 1]); earlier != [] && earlier[|earlier| - 1] == Closing(vs[..|vs| - 1])
  {
  }

  // ---------------------------------------------------------------------------
  // The profit of the day
  // ---------------------------------------------------------------------------

  /** What the session was worth when the previous day was last measured, or its quota. */
  function PreviousDay(vs: seq<Valuation>): real
    requires vs != []
  {
    if SameDayAgain(vs) then PreviousDay(vs[..|vs| - 1]) else Before(vs)
  }

  lemma RateOfBase(amount: real, base: real)
    ensures base > 0.0 ==> Rate(amount, base) * base == amount
  {
  }

  /** The stored profit is the profit since the previous day, exactly when nothing was made before the day's earlier snapshot. */
  lemma DailyPnlIsOfTheDayWhen(vs: seq<Valuation>)
    requires vs != [] && DaysPass(vs)
    ensures Taken(vs) != []
    ensures var row := Taken(vs)[|Taken(vs)| - 1];
            && row.date == vs[|vs| - 1].date
            && (row.dailyPnl == vs[|vs| - 1].Total() - PreviousDay(vs)
                <==> !SameDayAgain(vs) || vs[|vs| - 2].Total() == PreviousDay(vs))
            && (Before(vs) > 0.0 ==> row.dailyPnlRate * Before(vs) == row.dailyPnl)
  {
    hide HighWater, Taken, DaysPass;
    RowsAreClosings(vs);
    assert Before(vs) > 0.0 ==> Rate(Closing(vs).dailyPnl, Before(vs)) * Before(vs) == Closing(vs).dailyPnl by {
      RateOfBase(Closing(vs).dailyPnl, Before(vs));
    }
  }

  /** A second snapshot after the market has closed reports a day without profit, whatever the day made. */
  lemma SecondSnapshotHidesTheDay(vs: seq<Valuation>, again: Valuation)
    requires DaysPass(vs + [again]) && vs != []
    requires again.date == vs[|vs| - 1].date && again.Total() == vs[|vs| - 1].Total()
    ensures var rows := Taken(vs + [again]);
            rows != [] && rows[|rows| - 1].date == again.date
            && rows[|rows| - 1].dailyPnl == 0.0 && rows[|rows| - 1].dailyPnlRate == 0.0
  {
    var all := vs + [again];
    assert all[|all| - 2] == vs[|vs| - 1];
    RowsAreClosings(all);
    assert Before(all) == again.Total();
  }

  function PnlTotal(rows: seq<Snapshot>): real {
    if rows == [] then 0.0 else PnlTotal(rows[..|rows| - 1]) + rows[|rows| - 1].dailyPnl
  }

  /** Profit measured by snapshots that a later one of the same day replaced. */
  function Overwritten(vs: seq<Valuation>): real {
    if vs == [] then 0.0
    else Overwritten(vs[..|vs| - 1]) + if SameDayAgain(vs) then Closing(vs[..|vs| - 1]).dailyPnl else 0.0
  }

  lemma PnlAppend(rows: seq<Snapshot>, row: Snapshot)
    ensures PnlTotal(rows + [row]) == PnlTotal(rows) + row.dailyPnl
  {
    assert (rows + [row])[..|rows|] == rows;
  }

  lemma {:induction false} ClosingsAddUp(vs: seq<Valuation>)
    requires vs != []
    ensures PnlTotal(Closings(vs)) + Overwritten(vs) == vs[|vs| - 1].Total() - vs[0].quota
  {
    hide PnlTotal, Closings, HighWater;
    var n := |vs| - 1;
    OneClosingMore(vs);
    var earlier := Closings(vs[..n]);
    if n > 0 {
      ClosingsAddUp(vs[..n]);
      assert earlier == earlier[..|earlier| - 1] + [earlier[|earlier| - 1]];
      PnlAppend(earlier[..|earlier| - 1], earlier[|earlier| - 1]);
      PnlAppend(if SameDayAgain(vs) then earlier[..|earlier| - 1] else earlier, Closing(vs));
    } else {
      NoRows();
      PnlAppend([], Closing(vs));
    }
  }

  lemma NoRows()
    ensures PnlTotal([]) == 0.0 && Overwritten([]) == 0.0 && Closings([]) == []
  {
  }

  /**
   Where the daily profits go: over the whole table they add up to what the session has made, minus
   what snapshots replaced on the same day had measured; with one snapshot a day they add up exactly.
   */
  lemma DailyProfitsAddUp(vs: seq<Valuation>)
    requires vs != [] && DaysPass(vs)
    ensures PnlTotal(Taken(vs)) == vs[|vs| - 1].Total() - vs[0].quota - Overwritten(vs)
    ensures (forall i :: 0 < i < |vs| ==> vs[i - 1].date != vs[i].date) ==>
              PnlTotal(Taken(vs)) == vs[|vs| - 1].Total() - vs[0].quota
  {
    hide PnlTotal, Closings, Taken, DaysPass, Overwritten;
    RowsAreClosings(vs);
    ClosingsAddUp(vs);
    if forall i :: 0 < i < |vs| ==> vs[i - 1].date != vs[i].date {
      NothingOverwritten(vs);
    }
  }

  lemma {:induction false} NothingOverwritten(vs: seq<Valuation>)
    requires forall i :: 0 < i < |vs| ==> vs[i - 1].date != vs[i].date
    ensures Overwritten(vs) == 0.0
  {
    if vs != [] {
      NothingOverwritten(vs[..|vs| - 1]);
      assert |vs| > 1 ==> vs[|vs| - 2].date != vs[|vs| - 1].date;
    }
  }

  // ---------------------------------------------------------------------------
  // Peak and drawdown
  // ---------------------------------------------------------------------------

  lemma {:induction false} HighWaterIsHighest(vs: seq<Valuation>)
    requires vs != []
    ensures HighWater(vs) >= vs[0].quota && forall i :: 0 <= i < |vs| ==> vs[i].Total() <= HighWater(vs)
    ensures HighWater(vs) == vs[0].quota || exists i :: 0 <= i < |vs| && vs[i].Total() == HighWater(vs)
  {
    var n := |vs| - 1;
    if n > 0 {
      var before := vs[..n];
      HighWaterIsHighest(before);
      assert forall i :: 0 <= i < n ==> before[i] == vs[i];
      if HighWater(vs) == HighWater(before) && HighWater(before) != vs[0].quota {
        var i :| 0 <= i < |before| && before[i].Total() == HighWater(before);
        assert vs[i].Total() == HighWater(vs);
      }
    }
  }

  lemma FractionBounds(x: real, y: real)
    requires y > 0.0 && 0.0 <= x <= y
    ensures 0.0 <= x / y <= 1.0 && (x / y == 0.0 <==> x == 0.0) && (x / y == 1.0 <==> x == y)
  {
    assert x / y * y == x;
    TimesPositive(x / y, y);
  }

  /** The drawdown of a day is a fraction; it is zero exactly at a new high and one exactly when everything is lost. */
  lemma DrawdownIsAFraction(vs: seq<Valuation>)
    requires vs != [] && vs[0].quota > 0.0 && vs[|vs| - 1].Total() >= 0.0
    ensures var row := Closing(vs);
            && row.peakValue == HighWater(vs) && 0.0 <= row.drawdown <= 1.0
            && (row.drawdown == 0.0 <==> row.totalValue == HighWater(vs))
            && (row.drawdown == 1.0 <==> row.totalValue == 0.0)
  {
    HighWaterIsHighest(vs);
    FractionBounds(HighWater(vs) - vs[|vs| - 1].Total(), HighWater(vs));
  }

  /** `maxDrawdown` of the report. */
  function MaxDrawdown(rows: seq<Snapshot>): real {
    if rows == [] then 0.0
    else if |rows| == 1 then rows[0].drawdown
    else MaxReal(MaxDrawdown(rows[..|rows| - 1]), rows[|rows| - 1].drawdown)
  }

  /** The largest drawdown of any row, or zero without rows. */
  lemma {:induction false} MaxDrawdownIsTheLargest(rows: seq<Snapshot>)
    ensures rows == [] ==> MaxDrawdown(rows) == 0.0
    ensures rows != [] ==> exists i :: 0 <= i < |rows| && rows[i].drawdown == MaxDrawdown(rows)
    ensures forall i :: 0 <= i < |rows| ==> rows[i].drawdown <= MaxDrawdown(rows)
  {
    if |rows| > 1 {
      var before := rows[..|rows| - 1];
      MaxDrawdownIsTheLargest(before);
      var i :| 0 <= i < |before| && before[i].drawdown == MaxDrawdown(before);
      assert rows[i] == before[i] && forall k :: 0 <= k < |before| ==> rows[k] == before[k];
      assert rows[|rows| - 1].drawdown <= MaxDrawdown(rows);
    } else if |rows| == 1 {
      assert rows[0].drawdown == MaxDrawdown(rows);
    }
  }

  lemma MaxDrawdownAppend(rows: seq<Snapshot>, row: Snapshot)
    ensures MaxDrawdown(rows + [row]) == if rows == [] then row.drawdown else MaxReal(MaxDrawdown(rows), row.drawdown)
  {
    assert (rows + [row])[..|rows|] == rows;
  }

  /** The deepest fall from the highest value so far, over every moment a snapshot was taken. */
  function DeepestFall(vs: seq<Valuation>): real
    requires vs != []
  {
    var fall := Rate(HighWater(vs) - vs[|vs| - 1].Total(), HighWater(vs));
    if |vs| == 1 then fall else MaxReal(DeepestFall(vs[..|vs| - 1]), fall)
  }

  lemma DroppingLowers(rows: seq<Snapshot>)
    requires |rows| > 1
    ensures MaxDrawdown(rows[..|rows| - 1]) <= MaxDrawdown(rows)
  {
  }

  lemma {:induction false} ClosingsFall(vs: seq<Valuation>)
    requires vs != []
    ensures MaxDrawdown(Closings(vs)) <= DeepestFall(vs)
    ensures (forall i :: 0 < i < |vs| ==> vs[i - 1].date != vs[i].date) ==> MaxDrawdown(Closings(vs)) == DeepestFall(vs)
  {
    hide MaxDrawdown, Closings, HighWater, Rate, SameDayAgain;
    var n := |vs| - 1;
    OneClosingMore(vs);
    var earlier := Closings(vs[..n]);
    if n > 0 {
      ClosingsFall(vs[..n]);
      if SameDayAgain(vs) {
        MaxDrawdownAppend(earlier[..|earlier| - 1], Closing(vs));
        if |earlier| > 1 {
          DroppingLowers(earlier);
        }
        assert vs[n - 1].date == vs[n].date by { Again(vs); }
      } else {
        MaxDrawdownAppend(earlier, Closing(vs));
      }
    } else {
      NoRows();
      MaxDrawdownAppend([], Closing(vs));
      assert !SameDayAgain(vs) by { Again(vs); }
    }
  }

  lemma Again(vs: seq<Valuation>)
    ensures SameDayAgain(vs) <==> |vs| > 1 && vs[|vs| - 2].date == vs[|vs| - 1].date
  {
  }

  /**
   The drawdown the report gives never exceeds the deepest fall the session was seen in, and is that
   fall when there is one snapshot a day.
   */
  lemma MaxDrawdownIsTheDeepestFall(vs: seq<Valuation>)
    requires vs != [] && DaysPass(vs)
    ensures MaxDrawdown(Taken(vs)) <= DeepestFall(vs)
    ensures (forall i :: 0 < i < |vs| ==> vs[i - 1].date != vs[i].date) ==> MaxDrawdown(Taken(vs)) == DeepestFall(vs)
  {
    hide MaxDrawdown, Closings, DaysPass, Taken, DeepestFall;
    RowsAreClosings(vs);
    ClosingsFall(vs);
  }
}
