/**
 * `load_data` of the trend dashboard: the table is read once, then a `date`
 * column is added in place when the table has `year` and `month` columns,
 * and a `delay_rate` column is added in place when the table does not
 * already carry one.
 */
module LoadData {
  import opened Wrappers
  import opened Records

  /** The columns whose presence decides what `load_data` derives. */
  datatype Column = YearColumn | MonthColumn | DateColumn | DelayRateColumn

  /** Every row's first of the month can be converted. */
  predicate AllDatesRepresentable(rows: seq<Record>) {
    forall i :: 0 <= i < |rows| ==> Representable(rows[i].year, rows[i].month)
  }

  /** Every row with its `date` set to the first of its month. */
  function WithDates(rows: seq<Record>): (r: seq<Record>)
    ensures |r| == |rows|
  {
    seq(|rows|, i requires 0 <= i < |rows| => rows[i].(date := Date(rows[i].year, rows[i].month)))
  }

  /** Every row with its `delay_rate` computed from its flight counts. */
  function WithDelayRates(rows: seq<Record>): (r: seq<Record>)
    ensures |r| == |rows|
  {
    seq(|rows|, i requires 0 <= i < |rows| => rows[i].(delayRate := DelayRate(rows[i].arrDel15, rows[i].arrFlights)))
  }

  predicate HasYearAndMonth(columns: set<Column>) {
    YearColumn in columns && MonthColumn in columns
  }

  /**
   * Whether loading succeeds: the date conversion raises on a month outside
   * 1..12 or a first of the month outside the timestamp range.
   */
  predicate LoadSucceeds(rows: seq<Record>, columns: set<Column>) {
    HasYearAndMonth(columns) ==> AllDatesRepresentable(rows)
  }

  /** The rows `load_data` returns. */
  function LoadedRows(rows: seq<Record>, columns: set<Column>): seq<Record> {
    var dated := if HasYearAndMonth(columns) then WithDates(rows) else rows;
    if DelayRateColumn in columns then dated else WithDelayRates(dated)
  }

  /** The columns `load_data` returns. */
  function LoadedColumns(columns: set<Column>): set<Column> {
    columns + (if HasYearAndMonth(columns) then {DateColumn} else {}) + {DelayRateColumn}
  }

  /**
   * After loading, every row is the row read with at most its `date` and
   * `delay_rate` columns replaced; a `delay_rate` already present is kept,
   * a derived one is the guarded quotient, so it lies in [0, 1] for
   * consistent counts; a `date` is derived exactly when `year` and `month`
   * exist; every other column is unchanged.
   */
  lemma LoadedRowsFacts(rows: seq<Record>, columns: set<Column>, i: int)
    requires 0 <= i < |rows|
    ensures |LoadedRows(rows, columns)| == |rows|
    ensures var r, l := rows[i], LoadedRows(rows, columns)[i];
      && l == r.(date := l.date, delayRate := l.delayRate)
      && l.date == (if HasYearAndMonth(columns) then Date(r.year, r.month) else r.date)
      && (DelayRateColumn in columns ==> l.delayRate == r.delayRate)
      && (DelayRateColumn !in columns ==>
            && (r.arrFlights <= 0 ==> l.delayRate == 0.0)
            && (r.arrFlights > 0 ==> l.delayRate * (r.arrFlights as real) == r.arrDel15 as real)
            && (0 <= r.arrDel15 <= r.arrFlights ==> 0.0 <= l.delayRate <= 1.0))
  {
    var dated := if HasYearAndMonth(columns) then WithDates(rows) else rows;
    assert dated[i].arrFlights == rows[i].arrFlights && dated[i].arrDel15 == rows[i].arrDel15;
  }

  /** The table `load_data` works on: its rows and the set of columns it has. */
  class DelayFrame {
    var rows: seq<Record>
    var columns: set<Column>

    constructor (rows0: seq<Record>, columns0: set<Column>)
      ensures rows == rows0 && columns == columns0
    {
      rows := rows0;
      columns := columns0;
    }

    /**
     * `df["date"] = pd.to_datetime(year + "-" + month + "-01")`. The
     * conversion either succeeds for every row or raises and leaves the
     * table as it was.
     */
    method AddDateColumn() returns (ok: bool)
      modifies this
      ensures ok <==> AllDatesRepresentable(old(rows))
      ensures ok ==> rows == WithDates(old(rows)) && columns == old(columns) + {DateColumn}
      ensures !ok ==> rows == old(rows) && columns == old(columns)
    {
      var out: seq<Record> := [];
      var i := 0;
      while i < |rows|
        invariant 0 <= i <= |rows|
        invariant |out| == i
        invariant forall k :: 0 <= k < i ==> Representable(rows[k].year, rows[k].month)
        invariant forall k :: 0 <= k < i ==> out[k] == rows[k].(date := Date(rows[k].year, rows[k].month))
      {
        var d := FirstOfMonth(rows[i].year, rows[i].month);
        if d.None? {
          return false;
        }
        out := out + [rows[i].(date := d.value)];
        i := i + 1;
      }
      rows := out;
      columns := columns + {DateColumn};
      ok := true;
    }

    /** `df["delay_rate"] = df.apply(lambda x: ..., axis=1)`, row by row. */
    method AddDelayRateColumn()
      modifies this
      ensures rows == WithDelayRates(old(rows))
      ensures columns == old(columns) + {DelayRateColumn}
    {
      var out: seq<Record> := [];
      for i := 0 to |rows|
        invariant |out| == i
        invariant forall k :: 0 <= k < i ==>
          out[k] == rows[k].(delayRate := DelayRate(rows[k].arrDel15, rows[k].arrFlights))
      {
        out := out + [rows[i].(delayRate := DelayRate(rows[i].arrDel15, rows[i].arrFlights))];
      }
      rows := out;
      columns := columns + {DelayRateColumn};
    }

    /** `load_data`: derive the missing columns, or fail when the dates cannot be built. */
    method Load() returns (ok: bool)
      modifies this
      ensures ok <==> LoadSucceeds(old(rows), old(columns))
      ensures ok ==> rows == LoadedRows(old(rows), old(columns)) && columns == LoadedColumns(old(columns))
      ensures !ok ==> rows == old(rows) && columns == old(columns)
    {
      ok := true;
      if YearColumn in columns && MonthColumn in columns {
        ok := AddDateColumn();
        if !ok {
          return;
        }
      }
      if DelayRateColumn !in columns {
        AddDelayRateColumn();
      }
    }
  }
}
