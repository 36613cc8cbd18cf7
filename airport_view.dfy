/**
 * The "Airport Analysis" view: the filtered copy gets an `airport_display`
 * column ("City (CODE)") assigned in place; an airline select box ("All" or
 * one carrier), an airport multi-select over display labels, a year range
 * and a month range given by labels such as "3-Mar" narrow it; three KPIs
 * summarise the result.
 */
module AirportView {
  import opened Wrappers
  import Seqs
  import Text
  import opened Records

  /** Every row with its display label. */
  function WithDisplay(rows: seq<Record>): (r: seq<Record>)
    ensures |r| == |rows|
  {
    seq(|rows|, i requires 0 <= i < |rows| => rows[i].(airportDisplay := AirportLabel(rows[i].city, rows[i].airportCode)))
  }

  /** Gives every row, in place and one row at a time, the display label built from its city and airport code. */
  method AssignAirportDisplay(a: array<Record>)
    modifies a
    ensures a[..] == WithDisplay(old(a[..]))
  {
    for i := 0 to a.Length
      invariant forall k :: 0 <= k < i ==> a[k] == old(a[k]).(airportDisplay := AirportLabel(old(a[k]).city, old(a[k]).airportCode))
      invariant forall k :: i <= k < a.Length ==> a[k] == old(a[k])
    {
      a[i] := a[i].(airportDisplay := AirportLabel(a[i].city, a[i].airportCode));
    }
  }

  /** The airport multi-select: the sorted distinct display labels. */
  function AirportList(rows: seq<Record>): seq<string> {
    Text.SortedStrings(DisplayLabels(rows))
  }

  /**
   * Every row's carrier and label are offered, options are sorted and
   * unrepeated, and only "All" and labels that some row has are offered.
   */
  lemma OptionsFacts(rows: seq<Record>)
    ensures AirlineList(rows)[0] == "All"
    ensures Seqs.StrictlySorted(AirportList(rows), Text.StrLt)
    ensures forall r :: r in rows ==> r.carrier in AirlineList(rows) && AirportLabel(r.city, r.airportCode) in AirportList(rows)
    ensures forall l :: l in AirportList(rows) <==> exists r :: r in rows && AirportLabel(r.city, r.airportCode) == l
  {
    forall r | r in rows ensures r.carrier in AirlineList(rows) && AirportLabel(r.city, r.airportCode) in AirportList(rows) {
      var i :| 0 <= i < |rows| && rows[i] == r;
      assert Carriers(rows)[i] == r.carrier;
      assert DisplayLabels(rows)[i] == AirportLabel(r.city, r.airportCode);
    }
    forall l | l in AirportList(rows) ensures exists r :: r in rows && AirportLabel(r.city, r.airportCode) == l {
      var i :| 0 <= i < |rows| && DisplayLabels(rows)[i] == l;
      assert rows[i] in rows;
    }
  }

  /** The month slider's labels. */
  const MonthLabels: seq<string> :=
    ["1-Jan", "2-Feb", "3-Mar", "4-Apr", "5-May", "6-Jun", "7-Jul", "8-Aug", "9-Sep", "10-Oct", "11-Nov", "12-Dec"]

  /** `int(label.split("-")[0])`; None where `int` would raise. */
  function MonthOfLabel(name: string): Option<nat> {
    Text.ParseDecimal(Text.BeforeFirst(name, '-'))
  }

  /** A label written as a number, a dash and anything parses back to that number. */
  lemma MonthOfNumberLabel(k: nat, rest: string)
    ensures MonthOfLabel(Text.NatToDecimal(k) + "-" + rest) == Some(k)
  {
    var d := Text.NatToDecimal(k);
    assert !Text.IsDigit('-');
    assert '-' !in d;
    Text.BeforeFirstOfJoin(d, '-', rest);
    assert d + "-" + rest == d + ['-'] + rest;
    Text.ParseNatToDecimal(k);
  }

  /** The slider's first and last labels are months 1 and 12. */
  lemma DefaultMonthLabels()
    ensures MonthOfLabel(MonthLabels[0]) == Some(1)
    ensures MonthOfLabel(MonthLabels[11]) == Some(12)
  {
    MonthOfNumberLabel(1, "Jan");
    assert Text.NatToDecimal(1) + "-" + "Jan" == "1-Jan";
    MonthOfNumberLabel(12, "Dec");
    assert Text.NatToDecimal(12) + "-" + "Dec" == "12-Dec";
  }

  /** The widget state: airline or "All", chosen labels, the year range and the month range labels. */
  datatype AirportSelection = AirportSelection(
    airline: string, airports: seq<string>, yearLo: int, yearHi: int, monthLo: string, monthHi: string)

  predicate AirlineOk(airline: string, r: Record) {
    airline != "All" ==> r.carrier == airline
  }

  predicate DisplayOk(airports: seq<string>, r: Record) {
    |airports| != 0 ==> r.airportDisplay in airports
  }

  predicate InRange(lo: int, x: int, hi: int) {
    lo <= x <= hi
  }

  /** `df_f` after the airline, airport and year filters, in that order. */
  function BeforeMonths(rows: seq<Record>, sel: AirportSelection): seq<Record> {
    var d := WithDisplay(rows);
    var f1 := if sel.airline != "All" then Seqs.Filter(d, (r: Record) => AirlineOk(sel.airline, r)) else d;
    var f2 := if |sel.airports| != 0 then Seqs.Filter(f1, (r: Record) => DisplayOk(sel.airports, r)) else f1;
    Seqs.Filter(f2, (r: Record) => InRange(sel.yearLo, r.year, sel.yearHi))
  }

  /**
   * `df_f` after the month filter as well; None where a month label does
   * not parse, since the view then raises instead of drawing.
   */
  function FilterAirportTab(rows: seq<Record>, sel: AirportSelection): Option<seq<Record>> {
    match (MonthOfLabel(sel.monthLo), MonthOfLabel(sel.monthHi))
    case (Some(lo), Some(hi)) => Some(Seqs.Filter(BeforeMonths(rows, sel), (r: Record) => InRange(lo, r.month, hi)))
    case _ => None
  }

  /**
   * The view as the dashboard runs it: a fresh copy of the table gets its
   * display column in place, then the filters run on that copy.
   */
  method AirportTab(rows: seq<Record>, sel: AirportSelection) returns (res: Option<seq<Record>>)
    ensures res == FilterAirportTab(rows, sel)
  {
    var a := new Record[|rows|](i requires 0 <= i < |rows| => rows[i]);
    assert a[..] == rows;
    AssignAirportDisplay(a);
    var d := a[..];
    var f1 := if sel.airline != "All" then Seqs.Filter(d, (r: Record) => AirlineOk(sel.airline, r)) else d;
    var f2 := if |sel.airports| != 0 then Seqs.Filter(f1, (r: Record) => DisplayOk(sel.airports, r)) else f1;
    var f3 := Seqs.Filter(f2, (r: Record) => InRange(sel.yearLo, r.year, sel.yearHi));
    assert f3 == BeforeMonths(rows, sel);
    var lo, hi := MonthOfLabel(sel.monthLo), MonthOfLabel(sel.monthHi);
    if lo.Some? && hi.Some? {
      res := Some(Seqs.Filter(f3, (r: Record) => InRange(lo.value, r.month, hi.value)));
    } else {
      res := None;
    }
  }

  lemma WithDisplayLabels(rows: seq<Record>)
    ensures forall r :: r in WithDisplay(rows) ==> r.airportDisplay == AirportLabel(r.city, r.airportCode)
  {
    var d := WithDisplay(rows);
    forall r | r in d ensures r.airportDisplay == AirportLabel(r.city, r.airportCode) {
      var i :| 0 <= i < |d| && d[i] == r;
    }
  }

  predicate PassesBeforeMonths(sel: AirportSelection, r: Record) {
    AirlineOk(sel.airline, r) && DisplayOk(sel.airports, r) && InRange(sel.yearLo, r.year, sel.yearHi)
  }

  predicate AirlineDisplayOk(sel: AirportSelection, r: Record) {
    AirlineOk(sel.airline, r) && DisplayOk(sel.airports, r)
  }

  /** A row survives the whole view when it passes the first three filters and its month is in range. */
  predicate PassesAirportTab(sel: AirportSelection, lo: int, hi: int, r: Record) {
    PassesBeforeMonths(sel, r) && InRange(lo, r.month, hi)
  }

  /** The airline, airport and year filters in a row are the single mask `PassesBeforeMonths`. */
  lemma BeforeMonthsIsConjunction(rows: seq<Record>, sel: AirportSelection)
    ensures BeforeMonths(rows, sel) == Seqs.Filter(WithDisplay(rows), (r: Record) => PassesBeforeMonths(sel, r))
  {
    var d := WithDisplay(rows);
    var f1 := if sel.airline != "All" then Seqs.Filter(d, (r: Record) => AirlineOk(sel.airline, r)) else d;
    Seqs.FilterWhenIs(d, sel.airline != "All", (r: Record) => AirlineOk(sel.airline, r), (r: Record) => AirlineOk(sel.airline, r));
    Seqs.FilterWhenIs(f1, |sel.airports| != 0, (r: Record) => DisplayOk(sel.airports, r), (r: Record) => DisplayOk(sel.airports, r));
    Seqs.FilterFuse(d, (r: Record) => AirlineOk(sel.airline, r), (r: Record) => DisplayOk(sel.airports, r),
      (r: Record) => AirlineDisplayOk(sel, r));
    Seqs.FilterFuse(d, (r: Record) => AirlineDisplayOk(sel, r), (r: Record) => InRange(sel.yearLo, r.year, sel.yearHi),
      (r: Record) => PassesBeforeMonths(sel, r));
  }

  /**
   * Before the month filter the view keeps, in order and with their
   * multiplicity, exactly the labelled rows of the chosen airline (unless
   * "All") whose label is among the chosen ones (unless none is chosen),
   * with year inside the inclusive range.
   */
  lemma BeforeMonthsMembers(rows: seq<Record>, sel: AirportSelection)
    ensures BeforeMonths(rows, sel) == Seqs.Filter(WithDisplay(rows), (r: Record) => PassesBeforeMonths(sel, r))
    ensures Seqs.IsSubsequence(BeforeMonths(rows, sel), WithDisplay(rows))
    ensures forall r :: r in BeforeMonths(rows, sel) <==>
      && r in WithDisplay(rows)
      && (sel.airline != "All" ==> r.carrier == sel.airline)
      && (|sel.airports| != 0 ==> AirportLabel(r.city, r.airportCode) in sel.airports)
      && sel.yearLo <= r.year <= sel.yearHi
    ensures forall r :: multiset(BeforeMonths(rows, sel))[r] == (if PassesBeforeMonths(sel, r) then multiset(WithDisplay(rows))[r] else 0)
  {
    BeforeMonthsIsConjunction(rows, sel);
    BeforeMonthsByLabel(rows, sel);
    Seqs.FilterMultiplicity(WithDisplay(rows), (r: Record) => PassesBeforeMonths(sel, r));
  }

  lemma BeforeMonthsByLabel(rows: seq<Record>, sel: AirportSelection)
    ensures forall r :: r in BeforeMonths(rows, sel) <==>
      && r in WithDisplay(rows)
      && (sel.airline != "All" ==> r.carrier == sel.airline)
      && (|sel.airports| != 0 ==> AirportLabel(r.city, r.airportCode) in sel.airports)
      && sel.yearLo <= r.year <= sel.yearHi
  {
    BeforeMonthsIsConjunction(rows, sel);
    WithDisplayLabels(rows);
  }

  /**
   * The view draws exactly when both month labels parse; it then keeps, in
   * order and with their multiplicity, exactly the labelled rows of the
   * chosen airline (unless "All") whose label is among the chosen ones
   * (unless none is chosen), with year and month inside the inclusive
   * ranges.
   */
  lemma FilterAirportTabKeeps(rows: seq<Record>, sel: AirportSelection)
    ensures FilterAirportTab(rows, sel).Some? <==> MonthOfLabel(sel.monthLo).Some? && MonthOfLabel(sel.monthHi).Some?
    ensures FilterAirportTab(rows, sel).Some? ==>
      var res, lo, hi := FilterAirportTab(rows, sel).value, MonthOfLabel(sel.monthLo).value, MonthOfLabel(sel.monthHi).value;
      && res == Seqs.Filter(WithDisplay(rows), (r: Record) => PassesAirportTab(sel, lo, hi, r))
      && Seqs.IsSubsequence(res, WithDisplay(rows))
      && (forall r :: r in res <==>
           && r in WithDisplay(rows)
           && (sel.airline != "All" ==> r.carrier == sel.airline)
           && (|sel.airports| != 0 ==> AirportLabel(r.city, r.airportCode) in sel.airports)
           && sel.yearLo <= r.year <= sel.yearHi
           && lo <= r.month <= hi)
      && forall r :: multiset(res)[r] == if PassesAirportTab(sel, lo, hi, r) then multiset(WithDisplay(rows))[r] else 0
  {
    if FilterAirportTab(rows, sel).Some? {
      MonthsFilterKeeps(rows, sel, MonthOfLabel(sel.monthLo).value, MonthOfLabel(sel.monthHi).value);
    }
  }

  lemma MonthsFilterKeeps(rows: seq<Record>, sel: AirportSelection, lo: int, hi: int)
    ensures var res := Seqs.Filter(BeforeMonths(rows, sel), (r: Record) => InRange(lo, r.month, hi));
      && res == Seqs.Filter(WithDisplay(rows), (r: Record) => PassesAirportTab(sel, lo, hi, r))
      && Seqs.IsSubsequence(res, WithDisplay(rows))
      && (forall r :: r in res <==>
           && r in WithDisplay(rows)
           && (sel.airline != "All" ==> r.carrier == sel.airline)
           && (|sel.airports| != 0 ==> AirportLabel(r.city, r.airportCode) in sel.airports)
           && sel.yearLo <= r.year <= sel.yearHi
           && lo <= r.month <= hi)
      && forall r :: multiset(res)[r] == if PassesAirportTab(sel, lo, hi, r) then multiset(WithDisplay(rows))[r] else 0
  {
    MonthsFilterIsConjunction(rows, sel, lo, hi);
    MonthsFilterByLabel(rows, sel, lo, hi);
    Seqs.FilterMultiplicity(WithDisplay(rows), (r: Record) => PassesAirportTab(sel, lo, hi, r));
  }

  lemma MonthsFilterIsConjunction(rows: seq<Record>, sel: AirportSelection, lo: int, hi: int)
    ensures Seqs.Filter(BeforeMonths(rows, sel), (r: Record) => InRange(lo, r.month, hi))
      == Seqs.Filter(WithDisplay(rows), (r: Record) => PassesAirportTab(sel, lo, hi, r))
  {
    BeforeMonthsIsConjunction(rows, sel);
    Seqs.FilterFuse(WithDisplay(rows), (r: Record) => PassesBeforeMonths(sel, r), (r: Record) => InRange(lo, r.month, hi),
      (r: Record) => PassesAirportTab(sel, lo, hi, r));
  }

  lemma MonthsFilterByLabel(rows: seq<Record>, sel: AirportSelection, lo: int, hi: int)
    ensures forall r :: r in Seqs.Filter(BeforeMonths(rows, sel), (r: Record) => InRange(lo, r.month, hi)) <==>
      && r in WithDisplay(rows)
      && (sel.airline != "All" ==> r.carrier == sel.airline)
      && (|sel.airports| != 0 ==> AirportLabel(r.city, r.airportCode) in sel.airports)
      && sel.yearLo <= r.year <= sel.yearHi
      && lo <= r.month <= hi
  {
    BeforeMonthsByLabel(rows, sel);
  }

  /**
   * The initial widgets ("All", no airport, the table's full year span,
   * "1-Jan" to "12-Dec") keep every row of a table whose years lie in that
   * span and whose months are calendar months.
   */
  lemma DefaultsKeepAll(rows: seq<Record>, minYear: int, maxYear: int)
    requires forall r :: r in rows ==> minYear <= r.year <= maxYear && ValidMonth(r.month)
    ensures FilterAirportTab(rows, AirportSelection("All", [], minYear, maxYear, MonthLabels[0], MonthLabels[11]))
      == Some(WithDisplay(rows))
  {
    var d := WithDisplay(rows);
    DefaultMonthLabels();
    forall r | r in d ensures minYear <= r.year <= maxYear && ValidMonth(r.month) {
      var i :| 0 <= i < |d| && d[i] == r;
      assert rows[i] in rows;
    }
    Seqs.FilterKeepsAll(d, (r: Record) => InRange(minYear, r.year, maxYear));
    Seqs.FilterKeepsAll(d, (r: Record) => InRange(1, r.month, 12));
  }

  /** The three KPIs: average arrival delay and "Delayed %" are None for "N/A". */
  datatype AirportKpis = AirportKpis(avgDelay: Option<real>, totalFlights: nat, delayedPct: Option<real>)

  function ArrDelays(rows: seq<Record>): (xs: seq<real>)
    ensures |xs| == |rows| && forall i :: 0 <= i < |rows| ==> xs[i] == rows[i].arrDelay
  {
    seq(|rows|, i requires 0 <= i < |rows| => rows[i].arrDelay)
  }

  /** The number of rows whose `arr_del15` equals 1. */
  function CountExactlyOne(rows: seq<Record>): (n: nat)
    ensures n <= |rows|
  {
    if |rows| == 0 then 0 else (if rows[0].arrDel15 == 1 then 1 else 0) + CountExactlyOne(rows[1..])
  }

  /**
   * The KPIs of the filtered table; `hasArrDel15` says whether the table
   * has an `arr_del15` column. "Total Flights" is the row count.
   */
  function Kpis(rows: seq<Record>, hasArrDel15: bool): AirportKpis {
    AirportKpis(AvgDelay(rows), |rows|, DelayedPct(rows, hasArrDel15))
  }

  function AvgDelay(rows: seq<Record>): Option<real> {
    if |rows| == 0 then None else Some(Seqs.Mean(ArrDelays(rows)))
  }

  /** `(arr_del15 == 1).sum() / len * 100`, when the column exists and a row is left. */
  function DelayedPct(rows: seq<Record>, hasArrDel15: bool): Option<real> {
    if hasArrDel15 && |rows| != 0 then Some(Percent(CountExactlyOne(rows), |rows|)) else None
  }

  /** `c` out of `n` as a percentage: within [0, 100], 0 exactly when `c` is 0 and 100 exactly when `c` is `n`. */
  function Percent(c: nat, n: nat): (p: real)
    requires c <= n && n > 0
    ensures p * (n as real) == 100.0 * (c as real)
    ensures 0.0 <= p <= 100.0
    ensures p == 0.0 <==> c == 0
    ensures p == 100.0 <==> c == n
  {
    var q := (c as real) / (n as real);
    assert q * (n as real) == c as real;
    q * 100.0
  }

  /**
   * On an empty table the KPIs read "N/A", 0 and "N/A"; "Total Flights"
   * is the row count; otherwise the average times the row count is the
   * summed arrival delay.
   */
  lemma KpisAverage(rows: seq<Record>, hasArrDel15: bool)
    ensures |rows| == 0 ==> Kpis(rows, hasArrDel15) == AirportKpis(None, 0, None)
    ensures Kpis(rows, hasArrDel15).totalFlights == |rows|
    ensures Kpis(rows, hasArrDel15).avgDelay.Some? <==> |rows| > 0
    ensures |rows| > 0 ==> Kpis(rows, hasArrDel15).avgDelay.value * (|rows| as real) == Seqs.Sum(ArrDelays(rows))
  {
    if |rows| > 0 {
      var xs := ArrDelays(rows);
      assert Kpis(rows, hasArrDel15).avgDelay == Some(Seqs.Mean(xs));
      assert Seqs.Mean(xs) * (|xs| as real) == Seqs.Sum(xs);
    }
  }

  /**
   * "Delayed %" is shown exactly when the column exists and a row is
   * left; it is then the share of rows with exactly one delayed arrival
   * (`delayed` of `flights`), in percent: within [0, 100], 0 exactly when
   * no row has `arr_del15` equal to 1 and 100 exactly when every row has.
   */
  lemma KpisDelayedPct(rows: seq<Record>, hasArrDel15: bool, delayed: nat, flights: nat)
    requires delayed == CountExactlyOne(rows) && flights == |rows|
    ensures DelayedPct(rows, hasArrDel15).Some? <==> hasArrDel15 && flights > 0
    ensures DelayedPct(rows, hasArrDel15).Some? ==>
      var p := DelayedPct(rows, hasArrDel15).value;
      && p * (flights as real) == 100.0 * (delayed as real)
      && 0.0 <= p <= 100.0
      && (p == 0.0 <==> forall i :: 0 <= i < |rows| ==> rows[i].arrDel15 != 1)
      && (p == 100.0 <==> forall i :: 0 <= i < |rows| ==> rows[i].arrDel15 == 1)
  {
    CountExactlyOneFacts(rows);
  }

  /** The count is 0 exactly when no row is flagged, and the row count exactly when all are. */
  lemma {:induction false} CountExactlyOneFacts(rows: seq<Record>)
    ensures CountExactlyOne(rows) == 0 <==> forall i :: 0 <= i < |rows| ==> rows[i].arrDel15 != 1
    ensures CountExactlyOne(rows) == |rows| <==> forall i :: 0 <= i < |rows| ==> rows[i].arrDel15 == 1
  {
    if |rows| > 0 {
      CountExactlyOneFacts(rows[1..]);
      assert forall i :: 1 <= i < |rows| ==> rows[i] == rows[1..][i - 1];
    }
  }
}
