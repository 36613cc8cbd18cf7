/**
 * Group-by-and-sum over delay records: the summed columns of a group, the
 * groups of `df.groupby(key)[columns].sum()` in ascending key order, and the
 * share of flights attributed to each delay cause.
 */
module Aggregates {
  import opened Wrappers
  import Seqs
  import Text
  import opened Records

  /** The summed numeric columns: flights, delayed flights and the five cause counts. */
  datatype Sums = Sums(
    arrFlights: int,
    arrDel15: int,
    carrierCt: real,
    weatherCt: real,
    nasCt: real,
    securityCt: real,
    lateAircraftCt: real)

  const Zero := Sums(0, 0, 0.0, 0.0, 0.0, 0.0, 0.0)

  function Add(a: Sums, b: Sums): Sums {
    Sums(a.arrFlights + b.arrFlights, a.arrDel15 + b.arrDel15,
         a.carrierCt + b.carrierCt, a.weatherCt + b.weatherCt, a.nasCt + b.nasCt,
         a.securityCt + b.securityCt, a.lateAircraftCt + b.lateAircraftCt)
  }

  lemma AddZero(a: Sums)
    ensures Add(Zero, a) == a && Add(a, Zero) == a
  {
  }

  lemma AddInterchange(a: Sums, b: Sums, c: Sums, d: Sums)
    ensures Add(Add(a, b), Add(c, d)) == Add(Add(a, c), Add(b, d))
  {
  }

  /** `v` where the condition holds, nothing elsewhere. */
  function Pick(b: bool, v: Sums): Sums {
    if b then v else Zero
  }

  function OfRow(r: Record): Sums {
    Sums(r.arrFlights, r.arrDel15, r.carrierCt, r.weatherCt, r.nasCt, r.securityCt, r.lateAircraftCt)
  }

  /** Column sums over all rows. */
  function SumRows(rows: seq<Record>): Sums {
    if |rows| == 0 then Zero else Add(OfRow(rows[0]), SumRows(rows[1..]))
  }

  /** The two grouping columns of the cause views. */
  datatype GroupField = CarrierName | AirportName

  function KeyOf(r: Record, f: GroupField): string {
    match f
    case CarrierName => r.carrier
    case AirportName => r.airportName
  }

  /** Column sums over the rows whose grouping column equals `k`. */
  function SumWhere(rows: seq<Record>, f: GroupField, k: string): Sums {
    if |rows| == 0 then Zero
    else Add(Pick(KeyOf(rows[0], f) == k, OfRow(rows[0])), SumWhere(rows[1..], f, k))
  }

  function Keys(rows: seq<Record>, f: GroupField): (ks: seq<string>)
    ensures |ks| == |rows|
    ensures forall i :: 0 <= i < |rows| ==> ks[i] == KeyOf(rows[i], f)
  {
    if |rows| == 0 then [] else [KeyOf(rows[0], f)] + Keys(rows[1..], f)
  }

  datatype Group = Group(key: string, sums: Sums)

  function GroupsFor(rows: seq<Record>, f: GroupField, ks: seq<string>): (gs: seq<Group>)
    ensures |gs| == |ks|
    ensures forall i :: 0 <= i < |ks| ==> gs[i].key == ks[i] && gs[i].sums == SumWhere(rows, f, ks[i])
  {
    if |ks| == 0 then []
    else [Group(ks[0], SumWhere(rows, f, ks[0]))] + GroupsFor(rows, f, ks[1..])
  }

  /**
   * `df.groupby(key).sum()`: one group per distinct key, in ascending key
   * order, each holding the column sums of the rows with that key.
   */
  function GroupSums(rows: seq<Record>, f: GroupField): (gs: seq<Group>)
    ensures forall i, j :: 0 <= i < j < |gs| ==> Text.StrLt(gs[i].key, gs[j].key)
    ensures forall k :: (exists i :: 0 <= i < |gs| && gs[i].key == k) <==> k in Keys(rows, f)
    ensures forall i :: 0 <= i < |gs| ==> gs[i].sums == SumWhere(rows, f, gs[i].key)
  {
    var ks := Text.SortedStrings(Keys(rows, f));
    var gs := GroupsFor(rows, f, ks);
    assert forall i :: 0 <= i < |gs| ==> gs[i].key == ks[i];
    gs
  }

  function TotalOf(gs: seq<Group>): Sums {
    if |gs| == 0 then Zero else Add(gs[0].sums, TotalOf(gs[1..]))
  }

  /** Sum over `ks` of `v` where the key is `c`, and nothing elsewhere. */
  function Indicator(ks: seq<string>, c: string, v: Sums): Sums {
    if |ks| == 0 then Zero else Add(Pick(ks[0] == c, v), Indicator(ks[1..], c, v))
  }

  lemma {:induction false} IndicatorOnce(ks: seq<string>, c: string, v: Sums)
    requires Seqs.NoDuplicates(ks)
    ensures Indicator(ks, c, v) == if c in ks then v else Zero
  {
    if |ks| > 0 {
      var rest := ks[1..];
      assert Seqs.NoDuplicates(rest) by {
        forall i, j | 0 <= i < j < |rest| ensures rest[i] != rest[j] {
          assert rest[i] == ks[i + 1] && rest[j] == ks[j + 1];
        }
      }
      IndicatorOnce(rest, c, v);
      if ks[0] == c {
        assert c !in rest by {
          forall j | 0 <= j < |rest| ensures rest[j] != c {
            assert rest[j] == ks[j + 1];
          }
        }
        AddZero(v);
      } else {
        assert c in ks <==> c in rest;
        AddZero(Indicator(rest, c, v));
      }
    }
  }

  lemma {:induction false} TotalSplitsFirstRow(rows: seq<Record>, f: GroupField, ks: seq<string>)
    requires |rows| > 0
    ensures TotalOf(GroupsFor(rows, f, ks))
         == Add(Indicator(ks, KeyOf(rows[0], f), OfRow(rows[0])), TotalOf(GroupsFor(rows[1..], f, ks)))
  {
    if |ks| == 0 {
      AddZero(Zero);
    } else {
      var c, v := KeyOf(rows[0], f), OfRow(rows[0]);
      var k, rest := ks[0], ks[1..];
      TotalSplitsFirstRow(rows, f, rest);
      var a, b := Pick(k == c, v), SumWhere(rows[1..], f, k);
      var x, y := Indicator(rest, c, v), TotalOf(GroupsFor(rows[1..], f, rest));
      assert SumWhere(rows, f, k) == Add(a, b);
      assert TotalOf(GroupsFor(rows, f, ks)) == Add(Add(a, b), Add(x, y));
      assert Indicator(ks, c, v) == Add(a, x);
      assert TotalOf(GroupsFor(rows[1..], f, ks)) == Add(b, y);
      AddInterchange(a, b, x, y);
    }
  }

  lemma {:induction false} TotalOverCoveringKeys(rows: seq<Record>, f: GroupField, ks: seq<string>)
    requires Seqs.NoDuplicates(ks)
    requires forall r :: r in rows ==> KeyOf(r, f) in ks
    ensures TotalOf(GroupsFor(rows, f, ks)) == SumRows(rows)
  {
    if |rows| == 0 {
      EmptyGroupsTotalZero(f, ks);
    } else {
      TotalSplitsFirstRow(rows, f, ks);
      IndicatorOnce(ks, KeyOf(rows[0], f), OfRow(rows[0]));
      TotalOverCoveringKeys(rows[1..], f, ks);
    }
  }

  lemma {:induction false} EmptyGroupsTotalZero(f: GroupField, ks: seq<string>)
    ensures TotalOf(GroupsFor([], f, ks)) == Zero
  {
    if |ks| > 0 {
      EmptyGroupsTotalZero(f, ks[1..]);
      AddZero(Zero);
    }
  }

  /** Summing the per-group sums gives the sums over all rows: grouping loses no row. */
  lemma GroupTotals(rows: seq<Record>, f: GroupField)
    ensures TotalOf(GroupSums(rows, f)) == SumRows(rows)
  {
    var ks := Text.SortedStrings(Keys(rows, f));
    forall r | r in rows ensures KeyOf(r, f) in ks {
      var i :| 0 <= i < |rows| && rows[i] == r;
      assert Keys(rows, f)[i] == KeyOf(r, f);
    }
    TotalOverCoveringKeys(rows, f, ks);
  }

  /** The five cause shares shown in the cause breakdown. */
  datatype Shares = Shares(carrier: real, weather: real, nas: real, security: real, lateAircraft: real)

  /** Each cause count as a fraction of total flights. */
  function SharesOf(t: Sums): (s: Shares)
    requires t.arrFlights > 0
    ensures var n := t.arrFlights as real;
      && s.carrier * n == t.carrierCt && s.weather * n == t.weatherCt && s.nas * n == t.nasCt
      && s.security * n == t.securityCt && s.lateAircraft * n == t.lateAircraftCt
  {
    var n := t.arrFlights as real;
    Shares(t.carrierCt / n, t.weatherCt / n, t.nasCt / n, t.securityCt / n, t.lateAircraftCt / n)
  }

  /** Shares over the carrier groups, produced only when their flights sum to more than 0. */
  function CauseShares(gs: seq<Group>): (r: Option<Shares>)
    ensures r.Some? <==> TotalOf(gs).arrFlights > 0
    ensures r.Some? ==> r.value == SharesOf(TotalOf(gs))
  {
    var t := TotalOf(gs);
    if t.arrFlights > 0 then Some(SharesOf(t)) else None
  }

  /**
   * The cause breakdown of a filtered table: present exactly when its rows
   * hold some flight, and then each share is that cause's total count over
   * the rows divided by their total flights.
   */
  lemma CauseSharesOfRows(rows: seq<Record>)
    ensures var r := CauseShares(GroupSums(rows, CarrierName));
      var t := SumRows(rows);
      && (r.Some? <==> t.arrFlights > 0)
      && (r.Some? ==> r.value == SharesOf(t))
  {
    GroupTotals(rows, CarrierName);
  }
}
