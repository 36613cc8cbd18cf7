/**
 * The top-10 airport ranker of the cause views: group by cleansed airport
 * name, keep airports with at least 100000 summed flights, add the delay
 * percentage column, sort it descending and keep the first ten names.
 */
module Ranking {
  import Seqs
  import Text
  import opened Records
  import opened Aggregates

  const VolumeThreshold: int := 100000
  const TopCount: nat := 10

  /** One row of `airport_risk`; `delayPct` is meaningful once it has been assigned. */
  datatype AirportRisk = AirportRisk(name: string, totalFlights: int, totalDelays: int, delayPct: real)

  /** Summed flights of the rows at airport `name`. */
  function FlightsAt(rows: seq<Record>, name: string): int {
    SumWhere(rows, AirportName, name).arrFlights
  }

  /**
   * `total_delays / total_flights` of airport `name`, the ranking key. The
   * ranker divides unguarded, but only for airports with at least 100000
   * flights, where this is the plain quotient.
   */
  function PctAt(rows: seq<Record>, name: string): real {
    DelayRate(SumWhere(rows, AirportName, name).arrDel15, FlightsAt(rows, name))
  }

  function RisksOf(gs: seq<Group>): (rs: seq<AirportRisk>)
    ensures |rs| == |gs|
    ensures forall i :: 0 <= i < |gs| ==>
      rs[i] == AirportRisk(gs[i].key, gs[i].sums.arrFlights, gs[i].sums.arrDel15, 0.0)
  {
    if |gs| == 0 then []
    else [AirportRisk(gs[0].key, gs[0].sums.arrFlights, gs[0].sums.arrDel15, 0.0)] + RisksOf(gs[1..])
  }

  /** `groupby("airport_name_cleansed").agg(total_flights=..., total_delays=...)`. */
  function AirportTotals(rows: seq<Record>): seq<AirportRisk> {
    RisksOf(GroupSums(rows, AirportName))
  }

  /** `airport_risk[airport_risk['total_flights'] >= 100000]`. */
  function Qualified(risks: seq<AirportRisk>): (r: seq<AirportRisk>)
    ensures forall a :: a in r <==> a in risks && a.totalFlights >= VolumeThreshold
    ensures Seqs.NoDuplicates(risks) ==> Seqs.NoDuplicates(r)
  {
    var p := (a: AirportRisk) => a.totalFlights >= VolumeThreshold;
    Seqs.FilterNoDuplicates(risks, p);
    Seqs.Filter(risks, p)
  }

  /** The table with its `delay_pct` column assigned from its totals. */
  function WithDelayPct(risks: seq<AirportRisk>): (r: seq<AirportRisk>)
    ensures |r| == |risks|
    ensures forall i :: 0 <= i < |risks| ==>
      r[i] == risks[i].(delayPct := DelayRate(risks[i].totalDelays, risks[i].totalFlights))
  {
    seq(|risks|, i requires 0 <= i < |risks| =>
      risks[i].(delayPct := DelayRate(risks[i].totalDelays, risks[i].totalFlights)))
  }

  /** `airport_risk['delay_pct'] = total_delays / total_flights`, assigned in place. */
  method AssignDelayPct(a: array<AirportRisk>)
    modifies a
    ensures a[..] == WithDelayPct(old(a[..]))
  {
    for i := 0 to a.Length
      invariant forall k :: 0 <= k < i ==>
        a[k] == old(a[k]).(delayPct := DelayRate(old(a[k]).totalDelays, old(a[k]).totalFlights))
      invariant forall k :: i <= k < a.Length ==> a[k] == old(a[k])
    {
      a[i] := a[i].(delayPct := DelayRate(a[i].totalDelays, a[i].totalFlights));
    }
  }

  predicate NonIncreasingPct(s: seq<AirportRisk>) {
    forall i, j :: 0 <= i < j < |s| ==> s[i].delayPct >= s[j].delayPct
  }

  function InsertByPct(s: seq<AirportRisk>, x: AirportRisk): (r: seq<AirportRisk>)
    requires NonIncreasingPct(s)
    ensures NonIncreasingPct(r)
    ensures |r| == |s| + 1
    ensures forall y :: y in r <==> y in s || y == x
    ensures Seqs.NoDuplicates(s) && x !in s ==> Seqs.NoDuplicates(r)
  {
    if |s| == 0 || x.delayPct >= s[0].delayPct then [x] + s
    else
      var rest := InsertByPct(s[1..], x);
      assert forall k :: 0 <= k < |s[1..]| ==> s[0].delayPct >= s[1..][k].delayPct by {
        forall k | 0 <= k < |s[1..]| ensures s[0].delayPct >= s[1..][k].delayPct {
          assert s[1..][k] == s[k + 1];
        }
      }
      assert forall k :: 0 <= k < |rest| ==> s[0].delayPct >= rest[k].delayPct by {
        forall k | 0 <= k < |rest| ensures s[0].delayPct >= rest[k].delayPct {
          assert rest[k] in rest;
          if rest[k] != x {
            var m :| 0 <= m < |s[1..]| && s[1..][m] == rest[k];
          }
        }
      }
      assert Seqs.NoDuplicates(s) ==> s[0] !in s[1..];
      [s[0]] + rest
  }

  /** Insertion adds exactly the one element: the result is a permutation of `s` with `x`. */
  lemma {:induction false} InsertByPctPermutes(s: seq<AirportRisk>, x: AirportRisk)
    requires NonIncreasingPct(s)
    ensures multiset(InsertByPct(s, x)) == multiset(s) + multiset{x}
  {
    assert |s| > 0 ==> s == [s[0]] + s[1..];
    if |s| > 0 && x.delayPct < s[0].delayPct {
      InsertByPctPermutes(s[1..], x);
    }
  }

  /** `sort_values('delay_pct', ascending=False)`; ties keep no particular order. */
  function SortByPctDesc(s: seq<AirportRisk>): (r: seq<AirportRisk>)
    ensures NonIncreasingPct(r)
    ensures |r| == |s|
    ensures forall y :: y in r <==> y in s
    ensures multiset(r) == multiset(s)
    ensures Seqs.NoDuplicates(s) ==> Seqs.NoDuplicates(r)
  {
    if |s| == 0 then []
    else
      assert s == [s[0]] + s[1..];
      InsertByPctPermutes(SortByPctDesc(s[1..]), s[0]);
      assert Seqs.NoDuplicates(s) ==> s[0] !in s[1..] && Seqs.NoDuplicates(s[1..]);
      InsertByPct(SortByPctDesc(s[1..]), s[0])
  }

  function Names(s: seq<AirportRisk>): (ns: seq<string>)
    ensures |ns| == |s|
    ensures forall i :: 0 <= i < |s| ==> ns[i] == s[i].name
  {
    if |s| == 0 then [] else [s[0].name] + Names(s[1..])
  }

  /** `.head(10)` of a sequence. */
  function Head(s: seq<AirportRisk>, n: nat): (r: seq<AirportRisk>)
    ensures |r| == if |s| < n then |s| else n
    ensures forall i :: 0 <= i < |r| ==> r[i] == s[i]
  {
    if |s| <= n then s else s[..n]
  }

  /** The qualified totals with their `delay_pct` column. */
  function Weighted(rows: seq<Record>): seq<AirportRisk> {
    WithDelayPct(Qualified(AirportTotals(rows)))
  }

  /** The ranked risk table from which the ten names are read. */
  function Ranked(rows: seq<Record>): seq<AirportRisk> {
    SortByPctDesc(Weighted(rows))
  }

  /** `top10_airports`: the names of the first ten rows of the ranked table. */
  function Top10(rows: seq<Record>): seq<string> {
    Names(Head(Ranked(rows), TopCount))
  }

  /**
   * The ranker as the dashboards run it: the qualified totals are a fresh
   * frame, their `delay_pct` column is assigned in place, then the frame is
   * sorted and cut to ten names.
   */
  method RankTop10(rows: seq<Record>) returns (top: seq<string>)
    ensures top == Top10(rows)
  {
    var q := Qualified(AirportTotals(rows));
    var a := new AirportRisk[|q|](i requires 0 <= i < |q| => q[i]);
    assert a[..] == q;
    AssignDelayPct(a);
    top := Names(Head(SortByPctDesc(a[..]), TopCount));
  }

  function DelaysAt(rows: seq<Record>, name: string): int {
    SumWhere(rows, AirportName, name).arrDel15
  }

  /** What a row of the ranked table says about its airport. */
  ghost predicate Describes(rows: seq<Record>, a: AirportRisk) {
    && (exists r :: r in rows && r.airportName == a.name)
    && a.totalFlights == FlightsAt(rows, a.name)
    && a.totalDelays == DelaysAt(rows, a.name)
  }

  /** A table in which a name identifies a row. */
  ghost predicate NamesIdentify(s: seq<AirportRisk>) {
    forall a, b :: a in s && b in s && a.name == b.name ==> a == b
  }

  lemma TotalsDistinct(rows: seq<Record>)
    ensures var t := AirportTotals(rows);
      forall i, j :: 0 <= i < j < |t| ==> t[i].name != t[j].name
  {
    var gs := GroupSums(rows, AirportName);
    var t := AirportTotals(rows);
    forall i, j | 0 <= i < j < |t| ensures t[i].name != t[j].name {
      assert Text.StrLt(gs[i].key, gs[j].key);
      Text.StrLtIrreflexive(gs[i].key);
    }
  }

  lemma TotalsDescribe(rows: seq<Record>, a: AirportRisk)
    requires a in AirportTotals(rows)
    ensures Describes(rows, a)
  {
    var gs := GroupSums(rows, AirportName);
    var t := AirportTotals(rows);
    var i :| 0 <= i < |t| && t[i] == a;
    assert a.name == gs[i].key;
    assert a.name in Keys(rows, AirportName);
    var j :| 0 <= j < |rows| && Keys(rows, AirportName)[j] == a.name;
    assert rows[j] in rows && rows[j].airportName == a.name;
  }

  lemma TotalsCover(rows: seq<Record>, r: Record)
    requires r in rows
    ensures exists a :: a in AirportTotals(rows) && a.name == r.airportName
  {
    var gs := GroupSums(rows, AirportName);
    var t := AirportTotals(rows);
    var j :| 0 <= j < |rows| && rows[j] == r;
    assert Keys(rows, AirportName)[j] == r.airportName;
    assert r.airportName in Keys(rows, AirportName);
    var i :| 0 <= i < |gs| && gs[i].key == r.airportName;
    assert t[i] in t;
  }

  lemma TotalsFacts(rows: seq<Record>)
    ensures var t := AirportTotals(rows);
      && Seqs.NoDuplicates(t)
      && NamesIdentify(t)
      && (forall a :: a in t ==> Describes(rows, a))
      && (forall r :: r in rows ==> exists a :: a in t && a.name == r.airportName)
  {
    TotalsDistinct(rows);
    forall a | a in AirportTotals(rows) ensures Describes(rows, a) {
      TotalsDescribe(rows, a);
    }
    forall r | r in rows ensures exists a :: a in AirportTotals(rows) && a.name == r.airportName {
      TotalsCover(rows, r);
    }
  }

  /** A row of the weighted table: a described airport that qualifies, with its percentage. */
  ghost predicate Good(rows: seq<Record>, a: AirportRisk) {
    && Describes(rows, a)
    && a.totalFlights >= VolumeThreshold
    && a.delayPct == PctAt(rows, a.name)
  }

  lemma GoodFromTotals(rows: seq<Record>, b: AirportRisk, a: AirportRisk)
    requires b in AirportTotals(rows) && b.totalFlights >= VolumeThreshold
    requires a.name == b.name && a.totalFlights == b.totalFlights && a.totalDelays == b.totalDelays
    requires a.delayPct == DelayRate(b.totalDelays, b.totalFlights)
    ensures Good(rows, a)
  {
    TotalsDescribe(rows, b);
  }

  lemma WeightedGood(rows: seq<Record>, a: AirportRisk)
    requires a in Weighted(rows)
    ensures Good(rows, a)
  {
    var t := AirportTotals(rows);
    var q := Qualified(t);
    var w := WithDelayPct(q);
    assert w == Weighted(rows);
    var i :| 0 <= i < |w| && w[i] == a;
    assert q[i] in q;
    GoodFromTotals(rows, q[i], a);
  }

  lemma WeightedNoDuplicates(rows: seq<Record>)
    ensures Seqs.NoDuplicates(Weighted(rows))
  {
    var t := AirportTotals(rows);
    TotalsFacts(rows);
    var q := Qualified(t);
    var w := WithDelayPct(q);
    forall i, j | 0 <= i < j < |w| ensures w[i] != w[j] {
      assert q[i] in q && q[j] in q && q[i] != q[j];
    }
  }

  lemma WeightedCovers(rows: seq<Record>, r: Record)
    requires r in rows && FlightsAt(rows, r.airportName) >= VolumeThreshold
    ensures exists a :: a in Weighted(rows) && a.name == r.airportName
  {
    var t := AirportTotals(rows);
    TotalsFacts(rows);
    var q := Qualified(t);
    var w := WithDelayPct(q);
    var b :| b in t && b.name == r.airportName;
    assert b in q;
    var k :| 0 <= k < |q| && q[k] == b;
    assert w[k] in w;
  }

  lemma WeightedFacts(rows: seq<Record>)
    ensures var w := Weighted(rows);
      && Seqs.NoDuplicates(w)
      && (forall a :: a in w ==> Good(rows, a))
      && (forall r :: r in rows && FlightsAt(rows, r.airportName) >= VolumeThreshold ==>
            exists a :: a in w && a.name == r.airportName)
  {
    WeightedNoDuplicates(rows);
    forall a | a in Weighted(rows) ensures Good(rows, a) {
      WeightedGood(rows, a);
    }
    forall r | r in rows && FlightsAt(rows, r.airportName) >= VolumeThreshold
      ensures exists a :: a in Weighted(rows) && a.name == r.airportName
    {
      WeightedCovers(rows, r);
    }
  }

  lemma RankedFacts(rows: seq<Record>)
    ensures var s := Ranked(rows);
      && NonIncreasingPct(s)
      && Seqs.NoDuplicates(s)
      && (forall a :: a in s ==> Good(rows, a))
      && (forall r :: r in rows && FlightsAt(rows, r.airportName) >= VolumeThreshold ==>
            exists a :: a in s && a.name == r.airportName)
  {
    WeightedFacts(rows);
  }

  lemma Top10Qualified(rows: seq<Record>, n: string)
    requires n in Top10(rows)
    ensures (exists r :: r in rows && r.airportName == n) && FlightsAt(rows, n) >= VolumeThreshold
  {
    var s := Ranked(rows);
    RankedFacts(rows);
    var top := Top10(rows);
    var i :| 0 <= i < |top| && top[i] == n;
    assert s[i] in s;
  }

  lemma Top10Ordered(rows: seq<Record>, i: int, j: int)
    requires 0 <= i < j < |Top10(rows)|
    ensures PctAt(rows, Top10(rows)[i]) >= PctAt(rows, Top10(rows)[j])
  {
    var s := Ranked(rows);
    RankedFacts(rows);
    assert s[i] in s && s[j] in s;
  }

  lemma Top10Distinct(rows: seq<Record>)
    ensures Seqs.NoDuplicates(Top10(rows))
  {
    var s := Ranked(rows);
    RankedFacts(rows);
    var top := Top10(rows);
    forall i, j | 0 <= i < j < |top| ensures top[i] != top[j] {
      assert s[i] in s && s[j] in s && s[i] != s[j];
    }
  }

  lemma Top10Complete(rows: seq<Record>, r: Record)
    requires r in rows && FlightsAt(rows, r.airportName) >= VolumeThreshold
    requires r.airportName !in Top10(rows)
    ensures |Top10(rows)| == TopCount
    ensures forall n :: n in Top10(rows) ==> PctAt(rows, n) >= PctAt(rows, r.airportName)
  {
    var s := Ranked(rows);
    RankedFacts(rows);
    var top := Top10(rows);
    var a :| a in s && a.name == r.airportName;
    var j :| 0 <= j < |s| && s[j] == a;
    forall n | n in top ensures PctAt(rows, n) >= PctAt(rows, r.airportName) {
      var i :| 0 <= i < |top| && top[i] == n;
      assert s[i] in s;
    }
  }

  /**
   * The ranker's promise: at most ten distinct names, each an airport of the
   * table with at least 100000 summed flights, in non-increasing order of
   * delay percentage; and any qualifying airport left out ranks no higher
   * than every airport kept, which then number ten.
   */
  lemma Top10Correct(rows: seq<Record>)
    ensures var top := Top10(rows);
      && |top| <= TopCount
      && Seqs.NoDuplicates(top)
      && (forall n :: n in top ==>
            (exists r :: r in rows && r.airportName == n) && FlightsAt(rows, n) >= VolumeThreshold)
      && (forall i, j :: 0 <= i < j < |top| ==>
            PctAt(rows, top[i]) >= PctAt(rows, top[j]))
      && (forall r :: r in rows && FlightsAt(rows, r.airportName) >= VolumeThreshold
                      && r.airportName !in top ==>
            |top| == TopCount &&
            forall n :: n in top ==> PctAt(rows, n) >= PctAt(rows, r.airportName))
  {
    var top := Top10(rows);
    Top10Distinct(rows);
    forall n | n in top
      ensures (exists r :: r in rows && r.airportName == n) && FlightsAt(rows, n) >= VolumeThreshold
    {
      Top10Qualified(rows, n);
    }
    forall i, j | 0 <= i < j < |top|
      ensures PctAt(rows, top[i]) >= PctAt(rows, top[j])
    {
      Top10Ordered(rows, i, j);
    }
    forall r | r in rows && FlightsAt(rows, r.airportName) >= VolumeThreshold && r.airportName !in top
      ensures |top| == TopCount
      ensures forall n :: n in top ==> PctAt(rows, n) >= PctAt(rows, r.airportName)
    {
      Top10Complete(rows, r);
    }
  }
}
