/** The KPI computation (`calcolo_kpi`): five columns derived per row and
    added to the table in place, three aggregate totals, and the top three
    rows by revenue and by margin. */
module KpiComputation {
  import opened Wrappers
  import opened Records
  import opened Ranking

  /** A row with the five KPI columns (re)computed from its own cells. */
  function WithKpi(r: Record): (out: Record)
    ensures out.kpi.Some? && out.(kpi := r.kpi) == r
    ensures var k := out.kpi.value;
            && k.costoTotaleServizio + k.margineServizio == r.prezzoVendita
            && k.margineTotale == k.incassiTotali - k.costoTotale
            && k.incassiTotali == (k.costoTotaleServizio + k.margineServizio) * r.qty
  {
    var costoTotaleServizio := r.costoPersonale + r.costoMaterialeConsumo + r.noleggiAmmortamenti;
    var margineServizio := r.prezzoVendita - costoTotaleServizio;
    r.(kpi := Some(Kpi(
      costoTotaleServizio,
      margineServizio,
      r.prezzoVendita * r.qty,
      costoTotaleServizio * r.qty,
      margineServizio * r.qty)))
  }

  /** The table after the five column assignments. */
  function AddKpiColumns(rows: seq<Record>): (t: seq<Record>)
    ensures |t| == |rows| && HasKpi(t)
    ensures forall i :: 0 <= i < |t| ==> t[i] == WithKpi(rows[i])
  {
    seq(|rows|, i requires 0 <= i < |rows| => WithKpi(rows[i]))
  }

  /** Every row's total margin is its revenue minus its cost. */
  predicate MarginsBalance(rows: seq<Record>)
    requires HasKpi(rows)
  {
    forall i :: 0 <= i < |rows| ==>
      rows[i].kpi.value.margineTotale == rows[i].kpi.value.incassiTotali - rows[i].kpi.value.costoTotale
  }

  /** `rows[c].sum()`: 0 for an empty table. */
  function Total(rows: seq<Record>, c: KpiColumn): (sum: real)
    requires HasKpi(rows)
    ensures rows == [] ==> sum == 0.0
  {
    if rows == [] then 0.0 else KpiValue(rows[0].kpi.value, c) + Total(rows[1..], c)
  }

  /** The total over a table split in two is the sum of the two totals. */
  lemma {:induction false} TotalAppend(a: seq<Record>, b: seq<Record>, c: KpiColumn)
    requires HasKpi(a) && HasKpi(b)
    ensures HasKpi(a + b) && Total(a + b, c) == Total(a, c) + Total(b, c)
  {
    assert HasKpi(a + b) by {
      forall i | 0 <= i < |a + b| ensures (a + b)[i].kpi.Some? {
        if i < |a| { assert (a + b)[i] == a[i]; } else { assert (a + b)[i] == b[i - |a|]; }
      }
    }
    if a == [] {
      assert a + b == b;
    } else {
      assert (a + b)[0] == a[0];
      assert (a + b)[1..] == a[1..] + b;
      TotalAppend(a[1..], b, c);
    }
  }

  /** A total over a table split at any row is the sum of the totals of the
      two parts. */
  lemma TotalOfSplit(rows: seq<Record>, k: nat, c: KpiColumn)
    requires HasKpi(rows) && k <= |rows|
    ensures Total(rows, c) == Total(rows[..k], c) + Total(rows[k..], c)
  {
    assert rows == rows[..k] + rows[k..];
    TotalAppend(rows[..k], rows[k..], c);
  }

  /** The KPI columns of two tables put together are those of each table, so
      each KPI total of the combined table is the sum of the two tables' totals. */
  lemma KpiTotalsAdd(a: seq<Record>, b: seq<Record>, c: KpiColumn)
    ensures AddKpiColumns(a + b) == AddKpiColumns(a) + AddKpiColumns(b)
    ensures Total(AddKpiColumns(a + b), c) == Total(AddKpiColumns(a), c) + Total(AddKpiColumns(b), c)
  {
    assert AddKpiColumns(a + b) == AddKpiColumns(a) + AddKpiColumns(b);
    TotalAppend(AddKpiColumns(a), AddKpiColumns(b), c);
  }

  /** The aggregate margin is the aggregate revenue minus the aggregate cost. */
  lemma {:induction false} AggregateMarginBalances(rows: seq<Record>)
    requires HasKpi(rows) && MarginsBalance(rows)
    ensures Total(rows, MargineTotale) == Total(rows, IncassiTotali) - Total(rows, CostoTotale)
  {
    if rows != [] {
      AggregateMarginBalances(rows[1..]);
    }
  }

  /** Every table the KPI columns were added to balances, row by row and in total. */
  lemma KpiTableBalances(rows: seq<Record>)
    ensures MarginsBalance(AddKpiColumns(rows))
    ensures var t := AddKpiColumns(rows);
            Total(t, MargineTotale) == Total(t, IncassiTotali) - Total(t, CostoTotale)
  {
    AggregateMarginBalances(AddKpiColumns(rows));
  }

  /** The two-row example: costs of service 20 and 5, margins of service 80
      and 45, revenues 200 and 50, costs 40 and 5, margins 160 and 45;
      totals 250, 45 and 205. */
  lemma TwoRowExample()
    ensures var r1 := Record(Some("S1"), None, None, 0.0, 100.0, 0.0, 10.0, 5.0, 5.0, 2.0, None);
            var r2 := Record(Some("S2"), None, None, 0.0, 50.0, 0.0, 5.0, 0.0, 0.0, 1.0, None);
            var t := AddKpiColumns([r1, r2]);
            && t[0].kpi == Some(Kpi(20.0, 80.0, 200.0, 40.0, 160.0))
            && t[1].kpi == Some(Kpi(5.0, 45.0, 50.0, 5.0, 45.0))
            && Total(t, IncassiTotali) == 250.0
            && Total(t, CostoTotale) == 45.0
            && Total(t, MargineTotale) == 205.0
  {
    var r1 := Record(Some("S1"), None, None, 0.0, 100.0, 0.0, 10.0, 5.0, 5.0, 2.0, None);
    var r2 := Record(Some("S2"), None, None, 0.0, 50.0, 0.0, 5.0, 0.0, 0.0, 1.0, None);
    var t := AddKpiColumns([r1, r2]);
    assert t[1..][1..] == [];
  }

  /** Two rows whose values strictly decrease, such as the example's revenues
      (200, 50) or margins (160, 45): the top three are both rows, in table order. */
  lemma TwoRowRanking(t: seq<Record>, c: KpiColumn)
    requires |t| == 2 && HasKpi(t)
    requires KpiValue(t[0].kpi.value, c) > KpiValue(t[1].kpi.value, c)
    ensures NLargest(3, t, c) == t
  {
    var keys := Column(t, c);
    var pos := NLargestPositions(3, keys);
    assert pos[0] != pos[1];
    assert pos[0] == 0 && pos[1] == 1 by {
      assert keys[pos[0]] >= keys[pos[1]];
    }
  }

  /** `calcolo_kpi(data)`: adds the five KPI columns to `data` in place and
      returns the three totals and the two top-3 rankings of the updated table. */
  method CalcoloKpi(data: array<Record>)
    returns (incassiTotali: real, costiTotali: real, margineTotale: real,
             top3Incassi: seq<Record>, top3Margine: seq<Record>)
    modifies data
    ensures data[..] == AddKpiColumns(old(data[..]))
    ensures incassiTotali == Total(data[..], IncassiTotali)
    ensures costiTotali == Total(data[..], CostoTotale)
    ensures margineTotale == Total(data[..], MargineTotale)
    ensures margineTotale == incassiTotali - costiTotali
    ensures top3Incassi == NLargest(3, data[..], IncassiTotali)
    ensures top3Margine == NLargest(3, data[..], MargineTotale)
  {
    for i := 0 to data.Length
      invariant forall k :: 0 <= k < i ==> data[k] == WithKpi(old(data[k]))
      invariant forall k :: i <= k < data.Length ==> data[k] == old(data[k])
    {
      data[i] := WithKpi(data[i]);
    }
    assert data[..] == AddKpiColumns(old(data[..]));
    var table := data[..];
    incassiTotali := Total(table, IncassiTotali);
    costiTotali := Total(table, CostoTotale);
    margineTotale := Total(table, MargineTotale);
    KpiTableBalances(old(data[..]));
    top3Incassi := NLargest(3, table, IncassiTotali);
    top3Margine := NLargest(3, table, MargineTotale);
  }
}
