/** The column names of the table and the guard of the bar chart
    (`grafico_barre`), which draws only when the table carries every column
    it plots. Drawing itself is not modelled. */
module Chart {
  import opened Records

  /** The names given to columns A to J on load. */
  const LoadedColumns: set<Text> := {
    "codice", "categoria", "descrizione", "distribuzione_costi", "prezzo_vendita",
    "ore_uomo", "costo_personale", "costo_materiale_consumo", "noleggi_ammortamenti", "q.ty"}

  /** The name under which the KPI computation stores each KPI column. */
  function ColumnName(c: KpiColumn): Text
  {
    match c
    case CostoTotaleServizio => "costo_totale_servizio"
    case MargineServizio => "margine_servizio"
    case IncassiTotali => "incassi_totali"
    case CostoTotale => "costo_totale"
    case MargineTotale => "margine_totale"
  }

  /** The columns of a table that has gone through the KPI computation. */
  function ColumnsAfterKpi(): (cols: set<Text>)
    ensures LoadedColumns <= cols
    ensures forall c: KpiColumn :: ColumnName(c) in cols
  {
    LoadedColumns + {
      ColumnName(CostoTotaleServizio), ColumnName(MargineServizio),
      ColumnName(IncassiTotali), ColumnName(CostoTotale), ColumnName(MargineTotale)}
  }

  /** The columns the chart checks for, as written: the cost column is
      asked for under a name no step creates. */
  const ChartColumnsAsWritten: set<Text> := {"descrizione", "incassi_totali", "costi_totali", "margine_totale"}

  /** The columns the chart plots, with the cost column under the name the
      KPI computation gives it. */
  const ChartColumns: set<Text> := {"descrizione", ColumnName(IncassiTotali), ColumnName(CostoTotale), ColumnName(MargineTotale)}

  /** The chart's guard: it draws only when every required column is present. */
  predicate ChartDraws(required: set<Text>, cols: set<Text>)
  {
    required <= cols
  }

  /** As written, the guard rejects every table the KPI computation produces:
      the chart is never drawn and the error message is always shown. */
  lemma ChartNeverDrawsAsWritten()
    ensures "costi_totali" !in ColumnsAfterKpi()
    ensures !ChartDraws(ChartColumnsAsWritten, ColumnsAfterKpi())
  {
    assert "costi_totali" in ChartColumnsAsWritten;
  }

  /** With the cost column under its real name the guard accepts the table. */
  lemma ChartDrawsAfterKpi()
    ensures ChartDraws(ChartColumns, ColumnsAfterKpi())
  {
  }
}
