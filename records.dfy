/** The rows of the cost/revenue spreadsheet: a row as it is read from the
    file (`RawRow`), a row after load normalisation (`Record`), and the five
    KPI columns that the KPI computation adds to a record. Money, hours and
    quantities are exact reals. */
module Records {
  import opened Wrappers

  /** A text cell (`codice`, `categoria`, `descrizione`). */
  type Text = string

  /** One spreadsheet row, columns A to J, renamed. Text cells are optional
      (an empty cell is NaN); each of the seven numeric cells is the result of
      parsing the cell as a number, `None` when the cell is empty or cannot
      be parsed. */
  datatype RawRow = RawRow(
    codice: Option<Text>,
    categoria: Option<Text>,
    descrizione: Option<Text>,
    distribuzioneCosti: Option<real>,
    prezzoVendita: Option<real>,
    oreUomo: Option<real>,
    costoPersonale: Option<real>,
    costoMaterialeConsumo: Option<real>,
    noleggiAmmortamenti: Option<real>,
    qty: Option<real>)

  /** The five columns the KPI computation derives for a row. */
  datatype Kpi = Kpi(
    costoTotaleServizio: real,
    margineServizio: real,
    incassiTotali: real,
    costoTotale: real,
    margineTotale: real)

  /** A row of the loaded table. The numeric columns hold numbers; `kpi` is
      `None` until the KPI columns have been added to the table holding it. */
  datatype Record = Record(
    codice: Option<Text>,
    categoria: Option<Text>,
    descrizione: Option<Text>,
    distribuzioneCosti: real,
    prezzoVendita: real,
    oreUomo: real,
    costoPersonale: real,
    costoMaterialeConsumo: real,
    noleggiAmmortamenti: real,
    qty: real,
    kpi: Option<Kpi>)

  /** The KPI columns, by the names the computation gives them. */
  datatype KpiColumn =
    | CostoTotaleServizio
    | MargineServizio
    | IncassiTotali
    | CostoTotale
    | MargineTotale

  function KpiValue(k: Kpi, c: KpiColumn): real
  {
    match c
    case CostoTotaleServizio => k.costoTotaleServizio
    case MargineServizio => k.margineServizio
    case IncassiTotali => k.incassiTotali
    case CostoTotale => k.costoTotale
    case MargineTotale => k.margineTotale
  }

  /** Every row of the table carries the KPI columns. */
  predicate HasKpi(rows: seq<Record>)
  {
    forall i :: 0 <= i < |rows| ==> rows[i].kpi.Some?
  }

  /** The value of KPI column `c` in every row, in row order (a pandas Series). */
  function Column(rows: seq<Record>, c: KpiColumn): (v: seq<real>)
    requires HasKpi(rows)
    ensures |v| == |rows|
    ensures forall i :: 0 <= i < |rows| ==> v[i] == KpiValue(rows[i].kpi.value, c)
  {
    seq(|rows|, i requires 0 <= i < |rows| => KpiValue(rows[i].kpi.value, c))
  }
}
