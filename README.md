# Cost and revenue dashboard: a Dafny model of its record pipeline

The dashboard `app_analisi_immobili.py` loads a spreadsheet of services (one row per
service: code, category, description, costs, sale price, quantity), lets the user narrow
it by category and by description, and shows the three totals (revenue, cost, margin) of the
selected rows together with the three rows that earn the most revenue. It also computes the
three rows with the highest margin, but never displays them, and its per-row bar chart is
never drawn (see Findings). This project models the record pipeline behind it and proves what
each stage promises:

1. **Load normalisation** (`Loading`): rows whose `codice` cell is empty are dropped, in file
   order. Each of the seven numeric columns is coerced: a cell that parses keeps its number,
   and an empty or unparsable cell becomes 0.
2. **Flat filter** (`Filtering`, `Dashboard`): the stored table is copied. The copy is then
   narrowed by an equality filter on `categoria`, then by one on `descrizione`. The selector
   entry `"Tutte"` switches a filter off.
3. **KPI computation** (`KpiComputation`, `Ranking`): five columns are added to the narrowed
   copy in place. These are `costo_totale_servizio`, `margine_servizio`, `incassi_totali`,
   `costo_totale` and `margine_totale`. Three totals are summed over them. The rows are ranked
   with `nlargest(3, …)` by revenue and by margin.

Money, hours and quantities are exact `real`s. A spreadsheet cell is an `Option`: `None` is an
empty cell (pandas' NaN). Each numeric cell reaches the model as the result of parsing it,
`Some(x)` or `None`. A `Record` carries `kpi: Option<Kpi>`, which is `None` until the KPI
columns have been added to its table.

Behaviour of the code that the model keeps:
- A selector value is one of the column's distinct values, and that value may be the missing
  value. As with pandas' `==`, a missing cell matches nothing, so selecting the missing value
  gives an empty table. A category that is literally named `"Tutte"` cannot be selected: it
  switches the filter off.
- `nlargest` keeps its default `keep='first'`. Among rows with equal values, the earlier row
  in the table ranks first; this is how the model breaks ties.
- The KPI columns go onto the copy (`data.copy()`, then the masks make new tables). The stored
  table is never written.
- The code's NaN fallback for the totals (`0` when a sum is NaN) can never fire here. Every
  numeric cell has already been coerced, and exact sums are never NaN. So each total is the
  plain sum, which is 0 for an empty table.

Files: `wrappers.dfy` (Option), `sequences.dfy` (row masks and subsequences), `records.dfy`
(row types), `loading.dfy`, `filtering.dfy`, `ranking.dfy`, `kpi.dfy`, `dashboard.dfy`,
`chart.dfy` (the chart's column guard).

## Model

| member | source | states |
|---|---|---|
| `Loading.DropMissingCodice` | app_analisi_immobili.py:47 | every kept row has a `codice`; a row is kept iff it is in the input and has a `codice`, as many times as the input holds it; the kept rows are a subsequence of the input (order preserved) |
| `Loading.Coerce` | app_analisi_immobili.py:49-53 | `codice`, `categoria`, `descrizione` are unchanged; each of the seven numeric columns holds the parsed number when parsing succeeded and 0 otherwise; no KPI column exists yet |
| `Loading.LoadAndPreprocessData` | app_analisi_immobili.py:47-53 | the loaded table is the coercion, row by row, of the rows that have a `codice`, in file order; every loaded row has a `codice` and no KPI columns; it has no more rows than the file |
| `Loading.CoerceOfParsedRow` | app_analisi_immobili.py:53 | when every numeric cell parses, coercion loses nothing: writing the record back as cells gives the raw row |
| `Loading.CoerceUnparse` | app_analisi_immobili.py:53 | coercing a loaded record written back as parsed cells gives the record (the other direction of the round trip) |
| `Loading.LoadKeepsKeyedRows` | app_analisi_immobili.py:47 | when every row has a `codice`, loading keeps every row, in order, and only coerces it |
| `Loading.LoadIsIdempotent` | app_analisi_immobili.py:47-53 | loading is a fixed point: loading a loaded table again gives the same table |
| `Filtering.Where` | app_analisi_immobili.py:209 | the rows whose field equals the selection (a missing cell never matches), as many times as the input holds them, in input order |
| `Filtering.ApplyFilters` | app_analisi_immobili.py:206-212 | with `"Tutte"` for both selectors the whole table; otherwise exactly the input rows whose `categoria` and `descrizione` pass their selectors, with their multiplicities, in input order |
| `Filtering.FiltersCommute` | app_analisi_immobili.py:208-212 | filtering by description first and by category second gives the same table |
| `Filtering.AbsentValueYieldsEmpty` | app_analisi_immobili.py:208-212 | selecting a category or a description that no row holds gives the empty table, not an error |
| `Filtering.FiltersIdempotent` | app_analisi_immobili.py:206-212 | filtering a filtered table again with the same selections changes nothing |
| `Sequences.FilterCommutes` | app_analisi_immobili.py:209-212 | two boolean masks applied one after the other select the same rows in either order |
| `Ranking.ArgBest` | app_analisi_immobili.py:119 | the candidate it returns ranks no later than any other: a larger value, or an equal value at an earlier row |
| `Ranking.SelectSpec` | app_analisi_immobili.py:119-120 | repeated selection takes min(n, number of candidates) positions, all of them candidates, ranked in order; every candidate left out ranks after every one taken; distinct candidates give distinct positions |
| `Ranking.NLargestPositions` | app_analisi_immobili.py:119-120 | the positions of `nlargest`: min(n, rows) distinct row positions, values non-increasing, equal values in row order, and every position left out ranks after every one taken |
| `Ranking.NLargest` | app_analisi_immobili.py:119-120 | `nlargest(n, c)` has min(n, rows) rows, all from the table and carrying the KPI columns, ordered non-increasingly by column `c` |
| `Ranking.NLargestExcludesSmaller` | app_analisi_immobili.py:119-120 | no row left out has a larger value than the smallest one taken; a row left out with a value equal to one taken comes later in the table |
| `Ranking.NLargestIsSubmultiset` | app_analisi_immobili.py:119-120 | the rows `nlargest` returns form a sub-multiset of the table: no row is returned more often than the table holds it |
| `Ranking.SelectPicksSubmultiset` | app_analisi_immobili.py:119-120 | the rows at the selected positions are a sub-multiset of the rows at the candidate positions |
| `KpiComputation.WithKpi` | app_analisi_immobili.py:104-108 | the row gains the five KPI columns and nothing else changes; service cost plus service margin is the sale price; total margin is revenue minus cost; revenue is the sale price, split into service cost and service margin, times the quantity |
| `KpiComputation.AddKpiColumns` | app_analisi_immobili.py:104-108 | every row of the table gains its KPI columns; the row count is unchanged |
| `KpiComputation.Total` | app_analisi_immobili.py:110-117 | the column sum; 0 for an empty table |
| `KpiComputation.TotalAppend` | app_analisi_immobili.py:110-112 | the total over two tables put together is the sum of their totals |
| `KpiComputation.TotalOfSplit` | app_analisi_immobili.py:110-112 | a total over a table split at any row is the sum of the totals of the two parts |
| `KpiComputation.KpiTotalsAdd` | app_analisi_immobili.py:104-112 | adding the KPI columns to two tables put together gives the two tables' KPI rows put together, so every KPI total of the combined table is the sum of the two totals |
| `KpiComputation.AggregateMarginBalances` | app_analisi_immobili.py:110-117 | when every row's margin is its revenue minus its cost, the total margin is the total revenue minus the total cost |
| `KpiComputation.KpiTableBalances` | app_analisi_immobili.py:104-117 | every table the KPI columns were added to balances row by row and in total |
| `KpiComputation.TwoRowExample` | app_analisi_immobili.py:104-117 | two rows (price 100, quantity 2, costs 10+5+5; price 50, quantity 1, cost 5) give KPIs 20/80/200/40/160 and 5/45/50/5/45, and totals 250, 45 and 205 |
| `KpiComputation.TwoRowRanking` | app_analisi_immobili.py:119-120 | for two rows whose values in a column strictly decrease (revenue 200 and 50, or margin 160 and 45, in the example), the top three are both rows in table order |
| `KpiComputation.CalcoloKpi` | app_analisi_immobili.py:101-123 | the table is replaced in place by the table with its KPI columns; it returns the three totals of the updated table (margin = revenue − cost) and its two top-3 rankings |
| `Dashboard.Copy` | app_analisi_immobili.py:206 | a fresh table with the same rows |
| `Dashboard.SelectRows` | app_analisi_immobili.py:209 | a fresh table holding exactly `Where` of the source rows |
| `Dashboard.DashboardPass` | app_analisi_immobili.py:206-214 | the stored table is unchanged; the result is a fresh table equal to the filtered rows with KPI columns; the totals and rankings are those of that table, and the total margin is revenue minus cost |
| `Dashboard.PipelineKeepsKeyedRows` | app_analisi_immobili.py:214 | each row that reaches the KPI computation after loading and filtering carries a `codice` |
| `Chart.ColumnsAfterKpi` | app_analisi_immobili.py:104-108 | the columns of a table after the KPI computation: the ten loaded columns and the five KPI columns |
| `Chart.ChartNeverDrawsAsWritten` | app_analisi_immobili.py:132-133 | as written, the chart's guard rejects every table the KPI computation produces, since `costi_totali` is never created |
| `Chart.ChartDrawsAfterKpi` | app_analisi_immobili.py:132-133 | with `costo_totale` in place of `costi_totali`, the guard accepts every table the KPI computation produces |

## Left out

- Streamlit UI: page setup, sidebar navigation, selector option lists, metrics, the expander and the CSS injection (lines 7-12, 60-98, 169-205, 216-244). The selector values are parameters of `DashboardPass`.
- Excel reading (`pd.read_excel` with openpyxl) and the exact parsing rules of `pd.to_numeric`. Each numeric cell is given as its parse result, `Option<real>`. Text cells are abstracted as text or missing, so a numeric `codice` or `categoria` is treated as text.
- Session state and file upload (lines 16-25), including the two guards of `render_dashboard` that report a missing table or file (lines 176-183). `DashboardPass` receives the stored table directly.
- Drawing the bar chart (lines 137-166). Only its column guard is modelled. `sns` and `plt` are never imported, but that code is unreachable, because the guard always returns first (see Findings).
- The metric display of the first top-revenue row (`iloc[0]`, lines 233-236). It raises on an empty filtered table. The model only shows that the ranking can be empty: `NLargest` has min(3, rows) rows.
- Floating-point rounding, overflow and the `,.0f` formatting. Arithmetic is exact, so the NaN fallback of lines 115-117 cannot fire and is not modelled.
- pandas index labels and column dtypes. Row positions take the place of the index.

## Findings

| source | as written | input that shows it | evidently intended | confidence | as-written member | corrected member |
|---|---|---|---|---|---|---|
| app_analisi_immobili.py:132 | the chart requires a column `costi_totali` | any table produced by `calcolo_kpi`: it creates `costo_totale` (line 107), never `costi_totali`, so the chart is always skipped with an error | require and plot `costo_totale` | not executed | `Chart.ChartNeverDrawsAsWritten` | `Chart.ChartDrawsAfterKpi` |
