/** One dashboard pass (`render_dashboard` from the copy of the stored table to
    the KPI computation): the stored table is copied, the copy is narrowed by
    the two selectors step by step, and the KPI columns are added to the
    narrowed copy. The stored table itself is never written. */
module Dashboard {
  import opened Wrappers
  import opened Records
  import opened Filtering
  import opened Ranking
  import opened KpiComputation
  import opened Loading

  /** `df[df[f] == sel]`: a new table holding the matching rows of `src`. */
  method SelectRows(src: array<Record>, f: Field, sel: Option<Text>) returns (dst: array<Record>)
    ensures fresh(dst)
    ensures dst[..] == Where(src[..], f, sel)
  {
    var rows := Where(src[..], f, sel);
    dst := new Record[|rows|](k requires 0 <= k < |rows| => rows[k]);
    assert dst[..] == rows;
  }

  /** `data.copy()`. */
  method Copy(src: array<Record>) returns (dst: array<Record>)
    ensures fresh(dst)
    ensures dst[..] == src[..]
  {
    dst := new Record[src.Length](k requires 0 <= k < src.Length reads src => src[k]);
    assert dst[..] == src[..];
  }

  /** The filter block and the KPI computation of one pass over the stored
      table `data`, for the two selector values. */
  method DashboardPass(data: array<Record>, categoria: Option<Text>, descrizione: Option<Text>)
    returns (filtered: array<Record>, incassiTotali: real, costiTotali: real, margineTotale: real,
             top3Incassi: seq<Record>, top3Margine: seq<Record>)
    ensures fresh(filtered)
    ensures data[..] == old(data[..])
    ensures filtered[..] == AddKpiColumns(ApplyFilters(data[..], categoria, descrizione))
    ensures incassiTotali == Total(filtered[..], IncassiTotali)
    ensures costiTotali == Total(filtered[..], CostoTotale)
    ensures margineTotale == Total(filtered[..], MargineTotale)
    ensures margineTotale == incassiTotali - costiTotali
    ensures top3Incassi == NLargest(3, filtered[..], IncassiTotali)
    ensures top3Margine == NLargest(3, filtered[..], MargineTotale)
  {
    filtered := Copy(data);
    if categoria != Some(TUTTE) {
      filtered := SelectRows(filtered, Categoria, categoria);
    }
    if descrizione != Some(TUTTE) {
      filtered := SelectRows(filtered, Descrizione, descrizione);
    }
    assert filtered[..] == ApplyFilters(data[..], categoria, descrizione);
    incassiTotali, costiTotali, margineTotale, top3Incassi, top3Margine := CalcoloKpi(filtered);
  }

  /** Rows without a `codice` reach no downstream computation: every row of
      the table a dashboard pass computes KPIs for carries a `codice`. */
  lemma PipelineKeepsKeyedRows(raw: seq<RawRow>, categoria: Option<Text>, descrizione: Option<Text>)
    ensures var t := AddKpiColumns(ApplyFilters(LoadAndPreprocessData(raw), categoria, descrizione));
            forall i :: 0 <= i < |t| ==> t[i].codice.Some?
  {
    var loaded := LoadAndPreprocessData(raw);
    var selected := ApplyFilters(loaded, categoria, descrizione);
    forall i | 0 <= i < |selected| ensures selected[i].codice.Some? {
      assert selected[i] in selected;
      var j :| 0 <= j < |loaded| && loaded[j] == selected[i];
    }
  }
}
