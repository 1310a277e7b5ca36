/** The flat filter of the dashboard: an optional equality filter on
    `categoria`, then one on `descrizione`. A selector holds either the
    entry "Tutte" (no filter) or one of the column's distinct values, which
    may be the missing value (`None`). As in pandas, a missing cell never
    equals anything, not even a missing selection. */
module Filtering {
  import opened Wrappers
  import opened Records
  import opened Sequences

  /** The selector entry that switches a filter off. */
  const TUTTE: Text := "Tutte"

  datatype Field = Categoria | Descrizione

  function FieldOf(r: Record, f: Field): Option<Text>
  {
    match f
    case Categoria => r.categoria
    case Descrizione => r.descrizione
  }

  /** `df[col] == sel` for one cell: true only when both are present and equal. */
  predicate Matches(cell: Option<Text>, sel: Option<Text>)
  {
    cell.Some? && cell == sel
  }

  /** A row passes a selector when the selector is "Tutte" or the cell matches it. */
  predicate Passes(cell: Option<Text>, sel: Option<Text>)
  {
    sel == Some(TUTTE) || Matches(cell, sel)
  }

  /** The boolean mask `df[f] == sel`. */
  function Mask(f: Field, sel: Option<Text>): Record -> bool
  {
    r => Matches(FieldOf(r, f), sel)
  }

  /** `df[df[f] == sel]`: the rows whose field `f` equals the selection, in order. */
  function Where(rows: seq<Record>, f: Field, sel: Option<Text>): (r: seq<Record>)
    ensures forall x :: x in r <==> x in rows && Matches(FieldOf(x, f), sel)
    ensures forall x :: multiset(r)[x] == if Matches(FieldOf(x, f), sel) then multiset(rows)[x] else 0
    ensures IsSubsequence(r, rows)
  {
    Filter(rows, Mask(f, sel))
  }

  /** The filter block of the dashboard, on a copy of the stored table. */
  function ApplyFilters(rows: seq<Record>, categoria: Option<Text>, descrizione: Option<Text>): (r: seq<Record>)
    ensures categoria == Some(TUTTE) && descrizione == Some(TUTTE) ==> r == rows
    ensures forall x :: x in r <==> x in rows && Passes(x.categoria, categoria) && Passes(x.descrizione, descrizione)
    ensures forall x :: multiset(r)[x] ==
              if Passes(x.categoria, categoria) && Passes(x.descrizione, descrizione)
              then multiset(rows)[x] else 0
    ensures IsSubsequence(r, rows)
  {
    var byCategoria := if categoria != Some(TUTTE) then Where(rows, Categoria, categoria) else rows;
    assert IsSubsequence(byCategoria, rows) by {
      if categoria == Some(TUTTE) { SubsequenceReflexive(rows); }
    }
    var byDescrizione := if descrizione != Some(TUTTE) then Where(byCategoria, Descrizione, descrizione) else byCategoria;
    assert IsSubsequence(byDescrizione, byCategoria) by {
      if descrizione == Some(TUTTE) { SubsequenceReflexive(byCategoria); }
    }
    SubsequenceTransitive(byDescrizione, byCategoria, rows);
    byDescrizione
  }

  /** Filtering by description first and category second selects the same
      rows, in the same order. */
  lemma FiltersCommute(rows: seq<Record>, categoria: Option<Text>, descrizione: Option<Text>)
    ensures var byDescrizione := if descrizione != Some(TUTTE) then Where(rows, Descrizione, descrizione) else rows;
            ApplyFilters(rows, categoria, descrizione)
            == if categoria != Some(TUTTE) then Where(byDescrizione, Categoria, categoria) else byDescrizione
  {
    FilterCommutes(rows, Mask(Categoria, categoria), Mask(Descrizione, descrizione));
  }

  /** Selecting a value that no row holds yields the empty table, not an error. */
  lemma AbsentValueYieldsEmpty(rows: seq<Record>, f: Field, sel: Option<Text>,
                               categoria: Option<Text>, descrizione: Option<Text>)
    requires sel != Some(TUTTE)
    requires forall i :: 0 <= i < |rows| ==> FieldOf(rows[i], f) != sel
    requires (f == Categoria && categoria == sel) || (f == Descrizione && descrizione == sel)
    ensures ApplyFilters(rows, categoria, descrizione) == []
  {
    FilterKeepsNone(rows, Mask(f, sel));
  }

  /** Re-applying the same selections to a filtered table changes nothing. */
  lemma FiltersIdempotent(rows: seq<Record>, categoria: Option<Text>, descrizione: Option<Text>)
    ensures var r := ApplyFilters(rows, categoria, descrizione);
            ApplyFilters(r, categoria, descrizione) == r
  {
    var r := ApplyFilters(rows, categoria, descrizione);
    var p := (x: Record) => Passes(x.categoria, categoria) && Passes(x.descrizione, descrizione);
    var again := ApplyFilters(r, categoria, descrizione);
    forall i | 0 <= i < |r| ensures p(r[i]) {
      assert r[i] in r;
    }
    assert Filter(r, p) == r by { FilterKeepsAll(r, p); }
    assert multiset(again) == multiset(r);
    SubsequenceWithAllCounts(again, r);
  }
}
