/** Load normalisation (`load_and_preprocess_data`): rows without a `codice`
    are dropped, then the seven numeric columns are coerced to numbers, a
    missing or unparsable cell becoming 0. */
module Loading {
  import opened Wrappers
  import opened Records
  import opened Sequences

  /** The coercion of one numeric cell: the parsed number, or 0. */
  function ToNumber(cell: Option<real>): real
  {
    cell.GetOr(0.0)
  }

  /** A coerced number `x` agrees with its cell: the parsed number when the
      cell parsed, 0 when it was empty or unparsable. */
  predicate CoercedFrom(x: real, cell: Option<real>)
  {
    if cell.Some? then x == cell.value else x == 0.0
  }

  predicate HasCodice(r: RawRow)
  {
    r.codice.Some?
  }

  /** `dropna(subset=['codice'])`. */
  function DropMissingCodice(raw: seq<RawRow>): (kept: seq<RawRow>)
    ensures forall i :: 0 <= i < |kept| ==> kept[i].codice.Some?
    ensures forall x :: x in kept <==> x in raw && x.codice.Some?
    ensures forall x :: multiset(kept)[x] == if x.codice.Some? then multiset(raw)[x] else 0
    ensures IsSubsequence(kept, raw)
  {
    var kept := Filter(raw, HasCodice);
    assert forall i :: 0 <= i < |kept| ==> kept[i] in kept;
    kept
  }

  /** Numeric coercion of one row: the text cells are kept as they are, each
      numeric cell holds its parsed number when parsing succeeded and 0
      otherwise, and no KPI column exists yet. */
  function Coerce(raw: RawRow): (r: Record)
    ensures r.codice == raw.codice && r.categoria == raw.categoria && r.descrizione == raw.descrizione
    ensures r.kpi.None?
    ensures CoercedFrom(r.distribuzioneCosti, raw.distribuzioneCosti)
    ensures CoercedFrom(r.prezzoVendita, raw.prezzoVendita)
    ensures CoercedFrom(r.oreUomo, raw.oreUomo)
    ensures CoercedFrom(r.costoPersonale, raw.costoPersonale)
    ensures CoercedFrom(r.costoMaterialeConsumo, raw.costoMaterialeConsumo)
    ensures CoercedFrom(r.noleggiAmmortamenti, raw.noleggiAmmortamenti)
    ensures CoercedFrom(r.qty, raw.qty)
  {
    Record(
      raw.codice, raw.categoria, raw.descrizione,
      ToNumber(raw.distribuzioneCosti), ToNumber(raw.prezzoVendita), ToNumber(raw.oreUomo),
      ToNumber(raw.costoPersonale), ToNumber(raw.costoMaterialeConsumo),
      ToNumber(raw.noleggiAmmortamenti), ToNumber(raw.qty),
      None)
  }

  /** The loaded table: the rows that have a `codice`, in file order, each
      coerced. */
  function LoadAndPreprocessData(raw: seq<RawRow>): (t: seq<Record>)
    ensures |t| == |DropMissingCodice(raw)| <= |raw|
    ensures forall i :: 0 <= i < |t| ==> t[i] == Coerce(DropMissingCodice(raw)[i])
    ensures forall i :: 0 <= i < |t| ==> t[i].codice.Some? && t[i].kpi.None?
  {
    var kept := DropMissingCodice(raw);
    seq(|kept|, i requires 0 <= i < |kept| => Coerce(kept[i]))
  }

  /** A loaded record written back as a row whose every numeric cell parses. */
  function Unparse(r: Record): RawRow
  {
    RawRow(
      r.codice, r.categoria, r.descrizione,
      Some(r.distribuzioneCosti), Some(r.prezzoVendita), Some(r.oreUomo),
      Some(r.costoPersonale), Some(r.costoMaterialeConsumo),
      Some(r.noleggiAmmortamenti), Some(r.qty))
  }

  /** Coercion loses nothing when every numeric cell parses: writing the
      coerced row back gives the raw row. */
  lemma CoerceOfParsedRow(raw: RawRow)
    requires raw.distribuzioneCosti.Some? && raw.prezzoVendita.Some? && raw.oreUomo.Some?
    requires raw.costoPersonale.Some? && raw.costoMaterialeConsumo.Some?
    requires raw.noleggiAmmortamenti.Some? && raw.qty.Some?
    ensures Unparse(Coerce(raw)) == raw
  {
  }

  /** Coercing a row written back from a loaded record gives the record. */
  lemma CoerceUnparse(r: Record)
    requires r.kpi.None?
    ensures Coerce(Unparse(r)) == r
  {
  }

  /** When every row has a `codice`, loading drops nothing and only coerces. */
  lemma {:induction false} LoadKeepsKeyedRows(raw: seq<RawRow>)
    requires forall i :: 0 <= i < |raw| ==> raw[i].codice.Some?
    ensures |LoadAndPreprocessData(raw)| == |raw|
    ensures forall i :: 0 <= i < |raw| ==> LoadAndPreprocessData(raw)[i] == Coerce(raw[i])
  {
    FilterKeepsAll(raw, HasCodice);
  }

  /** Load normalisation is a fixed point: loading a loaded table again, with
      its numbers written back as parsed cells, gives the same table. */
  lemma {:induction false} LoadIsIdempotent(raw: seq<RawRow>)
    ensures var t := LoadAndPreprocessData(raw);
            LoadAndPreprocessData(seq(|t|, i requires 0 <= i < |t| => Unparse(t[i]))) == t
  {
    var t := LoadAndPreprocessData(raw);
    var again := seq(|t|, i requires 0 <= i < |t| => Unparse(t[i]));
    LoadKeepsKeyedRows(again);
    forall i | 0 <= i < |t| ensures LoadAndPreprocessData(again)[i] == t[i] {
      CoerceUnparse(t[i]);
    }
  }
}
