/** The decoder, `generate_df` (pyjstat/pyjstat.py:369-393): the dimension
    frames, the value list and the generated rows are assembled into a table
    whose row k carries value k. */
module Decoder {
  import opened Wrappers
  import opened JsonStat
  import opened Coercion
  import opened MixedRadix
  import opened DimensionResolver
  import opened ValueResolver
  import opened RowGenerator

  /** The category strings of a generated row as table cells. */
  function StrCells(row: seq<string>): (r: seq<Cell>)
    ensures |r| == |row| && forall d :: 0 <= d < |row| ==> r[d] == StrCell(row[d])
  {
    seq(|row|, d requires 0 <= d < |row| => StrCell(row[d]))
  }

  /** `generate_df(js_dict, naming, value)`. Reading `values[i]` for a row
      beyond the value list raises IndexError; with no rows at all the frame
      has no columns, so naming them fails with ValueError, and fewer rows
      than values fails the same way when the index is set. */
  function DecodeTable(ds: Dataset, naming: string, value: string): (r: Result<Table, Error>)
    ensures r.Ok? ==> Dimensions(ds, naming).Ok? && ResolveValues(ds, value).Ok? && DfRows(Dimensions(ds, naming).value.0, naming).Ok?
    ensures r.Ok? ==> |r.value.rows| == |ResolveValues(ds, value).value| == |DfRows(Dimensions(ds, naming).value.0, naming).value| > 0
    ensures r.Ok? ==> r.value.columns == Dimensions(ds, naming).value.1 + [value]
    ensures r.Ok? ==> Rectangular(r.value)
    ensures r.Ok? ==> forall k :: 0 <= k < |r.value.rows| ==>
      r.value.rows[k] == StrCells(DfRows(Dimensions(ds, naming).value.0, naming).value[k]) + [ResolveValues(ds, value).value[k]]
    ensures Dimensions(ds, naming).Err? ==> r == Err(Dimensions(ds, naming).error)
    ensures Dimensions(ds, naming).Ok? && ResolveValues(ds, value).Err? ==> r == Err(ResolveValues(ds, value).error)
    ensures Dimensions(ds, naming).Ok? && ResolveValues(ds, value).Ok? && DfRows(Dimensions(ds, naming).value.0, naming).Err? ==>
      r == Err(DfRows(Dimensions(ds, naming).value.0, naming).error)
    ensures Dimensions(ds, naming).Ok? && ResolveValues(ds, value).Ok? && DfRows(Dimensions(ds, naming).value.0, naming).Ok? ==>
      var n := |DfRows(Dimensions(ds, naming).value.0, naming).value|;
      var m := |ResolveValues(ds, value).value|;
      && (r.Ok? <==> n == m > 0)
      && (n > m ==> r == Err(IndexError))
      && (n <= m && (n == 0 || n < m) ==> r == Err(ValueError("Length mismatch")))
  {
    var (frames, names) :- Dimensions(ds, naming);
    var values :- ResolveValues(ds, value);
    var rows :- DfRows(frames, naming);
    DimensionsLengths(ds, naming);
    if |rows| > |values| then Err(IndexError)
    else if |rows| == 0 || |rows| < |values| then Err(ValueError("Length mismatch"))
    else Ok(Table(names + [value], seq(|rows|, k requires 0 <= k < |rows| => StrCells(rows[k]) + [values[k]])))
  }

  /** The frames and the names of `get_dimensions` come in pairs. */
  lemma DimensionsLengths(ds: Dataset, naming: string)
    ensures Dimensions(ds, naming).Ok? ==> |Dimensions(ds, naming).value.0| == |Dimensions(ds, naming).value.1|
  {
    if Dimensions(ds, naming).Ok? {
      DimensionsShape(ds, DimensionIds(ds).value, naming);
    }
  }

  /** The body of `generate_df`. */
  method GenerateDf(ds: Dataset, naming: string, value: string) returns (r: Result<Table, Error>)
    ensures r == DecodeTable(ds, naming, value)
  {
    var dims :- GetDimensions(ds, naming);
    var (frames, names) := dims;
    var values :- GetValues(ds, value);
    var rows :- GetDfRow(frames, naming);
    if |rows| > |values| {
      return Err(IndexError);
    }
    if |rows| == 0 || |rows| < |values| {
      return Err(ValueError("Length mismatch"));
    }
    return Ok(Table(names + [value], seq(|rows|, k requires 0 <= k < |rows| => StrCells(rows[k]) + [values[k]])));
  }

  /** The category columns the rows of `DecodeTable` are drawn from. */
  function DecodedColumns(ds: Dataset, naming: string): (r: Result<seq<seq<string>>, Error>)
    ensures r.Ok? ==> (Dimensions(ds, naming).Ok? && CheckInput(naming).Ok? &&
      ReachedColumns(Dimensions(ds, naming).value.0, CheckInput(naming).value) == r)
  {
    var (frames, _) :- Dimensions(ds, naming);
    var n :- CheckInput(naming);
    ReachedColumns(frames, n)
  }

  /** Row k of the decoded table: the categories at the mixed-radix digits
      of k, one per dimension, followed by value k, so each value lands on
      the row of the categories whose flat index it sits at. */
  lemma DecodedRow(ds: Dataset, naming: string, value: string, k: nat)
    requires DecodeTable(ds, naming, value).Ok?
    requires k < |DecodeTable(ds, naming, value).value.rows|
    ensures DecodedColumns(ds, naming).Ok?
    ensures |DecodeTable(ds, naming, value).value.rows| == Prod(Cardinalities(DecodedColumns(ds, naming).value))
    ensures InBounds(Digits(k, Cardinalities(DecodedColumns(ds, naming).value)), Cardinalities(DecodedColumns(ds, naming).value))
    ensures FlatIndex(Digits(k, Cardinalities(DecodedColumns(ds, naming).value)), Cardinalities(DecodedColumns(ds, naming).value)) == k
    ensures DecodeTable(ds, naming, value).value.rows[k] ==
      StrCells(Pick(DecodedColumns(ds, naming).value, Digits(k, Cardinalities(DecodedColumns(ds, naming).value))))
        + [ResolveValues(ds, value).value[k]]
  {
    var frames := Dimensions(ds, naming).value.0;
    DfRowsAt(frames, naming, k);
    var cols := ReachedColumns(frames, CheckInput(naming).value).value;
    assert DecodedColumns(ds, naming) == Ok(cols);
    DigitsFlatIndex(k, Cardinalities(cols));
  }
}
