/** The point lookups of the `Dataset` class (pyjstat/pyjstat.py:633-707):
    category ids to category positions, positions to a flat offset into
    `value`, and the offset to the stored value. */
module DatasetQueries {
  import opened Wrappers
  import opened Sequences
  import opened OrderedDicts
  import opened JsonStat
  import opened Coercion
  import opened MixedRadix
  import opened DimensionResolver
  import opened ValueResolver
  import opened Decoder
  import opened Encoder

  // ---------------------------------------------------------------------
  // get_dimension_index

  /** `self.get('dimension', {}).get(name, {}).get('category', {})['index']`,
      None when any step is missing. */
  function IndexOf(ds: Dataset, name: string): (r: Option<CategoryIndex>)
    ensures r.Some? <==> (ds.dimension.Some? && name in ds.dimension.value.entries &&
      ds.dimension.value.entries[name].category.Some? && ds.dimension.value.entries[name].category.value.index.Some?)
    ensures r.Some? ==> r.value == ds.dimension.value.entries[name].category.value.index.value
  {
    match DimensionEntry(ds, name)
    case Ok(d) => CategoryIndexOf(d)
    case Err(_) => None
  }

  /** `ndx.index(value)` for a list, `ndx[value]` for an object. */
  function Position(ndx: CategoryIndex, value: string): (r: Result<int, Error>)
    ensures ndx.IndexList? ==> (r.Ok? <==> value in ndx.ids)
    ensures ndx.IndexList? && r.Ok? ==>
      0 <= r.value < |ndx.ids| && ndx.ids[r.value] == value && forall j :: 0 <= j < r.value ==> ndx.ids[j] != value
    ensures ndx.IndexList? && r.Err? ==> r == Err(ValueError("is not in list"))
    ensures ndx.IndexMap? ==> (r.Ok? <==> HasKey(ndx.positions, value))
    ensures ndx.IndexMap? && r.Ok? ==> exists i :: 0 <= i < |ndx.positions| && ndx.positions[i] == (value, r.value)
    ensures ndx.IndexMap? && r.Err? ==> r == Err(KeyError(value))
  {
    match ndx
    case IndexList(ids) =>
      if value in ids then Ok(FirstIndex(ids, value)) else Err(ValueError("is not in list"))
    case IndexMap(positions) =>
      match Get(positions, value)
      case Some(p) => Ok(p)
      case None => Err(KeyError(value))
  }

  /** `Dataset.get_dimension_index(name, value)`: a dimension without a
      `category.index` (a single-category dimension) answers 0 for every
      value, and only a present index can fail. */
  function DimensionIndex(ds: Dataset, name: string, value: string): (r: Result<int, Error>)
    ensures IndexOf(ds, name).None? ==> r == Ok(0)
    ensures IndexOf(ds, name).Some? ==> r == Position(IndexOf(ds, name).value, value)
  {
    match IndexOf(ds, name)
    case None => Ok(0)
    case Some(ndx) => Position(ndx, value)
  }

  /** The two spellings of `category.index` JSON-stat allows agree: a list of
      distinct ids and the object mapping each id to its position answer
      every present id alike, and both fail on an absent one. */
  lemma {:induction false} ListAndObjectAgree(ids: seq<string>, value: string)
    requires NoDuplicates(ids)
    ensures Position(IndexList(ids), value).Ok? <==> Position(IndexMap(Positions(ids)), value).Ok?
    ensures Position(IndexList(ids), value).Ok? ==> Position(IndexList(ids), value) == Position(IndexMap(Positions(ids)), value)
  {
    KeysOfPairs(ids);
    assert HasKey(Positions(ids), value) <==> value in ids by {
      if value in ids {
        var k :| 0 <= k < |ids| && ids[k] == value;
        assert Positions(ids)[k].0 == value;
      }
    }
    if value in ids {
      var k := FirstIndex(ids, value);
      assert DistinctKeys(Positions(ids));
      GetAt(Positions(ids), k);
    }
  }

  /** A dataset written by the encoder answers, for the k-th dimension, the
      first-seen position of each of its categories. */
  lemma EncodedDimensionIndex(t: Table, value: string, version: string, row: nat, e: Envelope, k: nat, j: nat)
    requires Rectangular(t) && EncodeTable(t, value, version, row, OwnName) == Ok(e)
    requires k < |DimNames(t.columns, value)|
    requires j < |Uniquify(ColumnNamed(t, DimNames(t.columns, value)[k]))|
    requires NoDuplicates(StrAll(Uniquify(ColumnNamed(t, DimNames(t.columns, value)[k]))).value)
    ensures ToStr(Uniquify(ColumnNamed(t, DimNames(t.columns, value)[k]))[j]).Ok?
    ensures DimensionIndex(e.dataset, DimNames(t.columns, value)[k],
                           ToStr(Uniquify(ColumnNamed(t, DimNames(t.columns, value)[k]))[j]).value) == Ok(j)
  {
    var dims := DimNames(t.columns, value);
    var col := ColumnNamed(t, dims[k]);
    EncodedEntry(t, value, version, row, e, k);
    var named := NamedColumns(t, dims)[k];
    assert named == (dims[k], col);
    CategoryIndexAt(e.dataset, named, j);
  }

  /** The index of a category entry written for a column lists the column's
      distinct values at their first-seen positions. */
  lemma CategoryIndexAt(ds: Dataset, named: (string, seq<Cell>), j: nat)
    requires EntryOf(named, OwnName).Ok? && DimensionEntry(ds, named.0) == Ok(EntryOf(named, OwnName).value.1)
    requires j < |Uniquify(named.1)| && NoDuplicates(StrAll(Uniquify(named.1)).value)
    ensures ToStr(Uniquify(named.1)[j]).Ok?
    ensures DimensionIndex(ds, named.0, ToStr(Uniquify(named.1)[j]).value) == Ok(j)
  {
    IndexOfEntry(ds, named);
    PositionInCategory(named.1, j);
  }

  lemma IndexOfEntry(ds: Dataset, named: (string, seq<Cell>))
    requires EntryOf(named, OwnName).Ok? && DimensionEntry(ds, named.0) == Ok(EntryOf(named, OwnName).value.1)
    ensures IndexOf(ds, named.0) == CategoryOf(named.1).value.index
  {
  }

  lemma PositionInCategory(col: seq<Cell>, j: nat)
    requires CategoryOf(col).Ok? && j < |Uniquify(col)| && NoDuplicates(StrAll(Uniquify(col)).value)
    ensures ToStr(Uniquify(col)[j]).Ok?
    ensures CategoryOf(col).value.index.Some?
    ensures Position(CategoryOf(col).value.index.value, ToStr(Uniquify(col)[j]).value) == Ok(j)
  {
    CategoryPositions(col, j);
    var positions := CategoryOf(col).value.index.value.positions;
    assert Get(positions, ToStr(Uniquify(col)[j]).value) == Some(j);
  }

  // ---------------------------------------------------------------------
  // get_dimension_indices

  /** `[d.get(id) for d in query if id in d][0]`: the category asked of
      dimension `id` by the first query entry that mentions it. */
  function QueryValue(query: seq<map<string, string>>, id: string): (r: Option<string>)
    ensures r.Some? <==> exists i :: 0 <= i < |query| && id in query[i]
    ensures r.Some? ==> exists i :: (0 <= i < |query| && id in query[i] && query[i][id] == r.value &&
      forall j :: 0 <= j < i ==> id !in query[j])
    decreases |query|
  {
    if |query| == 0 then None
    else if id in query[0] then Some(query[0][id])
    else
      var r := QueryValue(query[1..], id);
      assert forall i :: 1 <= i < |query| ==> query[1..][i - 1] == query[i];
      assert r.Some? ==> exists i :: (0 <= i < |query| && id in query[i] && query[i][id] == r.value &&
        forall j :: 0 <= j < i ==> id !in query[j]) by {
        if r.Some? {
          var i :| 0 <= i < |query| - 1 && id in query[1..][i] && query[1..][i][id] == r.value &&
            forall j :: 0 <= j < i ==> id !in query[1..][j];
          assert forall j :: 0 <= j < i + 1 ==> id !in query[j] by {
            forall j | 0 <= j < i + 1 ensures id !in query[j] {
              if j > 0 { assert query[j] == query[1..][j - 1]; }
            }
          }
        }
      }
      r
  }

  /** `self['id'] if self.get('id') else self['dimension']['id']`: an empty
      top-level `id` counts as missing. */
  function IdsOf(ds: Dataset): (r: Result<seq<string>, Error>)
    ensures r.Ok? <==> (ds.id.Some? && |ds.id.value| > 0) || (ds.dimension.Some? && ds.dimension.value.id.Some?)
    ensures r.Ok? ==> if ds.id.Some? && |ds.id.value| > 0 then r.value == ds.id.value
                      else r.value == ds.dimension.value.id.value
  {
    if ds.id.Some? && |ds.id.value| > 0 then Ok(ds.id.value)
    else if ds.dimension.None? then Err(KeyError("dimension"))
    else if ds.dimension.value.id.None? then Err(KeyError("id"))
    else Ok(ds.dimension.value.id.value)
  }

  /** One call `get_dimension_index(id, [...][0])`: a dimension no query
      entry mentions raises IndexError before the lookup. */
  function Lookup(ds: Dataset, query: seq<map<string, string>>, id: string): (r: Result<int, Error>)
    ensures QueryValue(query, id).None? ==> r == Err(IndexError)
    ensures QueryValue(query, id).Some? ==> r == DimensionIndex(ds, id, QueryValue(query, id).value)
  {
    match QueryValue(query, id)
    case None => Err(IndexError)
    case Some(v) => DimensionIndex(ds, id, v)
  }

  /** The lookups of all ids, in order. */
  function Lookups(ds: Dataset, query: seq<map<string, string>>, ids: seq<string>): (rs: seq<Result<int, Error>>)
    ensures |rs| == |ids| && forall k :: 0 <= k < |ids| ==> rs[k] == Lookup(ds, query, ids[k])
  {
    seq(|ids|, k requires 0 <= k < |ids| => Lookup(ds, query, ids[k]))
  }

  /** `Dataset.get_dimension_indices(query)`: the position of each
      dimension's queried category, in `id` order; the first failing lookup
      raises. */
  function DimensionIndices(ds: Dataset, query: seq<map<string, string>>): (r: Result<seq<int>, Error>)
    ensures IdsOf(ds).Err? ==> r == Err(IdsOf(ds).error)
    ensures IdsOf(ds).Ok? ==> var ids := IdsOf(ds).value;
      && (r.Ok? <==> forall k :: 0 <= k < |ids| ==> Lookup(ds, query, ids[k]).Ok?)
      && (r.Ok? ==> |r.value| == |ids| && forall k :: 0 <= k < |ids| ==> Ok(r.value[k]) == Lookup(ds, query, ids[k]))
      && (r.Err? ==> exists k :: (0 <= k < |ids| && Lookup(ds, query, ids[k]) == Err(r.error) &&
            forall j :: 0 <= j < k ==> Lookup(ds, query, ids[j]).Ok?))
  {
    var ids :- IdsOf(ds);
    Collect(Lookups(ds, query, ids))
  }

  /** The loop of `get_dimension_indices`, appending one position per
      dimension id. */
  method GetDimensionIndices(ds: Dataset, query: seq<map<string, string>>) returns (r: Result<seq<int>, Error>)
    ensures r == DimensionIndices(ds, query)
  {
    var ids :- IdsOf(ds);
    ghost var rs := Lookups(ds, query, ids);
    var indices := [];
    for i := 0 to |ids|
      invariant |indices| == i
      invariant forall k :: 0 <= k < i ==> rs[k] == Ok(indices[k])
    {
      var v := QueryValue(query, ids[i]);
      if v.None? {
        CollectFirstErr(rs, i);
        return Err(IndexError);
      }
      var p := DimensionIndex(ds, ids[i], v.value);
      if p.Err? {
        CollectFirstErr(rs, i);
        return Err(p.error);
      }
      OkPrefixExtends(rs, indices, p.value);
      indices := indices + [p.value];
    }
    CollectAllOk(rs, indices);
    return Ok(indices);
  }

  // ---------------------------------------------------------------------
  // get_value_index

  /** `Dataset.get_value_index(indices)`: the row-major offset of the first
      `len(size)` positions; fewer positions than dimensions raise
      IndexError, extra ones are ignored. */
  function ValueIndex(ds: Dataset, indices: seq<int>): (r: Result<int, Error>)
    ensures SizeOf(ds).Ok? ==> (r.Ok? <==> |indices| >= |SizeOf(ds).value|)
    ensures SizeOf(ds).Err? ==> r.Err?
  {
    var sizes :- SizeOf(ds);
    if |indices| < |sizes| then Err(IndexError) else Ok(FlatIndex(indices[..|sizes|], sizes))
  }

  /** One step of the loop: the offset of the last `idx + 1` dimensions from
      that of the last `idx`. */
  lemma FlatIndexSuffix(p: seq<int>, s: seq<nat>, i: nat)
    requires |p| == |s| && i < |s|
    ensures FlatIndex(p[i..], s[i..]) == p[i] * Prod(s[i + 1..]) + FlatIndex(p[i + 1..], s[i + 1..])
  {
    assert p[i..][1..] == p[i + 1..];
    assert s[i..][1..] == s[i + 1..];
  }

  /** The loop of `get_value_index`, walking the dimensions from the last,
      with `mult` the product of the sizes after the current one. */
  method GetValueIndex(ds: Dataset, indices: seq<int>) returns (r: Result<int, Error>)
    ensures r == ValueIndex(ds, indices)
  {
    var size :- SizeOf(ds);
    var ndims := |size|;
    var mult := 1;
    var num := 0;
    for idx := 0 to ndims
      invariant idx == 0 ==> num == 0 && mult == 1
      invariant idx > 0 ==> (|indices| >= ndims &&
        num == FlatIndex(indices[ndims - idx..ndims], size[ndims - idx..]) &&
        mult == Prod(size[ndims - idx + 1..]))
    {
      if ndims - idx - 1 >= |indices| {
        return Err(IndexError);
      }
      var p := indices[..ndims];
      ghost var i := ndims - idx - 1;
      FlatIndexSuffix(p, size, i);
      assert p[i + 1..] == indices[i + 1..ndims] && p[i..] == indices[i..ndims];
      if idx > 0 {
        assert size[i + 1..][1..] == size[i + 2..];
        mult := mult * size[ndims - idx];
      }
      num := num + mult * indices[ndims - idx - 1];
    }
    assert size[0..] == size && indices[0..ndims] == indices[..ndims];
    return Ok(num);
  }

  /** Positions within the dimensions' sizes address a cell of the cube. */
  lemma ValueIndexBounds(ds: Dataset, indices: seq<int>)
    requires SizeOf(ds).Ok? && InBounds(indices, SizeOf(ds).value)
    ensures ValueIndex(ds, indices).Ok?
    ensures 0 <= ValueIndex(ds, indices).value < Prod(SizeOf(ds).value)
    ensures Digits(ValueIndex(ds, indices).value, SizeOf(ds).value) == indices
  {
    assert indices[..|indices|] == indices;
    FlatIndexDigits(indices, SizeOf(ds).value);
  }

  /** Every cell of the cube is the offset of exactly its own digits: the
      positions `get_df_row` pairs with row k lead `get_value_index` back
      to k. */
  lemma ValueIndexOfDigits(ds: Dataset, k: nat)
    requires SizeOf(ds).Ok? && k < Prod(SizeOf(ds).value)
    ensures ValueIndex(ds, Digits(k, SizeOf(ds).value)) == Ok(k)
  {
    var s := SizeOf(ds).value;
    assert Digits(k, s)[..|s|] == Digits(k, s);
    DigitsFlatIndex(k, s);
  }

  // ---------------------------------------------------------------------
  // get_value_by_index and get_value

  /** `self['value'][index]` as written: a list is indexed Python-style, but
      an object's keys are the strings of the JSON text, so an integer index
      is never one of them. */
  function ValueByIndexAsWritten(ds: Dataset, index: int): (r: Result<Cell, Error>)
    ensures "value" !in ds.fields ==> r == Err(KeyError("value"))
    ensures "value" in ds.fields && ds.fields["value"].DenseValues? ==>
      (r.Ok? <==> ListPosition(|ds.fields["value"].cells|, index).Some?)
    ensures "value" in ds.fields && ds.fields["value"].SparseValues? ==> r.Err?
  {
    if "value" !in ds.fields then Err(KeyError("value"))
    else match ds.fields["value"]
      case DenseValues(cells) =>
        (match ListPosition(|cells|, index)
         case Some(p) => Ok(cells[p])
         case None => Err(IndexError))
      case SparseValues(_) => Err(KeyError(Decimal(index)))
  }

  /** The value at a flat offset, reading an object-valued `value` as the
      dense list `get_values` makes of it. */
  function ValueAt(ds: Dataset, index: int): (r: Result<Cell, Error>)
    ensures r.Ok? <==> ResolveValues(ds, "value").Ok? && ListPosition(|ResolveValues(ds, "value").value|, index).Some?
    ensures r.Ok? ==> r.value == ResolveValues(ds, "value").value[ListPosition(|ResolveValues(ds, "value").value|, index).value]
  {
    var vals :- ResolveValues(ds, "value");
    match ListPosition(|vals|, index)
    case Some(p) => Ok(vals[p])
    case None => Err(IndexError)
  }

  /** On a list-valued `value` the corrected lookup is the written one. */
  lemma DenseLookupUnchanged(ds: Dataset, index: int)
    requires "value" in ds.fields && ds.fields["value"].DenseValues?
    ensures ValueAt(ds, index) == ValueByIndexAsWritten(ds, index)
  {
  }

  /** On an object-valued `value` with in-range keys, the corrected lookup
      finds the value stored under the offset's key, or None for a key the
      object leaves out. */
  lemma SparseLookupFound(ds: Dataset, index: nat)
    requires "value" in ds.fields && ds.fields["value"].SparseValues?
    requires ResolveValues(ds, "value").Ok?
    requires forall k :: 0 <= k < |ds.fields["value"].entries| ==> ParseInt(ds.fields["value"].entries[k].0).value >= 0
    requires index < Prod(SizeOf(ds).value)
    ensures ValueAt(ds, index) == Ok(match LastValue(ParseKeys(ds.fields["value"].entries).value, index)
                                     case Some(v) => v case None => NullCell)
  {
    SparseValuesPlaced(ds, "value", index);
  }

  /** The object `{"0": 5}` over a one-cell cube: the written lookup of
      offset 0 raises KeyError where the stored value is 5. */
  lemma SparseLookupAsWrittenFails()
    ensures var ds := Dataset(None, None, None, Some([1]), None, map["value" := SparseValues([("0", IntCell(5))])]);
      ValueByIndexAsWritten(ds, 0).Err? && ValueAt(ds, 0) == Ok(IntCell(5))
  {
    var ds := Dataset(None, None, None, Some([1]), None, map["value" := SparseValues([("0", IntCell(5))])]);
    var entries := [("0", IntCell(5))];
    var items := [(0, IntCell(5))];
    assert AllDigits("0") && DigitsValue("0"[..0]) == 0;
    assert ParseInt("0") == Some(0);
    assert entries[..0] == [];
    assert ParseKeys(entries[..0]) == Ok([]);
    assert [] + [items[0]] == items;
    assert ParseKeys(entries) == Ok(items);
    assert FromPairs(items) == items by { FromPairsOfDistinct(items); }
    assert Prod([1]) == 1;
    assert items[..0] == [];
    var blank := seq(1, _ => NullCell);
    assert blank == [NullCell];
    assert Scatter(1, items[..0]) == Ok(blank);
    assert ListPosition(1, 0) == Some(0);
    assert blank[0 := IntCell(5)] == [IntCell(5)];
    assert Scatter(1, items) == Ok([IntCell(5)]);
  }

  /** The corrected `get_value_by_index`, after `get_values` densifies
      `value`. */
  method GetValueByIndex(ds: Dataset, index: int) returns (r: Result<Cell, Error>)
    ensures r == ValueAt(ds, index)
  {
    var vals :- GetValues(ds, "value");
    var p := ListPosition(|vals|, index);
    if p.None? {
      return Err(IndexError);
    }
    return Ok(vals[p.value]);
  }

  /** As written, `get_dimension_index` does not fail for a renamed
      dimension: its `.get(..., {})` chain finds no `category.index`, and
      every category of that name is answered with position 0. */
  lemma AsWrittenIndexIsZero(t: Table, value: string, version: string, row: nat, e: Envelope, name: string, v: string)
    requires Rectangular(t) && EncodeTable(t, value, version, row, AsInt) == Ok(e)
    requires forall j :: 0 <= j < |DimNames(t.columns, value)| ==> WrittenKey(DimNames(t.columns, value)[j]) != name
    ensures DimensionIndex(e.dataset, name, v) == Ok(0)
  {
    Encoder.AsWrittenEntryMissing(t, value, version, row, e, name);
  }

  /** `Dataset.get_value(query)`: category ids to positions, positions to an
      offset, the offset to a value. */
  function Value(ds: Dataset, query: seq<map<string, string>>): (r: Result<Cell, Error>)
    ensures r.Ok? ==> DimensionIndices(ds, query).Ok? && ValueIndex(ds, DimensionIndices(ds, query).value).Ok?
    ensures r.Ok? ==> r == ValueAt(ds, ValueIndex(ds, DimensionIndices(ds, query).value).value)
    ensures DimensionIndices(ds, query).Err? ==> r == Err(DimensionIndices(ds, query).error)
    ensures DimensionIndices(ds, query).Ok? && ValueIndex(ds, DimensionIndices(ds, query).value).Err? ==>
      r == Err(ValueIndex(ds, DimensionIndices(ds, query).value).error)
    ensures DimensionIndices(ds, query).Ok? && ValueIndex(ds, DimensionIndices(ds, query).value).Ok? ==>
      r == ValueAt(ds, ValueIndex(ds, DimensionIndices(ds, query).value).value)
  {
    var indices :- DimensionIndices(ds, query);
    var index :- ValueIndex(ds, indices);
    ValueAt(ds, index)
  }

  method GetValue(ds: Dataset, query: seq<map<string, string>>) returns (r: Result<Cell, Error>)
    ensures r == Value(ds, query)
  {
    var indices :- GetDimensionIndices(ds, query);
    var index :- GetValueIndex(ds, indices);
    r := GetValueByIndex(ds, index);
  }

  /** A query whose positions lie within the sizes reads the value at their
      row-major offset. */
  lemma ValueOfPositions(ds: Dataset, query: seq<map<string, string>>)
    requires DimensionIndices(ds, query).Ok? && SizeOf(ds).Ok?
    requires InBounds(DimensionIndices(ds, query).value, SizeOf(ds).value)
    requires ResolveValues(ds, "value").Ok? && |ResolveValues(ds, "value").value| == Prod(SizeOf(ds).value)
    ensures 0 <= FlatIndex(DimensionIndices(ds, query).value, SizeOf(ds).value) < Prod(SizeOf(ds).value)
    ensures Value(ds, query) ==
      Ok(ResolveValues(ds, "value").value[FlatIndex(DimensionIndices(ds, query).value, SizeOf(ds).value)])
  {
    var p := DimensionIndices(ds, query).value;
    ValueIndexBounds(ds, p);
    assert p[..|p|] == p;
  }

  /** `get_value` agrees with `generate_df`: a query that resolves to the
      digits of k reads the value in the last column of row k of the
      decoded table. */
  lemma ValueOfDecodedRow(ds: Dataset, naming: string, query: seq<map<string, string>>, k: nat)
    requires DecodeTable(ds, naming, "value").Ok? && SizeOf(ds).Ok?
    requires k < |DecodeTable(ds, naming, "value").value.rows| && k < Prod(SizeOf(ds).value)
    requires DimensionIndices(ds, query) == Ok(Digits(k, SizeOf(ds).value))
    ensures Value(ds, query).Ok?
    ensures var row := DecodeTable(ds, naming, "value").value.rows[k];
      |row| > 0 && Value(ds, query).value == row[|row| - 1]
  {
    ValueIndexOfDigits(ds, k);
  }
}
