/** The value resolver, `get_values` (pyjstat/pyjstat.py:287-315): a dense
    `value` list passes through; a sparse `value` object keyed by decimal flat
    index is spread over a list of `np.prod(size)` Nones. */
module ValueResolver {
  import opened Wrappers
  import opened OrderedDicts
  import opened JsonStat
  import opened Coercion
  import opened MixedRadix

  /** `js_dict['size'] if js_dict.get('size') else js_dict['dimension']['size']`:
      an empty top-level `size` counts as missing. */
  function SizeOf(ds: Dataset): (r: Result<seq<nat>, Error>)
    ensures r.Ok? <==> (ds.size.Some? && |ds.size.value| > 0) || (ds.dimension.Some? && ds.dimension.value.size.Some?)
    ensures r.Ok? ==> if ds.size.Some? && |ds.size.value| > 0 then r.value == ds.size.value
                      else r.value == ds.dimension.value.size.value
  {
    if ds.size.Some? && |ds.size.value| > 0 then Ok(ds.size.value)
    else if ds.dimension.None? then Err(KeyError("dimension"))
    else if ds.dimension.value.size.None? then Err(KeyError("size"))
    else Ok(ds.dimension.value.size.value)
  }

  /** The keys of the comprehension `{int(key): value for ...}`, each parsed
      with `int`; the first key that does not parse raises ValueError. */
  function ParseKeys(entries: Dict<string, Cell>): (r: Result<seq<(int, Cell)>, Error>)
    ensures r.Ok? <==> forall k :: 0 <= k < |entries| ==> IsIntLiteral(entries[k].0)
    ensures r.Ok? ==> (|r.value| == |entries| &&
      forall k :: 0 <= k < |entries| ==> r.value[k] == (ParseInt(entries[k].0).value, entries[k].1))
    decreases |entries|
  {
    if |entries| == 0 then Ok([])
    else
      var n := |entries| - 1;
      var front :- ParseKeys(entries[..n]);
      match ParseInt(entries[n].0)
      case None => Err(ValueError("invalid literal for int()"))
      case Some(i) => Ok(front + [(i, entries[n].1)])
  }

  /** `vals = n * [None]` followed by `vals[key] = value` for each item in
      order, with Python's list indexing (negative keys count from the end). */
  function Scatter(n: nat, items: seq<(int, Cell)>): (r: Result<seq<Cell>, Error>)
    ensures r.Ok? <==> forall k :: 0 <= k < |items| ==> -(n as int) <= items[k].0 < n
    ensures r.Ok? ==> |r.value| == n
    ensures r.Err? ==> r == Err(IndexError)
    decreases |items|
  {
    if |items| == 0 then Ok(seq(n, _ => NullCell))
    else
      var m := |items| - 1;
      var prev :- Scatter(n, items[..m]);
      match ListPosition(n, items[m].0)
      case None => Err(IndexError)
      case Some(j) => Ok(prev[j := items[m].1])
  }

  /** `get_values(js_dict, value)`. A list is returned as it is (the test
      `type(values[0]) is not dict or tuple` is always true, but reading
      `values[0]` fails on an empty list). An object is spread over
      `np.prod(size)` cells; for an empty `size` the product is the float 1.0
      and `1.0 * [None]` raises TypeError. */
  function ResolveValues(ds: Dataset, key: string): (r: Result<seq<Cell>, Error>) {
    if key !in ds.fields then Err(KeyError(key))
    else match ds.fields[key]
      case DenseValues(cells) => if |cells| == 0 then Err(IndexError) else Ok(cells)
      case SparseValues(entries) =>
        var parsed :- ParseKeys(entries);
        var sizes :- SizeOf(ds);
        if |sizes| == 0 then Err(TypeError) else Scatter(Prod(sizes), FromPairs(parsed))
  }

  /** Once an item is out of range, scattering all items fails too. */
  lemma {:induction false} ScatterErrorPersists(n: nat, items: seq<(int, Cell)>, i: nat)
    requires i < |items| && ListPosition(n, items[i].0).None?
    ensures Scatter(n, items) == Err(IndexError)
  {
  }

  /** One step of the fill loop. */
  lemma ScatterStep(n: nat, items: seq<(int, Cell)>, i: nat, prev: seq<Cell>, j: nat)
    requires i < |items| && Scatter(n, items[..i]) == Ok(prev)
    requires ListPosition(n, items[i].0) == Some(j)
    ensures j < |prev| && Scatter(n, items[..i + 1]) == Ok(prev[j := items[i].1])
  {
    assert items[..i + 1][..i] == items[..i];
  }

  /** The fill loop of `get_values`: `vals = [None] * n`, then
      `vals[key] = value` item by item. */
  method Spread(n: nat, items: seq<(int, Cell)>) returns (r: Result<seq<Cell>, Error>)
    ensures r == Scatter(n, items)
  {
    var vals := new Cell[n](_ => NullCell);
    var i := 0;
    assert items[..0] == [];
    assert vals[..] == seq(n, _ => NullCell);
    while i < |items|
      invariant 0 <= i <= |items|
      invariant Scatter(n, items[..i]) == Ok(vals[..])
    {
      var pos := ListPosition(n, items[i].0);
      if pos.None? {
        ScatterErrorPersists(n, items, i);
        return Err(IndexError);
      }
      ScatterStep(n, items, i, vals[..], pos.value);
      vals[pos.value] := items[i].1;
      i := i + 1;
    }
    assert items[..i] == items;
    return Ok(vals[..]);
  }

  /** The body of `get_values`. */
  method GetValues(ds: Dataset, key: string) returns (r: Result<seq<Cell>, Error>)
    ensures r == ResolveValues(ds, key)
  {
    if key !in ds.fields {
      return Err(KeyError(key));
    }
    var values := ds.fields[key];
    if values.DenseValues? {
      if |values.cells| == 0 {
        return Err(IndexError);
      }
      return Ok(values.cells);
    }
    var parsed :- ParseKeys(values.entries);
    var sizes :- SizeOf(ds);
    if |sizes| == 0 {
      return Err(TypeError);
    }
    r := Spread(Prod(sizes), FromPairs(parsed));
  }

  /** With every key in [0, n), position j holds the value of the last item
      keyed j, and None where no item is keyed j. */
  lemma {:induction false} ScatterAt(n: nat, items: seq<(int, Cell)>, j: nat)
    requires forall k :: 0 <= k < |items| ==> 0 <= items[k].0 < n
    requires j < n
    ensures Scatter(n, items).Ok?
    ensures Scatter(n, items).value[j] == match LastValue(items, j) case Some(v) => v case None => NullCell
    decreases |items|
  {
    if |items| > 0 {
      ScatterAt(n, items[..|items| - 1], j);
    }
  }

  /** Sparse reconstruction: the dense list has `np.prod(size)` cells; with
      no negative key, each cell holds the value of the last entry whose key
      parses to its position, and None when no key does. */
  lemma SparseValuesPlaced(ds: Dataset, key: string, j: nat)
    requires key in ds.fields && ds.fields[key].SparseValues?
    requires ResolveValues(ds, key).Ok?
    requires forall k :: 0 <= k < |ds.fields[key].entries| ==> ParseInt(ds.fields[key].entries[k].0).value >= 0
    ensures |ResolveValues(ds, key).value| == Prod(SizeOf(ds).value)
    ensures j < |ResolveValues(ds, key).value| ==>
      ResolveValues(ds, key).value[j] ==
        match LastValue(ParseKeys(ds.fields[key].entries).value, j) case Some(v) => v case None => NullCell
  {
    var entries := ds.fields[key].entries;
    var parsed := ParseKeys(entries).value;
    var items := FromPairs(parsed);
    var n := Prod(SizeOf(ds).value);
    if j < n {
      NonNegativeKeys(entries, parsed);
      FromPairsNonNegative(parsed);
      assert forall k :: 0 <= k < |items| ==> 0 <= items[k].0 < n;
      ScatterAt(n, items, j);
      FromPairsGet(parsed, j);
      LastValueIsGet(items, j);
    }
  }

  /** Keys whose decimal text has no sign parse to non-negative numbers. */
  lemma NonNegativeKeys(entries: Dict<string, Cell>, parsed: seq<(int, Cell)>)
    requires ParseKeys(entries) == Ok(parsed)
    requires forall k :: 0 <= k < |entries| ==> ParseInt(entries[k].0).value >= 0
    ensures forall m :: 0 <= m < |parsed| ==> parsed[m].0 >= 0
  {
  }

  /** Building a dict keeps only keys that some pair has. */
  lemma FromPairsNonNegative(parsed: seq<(int, Cell)>)
    requires forall m :: 0 <= m < |parsed| ==> parsed[m].0 >= 0
    ensures forall k :: 0 <= k < |FromPairs(parsed)| ==> FromPairs(parsed)[k].0 >= 0
  {
    var items := FromPairs(parsed);
    FromPairsKeys(parsed);
    forall k | 0 <= k < |items| ensures items[k].0 >= 0 {
      assert Keys(items)[k] in Keys(parsed);
      var m :| 0 <= m < |parsed| && Keys(parsed)[m] == items[k].0;
    }
  }

  /** A dense `value` list comes back unchanged. */
  lemma DenseValuesUnchanged(ds: Dataset, key: string)
    requires key in ds.fields && ds.fields[key].DenseValues? && |ds.fields[key].cells| > 0
    ensures ResolveValues(ds, key) == Ok(ds.fields[key].cells)
  {
  }
}
