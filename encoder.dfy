/** The encoder, the body of `to_json_stat` (pyjstat/pyjstat.py:440-531)
    without the final `json.dumps`: each table becomes a JSON-stat dataset,
    described here as the document it serializes to. */
module Encoder {
  import opened Wrappers
  import opened Sequences
  import opened OrderedDicts
  import opened JsonStat
  import opened Coercion
  import opened DimensionResolver

  /** Python's `a in b` between two strings: `a` occurs inside `b`. */
  predicate IsSubstring(a: string, b: string) {
    exists i :: 0 <= i <= |b| && a <= b[i..]
  }

  /** `[item for item in columns if item not in value]`, in column order.
      Because `in` between strings tests for a substring, every column whose
      name occurs inside `value` is dropped, not only the value column. */
  function DimNames(columns: seq<string>, value: string): (r: seq<string>)
    ensures forall i :: 0 <= i < |r| ==> r[i] in columns && !IsSubstring(r[i], value)
    ensures forall i :: 0 <= i < |columns| && !IsSubstring(columns[i], value) ==> columns[i] in r
    ensures |r| <= |columns|
    decreases |columns|
  {
    if |columns| == 0 then []
    else
      var last := columns[|columns| - 1];
      var front := DimNames(columns[..|columns| - 1], value);
      assert forall i :: 0 <= i < |columns| - 1 ==> columns[..|columns| - 1][i] == columns[i];
      if IsSubstring(last, value) then front else front + [last]
  }

  /** Each kept column name occurs among the dimensions as often as among the
      columns; a dropped one not at all. */
  lemma {:induction false} DimNamesCount(columns: seq<string>, value: string, x: string)
    ensures multiset(DimNames(columns, value))[x] == if IsSubstring(x, value) then 0 else multiset(columns)[x]
    decreases |columns|
  {
    if |columns| > 0 {
      var last := columns[|columns| - 1];
      DimNamesCount(columns[..|columns| - 1], value, x);
      assert columns == columns[..|columns| - 1] + [last];
    }
  }

  /** The dimensions keep the order of the columns. */
  lemma {:induction false} DimNamesInOrder(columns: seq<string>, value: string)
    ensures IsSubsequence(DimNames(columns, value), columns)
    decreases |columns|
  {
    if |columns| > 0 {
      var last := columns[|columns| - 1];
      var front := DimNames(columns[..|columns| - 1], value);
      DimNamesInOrder(columns[..|columns| - 1], value);
      if !IsSubstring(last, value) {
        assert (front + [last])[..|front|] == front;
      }
    }
  }

  /** Distinct columns give distinct dimensions. */
  lemma DimNamesDistinct(columns: seq<string>, value: string)
    requires NoDuplicates(columns)
    ensures NoDuplicates(DimNames(columns, value))
  {
    var dims := DimNames(columns, value);
    forall i, j | 0 <= i < j < |dims| ensures dims[i] != dims[j] {
      if dims[i] == dims[j] {
        TwoOccurrences(dims, i, j);
        DimNamesCount(columns, value, dims[i]);
        NoDuplicatesCount(columns, dims[i]);
      }
    }
  }

  /** Two columns of the same name make `to_json_stat` raise ValueError:
      pandas refuses to reindex a column axis with repeated labels when the
      filter drops a column, and the unique-ID test fires when it drops
      none. */
  lemma DuplicateColumnsRejected(t: Table, value: string, version: string, row: nat, style: KeyStyle, i: nat, j: nat)
    requires Rectangular(t) && i < j < |t.columns| && t.columns[i] == t.columns[j]
    ensures DimNames(t.columns, value) != t.columns ==>
      EncodeTable(t, value, version, row, style) == Err(ValueError(ReindexDuplicates))
    ensures DimNames(t.columns, value) == t.columns ==>
      EncodeTable(t, value, version, row, style) == Err(ValueError("Non-value columns must constitute a unique ID"))
  {
    assert !NoDuplicates(t.columns);
  }

  /** The value column is never a dimension. */
  lemma ValueNotADimension(columns: seq<string>, value: string)
    ensures value !in DimNames(columns, value)
  {
    assert value[0..] == value;
  }

  /** `df[name]` for a column name that occurs once. */
  function ColumnNamed(t: Table, name: string): (col: seq<Cell>)
    requires Rectangular(t) && name in t.columns
    ensures |col| == |t.rows|
  {
    Column(t, FirstIndex(t.columns, name))
  }

  /** `to_str` of each cell in order; the first failure is raised. */
  function StrAll(cells: seq<Cell>): (r: Result<seq<string>, Error>)
    ensures r.Ok? <==> forall k :: 0 <= k < |cells| ==> ToStr(cells[k]).Ok?
    ensures r.Ok? ==> (|r.value| == |cells| &&
      forall k :: 0 <= k < |cells| ==> r.value[k] == ToStr(cells[k]).value)
    decreases |cells|
  {
    if |cells| == 0 then Ok([])
    else
      var front :- StrAll(cells[..|cells| - 1]);
      var last :- ToStr(cells[|cells| - 1]);
      Ok(front + [last])
  }

  /** `[(key, k) for k, key in enumerate(keys)]`. */
  function Positions(keys: seq<string>): (d: Dict<string, int>)
    ensures |d| == |keys| && forall k :: 0 <= k < |keys| ==> d[k] == (keys[k], k)
  {
    seq(|keys|, k requires 0 <= k < |keys| => (keys[k], k))
  }

  /** `[(key, key) for key in keys]`. */
  function SelfPairs(keys: seq<string>): (d: Dict<string, string>)
    ensures |d| == |keys| && forall k :: 0 <= k < |keys| ==> d[k] == (keys[k], keys[k])
  {
    seq(|keys|, k requires 0 <= k < |keys| => (keys[k], keys[k]))
  }

  /** The `category` of a dimension column: `index` maps `to_str` of each
      distinct value to its first-seen position and `label` maps it to
      itself, both built as OrderedDicts from the uniquified column. */
  function CategoryOf(col: seq<Cell>): (r: Result<Category, Error>)
    ensures r.Ok? <==> StrAll(Uniquify(col)).Ok?
    ensures r.Ok? ==> r.value.index == Some(IndexMap(FromPairs(Positions(StrAll(Uniquify(col)).value))))
    ensures r.Ok? ==> r.value.labels == Some(FromPairs(SelfPairs(StrAll(Uniquify(col)).value)))
  {
    var keys :- StrAll(Uniquify(col));
    Ok(Category(Some(IndexMap(FromPairs(Positions(keys)))), Some(FromPairs(SelfPairs(keys)))))
  }

  /** `{to_int(name): {"label": to_str(name), "category": ...}}`: the
      dimension entry of a column; the title of a string name is the name. */
  function DimensionOf(name: string, col: seq<Cell>): (r: Result<Dimension, Error>)
    ensures r.Ok? <==> CategoryOf(col).Ok?
    ensures r.Ok? ==> r.value == Dimension(Some(name), Some(CategoryOf(col).value))
  {
    var c :- CategoryOf(col);
    Ok(Dimension(Some(name), Some(c)))
  }

  /** The key the source stores a dimension entry under: `to_int(name)`, an
      int for a name that reads as one, which `json.dumps` writes back in
      decimal. */
  function WrittenKey(name: string): (k: string)
    ensures !IsIntLiteral(name) ==> k == name
    ensures IsIntLiteral(name) ==> ParseInt(k) == ParseInt(name)
  {
    match ParseInt(name)
    case Some(i) => DecimalRoundTrip(i); Decimal(i)
    case None => name
  }

  /** Where a dimension entry is stored: under `to_int(name)`, as the
      source writes it, or under the name itself. */
  datatype KeyStyle = AsInt | OwnName

  function KeyOf(style: KeyStyle, name: string): string {
    match style
    case AsInt => WrittenKey(name)
    case OwnName => name
  }

  /** Each dimension name with its column, `dims[i]` for `i` in `dims`. */
  function NamedColumns(t: Table, dims: seq<string>): (r: seq<(string, seq<Cell>)>)
    requires Rectangular(t) && forall k :: 0 <= k < |dims| ==> dims[k] in t.columns
    ensures |r| == |dims| && forall k :: 0 <= k < |dims| ==> r[k] == (dims[k], ColumnNamed(t, dims[k]))
  {
    seq(|dims|, k requires 0 <= k < |dims| => (dims[k], ColumnNamed(t, dims[k])))
  }

  /** One element of the list `categories`: the dimension entry of a named
      column, stored under `KeyOf(style, name)` in the written document. */
  function EntryOf(named: (string, seq<Cell>), style: KeyStyle): (r: Result<(string, Dimension), Error>)
    ensures r.Ok? <==> CategoryOf(named.1).Ok?
    ensures r.Ok? ==> r.value == (KeyOf(style, named.0), Dimension(Some(named.0), Some(CategoryOf(named.1).value)))
  {
    var d :- DimensionOf(named.0, named.1);
    Ok((KeyOf(style, named.0), d))
  }

  /** The values of a list of outcomes, or the first failure among them. */
  function Collect<T>(rs: seq<Result<T, Error>>): (r: Result<seq<T>, Error>)
    ensures r.Ok? <==> forall k :: 0 <= k < |rs| ==> rs[k].Ok?
    ensures r.Ok? ==> (|r.value| == |rs| && forall k :: 0 <= k < |rs| ==> r.value[k] == rs[k].value)
    ensures r.Err? ==> exists k :: 0 <= k < |rs| && rs[k] == Err(r.error) && forall j :: 0 <= j < k ==> rs[j].Ok?
    decreases |rs|
  {
    if |rs| == 0 then Ok([])
    else if rs[0].Err? then Err(rs[0].error)
    else
      var rest := Collect(rs[1..]);
      assert forall k :: 1 <= k < |rs| ==> rs[1..][k - 1] == rs[k];
      if rest.Err? then
        assert exists k :: 0 <= k < |rs| && rs[k] == Err(rest.error) && forall j :: 0 <= j < k ==> rs[j].Ok? by {
          var k :| 0 <= k < |rs| - 1 && rs[1..][k] == Err(rest.error) && forall j :: 0 <= j < k ==> rs[1..][j].Ok?;
          assert forall j :: 0 <= j < k + 1 ==> rs[j].Ok? by {
            forall j | 0 <= j < k + 1 ensures rs[j].Ok? {
              if j > 0 { assert rs[j] == rs[1..][j - 1]; }
            }
          }
        }
        Err(rest.error)
      else Ok([rs[0].value] + rest.value)
  }

  /** The list `categories`, one entry per dimension, in order; the first
      failing column raises. */
  function Categories(named: seq<(string, seq<Cell>)>, style: KeyStyle): (r: Result<seq<(string, Dimension)>, Error>)
    ensures r.Ok? <==> forall k :: 0 <= k < |named| ==> EntryOf(named[k], style).Ok?
    ensures r.Ok? ==> (|r.value| == |named| && forall k :: 0 <= k < |named| ==> r.value[k] == EntryOf(named[k], style).value)
    ensures r.Err? ==> exists k :: (0 <= k < |named| && EntryOf(named[k], style) == Err(r.error) &&
      forall j :: 0 <= j < k ==> EntryOf(named[j], style).Ok?)
  {
    EntriesAt(named, style);
    Collect(Entries(named, style))
  }

  /** The outcome of each element of `categories`. */
  function Entries(named: seq<(string, seq<Cell>)>, style: KeyStyle): (rs: seq<Result<(string, Dimension), Error>>)
    ensures |rs| == |named|
  {
    seq(|named|, k requires 0 <= k < |named| => EntryOf(named[k], style))
  }

  lemma EntriesAt(named: seq<(string, seq<Cell>)>, style: KeyStyle)
    ensures forall k :: 0 <= k < |named| ==> Entries(named, style)[k] == EntryOf(named[k], style)
  {
  }

  /** `for category in categories: dimension.update(category)`: later
      entries overwrite earlier ones with the same key. */
  function UpdateAll(m: map<string, Dimension>, es: seq<(string, Dimension)>): (r: map<string, Dimension>)
    decreases |es|
  {
    if |es| == 0 then m
    else UpdateAll(m, es[..|es| - 1])[es[|es| - 1].0 := es[|es| - 1].1]
  }

  /** After the updates a key holds the value of its last entry, or what it
      held before when no entry has that key. */
  lemma {:induction false} UpdateAllAt(m: map<string, Dimension>, es: seq<(string, Dimension)>, key: string)
    ensures key in UpdateAll(m, es) <==> key in m || LastValue(es, key).Some?
    ensures LastValue(es, key).Some? ==> UpdateAll(m, es)[key] == LastValue(es, key).value
    ensures LastValue(es, key).None? && key in m ==> UpdateAll(m, es)[key] == m[key]
    decreases |es|
  {
    if |es| > 0 {
      UpdateAllAt(m, es[..|es| - 1], key);
    }
  }

  /** Repeating the updates, as the encoder does after writing `id` and
      `size`, changes nothing. */
  lemma UpdateAllTwice(m: map<string, Dimension>, es: seq<(string, Dimension)>)
    ensures UpdateAll(UpdateAll(m, es), es) == UpdateAll(m, es)
  {
    var once := UpdateAll(m, es);
    var twice := UpdateAll(once, es);
    forall key | true
      ensures (key in twice <==> key in once) && (key in once ==> twice[key] == once[key])
    {
      UpdateAllAt(m, es, key);
      UpdateAllAt(once, es, key);
    }
  }

  /** `[len(dims[i].unique()) for i in dims]`. */
  function Sizes(t: Table, dims: seq<string>): (r: seq<nat>)
    requires Rectangular(t) && forall k :: 0 <= k < |dims| ==> dims[k] in t.columns
    ensures |r| == |dims| && forall k :: 0 <= k < |dims| ==> r[k] == |Uniquify(ColumnNamed(t, dims[k]))|
  {
    seq(|dims|, k requires 0 <= k < |dims| => |Uniquify(ColumnNamed(t, dims[k]))|)
  }

  /** `float(version)`. */
  function ParseVersion(version: string): (r: Result<real, Error>)
    ensures r.Ok? <==> ParseDecimalNumber(version).Some?
    ensures r.Ok? ==> r.value == ParseDecimalNumber(version).value
    ensures r.Err? ==> r.error.ValueError?
  {
    match ParseDecimalNumber(version)
    case None => Err(ValueError("could not convert string to float"))
    case Some(x) => Ok(x)
  }

  /** The members a version 2.0 dataset writes next to the value list. */
  predicate EnvelopeMember(name: string) {
    name == "dimension" || name == "version" || name == "class" || name == "id" || name == "size"
  }

  /** A name the model does not let the encoder overwrite: the value column
      named like a member written beside it (`version`, `class`, `id`, `size`,
      `dimension` at version 2.0; `dimension` at 1.3), or a dimension named
      `id` or `size` inside a version 1.3 `dimension` block. */
  predicate MemberClash(value: string, v: real, block: map<string, Dimension>) {
    if v >= 2.0 then EnvelopeMember(value) else value == "dimension" || "id" in block || "size" in block
  }

  /** The dataset written for one table: `id` lists the dimension names,
      `size` their numbers of distinct values and `dimension` the entries;
      the values go under `value`. */
  predicate WritesDataset(e: Envelope, t: Table, value: string, version: string, row: nat, block: map<string, Dimension>)
    requires Rectangular(t) && value in t.columns
    requires forall k :: 0 <= k < |DimNames(t.columns, value)| ==> DimNames(t.columns, value)[k] in t.columns
  {
    var dims := DimNames(t.columns, value);
    var sizes := Sizes(t, dims);
    var ds := e.dataset;
    && ds.fields == map[value := DenseValues(ColumnNamed(t, value))]
    && ds.dimension.Some? && ds.dimension.value.entries == block
    && match e
       case Version2(_) =>
         ds.version == Some(version) && ds.kind == Some("dataset") && ds.id == Some(dims) && ds.size == Some(sizes)
         && ds.dimension.value.id.None? && ds.dimension.value.size.None?
       case Version13(name, _) =>
         name == "dataset" + Decimal(row + 1) && ds.version.None? && ds.kind.None? && ds.id.None? && ds.size.None?
         && ds.dimension.value.id == Some(dims) && ds.dimension.value.size == Some(sizes)
  }

  /** pandas' refusal to reindex an axis whose labels repeat. */
  const ReindexDuplicates := "cannot reindex on an axis with duplicate labels"

  /** Encoding of the table at position `row` of the input list, its
      dimension entries stored under `KeyOf(style, name)`. Repeated column
      names raise ValueError: from pandas' reindex when the filter drops a
      column, from the unique-ID test otherwise; then the categories are built (a `to_str`
      failure propagates), the version is parsed, and the value column is
      read (KeyError when absent). Version 2.0 and later writes `version`,
      `class`, `id` and `size` at the top level; older versions write a
      single member `"dataset" + str(row + 1)` holding `id` and `size`
      inside `dimension`. */
  function EncodeTable(t: Table, value: string, version: string, row: nat, style: KeyStyle): (r: Result<Envelope, Error>)
    requires Rectangular(t)
    ensures !NoDuplicates(t.columns) ==> r.Err? && r.error.ValueError?
    ensures !NoDuplicates(DimNames(t.columns, value)) ==> r.Err? && r.error.ValueError?
    ensures r.Ok? ==> (NoDuplicates(t.columns) && NoDuplicates(DimNames(t.columns, value)) &&
      Categories(NamedColumns(t, DimNames(t.columns, value)), style).Ok? &&
      ParseDecimalNumber(version).Some? && value in t.columns &&
      WritesDataset(r.value, t, value, version, row, UpdateAll(map[], Categories(NamedColumns(t, DimNames(t.columns, value)), style).value)) &&
      (r.value.Version2? <==> ParseDecimalNumber(version).value >= 2.0))
  {
    var dims := DimNames(t.columns, value);
    if !NoDuplicates(t.columns) && dims != t.columns then Err(ValueError(ReindexDuplicates))
    else if !NoDuplicates(dims) then Err(ValueError("Non-value columns must constitute a unique ID"))
    else
      var entries :- Categories(NamedColumns(t, dims), style);
      var v :- ParseVersion(version);
      if value !in t.columns then Err(KeyError(value))
      else
        var fields := map[value := DenseValues(ColumnNamed(t, value))];
        var block := UpdateAll(map[], entries);
        var sizes := Sizes(t, dims);
        if MemberClash(value, v, block) then Err(Unsupported("value or dimension named like a written member"))
        else if v >= 2.0 then
          Ok(Version2(Dataset(Some(version), Some("dataset"), Some(dims), Some(sizes),
                              Some(DimensionBlock(None, None, block)), fields)))
        else Ok(Version13("dataset" + Decimal(row + 1),
                          Dataset(None, None, None, None, Some(DimensionBlock(Some(dims), Some(sizes), block)), fields)))
  }

  /** When encoding a table fails, and with which exception, in the order
      the source raises them: repeated column names (ValueError), a
      category `to_str` cannot write, an unparsable version (ValueError), a
      missing value column (KeyError); otherwise it succeeds unless a name
      clashes with a written member. */
  lemma EncodeTableOutcome(t: Table, value: string, version: string, row: nat, style: KeyStyle)
    requires Rectangular(t)
    ensures var dims := DimNames(t.columns, value);
      var cats := Categories(NamedColumns(t, dims), style);
      var r := EncodeTable(t, value, version, row, style);
      && (NoDuplicates(t.columns) && cats.Err? ==> r == Err(cats.error))
      && (NoDuplicates(t.columns) && cats.Ok? && ParseDecimalNumber(version).None? ==>
            r == Err(ValueError("could not convert string to float")))
      && (NoDuplicates(t.columns) && cats.Ok? && ParseDecimalNumber(version).Some? && value !in t.columns ==>
            r == Err(KeyError(value)))
      && (r.Ok? <==> (NoDuplicates(t.columns) && cats.Ok? && ParseDecimalNumber(version).Some? && value in t.columns &&
            !MemberClash(value, ParseDecimalNumber(version).value, UpdateAll(map[], cats.value))))
  {
    var dims := DimNames(t.columns, value);
    var cats := Categories(NamedColumns(t, dims), style);
    var r := EncodeTable(t, value, version, row, style);
    if NoDuplicates(t.columns) {
      DimNamesDistinct(t.columns, value);
    }
    if NoDuplicates(t.columns) && cats.Ok? {
      match ParseDecimalNumber(version)
      case None =>
        assert ParseVersion(version) == Err(ValueError("could not convert string to float"));
      case Some(v) =>
        assert ParseVersion(version) == Ok(v);
    }
  }

  // ---------------------------------------------------------------------
  // What the written categories say

  /** The `index` of a category lists the `to_str` images of the column's
      distinct values in first-seen order. */
  lemma CategoryKeys(col: seq<Cell>)
    requires CategoryOf(col).Ok?
    ensures Keys(CategoryOf(col).value.index.value.positions) == Uniquify(StrAll(Uniquify(col)).value)
    ensures Keys(CategoryOf(col).value.labels.value) == Uniquify(StrAll(Uniquify(col)).value)
  {
    var keys := StrAll(Uniquify(col)).value;
    var c := CategoryOf(col).value;
    assert c.index.value.positions == FromPairs(Positions(keys));
    assert c.labels.value == FromPairs(SelfPairs(keys));
    FromPairsKeys(Positions(keys));
    FromPairsKeys(SelfPairs(keys));
    KeysOfPairs(keys);
  }

  lemma KeysOfPairs(keys: seq<string>)
    ensures Keys(Positions(keys)) == keys && Keys(SelfPairs(keys)) == keys
  {
  }

  /** When the `to_str` images of the distinct values are distinct, the k-th
      distinct value (in first-seen order) has position k and labels itself,
      and there are as many categories as the dimension's `size`. */
  lemma CategoryPositions(col: seq<Cell>, k: nat)
    requires CategoryOf(col).Ok? && k < |Uniquify(col)|
    requires NoDuplicates(StrAll(Uniquify(col)).value)
    ensures ToStr(Uniquify(col)[k]).Ok?
    ensures Get(CategoryOf(col).value.index.value.positions, ToStr(Uniquify(col)[k]).value) == Some(k)
    ensures Get(CategoryOf(col).value.labels.value, ToStr(Uniquify(col)[k]).value) == Some(ToStr(Uniquify(col)[k]).value)
    ensures |CategoryOf(col).value.index.value.positions| == |Uniquify(col)|
  {
    var keys := StrAll(Uniquify(col)).value;
    assert DistinctKeys(Positions(keys));
    assert DistinctKeys(SelfPairs(keys));
    FromPairsOfDistinct(Positions(keys));
    FromPairsOfDistinct(SelfPairs(keys));
    GetAt(Positions(keys), k);
    GetAt(SelfPairs(keys), k);
  }

  /** A column of strings always yields a category whose keys are its
      distinct strings. */
  lemma StringCategory(col: seq<Cell>)
    requires forall i :: 0 <= i < |col| ==> col[i].StrCell?
    ensures CategoryOf(col).Ok?
    ensures NoDuplicates(StrAll(Uniquify(col)).value)
    ensures forall k :: 0 <= k < |Uniquify(col)| ==> StrAll(Uniquify(col)).value[k] == Uniquify(col)[k].s
  {
    var u := Uniquify(col);
    forall k | 0 <= k < |u| ensures u[k].StrCell? {
      var i :| 0 <= i < |col| && col[i] == u[k];
    }
    var keys := StrAll(u).value;
    forall i, j | 0 <= i < j < |keys| ensures keys[i] != keys[j] {
      assert u[i] != u[j];
    }
  }

  /** With distinct keys, each entry is found under its own key after the
      updates. */
  lemma EntryInBlock(entries: seq<(string, Dimension)>, k: nat)
    requires DistinctKeys(entries) && k < |entries|
    ensures entries[k].0 in UpdateAll(map[], entries) && UpdateAll(map[], entries)[entries[k].0] == entries[k].1
  {
    GetAt(entries, k);
    LastValueIsGet(entries, entries[k].0);
    UpdateAllAt(map[], entries, entries[k].0);
  }

  /** A key no entry has is not in the updated map. */
  lemma KeyNotInBlock(entries: seq<(string, Dimension)>, key: string)
    requires forall j :: 0 <= j < |entries| ==> entries[j].0 != key
    ensures key !in UpdateAll(map[], entries)
  {
    LastValueHasKey(entries, key);
    UpdateAllAt(map[], entries, key);
  }

  /** The `dimension` member of an encoded table holds the entries of the
      list `categories`, each stored under the key of its dimension name. */
  lemma EncodedBlock(t: Table, value: string, version: string, row: nat, style: KeyStyle)
    requires Rectangular(t) && EncodeTable(t, value, version, row, style).Ok?
    ensures forall k :: 0 <= k < |DimNames(t.columns, value)| ==> DimNames(t.columns, value)[k] in t.columns
    ensures NoDuplicates(DimNames(t.columns, value))
    ensures Categories(NamedColumns(t, DimNames(t.columns, value)), style).Ok?
    ensures var entries := Categories(NamedColumns(t, DimNames(t.columns, value)), style).value;
      && EncodeTable(t, value, version, row, style).value.dataset.dimension.value.entries == UpdateAll(map[], entries)
      && |entries| == |DimNames(t.columns, value)|
      && forall j :: 0 <= j < |entries| ==> entries[j].0 == KeyOf(style, DimNames(t.columns, value)[j])
  {
  }

  /** Every dimension the document lists under `id` is found under
      `js_dict['dimension'][id]`, titled with its name and holding the
      category of its column. */
  lemma EncodedEntry(t: Table, value: string, version: string, row: nat, e: Envelope, k: nat)
    requires Rectangular(t) && EncodeTable(t, value, version, row, OwnName) == Ok(e)
    requires k < |DimNames(t.columns, value)|
    ensures EntryOf(NamedColumns(t, DimNames(t.columns, value))[k], OwnName).Ok?
    ensures DimensionEntry(e.dataset, DimNames(t.columns, value)[k]) ==
      Ok(EntryOf(NamedColumns(t, DimNames(t.columns, value))[k], OwnName).value.1)
  {
    EncodedKeysDistinct(t, value, version, row, e);
    EntryInBlock(Categories(NamedColumns(t, DimNames(t.columns, value)), OwnName).value, k);
  }

  /** Stored under their own names, the entries of distinct dimension names
      have distinct keys. */
  lemma EncodedKeysDistinct(t: Table, value: string, version: string, row: nat, e: Envelope)
    requires Rectangular(t) && EncodeTable(t, value, version, row, OwnName) == Ok(e)
    ensures Categories(NamedColumns(t, DimNames(t.columns, value)), OwnName).Ok?
    ensures var entries := Categories(NamedColumns(t, DimNames(t.columns, value)), OwnName).value;
      DistinctKeys(entries) && e.dataset.dimension.value.entries == UpdateAll(map[], entries)
  {
    EncodedBlock(t, value, version, row, OwnName);
    var dims := DimNames(t.columns, value);
    OwnNamesDistinct(Categories(NamedColumns(t, dims), OwnName).value, dims);
  }

  lemma OwnNamesDistinct(entries: seq<(string, Dimension)>, dims: seq<string>)
    requires NoDuplicates(dims) && |entries| == |dims|
    requires forall j :: 0 <= j < |entries| ==> entries[j].0 == KeyOf(OwnName, dims[j])
    ensures DistinctKeys(entries)
  {
  }

  // ---------------------------------------------------------------------
  // The key the source writes

  /** A dimension named "007" is stored under "7". */
  lemma WrittenKeyOfPaddedName()
    ensures WrittenKey("007") == "7"
  {
    assert AllDigits("007");
    assert "007"[..2] == "00" && "00"[..1] == "0" && "0"[..0] == "";
    assert DigitsValue("007") == 7;
  }

  /** Encoded as written, a name that is not the stored key of any
      dimension (a name such as "007", stored under "7") is missing from
      `dimension`, so reading the document back by its `id` fails with
      KeyError. */
  lemma AsWrittenEntryMissing(t: Table, value: string, version: string, row: nat, e: Envelope, name: string)
    requires Rectangular(t) && EncodeTable(t, value, version, row, AsInt) == Ok(e)
    requires forall j :: 0 <= j < |DimNames(t.columns, value)| ==> WrittenKey(DimNames(t.columns, value)[j]) != name
    ensures DimensionEntry(e.dataset, name) == Err(KeyError(name))
  {
    var dims := DimNames(t.columns, value);
    EncodedBlock(t, value, version, row, AsInt);
    var entries := Categories(NamedColumns(t, dims), AsInt).value;
    WrittenKeysAvoid(entries, dims, name);
    MissingFromBlock(e.dataset, entries, name);
  }

  lemma WrittenKeysAvoid(entries: seq<(string, Dimension)>, dims: seq<string>, name: string)
    requires |entries| == |dims| && forall j :: 0 <= j < |entries| ==> entries[j].0 == KeyOf(AsInt, dims[j])
    requires forall j :: 0 <= j < |dims| ==> WrittenKey(dims[j]) != name
    ensures forall j :: 0 <= j < |entries| ==> entries[j].0 != name
  {
  }

  lemma MissingFromBlock(ds: Dataset, entries: seq<(string, Dimension)>, name: string)
    requires ds.dimension.Some? && ds.dimension.value.entries == UpdateAll(map[], entries)
    requires forall j :: 0 <= j < |entries| ==> entries[j].0 != name
    ensures DimensionEntry(ds, name) == Err(KeyError(name))
  {
    KeyNotInBlock(entries, name);
  }

  // ---------------------------------------------------------------------
  // The imperative body

  /** `for category in categories: dimension.update(category)`. */
  method UpdateDimension(block: map<string, Dimension>, entries: seq<(string, Dimension)>) returns (r: map<string, Dimension>)
    ensures r == UpdateAll(block, entries)
  {
    r := block;
    for i := 0 to |entries|
      invariant r == UpdateAll(block, entries[..i])
    {
      assert entries[..i + 1][..i] == entries[..i];
      r := r[entries[i].0 := entries[i].1];
    }
    assert entries[..|entries|] == entries;
  }

  /** The loop body of `to_json_stat` for the table at position `row`: the
      `dimension` member is filled, `id` and `size` are written, and the
      entries are written a second time. */
  method EncodeFrame(t: Table, value: string, version: string, row: nat, style: KeyStyle) returns (r: Result<Envelope, Error>)
    requires Rectangular(t)
    ensures r == EncodeTable(t, value, version, row, style)
  {
    var dims := DimNames(t.columns, value);
    if !NoDuplicates(t.columns) && dims != t.columns {
      return Err(ValueError(ReindexDuplicates));
    }
    if !NoDuplicates(dims) {
      return Err(ValueError("Non-value columns must constitute a unique ID"));
    }
    var entries :- Categories(NamedColumns(t, dims), style);
    var v :- ParseVersion(version);
    if value !in t.columns {
      return Err(KeyError(value));
    }
    var fields := map[value := DenseValues(ColumnNamed(t, value))];
    var sizes := Sizes(t, dims);
    var block := UpdateDimension(map[], entries);
    block := UpdateDimension(block, entries);
    UpdateAllTwice(map[], entries);
    if MemberClash(value, v, block) {
      return Err(Unsupported("value or dimension named like a written member"));
    }
    if v >= 2.0 {
      return Ok(Version2(Dataset(Some(version), Some("dataset"), Some(dims), Some(sizes),
                                 Some(DimensionBlock(None, None, block)), fields)));
    }
    return Ok(Version13("dataset" + Decimal(row + 1),
                        Dataset(None, None, None, None, Some(DimensionBlock(Some(dims), Some(sizes), block)), fields)));
  }

  /** The outcome of encoding each table, the table's position being its
      row. */
  function Encodings(tables: seq<Table>, value: string, version: string, style: KeyStyle): (rs: seq<Result<Envelope, Error>>)
    requires forall k :: 0 <= k < |tables| ==> Rectangular(tables[k])
    ensures |rs| == |tables|
  {
    seq(|tables|, k requires 0 <= k < |tables| => EncodeTable(tables[k], value, version, k, style))
  }

  lemma EncodingsAt(tables: seq<Table>, value: string, version: string, style: KeyStyle)
    requires forall k :: 0 <= k < |tables| ==> Rectangular(tables[k])
    ensures forall k :: 0 <= k < |tables| ==> Encodings(tables, value, version, style)[k] == EncodeTable(tables[k], value, version, k, style)
  {
  }

  /** `to_json_stat(tables, value, 'list', version)` before serialization:
      one dataset per table, in order; the first failure is raised. With
      `AsInt` the dimension entries are keyed as the source writes them;
      with `OwnName` each is keyed by its own name. */
  function EncodeAll(tables: seq<Table>, value: string, version: string, style: KeyStyle): (r: Result<seq<Envelope>, Error>)
    requires forall k :: 0 <= k < |tables| ==> Rectangular(tables[k])
    ensures r.Ok? <==> forall k :: 0 <= k < |tables| ==> EncodeTable(tables[k], value, version, k, style).Ok?
    ensures r.Ok? ==> (|r.value| == |tables| &&
      forall k :: 0 <= k < |tables| ==> r.value[k] == EncodeTable(tables[k], value, version, k, style).value)
    ensures r.Err? ==> exists k :: (0 <= k < |tables| && EncodeTable(tables[k], value, version, k, style) == Err(r.error) &&
      forall j :: 0 <= j < k ==> EncodeTable(tables[j], value, version, j, style).Ok?)
  {
    EncodingsAt(tables, value, version, style);
    Collect(Encodings(tables, value, version, style))
  }

  /** The first failure in a list of outcomes is the one collected. */
  lemma CollectFirstErr<T>(rs: seq<Result<T, Error>>, i: nat)
    requires i < |rs| && rs[i].Err? && forall j :: 0 <= j < i ==> rs[j].Ok?
    ensures Collect(rs) == Err(rs[i].error)
  {
    var k :| 0 <= k < |rs| && rs[k] == Err(Collect(rs).error) && forall j :: 0 <= j < k ==> rs[j].Ok?;
    assert k == i;
  }

  /** Outcomes that are all successes collect to their values. */
  lemma CollectAllOk<T>(rs: seq<Result<T, Error>>, vals: seq<T>)
    requires |rs| == |vals| && forall k :: 0 <= k < |rs| ==> rs[k] == Ok(vals[k])
    ensures Collect(rs) == Ok(vals)
  {
    assert Collect(rs).value == vals;
  }

  /** Extending the values of an all-success prefix by one more success. */
  lemma OkPrefixExtends<T>(rs: seq<Result<T, Error>>, vals: seq<T>, x: T)
    requires |vals| < |rs| && rs[|vals|] == Ok(x)
    requires forall k :: 0 <= k < |vals| ==> rs[k] == Ok(vals[k])
    ensures forall k :: 0 <= k < |vals| + 1 ==> rs[k] == Ok((vals + [x])[k])
  {
  }

  /** One pass of the loop below: the table at `row` encoded. */
  method EncodeRow(tables: seq<Table>, value: string, version: string, row: nat, style: KeyStyle) returns (d: Result<Envelope, Error>)
    requires forall k :: 0 <= k < |tables| ==> Rectangular(tables[k])
    requires row < |tables|
    ensures d == Encodings(tables, value, version, style)[row]
  {
    d := EncodeFrame(tables[row], value, version, row, style);
    EncodingsAt(tables, value, version, style);
  }

  /** The loop `for row, dataframe in enumerate(data)` appending each
      dataset to `result`. */
  method ToJsonStat(tables: seq<Table>, value: string, version: string, style: KeyStyle) returns (r: Result<seq<Envelope>, Error>)
    requires forall k :: 0 <= k < |tables| ==> Rectangular(tables[k])
    ensures r == EncodeAll(tables, value, version, style)
  {
    ghost var rs := Encodings(tables, value, version, style);
    var result := [];
    for row := 0 to |tables|
      invariant |result| == row
      invariant forall k :: 0 <= k < row ==> rs[k] == Ok(result[k])
    {
      var dataset := EncodeRow(tables, value, version, row, style);
      if dataset.Err? {
        CollectFirstErr(rs, row);
        assert EncodeAll(tables, value, version, style) == Err(dataset.error);
        return Err(dataset.error);
      }
      OkPrefixExtends(rs, result, dataset.value);
      result := result + [dataset.value];
    }
    CollectAllOk(rs, result);
    assert EncodeAll(tables, value, version, style) == Ok(result);
    return Ok(result);
  }
}
