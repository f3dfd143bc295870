/** The dimension resolver: `get_dim_index`, `get_dim_label` and
    `get_dimensions` (pyjstat/pyjstat.py:163-284). Each dimension becomes an
    ordered category table, built from a list-or-object `category.index` and an
    optional `category.label`, inner-joined on the category id and sorted by
    position. */
module DimensionResolver {
  import opened Wrappers
  import opened OrderedDicts
  import opened JsonStat
  import opened Coercion

  /** A row of the table `get_dim_label` builds: columns id, label (here
      `title`), index. */
  datatype LabelledCategory = LabelledCategory(id: string, title: string, index: int)

  /** A row of the table `get_dim_index` builds: columns id, index. */
  datatype IndexedCategory = IndexedCategory(id: string, index: int)

  /** The per-dimension table `get_dimensions` collects: from `get_dim_label`
      in label naming, from `get_dim_index` otherwise. */
  datatype Frame = LabelFrame(labelled: seq<LabelledCategory>) | IndexFrame(indexed: seq<IndexedCategory>)

  function LabelledPosition(c: LabelledCategory): int { c.index }

  function IndexedPosition(c: IndexedCategory): int { c.index }

  // ---------------------------------------------------------------------
  // Sorting by the index column (`sort_index(by='index')`)

  predicate SortedBy<T>(s: seq<T>, key: T -> int) {
    forall i, j :: 0 <= i < j < |s| ==> key(s[i]) <= key(s[j])
  }

  /** A bound every element of `s` and `x` meets is met by any arrangement
      of them. */
  lemma LowerBoundKept<T>(b: int, s: seq<T>, x: T, t: seq<T>, key: T -> int)
    requires multiset(t) == multiset(s) + multiset{x}
    requires b <= key(x) && forall i :: 0 <= i < |s| ==> b <= key(s[i])
    ensures forall j :: 0 <= j < |t| ==> b <= key(t[j])
  {
    forall j | 0 <= j < |t| ensures b <= key(t[j]) {
      assert t[j] in multiset(t);
      if t[j] in multiset(s) {
        var m :| 0 <= m < |s| && s[m] == t[j];
      }
    }
  }

  function Insert<T>(x: T, s: seq<T>, key: T -> int): (r: seq<T>)
    requires SortedBy(s, key)
    ensures SortedBy(r, key)
    ensures multiset(r) == multiset(s) + multiset{x}
  {
    if |s| == 0 then [x]
    else if key(x) <= key(s[0]) then [x] + s
    else
      var t := Insert(x, s[1..], key);
      assert s == [s[0]] + s[1..];
      LowerBoundKept(key(s[0]), s[1..], x, t, key);
      [s[0]] + t
  }

  /** The rows ordered ascending by `key`; the same rows, in another order. */
  function SortBy<T>(s: seq<T>, key: T -> int): (r: seq<T>)
    ensures SortedBy(r, key)
    ensures multiset(r) == multiset(s)
  {
    if |s| == 0 then []
    else
      assert s == [s[0]] + s[1..];
      Insert(s[0], SortBy(s[1..], key), key)
  }

  // ---------------------------------------------------------------------
  // Reading a dimension entry

  /** `js_dict['dimension'][dim]`. */
  function DimensionEntry(ds: Dataset, dim: string): (r: Result<Dimension, Error>)
    ensures r.Ok? <==> ds.dimension.Some? && dim in ds.dimension.value.entries
  {
    if ds.dimension.None? then Err(KeyError("dimension"))
    else if dim !in ds.dimension.value.entries then Err(KeyError(dim))
    else Ok(ds.dimension.value.entries[dim])
  }

  /** `d['category']['index']`, None when either key is missing. */
  function CategoryIndexOf(d: Dimension): Option<CategoryIndex> {
    if d.category.Some? then d.category.value.index else None
  }

  /** `d['category']['label']`, None when either key is missing. */
  function CategoryLabelsOf(d: Dimension): Option<Dict<string, string>> {
    if d.category.Some? then d.category.value.labels else None
  }

  /** The (id, index) rows of a declared `category.index`: a list gives each id
      its offset; an object gives each key its value. */
  function IndexPairs(ci: CategoryIndex): (r: seq<IndexedCategory>)
    ensures ci.IndexList? ==> |r| == |ci.ids| && forall k :: 0 <= k < |r| ==> r[k] == IndexedCategory(ci.ids[k], k)
    ensures ci.IndexMap? ==> (|r| == |ci.positions| &&
      forall k :: 0 <= k < |r| ==> r[k] == IndexedCategory(ci.positions[k].0, ci.positions[k].1))
  {
    match ci
    case IndexList(ids) => seq(|ids|, k requires 0 <= k < |ids| => IndexedCategory(ids[k], k))
    case IndexMap(d) => seq(|d|, k requires 0 <= k < |d| => IndexedCategory(d[k].0, d[k].1))
  }

  // ---------------------------------------------------------------------
  // pd.merge(dim_label, dim_index, on='id'): an inner join in left order

  function Matches(l: (string, string), index: seq<IndexedCategory>): (r: seq<LabelledCategory>)
    ensures forall c :: c in r <==> c.id == l.0 && c.title == l.1 && IndexedCategory(c.id, c.index) in index
  {
    if |index| == 0 then []
    else
      var here := if index[0].id == l.0 then [LabelledCategory(l.0, l.1, index[0].index)] else [];
      assert forall e :: e in index <==> e == index[0] || e in index[1..];
      here + Matches(l, index[1..])
  }

  /** Every label row joined with every index row of the same id. */
  function Join(labels: seq<(string, string)>, index: seq<IndexedCategory>): (r: seq<LabelledCategory>)
    ensures forall c :: c in r <==> (c.id, c.title) in labels && IndexedCategory(c.id, c.index) in index
  {
    if |labels| == 0 then []
    else
      assert forall l :: l in labels <==> l == labels[0] || l in labels[1..];
      Matches(labels[0], index) + Join(labels[1..], index)
  }

  /** One row per pair of a label row and an index row with the same id: a
      joined row occurs as often as its label row times its index row. */
  lemma {:induction false} MatchesCount(l: (string, string), index: seq<IndexedCategory>, c: LabelledCategory)
    ensures multiset(Matches(l, index))[c] ==
      if (c.id, c.title) == l then multiset(index)[IndexedCategory(c.id, c.index)] else 0
  {
    if |index| > 0 {
      MatchesCount(l, index[1..], c);
      assert index == [index[0]] + index[1..];
    }
  }

  lemma {:induction false} JoinCount(labels: seq<(string, string)>, index: seq<IndexedCategory>, c: LabelledCategory)
    ensures multiset(Join(labels, index))[c] ==
      multiset(labels)[(c.id, c.title)] * multiset(index)[IndexedCategory(c.id, c.index)]
  {
    if |labels| > 0 {
      var key := (c.id, c.title);
      var m := multiset(index)[IndexedCategory(c.id, c.index)];
      var tail := labels[1..];
      MatchesCount(labels[0], index, c);
      JoinCount(tail, index, c);
      JoinUnfold(labels, index, c);
      CountFirst(labels, key);
      CountStep(labels[0] == key, multiset(tail)[key], m);
    } else {
      assert multiset(labels)[(c.id, c.title)] == 0;
    }
  }

  lemma JoinUnfold(labels: seq<(string, string)>, index: seq<IndexedCategory>, c: LabelledCategory)
    requires |labels| > 0
    ensures multiset(Join(labels, index))[c] == multiset(Matches(labels[0], index))[c] + multiset(Join(labels[1..], index))[c]
  {
    assert Join(labels, index) == Matches(labels[0], index) + Join(labels[1..], index);
  }

  lemma CountFirst<T>(s: seq<T>, x: T)
    requires |s| > 0
    ensures multiset(s)[x] == (if s[0] == x then 1 else 0) + multiset(s[1..])[x]
  {
    assert s == [s[0]] + s[1..];
  }

  lemma CountStep(isKey: bool, rest: nat, m: nat)
    ensures ((if isKey then 1 else 0) + rest) * m == (if isKey then m else 0) + rest * m
  {
  }

  /** No two index rows share an id. */
  predicate DistinctIds(s: seq<IndexedCategory>) {
    forall i, j :: 0 <= i < j < |s| ==> s[i].id != s[j].id
  }

  lemma {:induction false} MatchesOne(l: (string, string), index: seq<IndexedCategory>)
    requires DistinctIds(index)
    requires exists k :: 0 <= k < |index| && index[k].id == l.0
    ensures |Matches(l, index)| == 1
  {
    if index[0].id == l.0 {
      MatchesNone(l, index[1..]);
    } else {
      var k :| 0 <= k < |index| && index[k].id == l.0;
      assert index[1..][k - 1].id == l.0;
      MatchesOne(l, index[1..]);
    }
  }

  /** With distinct index ids, each label row whose id is indexed joins to
      exactly one row. */
  lemma {:induction false} JoinSize(labels: seq<(string, string)>, index: seq<IndexedCategory>)
    requires DistinctIds(index)
    requires forall k :: 0 <= k < |labels| ==> exists j :: 0 <= j < |index| && index[j].id == labels[k].0
    ensures |Join(labels, index)| == |labels|
  {
    if |labels| > 0 {
      MatchesOne(labels[0], index);
      JoinSize(labels[1..], index);
    }
  }

  // ---------------------------------------------------------------------
  // get_dim_index and get_dim_label

  /** `get_dim_index(js_dict, dim)`: the declared categories sorted by
      position. Without `category.index` the function falls back on
      `get_dim_label`, which yields one category, the first label id, at
      position 0; without `category.label` either, the two functions call
      each other until Python's recursion limit. */
  function DimIndex(ds: Dataset, dim: string): (r: Result<seq<IndexedCategory>, Error>)
    ensures r.Ok? ==> SortedBy(r.value, IndexedPosition)
    ensures DimensionEntry(ds, dim).Err? ==> r == Err(DimensionEntry(ds, dim).error)
    ensures DimensionEntry(ds, dim).Ok? && CategoryIndexOf(DimensionEntry(ds, dim).value).Some? ==>
      r.Ok? && multiset(r.value) == multiset(IndexPairs(CategoryIndexOf(DimensionEntry(ds, dim).value).value))
  {
    var d :- DimensionEntry(ds, dim);
    match CategoryIndexOf(d)
    case Some(ci) => Ok(SortBy(IndexPairs(ci), IndexedPosition))
    case None =>
      match CategoryLabelsOf(d)
      case None => Err(RecursionError)
      case Some(labels) =>
        if |labels| == 0 then Err(IndexError) else Ok([IndexedCategory(labels[0].0, 0)])
  }

  /** The label rows: `category.label` when present, otherwise each resolved
      id as its own label. */
  function LabelRows(d: Dimension, fallback: Result<seq<IndexedCategory>, Error>): Result<seq<(string, string)>, Error> {
    match CategoryLabelsOf(d)
    case Some(labels) => Ok(labels)
    case None =>
      var idx :- fallback;
      Ok(seq(|idx|, k requires 0 <= k < |idx| => (idx[k].id, idx[k].id)))
  }

  /** The index rows: `category.index` when present, otherwise the first label
      id at position 0 (`dim_label['id'][0]`, an error on an empty table). */
  function IndexRows(d: Dimension, labelRows: seq<(string, string)>): Result<seq<IndexedCategory>, Error> {
    match CategoryIndexOf(d)
    case Some(ci) => Ok(IndexPairs(ci))
    case None => if |labelRows| == 0 then Err(IndexError) else Ok([IndexedCategory(labelRows[0].0, 0)])
  }

  /** The body shared by both inputs of `get_dim_label`: label rows joined with
      index rows on the id, then sorted by position. `fallback` is what the
      source gets from `get_dim_index` when `category.label` is absent. */
  function LabelledRows(d: Dimension, fallback: Result<seq<IndexedCategory>, Error>): (r: Result<seq<LabelledCategory>, Error>)
    ensures r.Ok? ==> SortedBy(r.value, LabelledPosition)
    ensures r.Ok? <==> LabelRows(d, fallback).Ok? && IndexRows(d, LabelRows(d, fallback).value).Ok?
    ensures r.Ok? ==> forall c :: c in r.value <==>
      (c.id, c.title) in LabelRows(d, fallback).value &&
      IndexedCategory(c.id, c.index) in IndexRows(d, LabelRows(d, fallback).value).value
  {
    var labelRows :- LabelRows(d, fallback);
    var indexRows :- IndexRows(d, labelRows);
    var joined := Join(labelRows, indexRows);
    var sorted := SortBy(joined, LabelledPosition);
    assert forall c :: c in sorted <==> c in joined by {
      forall c ensures c in sorted <==> c in joined {
        assert c in sorted <==> c in multiset(sorted);
        assert c in joined <==> c in multiset(joined);
      }
    }
    Ok(sorted)
  }

  /** The label table holds the rows of the join of its label rows and
      index rows, each as many times as the join does (`JoinCount`): sorting
      neither adds nor drops a row. */
  lemma LabelledRowsCount(d: Dimension, fallback: Result<seq<IndexedCategory>, Error>)
    requires LabelRows(d, fallback).Ok? && IndexRows(d, LabelRows(d, fallback).value).Ok?
    ensures LabelledRows(d, fallback).Ok?
    ensures multiset(LabelledRows(d, fallback).value) ==
      multiset(Join(LabelRows(d, fallback).value, IndexRows(d, LabelRows(d, fallback).value).value))
  {
    var labelRows := LabelRows(d, fallback).value;
    var indexRows := IndexRows(d, labelRows).value;
    assert LabelledRows(d, fallback).value == SortBy(Join(labelRows, indexRows), LabelledPosition);
  }

  /** `get_dim_label(js_dict, dim)` for a dataset. */
  function DimLabel(ds: Dataset, dim: string): (r: Result<seq<LabelledCategory>, Error>)
    ensures r.Ok? ==> SortedBy(r.value, LabelledPosition)
    ensures DimensionEntry(ds, dim).Err? ==> r == Err(DimensionEntry(ds, dim).error)
    ensures DimensionEntry(ds, dim).Ok? ==> r == LabelledRows(DimensionEntry(ds, dim).value, DimIndex(ds, dim))
  {
    var d :- DimensionEntry(ds, dim);
    LabelledRows(d, DimIndex(ds, dim))
  }

  /** `get_dim_label(js_dict, dim, 'dimension')` for a single dimension
      document: the label column is named after the dimension's own `label`
      (a KeyError when it has none). Without `category.label` the fallback
      `get_dim_index` looks for a `dimension` member this document does not
      have, which raises KeyError. The result carries the label-column name. */
  function DimensionDocumentLabel(d: Dimension): (r: Result<(string, seq<LabelledCategory>), Error>)
    ensures r.Ok? ==> d.title.Some? && r.value.0 == d.title.value
    ensures d.title.None? ==> r == Err(KeyError("label"))
    ensures d.title.Some? && CategoryLabelsOf(d).None? ==> r == Err(KeyError("dimension"))
    ensures d.title.Some? ==> (r.Ok? <==> LabelledRows(d, Err(KeyError("dimension"))).Ok?)
    ensures r.Ok? ==> r.value.1 == LabelledRows(d, Err(KeyError("dimension"))).value
  {
    if d.title.None? then Err(KeyError("label"))
    else
      var rows :- LabelledRows(d, Err(KeyError("dimension")));
      Ok((d.title.value, rows))
  }

  /** Label fallback: without `category.label` every category's label is its
      id; the rows are exactly the declared (id, position) pairs. */
  lemma LabelFallback(ds: Dataset, dim: string)
    requires DimensionEntry(ds, dim).Ok?
    requires CategoryLabelsOf(DimensionEntry(ds, dim).value).None?
    requires CategoryIndexOf(DimensionEntry(ds, dim).value).Some?
    ensures DimLabel(ds, dim).Ok?
    ensures forall c :: c in DimLabel(ds, dim).value ==>
      c.title == c.id && IndexedCategory(c.id, c.index) in IndexPairs(CategoryIndexOf(DimensionEntry(ds, dim).value).value)
    ensures forall p :: p in IndexPairs(CategoryIndexOf(DimensionEntry(ds, dim).value).value) ==>
      LabelledCategory(p.id, p.id, p.index) in DimLabel(ds, dim).value
  {
    var d := DimensionEntry(ds, dim).value;
    var ci := CategoryIndexOf(d).value;
    var idx := DimIndex(ds, dim).value;
    var labelRows := LabelRows(d, DimIndex(ds, dim)).value;
    assert forall l :: l in labelRows ==> l.0 == l.1;
    forall p | p in IndexPairs(ci) ensures LabelledCategory(p.id, p.id, p.index) in DimLabel(ds, dim).value {
      assert p in multiset(idx);
      var k :| 0 <= k < |idx| && idx[k] == p;
      assert labelRows[k] == (p.id, p.id);
    }
  }

  /** Label fallback with distinct declared ids: one row per declared
      category. */
  lemma LabelFallbackSize(ds: Dataset, dim: string)
    requires DimensionEntry(ds, dim).Ok?
    requires CategoryLabelsOf(DimensionEntry(ds, dim).value).None?
    requires CategoryIndexOf(DimensionEntry(ds, dim).value).Some?
    ensures DimLabel(ds, dim).Ok?
    ensures DistinctIds(IndexPairs(CategoryIndexOf(DimensionEntry(ds, dim).value).value)) ==>
      |DimLabel(ds, dim).value| == |IndexPairs(CategoryIndexOf(DimensionEntry(ds, dim).value).value)|
  {
    var d := DimensionEntry(ds, dim).value;
    var pairs := IndexPairs(CategoryIndexOf(d).value);
    var idx := DimIndex(ds, dim).value;
    var labelRows := LabelRows(d, DimIndex(ds, dim)).value;
    if DistinctIds(pairs) {
      forall k | 0 <= k < |labelRows| ensures exists j :: 0 <= j < |pairs| && pairs[j].id == labelRows[k].0 {
        assert idx[k] in multiset(idx);
        var j :| 0 <= j < |pairs| && pairs[j] == idx[k];
      }
      JoinSize(labelRows, pairs);
      var joined := Join(labelRows, pairs);
      assert |idx| == |multiset(idx)| == |multiset(pairs)| == |pairs|;
      assert |SortBy(joined, LabelledPosition)| == |multiset(SortBy(joined, LabelledPosition))| == |multiset(joined)| == |joined|;
    }
  }

  /** Index fallback: without `category.index` a dimension has one category,
      the first entry of `category.label`, at position 0. */
  lemma IndexFallback(ds: Dataset, dim: string)
    requires DimensionEntry(ds, dim).Ok?
    requires CategoryIndexOf(DimensionEntry(ds, dim).value).None?
    requires CategoryLabelsOf(DimensionEntry(ds, dim).value).Some?
    requires var labels := CategoryLabelsOf(DimensionEntry(ds, dim).value).value;
      |labels| > 0 && DistinctKeys(labels)
    ensures var labels := CategoryLabelsOf(DimensionEntry(ds, dim).value).value;
      DimLabel(ds, dim) == Ok([LabelledCategory(labels[0].0, labels[0].1, 0)]) &&
      DimIndex(ds, dim) == Ok([IndexedCategory(labels[0].0, 0)])
  {
    var d := DimensionEntry(ds, dim).value;
    var labels := CategoryLabelsOf(d).value;
    var one := [IndexedCategory(labels[0].0, 0)];
    assert Matches(labels[0], one) == [LabelledCategory(labels[0].0, labels[0].1, 0)];
    JoinOthers(labels[1..], one, labels[0].0);
    assert labels == [labels[0]] + labels[1..];
    assert Join(labels, one) == [LabelledCategory(labels[0].0, labels[0].1, 0)];
  }

  /** Label rows whose ids differ from the only index id join to nothing. */
  lemma {:induction false} JoinOthers(labels: seq<(string, string)>, one: seq<IndexedCategory>, id: string)
    requires forall k :: 0 <= k < |one| ==> one[k].id == id
    requires forall k :: 0 <= k < |labels| ==> labels[k].0 != id
    ensures Join(labels, one) == []
  {
    if |labels| > 0 {
      JoinOthers(labels[1..], one, id);
      MatchesNone(labels[0], one);
    }
  }

  lemma {:induction false} MatchesNone(l: (string, string), index: seq<IndexedCategory>)
    requires forall k :: 0 <= k < |index| ==> index[k].id != l.0
    ensures Matches(l, index) == []
  {
    if |index| > 0 {
      MatchesNone(l, index[1..]);
    }
  }

  // ---------------------------------------------------------------------
  // get_dimensions

  /** The dimension ids in order: the top-level `id` of a version 2.0 dataset,
      `dimension.id` otherwise. */
  function DimensionIds(ds: Dataset): (r: Result<seq<string>, Error>)
    ensures CheckVersion2(ds.version) == Ok(true) ==> (r.Ok? <==> ds.id.Some?) && (r.Ok? ==> r.value == ds.id.value)
    ensures CheckVersion2(ds.version) == Ok(false) ==>
      (r.Ok? <==> ds.dimension.Some? && ds.dimension.value.id.Some?) &&
      (r.Ok? ==> r.value == ds.dimension.value.id.value)
    ensures CheckVersion2(ds.version).Err? ==> r.Err?
  {
    var v2 :- CheckVersion2(ds.version);
    if v2 then
      if ds.id.Some? then Ok(ds.id.value) else Err(KeyError("id"))
    else if ds.dimension.None? then Err(KeyError("dimension"))
    else if ds.dimension.value.id.None? then Err(KeyError("id"))
    else Ok(ds.dimension.value.id.value)
  }

  /** `js_dict['dimension'][dim]['label']`, replaced by the id when empty. */
  function DimensionName(ds: Dataset, dim: string): (r: Result<string, Error>)
    ensures r.Ok? <==> DimensionEntry(ds, dim).Ok? && DimensionEntry(ds, dim).value.title.Some?
    ensures r.Ok? ==> r.value == if DimensionEntry(ds, dim).value.title.value == "" then dim
                                 else DimensionEntry(ds, dim).value.title.value
  {
    var d :- DimensionEntry(ds, dim);
    if d.title.None? then Err(KeyError("label"))
    else if d.title.value == "" then Ok(dim)
    else Ok(d.title.value)
  }

  /** One step of the loop of `get_dimensions`: the dimension's name is read
      first (also in id naming, where it is then not used), then its table. */
  function FrameOf(ds: Dataset, dim: string, naming: string): (r: Result<(Frame, string), Error>)
    ensures r.Ok? ==> DimensionName(ds, dim).Ok?
    ensures r.Ok? && naming == "label" ==>
      DimLabel(ds, dim).Ok? && r.value == (LabelFrame(DimLabel(ds, dim).value), DimensionName(ds, dim).value)
    ensures r.Ok? && naming != "label" ==>
      DimIndex(ds, dim).Ok? && r.value == (IndexFrame(DimIndex(ds, dim).value), dim)
  {
    var name :- DimensionName(ds, dim);
    if naming == "label" then
      var rows :- DimLabel(ds, dim);
      Ok((LabelFrame(rows), name))
    else
      var rows :- DimIndex(ds, dim);
      Ok((IndexFrame(rows), dim))
  }

  /** The frames and names of `ids`, in order; the first failing id decides the error. */
  function DimensionsOf(ds: Dataset, ids: seq<string>, naming: string): Result<(seq<Frame>, seq<string>), Error>
    decreases |ids|
  {
    if |ids| == 0 then Ok(([], []))
    else
      var (frames, names) :- DimensionsOf(ds, ids[..|ids| - 1], naming);
      var (frame, name) :- FrameOf(ds, ids[|ids| - 1], naming);
      Ok((frames + [frame], names + [name]))
  }

  /** `get_dimensions(js_dict, naming)`. */
  function Dimensions(ds: Dataset, naming: string): Result<(seq<Frame>, seq<string>), Error> {
    var ids :- DimensionIds(ds);
    DimensionsOf(ds, ids, naming)
  }

  lemma DimensionsAppend(ds: Dataset, ids: seq<string>, naming: string)
    requires |ids| > 0
    requires DimensionsOf(ds, ids[..|ids| - 1], naming).Ok? && FrameOf(ds, ids[|ids| - 1], naming).Ok?
    ensures var prefix := DimensionsOf(ds, ids[..|ids| - 1], naming).value;
      var step := FrameOf(ds, ids[|ids| - 1], naming).value;
      DimensionsOf(ds, ids, naming) == Ok((prefix.0 + [step.0], prefix.1 + [step.1]))
  {
  }

  /** get_dimensions succeeds exactly when every dimension resolves, and then
      gives one frame and one name per id, in id order. */
  lemma {:induction false} DimensionsShape(ds: Dataset, ids: seq<string>, naming: string)
    ensures DimensionsOf(ds, ids, naming).Ok? <==> forall k :: 0 <= k < |ids| ==> FrameOf(ds, ids[k], naming).Ok?
    ensures DimensionsOf(ds, ids, naming).Ok? ==>
      var (frames, names) := DimensionsOf(ds, ids, naming).value;
      |frames| == |ids| && |names| == |ids| &&
      forall k :: 0 <= k < |ids| ==> FrameOf(ds, ids[k], naming) == Ok((frames[k], names[k]))
    decreases |ids|
  {
    if |ids| > 0 {
      var p := ids[..|ids| - 1];
      var last := ids[|ids| - 1];
      DimensionsShape(ds, p, naming);
      assert forall k :: 0 <= k < |p| ==> p[k] == ids[k];
      var prefix := DimensionsOf(ds, p, naming);
      var step := FrameOf(ds, last, naming);
      if prefix.Ok? && step.Ok? {
        var (frames, names) := prefix.value;
        var (frame, name) := step.value;
        DimensionsAppend(ds, ids, naming);
        forall k | 0 <= k < |ids|
          ensures FrameOf(ds, ids[k], naming) == Ok(((frames + [frame])[k], (names + [name])[k]))
        {
          if k < |p| {
            assert FrameOf(ds, p[k], naming) == Ok((frames[k], names[k]));
          }
        }
      } else if prefix.Err? {
        assert DimensionsOf(ds, ids, naming).Err?;
      } else {
        assert DimensionsOf(ds, ids, naming).Err?;
        assert !FrameOf(ds, ids[|ids| - 1], naming).Ok?;
      }
    }
  }

  /** Once a prefix of the ids fails, the whole call fails with that error. */
  lemma {:induction false} DimensionsErrorPersists(ds: Dataset, ids: seq<string>, k: nat, naming: string)
    requires k <= |ids|
    requires DimensionsOf(ds, ids[..k], naming).Err?
    ensures DimensionsOf(ds, ids, naming) == DimensionsOf(ds, ids[..k], naming)
    decreases |ids| - k
  {
    if k < |ids| {
      assert ids[..k + 1][..k] == ids[..k];
      DimensionsErrorPersists(ds, ids, k + 1, naming);
    } else {
      assert ids[..k] == ids;
    }
  }

  /** The body of the loop of `get_dimensions` for one dimension id. */
  method ResolveFrame(ds: Dataset, dim: string, naming: string) returns (r: Result<(Frame, string), Error>)
    ensures r == FrameOf(ds, dim, naming)
  {
    var name :- DimensionName(ds, dim);
    if naming == "label" {
      var labelled :- DimLabel(ds, dim);
      return Ok((LabelFrame(labelled), name));
    }
    var indexed :- DimIndex(ds, dim);
    return Ok((IndexFrame(indexed), dim));
  }

  /** One more id: its frame is appended, or its failure is the result. */
  lemma DimensionsStep(ds: Dataset, ids: seq<string>, k: nat, naming: string)
    requires k < |ids| && DimensionsOf(ds, ids[..k], naming).Ok?
    ensures FrameOf(ds, ids[k], naming).Err? ==>
      DimensionsOf(ds, ids[..k + 1], naming) == Err(FrameOf(ds, ids[k], naming).error)
    ensures FrameOf(ds, ids[k], naming).Ok? ==>
      DimensionsOf(ds, ids[..k + 1], naming) ==
        Ok((DimensionsOf(ds, ids[..k], naming).value.0 + [FrameOf(ds, ids[k], naming).value.0],
            DimensionsOf(ds, ids[..k], naming).value.1 + [FrameOf(ds, ids[k], naming).value.1]))
  {
    assert ids[..k + 1][..k] == ids[..k] && ids[..k + 1][k] == ids[k];
  }

  /** The loop of `get_dimensions`, appending to `dimensions` and `dim_names`. */
  method GetDimensions(ds: Dataset, naming: string) returns (r: Result<(seq<Frame>, seq<string>), Error>)
    ensures r == Dimensions(ds, naming)
  {
    var idsResult := DimensionIds(ds);
    if idsResult.Err? {
      return Err(idsResult.error);
    }
    var ids := idsResult.value;
    var dimensions: seq<Frame> := [];
    var dimNames: seq<string> := [];
    var k := 0;
    while k < |ids|
      invariant 0 <= k <= |ids|
      invariant DimensionsOf(ds, ids[..k], naming) == Ok((dimensions, dimNames))
    {
      var step := ResolveFrame(ds, ids[k], naming);
      DimensionsStep(ds, ids, k, naming);
      if step.Err? {
        DimensionsErrorPersists(ds, ids, k + 1, naming);
        return Err(step.error);
      }
      var (frame, name) := step.value;
      dimensions := dimensions + [frame];
      dimNames := dimNames + [name];
      k := k + 1;
    }
    assert ids[..k] == ids;
    r := Ok((dimensions, dimNames));
  }
}
