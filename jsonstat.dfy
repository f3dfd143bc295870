/** The data the codec works on: JSON-stat datasets as already-parsed values,
    the flat table, table cells, and the Python exceptions the codec raises. */
module JsonStat {
  import opened Wrappers
  import opened OrderedDicts

  /** The exceptions the codec lets escape, by Python class. */
  datatype Error =
    | KeyError(key: string)       // a missing dictionary key or data-frame column
    | IndexError                  // a list position out of range
    | ValueError(reason: string)  // a rejected argument or an unparsable number
    | TypeError                   // an operation applied to an unsuitable value (`int(None)`)
    | RecursionError              // get_dim_label and get_dim_index calling each other forever
    | Unsupported(what: string)   // behaviour outside this model: float formatting, overwritten members

  /** One cell of a data frame, or one entry of a dataset's `value`: Python
      `int`, `str`, `float`, or `None`. */
  datatype Cell = IntCell(i: int) | StrCell(s: string) | RealCell(x: real) | NullCell

  /** `category.index`: a list of category ids (position = list offset) or an
      object from category id to position. */
  datatype CategoryIndex = IndexList(ids: seq<string>) | IndexMap(positions: Dict<string, int>)

  /** `category`: its `index` and its `label` (category id to display
      label); either member may be absent. */
  datatype Category = Category(index: Option<CategoryIndex>, labels: Option<Dict<string, string>>)

  /** One entry of `dimension`: its display `label` (here `title`) and its
      `category`. */
  datatype Dimension = Dimension(title: Option<string>, category: Option<Category>)

  /** The `dimension` object: the per-dimension entries, plus `id` and `size`
      where a version 1.3 document keeps them. The entries are a `map`: their
      key order is not kept. */
  datatype DimensionBlock = DimensionBlock(
    id: Option<seq<string>>,
    size: Option<seq<nat>>,
    entries: map<string, Dimension>)

  /** `value`: a dense list, or an object from decimal flat index to value. */
  datatype ValueArray = DenseValues(cells: seq<Cell>) | SparseValues(entries: Dict<string, Cell>)

  /** A dataset document. `kind` is the `class` member; `fields` holds the
      members that carry values, by name (normally just "value"). */
  datatype Dataset = Dataset(
    version: Option<string>,
    kind: Option<string>,
    id: Option<seq<string>>,
    size: Option<seq<nat>>,
    dimension: Option<DimensionBlock>,
    fields: map<string, ValueArray>)

  /** The encoder's output for one data frame: a version 2.0 dataset, or a
      version 1.3 bundle holding the dataset under the name "dataset<N>". */
  datatype Envelope = Version2(dataset: Dataset) | Version13(name: string, dataset: Dataset)

  /** A data frame: column names and rows of cells. */
  datatype Table = Table(columns: seq<string>, rows: seq<seq<Cell>>)

  /** Every row has one cell per column, as in any data frame. */
  predicate Rectangular(t: Table) {
    forall r :: 0 <= r < |t.rows| ==> |t.rows[r]| == |t.columns|
  }

  function Column(t: Table, j: nat): (col: seq<Cell>)
    requires Rectangular(t) && j < |t.columns|
    ensures |col| == |t.rows| && forall r :: 0 <= r < |t.rows| ==> col[r] == t.rows[r][j]
  {
    seq(|t.rows|, r requires 0 <= r < |t.rows| => t.rows[r][j])
  }

  /** Python's `xs[i]` on a list of length `n`: a negative `i` counts from the
      end; anything else out of range is an IndexError. */
  function ListPosition(n: nat, i: int): (r: Option<nat>)
    ensures r.Some? <==> -(n as int) <= i < n
    ensures r.Some? ==> r.value < n && (r.value == i || r.value == n + i)
    ensures 0 <= i < n ==> r == Some(i)
  {
    if 0 <= i < n then Some(i)
    else if -(n as int) <= i < 0 then Some(n + i)
    else None
  }
}
