# pyjstat JSON-stat codec, modelled in Dafny

pyjstat converts between JSON-stat documents and pandas data frames. This
project models the codec core of `pyjstat/pyjstat.py`:

- **Decoding.** `generate_df` turns a parsed dataset into a flat table with
  one column per dimension plus a value column. It is built from these helpers:
  - `get_dimensions`, `get_dim_label` and `get_dim_index`, which build the
    category table of each dimension;
  - `get_values`, which gives the dense value list;
  - `get_df_row`, which enumerates the category tuples in odometer order.
- **Encoding.** The body of `to_json_stat` turns a table into a JSON-stat
  dataset (version 2.0) or a `datasetN` member (version 1.3). The final
  `json.dumps` is not modelled: the result is the document it would print,
  up to the order of the dataset's members and of the `dimension` entries.
- **Point queries.** The `Dataset` methods `get_dimension_index`,
  `get_dimension_indices`, `get_value_index`, `get_value_by_index` and
  `get_value`.
- **Scalar helpers.** `to_int`, `to_str`, `check_input`, `uniquify` and the
  version test of `check_version_2`.

How the model is represented:

- The JSON objects whose key order the code reads are ordered lists of pairs
  (`OrderedDicts.Dict`): a category's `index` and `label` and a sparse
  `value` object. There, key order decides which label comes first and which
  write wins. The `dimension` entries and a dataset's other members are
  Dafny `map`s, because no modelled operation reads their order.
- Python exceptions are the `Err` arm of a `Result`, one constructor per
  exception class (`JsonStat.Error`).
- Data-frame cells are `JsonStat.Cell`: an int, a string, a real or None.

The files:

| file | what it holds |
|---|---|
| `wrappers.dfy` | `Option`, `Result` |
| `jsonstat.dfy` | datasets, tables, cells, errors, Python list indexing |
| `ordered_dicts.dfy` | insertion-ordered dicts, and dicts built from pairs where the last write wins |
| `sequences.dfy` | `uniquify` |
| `coercion.dfy` | `to_int`, `to_str`, `check_input`, the version test |
| `mixed_radix.dfy` | row-major flat index and its inverse |
| `dimension_resolver.dfy` | `get_dim_index`, `get_dim_label`, `get_dimensions` |
| `value_resolver.dfy` | `get_values` |
| `row_generator.dfy` | `get_df_row`, as a class that owns the shared `record` list |
| `decoder.dfy` | `generate_df` |
| `encoder.dfy` | `to_json_stat` |
| `dataset_queries.dfy` | the `Dataset` lookups |

Code that changes state step by step is modelled as methods with loops, each
proved equal to a specification function. Those methods are:

- `GetDimensions`;
- `GetValues` and `Spread`;
- the `RowEmitter` class, whose `Visit` appends to and pops from `record`;
- `GetDfRow`, `GenerateDf`;
- `UpdateDimension`, `EncodeFrame`, `ToJsonStat`;
- `GetDimensionIndices`, `GetValueIndex`, `GetValueByIndex`, `GetValue`.

The properties of the codec are proved about those specification functions.

The main results:

- **Decoding.** Row k of a decoded table is the category tuple whose row-major
  flat index is k, followed by value k (`Decoder.DecodedRow`).
- **Point lookup agrees with decoding.** `Dataset.get_value` on the digits of
  k returns that same value (`DatasetQueries.ValueOfDecodedRow`).
- **Encoding, with the corrected keying.** When each dimension is keyed by
  its own name and a column's distinct values have distinct `to_str` images
  (`IntCell(7)` and `StrCell("7")` do not), every category the encoder writes
  is found again by `get_dimension_index` at its first-seen position
  (`DatasetQueries.EncodedDimensionIndex`). As written, the source keys a
  dimension by `to_int(name)`, and a numeric name such as "007" is then
  written under another key. `get_dim_label` then raises KeyError, and
  `get_dimension_index` silently answers 0 for every category (see
  "## Findings").

Where the source is wrong, the model keeps both versions:
- The encoder pipeline (`EncodeFrame`, `EncodeAll`, `ToJsonStat`) takes a
  `KeyStyle`. With `AsInt` it keys dimensions as the source writes them; with
  `OwnName` it uses the corrected keying.
- `GetValueByIndex` and `GetValue` use the corrected lookup `ValueAt`. The
  code as written is `ValueByIndexAsWritten`.

## Model

| member | source | states |
|---|---|---|
| Coercion.ParseInt | pyjstat/pyjstat.py:75-78 | `int(s)` on a string succeeds exactly on an optionally signed run of decimal digits |
| Coercion.DecimalRoundTrip | pyjstat/pyjstat.py:92-94 | `int(str(n)) == n` for every integer n |
| Coercion.DecimalInjective | pyjstat/pyjstat.py:92-94 | distinct integers have distinct `str` images |
| Coercion.NatDigits | pyjstat/pyjstat.py:92-94 | `str(n)` of a natural number is a non-empty digit string without leading zeros: it starts with '0' exactly when n is 0, and is then "0" |
| Coercion.Truncate | pyjstat/pyjstat.py:76 | `int(x)` on a float rounds toward zero: the result lies between 0 and x, less than 1 away from x |
| Coercion.ToInt | pyjstat/pyjstat.py:64-78 | `to_int` fails only on None (TypeError escapes); an integer stays as it is, a float is truncated toward zero (`Truncate`), an integer-literal string becomes that integer and any other string is returned unchanged |
| Coercion.ToStr | pyjstat/pyjstat.py:81-96 | `to_str` leaves every string unchanged and writes an int as a decimal literal that parses back to it; None raises |
| Coercion.ToIntAfterToStr | pyjstat/pyjstat.py:64-96 | `to_int(to_str(x)) == to_int(x)`: the category key written by the encoder converts back to the same value |
| Coercion.CheckInput | pyjstat/pyjstat.py:145-160 | naming is accepted exactly when it is "label" or "id"; otherwise ValueError |
| Coercion.CheckVersion2 | pyjstat/pyjstat.py:99-119 | a missing or empty version means "not 2.0"; an unparsable one raises; otherwise the answer is exactly whether the version parses to at least 2.0 |
| Coercion.ParseDecimalNumber | pyjstat/pyjstat.py:115 | `float(version)` succeeds only on digits `w` or `w.f` with at least one digit, giving the number they write |
| Coercion.ParseDecimalOfSplit | pyjstat/pyjstat.py:115 | every string of the form `w` or `w.f` with digit strings `w`, `f` (at least one digit) parses, to the number it writes |
| Sequences.Uniquify | pyjstat/pyjstat.py:352-366 | the result has no duplicates and holds exactly the elements of the input, no more of them than the input has |
| Sequences.UniquifyFirstSeenOrder | pyjstat/pyjstat.py:364-366 | the result lists the elements in the order of their first occurrence in the input |
| Sequences.UniquifyOfDistinct | pyjstat/pyjstat.py:352-366 | a list without duplicates is returned unchanged |
| Sequences.UniquifyIdempotent | pyjstat/pyjstat.py:352-366 | `uniquify(uniquify(s)) == uniquify(s)` |
| OrderedDicts.Get | pyjstat/pyjstat.py:650-653 | a dict lookup finds a value exactly when the key is present, and the value is the one stored with that key |
| OrderedDicts.PutGet | pyjstat/pyjstat.py:304 | each pair of a dict comprehension assigns its key; assigning a key keeps keys distinct; reading it back gives the new value and leaves every other key's value unchanged |
| OrderedDicts.FromPairsGet | pyjstat/pyjstat.py:304 | a dict built from pairs has distinct keys and maps each key to its last value among the pairs |
| OrderedDicts.FromPairsKeys | pyjstat/pyjstat.py:304 | the keys of a dict built from pairs are the pair keys in first-seen order |
| OrderedDicts.FromPairsOfDistinct | pyjstat/pyjstat.py:484-490 | pairs with distinct keys build a dict with exactly those pairs, in order |
| OrderedDicts.LastValueIsGet | pyjstat/pyjstat.py:311-312 | for distinct keys, the last value written under a key is the one a lookup finds |
| MixedRadix.FlatIndexBounds | pyjstat/pyjstat.py:685-692 | an in-range tuple of category positions has a flat index in `[0, prod(size))` |
| MixedRadix.DigitsFlatIndex | pyjstat/pyjstat.py:685-692 | every flat index below `prod(size)` is the flat index of exactly the in-range tuple `Digits` gives |
| MixedRadix.FlatIndexDigits | pyjstat/pyjstat.py:685-692 | decomposing the flat index of an in-range tuple gives back that tuple |
| DimensionResolver.SortBy | pyjstat/pyjstat.py:283 | `sort_index(by='index')` yields the same rows ordered by position |
| DimensionResolver.DimensionEntry | pyjstat/pyjstat.py:267 | `js_dict['dimension'][dim]` succeeds exactly when both keys exist |
| DimensionResolver.IndexPairs | pyjstat/pyjstat.py:274-282 | a list `category.index` gives each id its offset; an object gives each key its stored position |
| DimensionResolver.Join | pyjstat/pyjstat.py:250 | the merge on `id` holds exactly the (id, label, index) rows whose (id, label) is a label row and whose (id, index) is an index row |
| DimensionResolver.MatchesCount | pyjstat/pyjstat.py:250 | one label row joins to each index row of its id once: a joined row occurs as often as its (id, index) row does |
| DimensionResolver.JoinCount | pyjstat/pyjstat.py:250 | the multiplicity of the merge: a joined row occurs (count of its label row) × (count of its index row) times, one per matching pair |
| DimensionResolver.JoinSize | pyjstat/pyjstat.py:250 | with distinct index ids, a merge in which every label id is indexed has exactly one row per label row |
| DimensionResolver.DimIndex | pyjstat/pyjstat.py:254-284 | a dimension with `category.index` yields the declared (id, position) rows sorted by position; a missing dimension raises KeyError |
| DimensionResolver.LabelledRows | pyjstat/pyjstat.py:219-251 | the label table is sorted by position; it exists exactly when both the label rows and the index rows exist, and its rows are exactly those of their join |
| DimensionResolver.LabelledRowsCount | pyjstat/pyjstat.py:250 | the sorted label table is the join as a multiset, so each row occurs as often as `JoinCount` says |
| DimensionResolver.DimensionDocumentLabel | pyjstat/pyjstat.py:213-251 | with `input='dimension'` a document without `label` raises KeyError('label'); one without `category.label` raises KeyError('dimension') from the `get_dim_index` fallback; otherwise the label column is named after `label` and the rows are the label table of the document |
| DimensionResolver.LabelFallback | pyjstat/pyjstat.py:222-227 | without `category.label` the label table holds exactly the declared (id, position) pairs, each labelled by its own id |
| DimensionResolver.LabelFallbackSize | pyjstat/pyjstat.py:222-251 | without `category.label` and with distinct declared ids, the label table has exactly one row per declared category |
| DimensionResolver.DimLabel | pyjstat/pyjstat.py:198-251 | `get_dim_label` of a dataset is sorted by position; a missing dimension raises KeyError; otherwise it is the label table of the label rows with the index rows (`LabelledRows`, with its multiplicity in `LabelledRowsCount`), falling back on `get_dim_index` |
| DimensionResolver.IndexFallback | pyjstat/pyjstat.py:234-239 | without `category.index` the only category is the first label entry, at position 0 |
| DimensionResolver.DimensionIds | pyjstat/pyjstat.py:179-183 | the dimension ids come from the top-level `id` of a version 2.0 dataset and from `dimension.id` otherwise |
| DimensionResolver.DimensionName | pyjstat/pyjstat.py:184-186 | a dimension's name is its `label`, or its id when the label is empty; a missing label raises |
| DimensionResolver.FrameOf | pyjstat/pyjstat.py:184-193 | label naming gives the label table and the dimension's name; id naming gives the index table and the id |
| DimensionResolver.DimensionsShape | pyjstat/pyjstat.py:183-195 | `get_dimensions` succeeds exactly when every dimension resolves, and then gives one frame and one name per id, in id order |
| DimensionResolver.DimensionsErrorPersists | pyjstat/pyjstat.py:183-193 | the first dimension that fails decides the exception |
| DimensionResolver.GetDimensions | pyjstat/pyjstat.py:163-195 | the loop that appends to `dimensions` and `dim_names` computes `Dimensions` |
| ValueResolver.SizeOf | pyjstat/pyjstat.py:306-309 | `size` is the non-empty top-level `size`, otherwise `dimension.size`; KeyError when neither exists |
| ValueResolver.ParseKeys | pyjstat/pyjstat.py:304 | `int(key)` succeeds on every key exactly when all keys are integer literals, and then each key becomes its integer |
| ValueResolver.Scatter | pyjstat/pyjstat.py:310-312 | spreading entries over `n` Nones succeeds exactly when every key is a valid Python list position (negative ones included), and keeps length `n` |
| ValueResolver.Spread | pyjstat/pyjstat.py:310-312 | the fill loop computes `Scatter` |
| ValueResolver.GetValues | pyjstat/pyjstat.py:287-315 | `get_values` computes `ResolveValues` |
| ValueResolver.ScatterAt | pyjstat/pyjstat.py:310-312 | position j of the filled list holds the last value written to it, or None |
| ValueResolver.SparseValuesPlaced | pyjstat/pyjstat.py:304-315 | a sparse value object with non-negative keys gives `prod(size)` values, position j holding the last value keyed j, or None |
| ValueResolver.DenseValuesUnchanged | pyjstat/pyjstat.py:299-302 | a non-empty value list is returned as it is |
| RowGenerator.ColumnOf | pyjstat/pyjstat.py:340 | `dimensions[i][naming]` is the label or id column of a label table; an index table has only an id column, so `label` raises KeyError |
| RowGenerator.ReachedColumns | pyjstat/pyjstat.py:340-347 | the generator reads exactly the columns of the dimensions it reaches, and fails only on a missing `label` column |
| RowGenerator.RowEmitter.constructor | pyjstat/pyjstat.py:338-339 | the generator starts with an empty `record` and nothing yielded |
| RowGenerator.RowEmitter.Visit | pyjstat/pyjstat.py:340-349 | a call at depth i yields `record` extended by every tuple of the remaining columns in odometer order, and leaves `record` as it found it |
| RowGenerator.GetDfRow | pyjstat/pyjstat.py:318-349 | the generator yields `DfRows`: check_input errors, an empty dimension list raises IndexError, and every row has one entry per dimension |
| RowGenerator.DfRows | pyjstat/pyjstat.py:318-349 | the reference definition of `get_df_row`: check_input errors first, IndexError on no dimensions, every row one entry per dimension |
| RowGenerator.Odometer | pyjstat/pyjstat.py:340-347 | every tuple of the nested product has one entry per column |
| RowGenerator.OdometerLength | pyjstat/pyjstat.py:340-347 | the generator yields the product of the column lengths many rows |
| RowGenerator.OdometerAt | pyjstat/pyjstat.py:340-347 | the row at the flat index of a tuple of positions picks those positions, the last dimension varying fastest |
| RowGenerator.KthRow | pyjstat/pyjstat.py:340-347 | row k is the tuple at the mixed-radix digits of k |
| RowGenerator.DfRowsAt | pyjstat/pyjstat.py:318-349 | row k of `get_df_row` picks, in each dimension, the category at the k-th mixed-radix digit |
| Decoder.DecodeTable | pyjstat/pyjstat.py:369-393 | errors of `get_dimensions`, `get_values` and `get_df_row` propagate; then it succeeds exactly when there are as many rows as values and at least one, more rows than values raising IndexError and the other mismatches ValueError; the columns are the dimension names plus the value column, and row k is the k-th generated tuple followed by value k |
| Decoder.GenerateDf | pyjstat/pyjstat.py:369-393 | `generate_df` computes `DecodeTable` |
| Decoder.DecodedRow | pyjstat/pyjstat.py:369-393 | a decoded table has `prod` of the category counts many rows, and row k is the categories at the digits of k followed by value k |
| Encoder.DimNames | pyjstat/pyjstat.py:475-476 | the dimension columns are drawn from the columns that are not a substring of the value-column name, and each such column is among them |
| Encoder.DimNamesCount | pyjstat/pyjstat.py:475-476 | each kept column name occurs among the dimensions exactly as often as among the columns; a dropped one never |
| Encoder.DimNamesInOrder | pyjstat/pyjstat.py:475-476 | the dimensions are a subsequence of the columns, so they keep frame order |
| Encoder.DuplicateColumnsRejected | pyjstat/pyjstat.py:474-478 | two columns with the same name make encoding raise ValueError: pandas' reindex refusal when the filter drops a column, the unique-ID test when it drops none |
| Encoder.DimNamesDistinct | pyjstat/pyjstat.py:475-478 | distinct columns give distinct dimensions, so the unique-ID test passes whenever the filter did |
| Encoder.ValueNotADimension | pyjstat/pyjstat.py:475-476 | the value column is never taken as a dimension |
| Encoder.StrAll | pyjstat/pyjstat.py:484-490 | `to_str` applied to every cell succeeds exactly when it succeeds on each, with the images in order |
| Encoder.CategoryOf | pyjstat/pyjstat.py:482-490 | a category's `index` and `label` are the dicts built from the (image, position) and (image, image) pairs of the distinct values, a later pair overwriting an earlier one with the same image (so colliding images keep the last position while `size` still counts both); with distinct images each value sits at its own first-seen position (`CategoryPositions`) |
| Encoder.DimensionOf | pyjstat/pyjstat.py:480-490 | a dimension entry is titled by its name and holds the category of its column; it fails exactly when the category does |
| Encoder.EntryOf | pyjstat/pyjstat.py:480-490 | one element of `categories`: the entry under the key of the chosen style, failing exactly when the category does |
| Encoder.Categories | pyjstat/pyjstat.py:480-491 | one dimension entry per dimension column, in order; the first failing column decides the exception |
| Encoder.UpdateAllAt | pyjstat/pyjstat.py:500-506 | after the `update` calls, a key holds the last entry written for it, or its old value |
| Encoder.UpdateAllTwice | pyjstat/pyjstat.py:500-506 | repeating the `update` loop changes nothing |
| Encoder.Sizes | pyjstat/pyjstat.py:503-504 | `size` lists the number of distinct values of each dimension column |
| Encoder.EncodeTable | pyjstat/pyjstat.py:474-523 | repeated column names, and repeated dimension names, raise ValueError; a success writes the value column, the dimension entries, `id` and `size`, at the top level exactly when the version is at least 2.0 and under `datasetN` otherwise |
| Encoder.EncodeTableOutcome | pyjstat/pyjstat.py:474-523 | the exceptions in source order once the columns are distinct: a failing category, an unparsable version (ValueError), a missing value column (KeyError); encoding succeeds exactly when the columns are distinct, none of these happens and no name clashes with a written member |
| Encoder.CategoryKeys | pyjstat/pyjstat.py:484-490 | the keys of `index` and `label` are the distinct `to_str` images in first-seen order |
| Encoder.CategoryPositions | pyjstat/pyjstat.py:484-490 | when the images are distinct, the k-th distinct value is found under `index` at position k and under `label` as itself |
| Encoder.StringCategory | pyjstat/pyjstat.py:484-490 | a column of strings always encodes, and its images are distinct |
| Encoder.EncodedBlock | pyjstat/pyjstat.py:480-523 | an encoded dataset's `dimension` holds one entry per dimension column, each under its written key |
| Encoder.EncodedEntry | pyjstat/pyjstat.py:480-491 | with each dimension keyed by its own name, every dimension column is found under its name |
| Encoder.EncodedKeysDistinct | pyjstat/pyjstat.py:477-491 | the dimension keys written are distinct |
| Encoder.WrittenKey | pyjstat/pyjstat.py:480 | as written, a dimension keyed by `to_int(name)` keeps a non-numeric name and rewrites a numeric one to an equal integer |
| Encoder.WrittenKeyOfPaddedName | pyjstat/pyjstat.py:480 | the column "007" is written under the key "7" |
| Encoder.AsWrittenEntryMissing | pyjstat/pyjstat.py:480 | as written, `js_dict['dimension'][name]`, as `get_dim_label` reads it, raises KeyError for a dimension whose name is not its written key |
| DatasetQueries.AsWrittenIndexIsZero | pyjstat/pyjstat.py:645-647 | as written, `get_dimension_index` does not fail for a dimension renamed by `to_int` (pyjstat.py line 480): its `.get(..., {})` chain finds no entry and answers 0 for every category |
| Encoder.UpdateDimension | pyjstat/pyjstat.py:500-501 | the `update` loop computes `UpdateAll` |
| Encoder.EncodeFrame | pyjstat/pyjstat.py:475-523 | the body of the loop over frames computes `EncodeTable` in the given key style (`AsInt` as written, `OwnName` corrected) |
| Encoder.EncodeAll | pyjstat/pyjstat.py:474-526 | in either key style, the list output succeeds exactly when every frame encodes, holding frame k's dataset at position k; a failure is the exception of the first failing frame |
| Encoder.ToJsonStat | pyjstat/pyjstat.py:465-526 | the loop appending each frame's dataset computes `EncodeAll`; with `AsInt` this is the source as written, up to the member order of each dataset |
| DatasetQueries.IndexOf | pyjstat/pyjstat.py:645-648 | `category.index` of the named dimension, present exactly when `dimension`, the dimension, its `category` and the `index` all exist |
| DatasetQueries.Position | pyjstat/pyjstat.py:650-653 | a list index gives the first offset of the value, or ValueError; an object index gives the stored position, or KeyError |
| DatasetQueries.DimensionIndex | pyjstat/pyjstat.py:645-653 | a dimension without `category.index` answers 0; otherwise the answer is `Position` in that index (first list offset, or stored position) |
| DatasetQueries.ListAndObjectAgree | pyjstat/pyjstat.py:650-653 | for distinct ids, the list form and the object form of `category.index` give the same answers |
| DatasetQueries.EncodedDimensionIndex | pyjstat/pyjstat.py:645-653 | in a dataset encoded with the corrected keying, and when the column's distinct values have distinct `to_str` images, the k-th dimension's j-th distinct value is found at position j |
| DatasetQueries.QueryValue | pyjstat/pyjstat.py:670-671 | the value taken for an id is the one in the first query dict that has the id |
| DatasetQueries.IdsOf | pyjstat/pyjstat.py:665 | the ids are the non-empty top-level `id`, otherwise `dimension.id` |
| DatasetQueries.Lookup | pyjstat/pyjstat.py:669-671 | an id no query dict mentions raises IndexError; otherwise the answer is `DimensionIndex` of the first value queried for it |
| DatasetQueries.DimensionIndices | pyjstat/pyjstat.py:655-673 | one index per dimension id, in order, exactly when every lookup succeeds; a failure is the exception of the first failing lookup |
| DatasetQueries.GetDimensionIndices | pyjstat/pyjstat.py:665-673 | the loop appending to `indices` computes `DimensionIndices` |
| DatasetQueries.ValueIndex | pyjstat/pyjstat.py:685-692 | with a known `size`, the flat index exists exactly when there are at least as many indices as dimensions |
| DatasetQueries.GetValueIndex | pyjstat/pyjstat.py:685-692 | the `mult`/`num` loop, walking from the last dimension, computes the row-major flat index |
| DatasetQueries.ValueIndexBounds | pyjstat/pyjstat.py:685-692 | in-range indices give an offset below `prod(size)` whose digits are those indices |
| DatasetQueries.ValueIndexOfDigits | pyjstat/pyjstat.py:685-692 | every offset below `prod(size)` is the value index of its own digits |
| DatasetQueries.ValueByIndexAsWritten | pyjstat/pyjstat.py:704 | as written: no `value` raises KeyError; a value list answers exactly the valid Python positions; a value object always raises |
| DatasetQueries.ValueAt | pyjstat/pyjstat.py:704 | the value at an index of the dense value list, found exactly when the index is a valid Python position |
| DatasetQueries.DenseLookupUnchanged | pyjstat/pyjstat.py:704 | on a value list the corrected lookup answers as the written one |
| DatasetQueries.SparseLookupFound | pyjstat/pyjstat.py:704 | on a value object the corrected lookup finds the last value stored under the index, or None |
| DatasetQueries.SparseLookupAsWrittenFails | pyjstat/pyjstat.py:704 | for `value = {"0": 5}` and size `[1]`, the written lookup of index 0 fails and the corrected one returns 5 |
| DatasetQueries.GetValueByIndex | pyjstat/pyjstat.py:694-704 | corrected `get_value_by_index`: computes `ValueAt`, which also reads a sparse value object |
| DatasetQueries.Value | pyjstat/pyjstat.py:717-720 | `get_value` raises the exception of `get_dimension_indices` when that fails, then that of `get_value_index`; otherwise it is the corrected lookup `ValueAt` at the offset |
| DatasetQueries.GetValue | pyjstat/pyjstat.py:706-720 | `get_value` with the corrected last step: computes `Value` |
| DatasetQueries.ValueOfPositions | pyjstat/pyjstat.py:717-720 | in-range positions and `prod(size)` values: the answer is the value at the row-major offset of the positions |
| DatasetQueries.ValueOfDecodedRow | pyjstat/pyjstat.py:706-720 | a query whose indices are the digits of k answers the value in the last column of row k of the decoded table |

## Left out

- The key order of a dataset's members and of its `dimension` entries is not
  kept: both are `map`s. The source writes them as ordered dicts, and
  `json.dumps` prints them in insertion order. No modelled operation reads
  that order.
- Network access, `request`, `Dataset.read`, `Collection`, bundle dispatch
  in `from_json_stat` and `unnest_collection` are outside the codec core. The
  inputs are already-parsed documents.
- JSON text is not modelled, on either side: `json.loads`/`json.dumps` and
  `NumpyEncoder`. The encoder's result is the document `json.dumps` would
  print.
- The `'dict'` output mode of `to_json_stat` is not modelled, nor the `None`
  result for an unknown output mode. Only the `'list'` mode is.
- pandas machinery is not modelled. Data frames are lists of rows.
  - `pd.merge` is an inner join in label order, followed by a sort on the
    position.
  - The row index that `generate_df` assigns is not modelled.
- `pd.isnull` is not modelled. A missing value is `NullCell`. The
  encoder writes cells as they are.
- Floating point is reduced to what the code needs:
  - `float(version)` covers only plain decimals;
  - `int(x)` on a float is truncation;
  - warnings are left out.
- `Coercion.ToStr`: a float cell gives `Unsupported`. Python's `str(float)`
  formatting is not modelled.
- `Coercion.ParseInt`: accepts ASCII digits only. It rejects the surrounding
  whitespace, the digit-group underscores and the non-ASCII Unicode decimal
  digits that Python's `int()` also takes.
- NaN is not a separate cell. `to_int` and `to_str` of a NaN return the NaN
  (Python's `int()` raises ValueError there, which they catch). The model has
  only `NullCell`, standing for `None`, on which both raise TypeError.
- The ValueError that pandas raises when it reindexes repeated column labels
  carries the wording of recent pandas; older versions word it "cannot
  reindex from a duplicate axis". The model does not follow pandas versions.
- `Encoder.EncodeTable`: a value column or dimension that would collide with a
  member the encoder writes (`version`, `id`, `size`, ...; the predicate
  `Encoder.MemberClash`) is reported as `Unsupported` instead of being
  overwritten.
- `DimensionResolver.DimIndex` and `DimensionResolver.DimLabel` use an
  explicit fallback: when a dimension has neither `category.index` nor
  `category.label`, the source's two functions call each other until
  `RecursionError`. The model returns that error without modelling the
  recursion.
- `DatasetQueries.DimensionIndex`: a dimension named `id` or `size` inside a
  version 1.3 `dimension` block is not modelled. There Python's `.get`
  reaches a list and raises AttributeError.
- Query dictionaries map dimension ids to category-id strings only.
- The order of the values the encoder writes is the frame's row order. No
  reordering into the row-major order the decoder assumes is modelled,
  because the source does none either.

## Findings

| source | as written | input that shows it | evidently intended | confidence | as-written member | corrected member |
|---|---|---|---|---|---|---|
| pyjstat/pyjstat.py:704 | `self['value'][index]` indexes the value object of a sparse dataset with an int, while its keys are decimal strings | `value = {"0": 5}`, `size = [1]`, `get_value_by_index(0)` raises KeyError | the sparse object spread into a list as `get_values` does, then indexed; gives 5 | not executed | DatasetQueries.ValueByIndexAsWritten, DatasetQueries.SparseLookupAsWrittenFails | DatasetQueries.ValueAt, DatasetQueries.SparseLookupFound |
| pyjstat/pyjstat.py:480 | each dimension entry is keyed by `to_int(name)`, so a numeric column name is rewritten and serialized as a different key | a dimension column named "007" is written under "7"; `get_dim_label(js, "007")` then raises KeyError, and `get_dimension_index("007", v)` answers 0 for every `v`, so `get_value` reads category 0's cell | each dimension keyed by its own name, which `id` lists | not executed | Encoder.WrittenKeyOfPaddedName, Encoder.AsWrittenEntryMissing, DatasetQueries.AsWrittenIndexIsZero | Encoder.EncodedEntry, Encoder.ToJsonStat |
