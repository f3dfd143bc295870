/** The row generator, `get_df_row` (pyjstat/pyjstat.py:318-349): a recursive
    generator that walks the category columns of the dimension frames like an
    odometer, appending to and popping from one shared `record` list, and
    yields a row each time the record spans every dimension. */
module RowGenerator {
  import opened Wrappers
  import opened JsonStat
  import opened Coercion
  import opened MixedRadix
  import opened DimensionResolver

  /** `dimensions[i][naming]`: the `label` or `id` column of a frame. A frame
      built by `get_dim_index` has no `label` column. */
  function ColumnOf(f: Frame, naming: Naming): (r: Result<seq<string>, Error>)
    ensures r.Err? <==> f.IndexFrame? && naming == ByLabel
    ensures r.Err? ==> r.error == KeyError("label")
    ensures r.Ok? && f.LabelFrame? ==> |r.value| == |f.labelled| && forall k :: 0 <= k < |f.labelled| ==>
      r.value[k] == (if naming == ByLabel then f.labelled[k].title else f.labelled[k].id)
    ensures r.Ok? && f.IndexFrame? ==> |r.value| == |f.indexed| && forall k :: 0 <= k < |f.indexed| ==>
      r.value[k] == f.indexed[k].id
  {
    match f
    case LabelFrame(cs) =>
      if naming == ByLabel then Ok(seq(|cs|, k requires 0 <= k < |cs| => cs[k].title))
      else Ok(seq(|cs|, k requires 0 <= k < |cs| => cs[k].id))
    case IndexFrame(cs) =>
      if naming == ByLabel then Err(KeyError("label"))
      else Ok(seq(|cs|, k requires 0 <= k < |cs| => cs[k].id))
  }

  /** Every column before position d has at least one category. */
  predicate NonEmptyBefore(cols: seq<seq<string>>, d: nat)
    requires d <= |cols|
  {
    forall e :: 0 <= e < d ==> |cols[e]| > 0
  }

  lemma NonEmptyBeforeCons(c: seq<string>, rest: seq<seq<string>>)
    requires |c| > 0
    ensures forall d :: 1 <= d <= |rest| + 1 ==> (NonEmptyBefore([c] + rest, d) <==> NonEmptyBefore(rest, d - 1))
  {
    var r := [c] + rest;
    forall d | 1 <= d <= |rest| + 1 ensures NonEmptyBefore(r, d) <==> NonEmptyBefore(rest, d - 1) {
      if NonEmptyBefore(r, d) {
        forall e | 0 <= e < d - 1 ensures |rest[e]| > 0 {
          assert r[e + 1] == rest[e];
        }
      }
      if NonEmptyBefore(rest, d - 1) {
        forall e | 0 <= e < d ensures |r[e]| > 0 {
          if e > 0 { assert r[e] == rest[e - 1]; }
        }
      }
    }
  }

  /** The columns the lazy recursion looks up: level i + 1 is entered only
      for a category of level i, so the frames behind an empty column are
      never read. Those get an empty placeholder, which yields no rows
      either way. */
  function ReachedColumns(frames: seq<Frame>, naming: Naming): (r: Result<seq<seq<string>>, Error>)
    ensures (forall d :: 0 <= d < |frames| ==> ColumnOf(frames[d], naming).Ok?) ==> r.Ok?
    ensures r.Err? ==> r.error == KeyError("label")
    ensures r.Ok? ==> |r.value| == |frames| && forall d :: 0 <= d < |frames| ==>
      if NonEmptyBefore(r.value, d) then ColumnOf(frames[d], naming) == Ok(r.value[d])
      else r.value[d] == []
  {
    if |frames| == 0 then Ok([])
    else
      var c :- ColumnOf(frames[0], naming);
      if |c| == 0 then
        var r := [c] + seq(|frames| - 1, _ => []);
        assert forall d :: 1 <= d <= |r| ==> !NonEmptyBefore(r, d) by {
          forall d | 1 <= d <= |r| ensures !NonEmptyBefore(r, d) {
            assert |r[0]| == 0;
          }
        }
        Ok(r)
      else
        var rest :- ReachedColumns(frames[1..], naming);
        NonEmptyBeforeCons(c, rest);
        Ok([c] + rest)
  }

  /** `p + row` for each row. */
  function Prefixed(p: seq<string>, rows: seq<seq<string>>): (r: seq<seq<string>>)
    ensures |r| == |rows| && forall k :: 0 <= k < |rows| ==> r[k] == p + rows[k]
  {
    seq(|rows|, k requires 0 <= k < |rows| => p + rows[k])
  }

  /** For each category of `col` in turn, that category followed by each of
      `tails`. */
  function Block(col: seq<string>, tails: seq<seq<string>>): (r: seq<seq<string>>)
    ensures |r| == |col| * |tails|
  {
    if |col| == 0 then [] else Block(col[..|col| - 1], tails) + Prefixed([col[|col| - 1]], tails)
  }

  /** Every row of a block is one longer than the tails. */
  lemma {:induction false} BlockWidth(col: seq<string>, tails: seq<seq<string>>, n: nat)
    requires forall j :: 0 <= j < |tails| ==> |tails[j]| == n
    ensures forall k :: 0 <= k < |Block(col, tails)| ==> |Block(col, tails)[k]| == n + 1
  {
    if |col| > 0 {
      BlockWidth(col[..|col| - 1], tails, n);
    }
  }

  /** The rows `get_df_row` yields over columns `cols`, in order: the
      cartesian product with the last column varying fastest. */
  function Odometer(cols: seq<seq<string>>): (r: seq<seq<string>>)
    ensures forall k :: 0 <= k < |r| ==> |r[k]| == |cols|
  {
    if |cols| == 0 then [[]]
    else
      BlockWidth(cols[0], Odometer(cols[1..]), |cols| - 1);
      Block(cols[0], Odometer(cols[1..]))
  }

  /** The number of categories of each column. */
  function Cardinalities(cols: seq<seq<string>>): seq<nat> {
    seq(|cols|, d requires 0 <= d < |cols| => |cols[d]|)
  }

  /** The whole output of `get_df_row(dimensions, naming)`: the naming is
      checked first, an empty dimension list fails on `dimensions[0]`, a
      missing column raises KeyError. */
  function DfRows(frames: seq<Frame>, naming: string): (r: Result<seq<seq<string>>, Error>)
    ensures CheckInput(naming).Err? ==> r == Err(CheckInput(naming).error)
    ensures CheckInput(naming).Ok? && |frames| == 0 ==> r == Err(IndexError)
    ensures r.Ok? ==> forall k :: 0 <= k < |r.value| ==> |r.value[k]| == |frames|
  {
    var n :- CheckInput(naming);
    if |frames| == 0 then Err(IndexError)
    else
      var cols :- ReachedColumns(frames, n);
      Ok(Odometer(cols))
  }

  lemma PrefixedConcat(p: seq<string>, a: seq<seq<string>>, b: seq<seq<string>>)
    ensures Prefixed(p, a + b) == Prefixed(p, a) + Prefixed(p, b)
  {
  }

  lemma PrefixedEmpty(rows: seq<seq<string>>)
    ensures Prefixed([], rows) == rows
  {
    forall k | 0 <= k < |rows| ensures [] + rows[k] == rows[k] {
    }
  }

  /** The rows of one more category of a column. */
  lemma BlockStep(p: seq<string>, col: seq<string>, k: nat, tails: seq<seq<string>>)
    requires k < |col|
    ensures Prefixed(p, Block(col[..k + 1], tails)) == Prefixed(p, Block(col[..k], tails)) + Prefixed(p + [col[k]], tails)
  {
    assert col[..k + 1][..k] == col[..k];
    PrefixedPrefixed(p, [col[k]], tails);
    PrefixedConcat(p, Block(col[..k], tails), Prefixed([col[k]], tails));
  }

  /** The rows of category k, emitted after those of the categories before
      it, complete the block of the first k + 1 categories. */
  lemma VisitStep(start: seq<seq<string>>, p: seq<string>, col: seq<string>, k: nat, tails: seq<seq<string>>,
                  before: seq<seq<string>>, after: seq<seq<string>>)
    requires k < |col|
    requires before == start + Prefixed(p, Block(col[..k], tails))
    requires after == before + Prefixed(p + [col[k]], tails)
    ensures after == start + Prefixed(p, Block(col[..k + 1], tails))
  {
    BlockStep(p, col, k, tails);
  }

  /** The rows below level i are the block of column i over the rows below
      level i + 1. */
  lemma OdometerCons(columns: seq<seq<string>>, i: nat)
    requires i < |columns|
    ensures Odometer(columns[i..]) == Block(columns[i], Odometer(columns[i + 1..]))
  {
    assert columns[i..][1..] == columns[i + 1..];
  }

  /** At the last level the only tail is the empty row. */
  lemma LastLevel(p: seq<string>)
    ensures Odometer([]) == [[]] && Prefixed(p, [[]]) == [p]
  {
    assert p + [] == p;
  }

  lemma PrefixedPrefixed(p: seq<string>, q: seq<string>, rows: seq<seq<string>>)
    ensures Prefixed(p, Prefixed(q, rows)) == Prefixed(p + q, rows)
  {
    forall k | 0 <= k < |rows| ensures p + (q + rows[k]) == (p + q) + rows[k] {
    }
  }

  /** The recursive generator with its shared `record`. `emitted` collects
      the rows it yields, each a snapshot of `record` at the `yield`. */
  class RowEmitter {
    const columns: seq<seq<string>>
    var record: seq<string>
    var emitted: seq<seq<string>>

    constructor (columns: seq<seq<string>>)
      ensures this.columns == columns && record == [] && emitted == []
    {
      this.columns := columns;
      record := [];
      emitted := [];
    }

    /** The call at level i: every category of column i is appended, the row
        is yielded at the last level, the next level is walked, and the
        category is popped again, so the record comes back unchanged. */
    method Visit(i: nat)
      requires i < |columns| && |record| == i
      modifies this
      ensures record == old(record)
      ensures emitted == old(emitted) + Prefixed(old(record), Odometer(columns[i..]))
      decreases |columns| - i
    {
      var col := columns[i];
      ghost var tails := Odometer(columns[i + 1..]);
      ghost var start, p := emitted, record;
      var k := 0;
      while k < |col|
        invariant 0 <= k <= |col|
        invariant record == p
        invariant emitted == start + Prefixed(p, Block(col[..k], tails))
      {
        ghost var before := emitted;
        record := record + [col[k]];
        if |record| == |columns| {
          emitted := emitted + [record];
        }
        if i + 1 < |columns| {
          Visit(i + 1);
        }
        if |record| == i + 1 {
          record := record[..|record| - 1];
        }
        if i + 1 == |columns| {
          assert columns[i + 1..] == [];
          LastLevel(p + [col[k]]);
        }
        VisitStep(start, p, col, k, tails, before, emitted);
        k := k + 1;
      }
      assert col[..k] == col;
      OdometerCons(columns, i);
    }
  }

  /** `get_df_row(dimensions, naming)` run to exhaustion. */
  method GetDfRow(frames: seq<Frame>, naming: string) returns (r: Result<seq<seq<string>>, Error>)
    ensures r == DfRows(frames, naming)
  {
    var n :- CheckInput(naming);
    if |frames| == 0 {
      return Err(IndexError);
    }
    var cols :- ReachedColumns(frames, n);
    var emitter := new RowEmitter(cols);
    emitter.Visit(0);
    assert cols[0..] == cols;
    assert emitter.emitted == [] + Prefixed([], Odometer(cols));
    assert DfRows(frames, naming) == Ok(Odometer(cols));
    PrefixedEmpty(Odometer(cols));
    assert [] + Odometer(cols) == Odometer(cols);
    assert emitter.emitted == Odometer(cols);
    return Ok(emitter.emitted);
  }

  /** The categories at positions p, one per column. */
  function Pick(cols: seq<seq<string>>, p: seq<nat>): (row: seq<string>)
    requires InBounds(p, Cardinalities(cols))
    ensures |row| == |cols| && forall d :: 0 <= d < |cols| ==> row[d] == cols[d][p[d]]
  {
    seq(|cols|, d requires 0 <= d < |cols| => cols[d][p[d]])
  }

  /** `get_df_row` yields `np.prod` of the column lengths rows. */
  lemma {:induction false} OdometerLength(cols: seq<seq<string>>)
    ensures |Odometer(cols)| == Prod(Cardinalities(cols))
  {
    if |cols| > 0 {
      OdometerLength(cols[1..]);
      assert Cardinalities(cols)[1..] == Cardinalities(cols[1..]);
    }
  }

  /** Row a * |tails| + b of a block is category a followed by tail b. */
  lemma {:induction false} BlockAt(col: seq<string>, tails: seq<seq<string>>, a: nat, b: nat)
    requires a < |col| && b < |tails|
    ensures a * |tails| + b < |Block(col, tails)|
    ensures Block(col, tails)[a * |tails| + b] == [col[a]] + tails[b]
  {
    var m := |col| - 1;
    var front := Block(col[..m], tails);
    assert Block(col, tails) == front + Prefixed([col[m]], tails);
    if a < m {
      BlockAt(col[..m], tails, a, b);
      assert col[..m][a] == col[a];
    } else {
      assert a * |tails| == |front|;
    }
  }

  /** Row order: the row for category positions p is the one at the flat
      index of p, dimension 0 outermost and the last dimension fastest. */
  lemma {:induction false} OdometerAt(cols: seq<seq<string>>, p: seq<nat>)
    requires InBounds(p, Cardinalities(cols))
    ensures 0 <= FlatIndex(p, Cardinalities(cols)) < |Odometer(cols)|
    ensures Odometer(cols)[FlatIndex(p, Cardinalities(cols))] == Pick(cols, p)
  {
    var card := Cardinalities(cols);
    FlatIndexBounds(p, card);
    OdometerLength(cols);
    if |cols| > 0 {
      var rest := cols[1..];
      assert card[1..] == Cardinalities(rest);
      assert InBounds(p[1..], Cardinalities(rest));
      OdometerAt(rest, p[1..]);
      OdometerLength(rest);
      var tails := Odometer(rest);
      var b := FlatIndex(p[1..], card[1..]);
      BlockAt(cols[0], tails, p[0], b);
      assert FlatIndex(p, card) == p[0] * |tails| + b;
      var row := Odometer(cols)[FlatIndex(p, card)];
      assert row == [cols[0][p[0]]] + Pick(rest, p[1..]);
      forall d | 0 <= d < |cols| ensures row[d] == Pick(cols, p)[d] {
        if d > 0 {
          assert row[d] == Pick(rest, p[1..])[d - 1];
        }
      }
    }
  }

  /** Row k holds, for each dimension, the category at the k-th mixed-radix
      digit, so row k is the cell at flat index k of `value`. */
  lemma KthRow(cols: seq<seq<string>>, k: nat)
    requires k < |Odometer(cols)|
    ensures k < Prod(Cardinalities(cols))
    ensures InBounds(Digits(k, Cardinalities(cols)), Cardinalities(cols))
    ensures Odometer(cols)[k] == Pick(cols, Digits(k, Cardinalities(cols)))
  {
    var card := Cardinalities(cols);
    OdometerLength(cols);
    DigitsFlatIndex(k, card);
    OdometerAt(cols, Digits(k, card));
  }

  /** The rows of `get_df_row`: the product of the column lengths many, row
      k picking from each column the category at digit d of k, and every
      column being the frame's own `label` or `id` column once all columns
      before it are non-empty. */
  lemma DfRowsAt(frames: seq<Frame>, naming: string, k: nat)
    requires DfRows(frames, naming).Ok?
    ensures CheckInput(naming).Ok? && ReachedColumns(frames, CheckInput(naming).value).Ok?
    ensures var cols := ReachedColumns(frames, CheckInput(naming).value).value;
      |DfRows(frames, naming).value| == Prod(Cardinalities(cols)) &&
      (k < |DfRows(frames, naming).value| ==>
        InBounds(Digits(k, Cardinalities(cols)), Cardinalities(cols)) &&
        DfRows(frames, naming).value[k] == Pick(cols, Digits(k, Cardinalities(cols))))
  {
    var cols := ReachedColumns(frames, CheckInput(naming).value).value;
    OdometerLength(cols);
    if k < |Odometer(cols)| {
      KthRow(cols, k);
    }
  }
}
