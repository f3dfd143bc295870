/** A Python dict (an OrderedDict, as produced by parsing JSON with
    `object_pairs_hook=OrderedDict`, or by a dict comprehension): its key/value
    pairs in insertion order. Key order matters to the codec: the first
    category label, the order rows enter the merge, and which of two aliasing
    list positions is written last. */
module OrderedDicts {
  import opened Wrappers
  import opened Sequences

  type Dict<K, V> = seq<(K, V)>

  function Keys<K(==), V>(d: Dict<K, V>): (ks: seq<K>)
    ensures |ks| == |d|
    ensures forall i :: 0 <= i < |d| ==> ks[i] == d[i].0
  {
    seq(|d|, i requires 0 <= i < |d| => d[i].0)
  }

  predicate HasKey<K(==), V>(d: Dict<K, V>, k: K) {
    exists i :: 0 <= i < |d| && d[i].0 == k
  }

  predicate DistinctKeys<K(==), V>(d: Dict<K, V>) {
    forall i, j :: 0 <= i < j < |d| ==> d[i].0 != d[j].0
  }

  /** `d.get(k)`: the value stored under `k`, looked up front to back. */
  function Get<K(==), V>(d: Dict<K, V>, k: K): (r: Option<V>)
    ensures r.Some? <==> HasKey(d, k)
    ensures r.Some? ==> exists i :: 0 <= i < |d| && d[i] == (k, r.value)
  {
    if |d| == 0 then None
    else if d[0].0 == k then Some(d[0].1)
    else
      var r := Get(d[1..], k);
      assert HasKey(d, k) <==> HasKey(d[1..], k) by {
        if HasKey(d, k) { var i :| 0 <= i < |d| && d[i].0 == k; assert d[1..][i - 1].0 == k; }
        if HasKey(d[1..], k) { var i :| 0 <= i < |d| - 1 && d[1..][i].0 == k; assert d[i + 1].0 == k; }
      }
      assert r.Some? ==> exists i :: 0 <= i < |d| && d[i] == (k, r.value) by {
        if r.Some? {
          var i :| 0 <= i < |d| - 1 && d[1..][i] == (k, r.value);
          assert d[i + 1] == (k, r.value);
        }
      }
      r
  }

  lemma KeysCons<K, V>(x: (K, V), d: Dict<K, V>)
    ensures Keys([x] + d) == [x.0] + Keys(d)
  {
  }

  /** A key other than the first is in the dict iff it is in the rest. */
  lemma HasKeyTail<K, V>(d: Dict<K, V>, k: K)
    requires |d| > 0 && d[0].0 != k
    ensures HasKey(d, k) <==> HasKey(d[1..], k)
  {
    if HasKey(d, k) { var i :| 0 <= i < |d| && d[i].0 == k; assert d[1..][i - 1].0 == k; }
    if HasKey(d[1..], k) { var i :| 0 <= i < |d| - 1 && d[1..][i].0 == k; assert d[i + 1].0 == k; }
  }

  /** `d[k] = v`: an existing key keeps its place and takes the new value;
      a new key is appended. */
  function Put<K(==), V>(d: Dict<K, V>, k: K, v: V): (r: Dict<K, V>)
    ensures HasKey(d, k) ==> |r| == |d| && Keys(r) == Keys(d)
    ensures !HasKey(d, k) ==> r == d + [(k, v)]
  {
    if |d| == 0 then [(k, v)]
    else if d[0].0 == k then [(k, v)] + d[1..]
    else
      HasKeyTail(d, k);
      var t := Put(d[1..], k, v);
      KeysCons(d[0], t);
      KeysCons(d[0], d[1..]);
      assert d == [d[0]] + d[1..];
      [d[0]] + t
  }

  /** Putting keeps keys distinct. */
  lemma PutDistinct<K, V>(d: Dict<K, V>, k: K, v: V)
    requires DistinctKeys(d)
    ensures DistinctKeys(Put(d, k, v))
  {
    var r := Put(d, k, v);
    if HasKey(d, k) {
      forall i | 0 <= i < |r| ensures r[i].0 == d[i].0 {
        assert Keys(r)[i] == Keys(d)[i];
      }
    } else {
      forall i | 0 <= i < |d| ensures d[i].0 != k {
      }
    }
  }

  /** Putting keeps keys distinct; the new key reads back the new value and
      every other key reads back what it read before. */
  lemma {:induction false} PutGet<K, V>(d: Dict<K, V>, k: K, v: V, k': K)
    requires DistinctKeys(d)
    ensures DistinctKeys(Put(d, k, v))
    ensures Get(Put(d, k, v), k') == if k' == k then Some(v) else Get(d, k')
  {
    PutDistinct(d, k, v);
    if |d| > 0 && d[0].0 != k {
      assert DistinctKeys(d[1..]);
      PutGet(d[1..], k, v, k');
      var t := Put(d[1..], k, v);
      assert Put(d, k, v) == [d[0]] + t;
      assert ([d[0]] + t)[1..] == t;
    } else if |d| > 0 {
      assert Put(d, k, v)[1..] == d[1..];
    }
  }

  /** `OrderedDict(pairs)` or a dict comprehension over `pairs`: every key once,
      at the place of its first occurrence, holding the value of its last. */
  function FromPairs<K(==), V>(pairs: seq<(K, V)>): (d: Dict<K, V>)
    decreases |pairs|
  {
    if |pairs| == 0 then []
    else Put(FromPairs(pairs[..|pairs| - 1]), pairs[|pairs| - 1].0, pairs[|pairs| - 1].1)
  }

  /** The value of the last pair whose key is `k`. */
  function LastValue<K(==), V>(pairs: seq<(K, V)>, k: K): Option<V>
    decreases |pairs|
  {
    if |pairs| == 0 then None
    else if pairs[|pairs| - 1].0 == k then Some(pairs[|pairs| - 1].1)
    else LastValue(pairs[..|pairs| - 1], k)
  }

  lemma {:induction false} FromPairsGet<K, V>(pairs: seq<(K, V)>, k: K)
    ensures DistinctKeys(FromPairs(pairs))
    ensures Get(FromPairs(pairs), k) == LastValue(pairs, k)
    decreases |pairs|
  {
    if |pairs| > 0 {
      var p := pairs[..|pairs| - 1];
      FromPairsGet(p, k);
      PutGet(FromPairs(p), pairs[|pairs| - 1].0, pairs[|pairs| - 1].1, k);
    }
  }

  /** The keys of the built dict are the pair keys with duplicates removed, in
      order of first occurrence. */
  lemma {:induction false} FromPairsKeys<K, V>(pairs: seq<(K, V)>)
    ensures Keys(FromPairs(pairs)) == Uniquify(Keys(pairs))
    decreases |pairs|
  {
    if |pairs| > 0 {
      var p := pairs[..|pairs| - 1];
      var (k, v) := pairs[|pairs| - 1];
      FromPairsKeys(p);
      assert Keys(pairs)[..|pairs| - 1] == Keys(p);
      var built := FromPairs(p);
      var u := Uniquify(Keys(p));
      assert HasKey(built, k) <==> k in u by {
        if HasKey(built, k) { var i :| 0 <= i < |built| && built[i].0 == k; assert Keys(built)[i] == k; }
        if k in u { var i :| 0 <= i < |u| && u[i] == k; assert built[i].0 == k; }
      }
      if !HasKey(built, k) {
        assert Keys(built + [(k, v)]) == Keys(built) + [k];
      }
    }
  }

  /** Pairs whose keys are already distinct come out unchanged. */
  lemma {:induction false} FromPairsOfDistinct<K, V>(pairs: seq<(K, V)>)
    requires DistinctKeys(pairs)
    ensures FromPairs(pairs) == pairs
    decreases |pairs|
  {
    if |pairs| > 0 {
      var p := pairs[..|pairs| - 1];
      assert DistinctKeys(p);
      FromPairsOfDistinct(p);
      var k := pairs[|pairs| - 1].0;
      forall i | 0 <= i < |p| ensures p[i].0 != k {
        assert p[i] == pairs[i];
      }
      assert p + [pairs[|pairs| - 1]] == pairs;
    }
  }

  /** Looking up a key after appending a pair. */
  lemma {:induction false} GetAppend<K, V>(p: Dict<K, V>, k: K, v: V, j: K)
    ensures Get(p + [(k, v)], j) == if HasKey(p, j) then Get(p, j) else if k == j then Some(v) else None
  {
    if |p| > 0 {
      assert (p + [(k, v)])[1..] == p[1..] + [(k, v)];
      GetAppend(p[1..], k, v, j);
      assert HasKey(p, j) <==> p[0].0 == j || HasKey(p[1..], j) by {
        if HasKey(p[1..], j) { var i :| 0 <= i < |p| - 1 && p[1..][i].0 == j; assert p[i + 1].0 == j; }
        if HasKey(p, j) && p[0].0 != j { var i :| 0 <= i < |p| && p[i].0 == j; assert p[1..][i - 1].0 == j; }
      }
    }
  }

  /** In a dict with distinct keys, the first and the last match are the same. */
  lemma {:induction false} LastValueIsGet<K, V>(d: Dict<K, V>, j: K)
    requires DistinctKeys(d)
    ensures LastValue(d, j) == Get(d, j)
    decreases |d|
  {
    if |d| > 0 {
      var p := d[..|d| - 1];
      var (k, v) := d[|d| - 1];
      assert d == p + [(k, v)];
      assert DistinctKeys(p);
      LastValueIsGet(p, j);
      GetAppend(p, k, v, j);
      if k == j {
        forall i | 0 <= i < |p| ensures p[i].0 != j {
          assert d[i].0 != d[|d| - 1].0;
        }
      }
    }
  }

  /** In a dict with distinct keys, each key reads back its own value. */
  lemma {:induction false} GetAt<K, V>(d: Dict<K, V>, i: nat)
    requires DistinctKeys(d) && i < |d|
    ensures Get(d, d[i].0) == Some(d[i].1)
  {
    if i > 0 {
      assert DistinctKeys(d[1..]);
      assert d[1..][i - 1] == d[i];
      GetAt(d[1..], i - 1);
    }
  }

  /** A key with a last value is a key of the pairs. */
  lemma {:induction false} LastValueHasKey<K, V>(pairs: seq<(K, V)>, k: K)
    ensures LastValue(pairs, k).Some? <==> HasKey(pairs, k)
    decreases |pairs|
  {
    if |pairs| > 0 {
      var p := pairs[..|pairs| - 1];
      LastValueHasKey(p, k);
      if HasKey(p, k) {
        var i :| 0 <= i < |p| && p[i].0 == k;
        assert pairs[i].0 == k;
      }
      if HasKey(pairs, k) && pairs[|pairs| - 1].0 != k {
        var i :| 0 <= i < |pairs| && pairs[i].0 == k;
        assert p[i].0 == k;
      }
    }
  }
}
