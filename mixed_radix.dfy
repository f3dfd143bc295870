/** Row-major mixed-radix arithmetic: the flat offset into `value` of a tuple
    of per-dimension category positions, dimension 0 outermost and the last
    dimension varying fastest (pyjstat/pyjstat.py:675-692), and its inverse. */
module MixedRadix {

  /** `np.prod(size)`, the number of cells of a cube. */
  function Prod(s: seq<nat>): nat {
    if |s| == 0 then 1 else s[0] * Prod(s[1..])
  }

  /** The sum over d of `p[d] * Prod(s[d+1..])`, built from dimension 0. */
  function FlatIndex(p: seq<int>, s: seq<nat>): int
    requires |p| == |s|
  {
    if |s| == 0 then 0 else p[0] * Prod(s[1..]) + FlatIndex(p[1..], s[1..])
  }

  /** Every position addresses a category of its dimension. */
  predicate InBounds(p: seq<int>, s: seq<nat>) {
    |p| == |s| && forall d :: 0 <= d < |s| ==> 0 <= p[d] < s[d]
  }

  lemma MulLeq(a: int, b: int, c: nat)
    requires a <= b
    ensures a * c <= b * c
  {
  }

  lemma DivModOf(a: nat, b: nat, m: nat)
    requires b < m
    ensures (a * m + b) / m == a && (a * m + b) % m == b
  {
    var k := a * m + b;
    var q, r := k / m, k % m;
    assert k == q * m + r && 0 <= r < m;
    if q < a {
      MulLeq(q + 1, a, m);
      assert false;
    } else if q > a {
      MulLeq(a + 1, q, m);
      assert false;
    }
  }

  /** In-bounds positions address a cell of the cube: the offset lies in
      [0, Prod(s)). */
  lemma {:induction false} FlatIndexBounds(p: seq<int>, s: seq<nat>)
    requires InBounds(p, s)
    ensures 0 <= FlatIndex(p, s) < Prod(s)
  {
    if |s| > 0 {
      FlatIndexBounds(p[1..], s[1..]);
      StepBounds(p[0], s[0], Prod(s[1..]), FlatIndex(p[1..], s[1..]));
    }
  }

  /** One more outer digit below its radix keeps the offset below the
      product. */
  lemma StepBounds(a: int, n: nat, w: nat, f: int)
    requires 0 <= a < n && 0 <= f < w
    ensures 0 <= a * w + f < n * w
  {
    MulLeq(a + 1, n, w);
    assert (a + 1) * w == a * w + w;
    MulLeq(0, a, w);
  }

  /** The positions of flat offset `k`: the mixed-radix digits of `k`. */
  function Digits(k: nat, s: seq<nat>): (p: seq<nat>)
    requires k < Prod(s)
    ensures |p| == |s|
  {
    if |s| == 0 then []
    else
      var w := Prod(s[1..]);
      assert w > 0;
      [k / w] + Digits(k % w, s[1..])
  }

  /** Digits are in bounds and give back the offset they came from. */
  lemma {:induction false} DigitsFlatIndex(k: nat, s: seq<nat>)
    requires k < Prod(s)
    ensures InBounds(Digits(k, s), s)
    ensures FlatIndex(Digits(k, s), s) == k
  {
    if |s| > 0 {
      var w := Prod(s[1..]);
      var q, r := k / w, k % w;
      DivMod(k, w);
      DigitsFlatIndex(r, s[1..]);
      QuotientBelow(k, s[0], w);
      var p := Digits(k, s);
      assert p[1..] == Digits(r, s[1..]);
      forall d | 0 <= d < |s| ensures 0 <= p[d] < s[d] {
        if d > 0 { assert p[d] == p[1..][d - 1]; }
      }
    }
  }

  lemma DivMod(k: nat, w: nat)
    requires w > 0
    ensures k == (k / w) * w + k % w && 0 <= k % w < w
  {
  }

  /** The quotient of an offset below `a * w` by `w` is below `a`. */
  lemma QuotientBelow(k: nat, a: nat, w: nat)
    requires w > 0 && k < a * w
    ensures k / w < a
  {
    DivMod(k, w);
    if k / w >= a {
      MulLeq(a, k / w, w);
    }
  }

  /** Two in-bounds position tuples with the same offset are equal, so
      FlatIndex is a bijection between in-bounds tuples and [0, Prod(s)). */
  lemma {:induction false} FlatIndexDigits(p: seq<int>, s: seq<nat>)
    requires InBounds(p, s)
    ensures 0 <= FlatIndex(p, s) < Prod(s) && Digits(FlatIndex(p, s), s) == p
  {
    if |s| > 0 {
      FlatIndexBounds(p, s);
      FlatIndexBounds(p[1..], s[1..]);
      FlatIndexDigits(p[1..], s[1..]);
      DivModOf(p[0], FlatIndex(p[1..], s[1..]), Prod(s[1..]));
    }
  }
}
