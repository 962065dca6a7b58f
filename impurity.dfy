/**
 * Class impurity and information gain (`_gini_impurity`, `_information_gain`).
 * Labels are integers; feature values are reals. Entropy is a parameter.
 */
module Impurity {
  import opened Common

  /** A labelled argument as `_gini_impurity` sees it: a pandas Series or anything else. */
  datatype LabelArg = Series(labels: seq<int>) | NotSeries

  /** An impurity measure over a label series; entropy is supplied by the caller. */
  type ImpurityFn = seq<int> -> real

  const ImpFuncEntropy: int := 0
  const ImpFuncGini: int := 1

  function Count(y: seq<int>, c: int): nat {
    if y == [] then 0 else (if y[0] == c then 1 else 0) + Count(y[1..], c)
  }

  function Without(y: seq<int>, c: int): seq<int> {
    if y == [] then [] else (if y[0] == c then [] else [y[0]]) + Without(y[1..], c)
  }

  lemma {:induction false} WithoutLength(y: seq<int>, c: int)
    ensures |Without(y, c)| + Count(y, c) == |y|
  {
    if y != [] {
      WithoutLength(y[1..], c);
    }
  }

  function Sum(ks: seq<nat>): nat {
    if ks == [] then 0 else ks[0] + Sum(ks[1..])
  }

  function SumSquares(ks: seq<nat>): nat {
    if ks == [] then 0 else ks[0] * ks[0] + SumSquares(ks[1..])
  }

  predicate AllPositive(ks: seq<nat>) {
    forall k :: 0 <= k < |ks| ==> ks[k] > 0
  }

  predicate AllEqual(y: seq<int>) {
    forall i, j :: 0 <= i < |y| && 0 <= j < |y| ==> y[i] == y[j]
  }

  lemma {:induction false} WithoutMembers(y: seq<int>, c: int)
    ensures forall d :: d in Without(y, c) <==> d in y && d != c
  {
    if y != [] {
      WithoutMembers(y[1..], c);
      assert y == [y[0]] + y[1..];
    }
  }

  lemma {:induction false} CountWithout(y: seq<int>, c: int, d: int)
    requires d != c
    ensures Count(Without(y, c), d) == Count(y, d)
  {
    if y != [] {
      CountWithout(y[1..], c, d);
      var head := if y[0] == c then [] else [y[0]];
      assert Without(y, c) == head + Without(y[1..], c);
      CountConcat(head, Without(y[1..], c), d);
    }
  }

  lemma {:induction false} CountConcat(a: seq<int>, b: seq<int>, d: int)
    ensures Count(a + b, d) == Count(a, d) + Count(b, d)
  {
    if a == [] {
      assert a + b == b;
    } else {
      assert (a + b)[1..] == a[1..] + b;
      CountConcat(a[1..], b, d);
    }
  }

  /**
   * The labels of `value_counts()`, each once, in order of first appearance rather than in
   * pandas' order by decreasing count.
   */
  function Classes(y: seq<int>): (cs: seq<int>)
    ensures Distinct(cs)
    ensures forall c :: c in cs <==> c in y
    decreases |y|
  {
    if y == [] then []
    else
      var w := Without(y, y[0]);
      WithoutLength(y, y[0]);
      WithoutMembers(y, y[0]);
      var cw := Classes(w);
      assert y[0] !in cw;
      assert forall j :: 0 < j < |cw| + 1 ==> ([y[0]] + cw)[j] == cw[j - 1];
      [y[0]] + cw
  }

  /**
   * `y.value_counts()`: one count per distinct label (order immaterial here), each the number of
   * times that label occurs; so the counts are positive and add up to the length of the series.
   */
  function ValueCounts(y: seq<int>): (ks: seq<nat>)
    ensures |ks| == |Classes(y)|
    ensures forall j :: 0 <= j < |ks| ==> ks[j] == Count(y, Classes(y)[j])
    ensures Sum(ks) == |y|
    ensures AllPositive(ks)
    ensures ks == [] <==> y == []
    decreases |y|
  {
    if y == [] then []
    else
      var w := Without(y, y[0]);
      WithoutLength(y, y[0]);
      var rest := ValueCounts(w);
      assert Classes(y) == [y[0]] + Classes(w);
      forall j | 0 <= j < |rest|
        ensures rest[j] == Count(y, Classes(w)[j])
      {
        assert Classes(w)[j] in w;
        WithoutMembers(y, y[0]);
        CountWithout(y, y[0], Classes(w)[j]);
      }
      [Count(y, y[0])] + rest
  }

  /** `np.sum(prob ** 2)` with `prob = counts / n`. */
  function SumSquaredProportions(ks: seq<nat>, n: nat): real
    requires n > 0
  {
    if ks == [] then 0.0
    else (ks[0] as real / n as real) * (ks[0] as real / n as real) + SumSquaredProportions(ks[1..], n)
  }

  /** `1 - np.sum(prob ** 2)`; on an empty series the sum is empty, so the impurity is 1. */
  function GiniOf(y: seq<int>): real {
    if |y| == 0 then 1.0 else 1.0 - SumSquaredProportions(ValueCounts(y), |y|)
  }

  /** `_scaled_entropy` when `impFunc` is 0, `_gini_impurity` otherwise. */
  function ImpurityFor(impFunc: int, entropy: ImpurityFn): ImpurityFn {
    if impFunc == ImpFuncEntropy then entropy else GiniOf
  }

  lemma {:induction false} ProportionsCommonDenominator(ks: seq<nat>, n: nat)
    requires n > 0
    ensures SumSquaredProportions(ks, n) == SumSquares(ks) as real / (n * n) as real
  {
    if ks != [] {
      ProportionsCommonDenominator(ks[1..], n);
      var k, m, d := ks[0] as real, n as real, (n * n) as real;
      var rest := SumSquares(ks[1..]) as real;
      assert d > 0.0 && d == m * m by {
        assert n * n > 0;
      }
      assert SumSquares(ks) as real == k * k + rest by {
        assert (ks[0] * ks[0]) as real == k * k;
      }
      SquareOfRatio(k, m, d);
      AddFractions(k * k, rest, d);
    }
  }

  lemma SquareOfRatio(k: real, m: real, d: real)
    requires m > 0.0 && d == m * m && d > 0.0
    ensures (k / m) * (k / m) == (k * k) / d
  {
  }

  lemma AddFractions(x: real, y: real, d: real)
    requires d > 0.0
    ensures x / d + y / d == (x + y) / d
  {
  }

  /** The sum of squares of positive counts is at most the square of their sum, with equality only for one count. */
  lemma {:induction false} SquaresBound(ks: seq<nat>)
    requires AllPositive(ks)
    ensures SumSquares(ks) <= Sum(ks) * Sum(ks)
    ensures SumSquares(ks) == Sum(ks) * Sum(ks) <==> |ks| <= 1
    ensures ks != [] ==> SumSquares(ks) >= 1
  {
    if ks != [] {
      var rest := ks[1..];
      assert AllPositive(rest);
      SquaresBound(rest);
      var k, s := ks[0], Sum(rest);
      assert (k + s) * (k + s) == k * k + 2 * k * s + s * s;
      assert s == 0 <==> rest == [] by {
        if rest != [] { assert rest[0] > 0; }
      }
      if s > 0 {
        assert k * s > 0;
      }
    }
  }

  lemma {:induction false} CountAll(y: seq<int>, c: int)
    ensures Count(y, c) == |y| <==> forall i :: 0 <= i < |y| ==> y[i] == c
  {
    if y != [] {
      CountAll(y[1..], c);
      assert Count(y[1..], c) <= |y[1..]| by { WithoutLength(y[1..], c); }
      if forall i :: 0 <= i < |y| ==> y[i] == c {
        assert forall i :: 0 <= i < |y[1..]| ==> y[1..][i] == c by {
          forall i | 0 <= i < |y[1..]| ensures y[1..][i] == c { assert y[1..][i] == y[i + 1]; }
        }
      }
      if Count(y, c) == |y| {
        forall i | 0 <= i < |y| ensures y[i] == c {
          if i > 0 { assert y[i] == y[1..][i - 1]; }
        }
      }
    }
  }

  /** A non-empty series has exactly one distinct value exactly when all its labels are equal. */
  lemma SingleClassIff(y: seq<int>)
    requires y != []
    ensures |ValueCounts(y)| == 1 <==> AllEqual(y)
  {
    var w := Without(y, y[0]);
    WithoutLength(y, y[0]);
    CountAll(y, y[0]);
    assert |ValueCounts(y)| == 1 + |ValueCounts(w)|;
    if AllEqual(y) {
      assert forall i :: 0 <= i < |y| ==> y[i] == y[0];
    }
  }

  lemma RatioBounds(q: real, d: real)
    requires 1.0 <= q <= d
    ensures 0.0 < q / d <= 1.0
    ensures q / d == 1.0 <==> q == d
  {
    var p := q / d;
    assert p * d == q;
  }

  /** Gini impurity of a non-empty series lies in [0, 1), and is 0 exactly when all labels are equal. */
  lemma GiniBounds(y: seq<int>)
    requires y != []
    ensures 0.0 <= GiniOf(y) < 1.0
    ensures GiniOf(y) == 0.0 <==> AllEqual(y)
  {
    var ks := ValueCounts(y);
    var n := |y|;
    ProportionsCommonDenominator(ks, n);
    SquaresBound(ks);
    SingleClassIff(y);
    assert SumSquares(ks) <= n * n;
    RatioBounds(SumSquares(ks) as real, (n * n) as real);
  }

  predicate IsBinary(y: seq<int>) {
    forall i :: 0 <= i < |y| ==> y[i] == 0 || y[i] == 1
  }

  /** `_gini_impurity`: raises unless given a Series; otherwise 1 minus the sum of squared class proportions. */
  function GiniImpurity(arg: LabelArg): (r: Result<real>)
    ensures arg.NotSeries? <==> r == Failure(NotASeries)
    ensures arg.Series? ==> r == Success(GiniOf(arg.labels))
    ensures arg.Series? && arg.labels == [] ==> r == Success(1.0)
    ensures arg.Series? && arg.labels != [] ==>
      r.Success? && 0.0 <= r.value < 1.0 && (r.value == 0.0 <==> AllEqual(arg.labels))
  {
    match arg
    case NotSeries => Failure(NotASeries)
    case Series(y) =>
      if y != [] then GiniBounds(y); Success(GiniOf(y)) else Success(GiniOf(y))
  }

  // ---------------------------------------------------------------- information gain

  /** `attr_series == test_value` when categorical, else `attr_series <= test_value`. */
  function Mask(col: seq<real>, v: real, isCategorical: bool): seq<bool> {
    seq(|col|, i requires 0 <= i < |col| => if isCategorical then col[i] == v else col[i] <= v)
  }

  /** `sum(mask)` for `side == true`, `sum(~mask)` for `side == false`. */
  function CountSide(m: seq<bool>, side: bool): nat {
    if m == [] then 0 else (if m[0] == side then 1 else 0) + CountSide(m[1..], side)
  }

  /** `y[mask]` for `side == true`, `y[~mask]` for `side == false`, in row order. */
  function Select(y: seq<int>, m: seq<bool>, side: bool): (s: seq<int>)
    requires |y| == |m|
    ensures |s| == CountSide(m, side)
  {
    if y == [] then []
    else (if m[0] == side then [y[0]] else []) + Select(y[1..], m[1..], side)
  }

  lemma {:induction false} CountSidesTotal(m: seq<bool>)
    ensures CountSide(m, true) + CountSide(m, false) == |m|
  {
    if m != [] {
      CountSidesTotal(m[1..]);
    }
  }

  /**
   * Line 59's formula, once the error cases are excluded. The base impurity is that of the whole
   * label series `y`. `a` and `b` count every entry of the mask, but `y[mask]` aligns the mask with
   * the rows of `y` by index, so each side takes only the first `|y|` entries of the mask.
   */
  function Gain(col: seq<real>, y: seq<int>, v: real, isCategorical: bool, imp: ImpurityFn): real
    requires |col| >= |y| && |col| > 0
  {
    var m := Mask(col, v, isCategorical);
    var aligned := m[..|y|];
    CountSidesTotal(m);
    WeightedGain(imp(y), CountSide(m, true), CountSide(m, false), imp(Select(y, aligned, true)), imp(Select(y, aligned, false)))
  }

  /** `imp_df - a / tot * imp_left - b / tot * imp_right` with `tot = a + b`. */
  function WeightedGain(base: real, a: nat, b: nat, left: real, right: real): real
    requires a + b > 0
  {
    var tot := a + b;
    base - (a as real / tot as real) * left - (b as real / tot as real) * right
  }

  /**
   * `_information_gain`: an empty column divides by zero; a column shorter than the labels leaves
   * some label without a mask entry, which pandas refuses to align; otherwise `Gain`.
   */
  function InformationGain(col: seq<real>, y: seq<int>, v: real, isCategorical: bool,
                           impFunc: int, entropy: ImpurityFn): (r: Result<real>)
    ensures |col| == 0 ==> r == Failure(ZeroDivision)
    ensures 0 < |col| < |y| ==> r == Failure(Unalignable)
    ensures 0 < |col| && |y| <= |col| ==> r == Success(Gain(col, y, v, isCategorical, ImpurityFor(impFunc, entropy)))
  {
    if |col| == 0 then Failure(ZeroDivision)
    else if |col| < |y| then Failure(Unalignable)
    else Success(Gain(col, y, v, isCategorical, ImpurityFor(impFunc, entropy)))
  }

  lemma {:induction false} SelectMultiset(y: seq<int>, m: seq<bool>)
    requires |y| == |m|
    ensures multiset(Select(y, m, true)) + multiset(Select(y, m, false)) == multiset(y)
  {
    if y != [] {
      SelectMultiset(y[1..], m[1..]);
      assert y == [y[0]] + y[1..];
    }
  }

  /**
   * The two sides of a split: `a + b == tot == |col|`; the two sides together are exactly the labels
   * of `y`, and have `a` and `b` labels when the column and the labels have the same length; a row
   * goes to the mask side exactly when it passes the equality test (categorical) or the `<=` test
   * (numeric).
   */
  lemma Partition(col: seq<real>, y: seq<int>, v: real, isCategorical: bool)
    requires |col| >= |y|
    ensures var m := Mask(col, v, isCategorical);
      var aligned := m[..|y|];
      && CountSide(m, true) + CountSide(m, false) == |col|
      && |Select(y, aligned, true)| + |Select(y, aligned, false)| == |y|
      && (|col| == |y| ==>
            |Select(y, aligned, true)| == CountSide(m, true) && |Select(y, aligned, false)| == CountSide(m, false))
      && multiset(Select(y, aligned, true)) + multiset(Select(y, aligned, false)) == multiset(y)
      && (forall i :: 0 <= i < |col| ==> (m[i] <==> if isCategorical then col[i] == v else col[i] <= v))
  {
    var m := Mask(col, v, isCategorical);
    var aligned := m[..|y|];
    CountSidesTotal(m);
    CountSidesTotal(aligned);
    SelectMultiset(y, aligned);
    if |col| == |y| {
      assert aligned == m;
    }
  }

  lemma {:induction false} SelectAll(y: seq<int>, m: seq<bool>, side: bool)
    requires |y| == |m|
    requires forall i :: 0 <= i < |m| ==> m[i] == side
    ensures Select(y, m, side) == y
    ensures Select(y, m, !side) == []
  {
    if y != [] {
      SelectAll(y[1..], m[1..], side);
      assert y == [y[0]] + y[1..];
    }
  }

  /**
   * A test that sends every row to the same side gains nothing, whatever the impurity:
   * the base term is the impurity of the whole series, which is the only non-empty side.
   */
  lemma DegenerateSplitGain(col: seq<real>, y: seq<int>, v: real, isCategorical: bool, imp: ImpurityFn)
    requires |col| >= |y| && |col| > 0
    requires forall i :: 0 <= i < |col| ==> Mask(col, v, isCategorical)[i] == Mask(col, v, isCategorical)[0]
    ensures Gain(col, y, v, isCategorical, imp) == 0.0
  {
    var m := Mask(col, v, isCategorical);
    var aligned := m[..|y|];
    var side := m[0];
    ConstantMaskCounts(m, side);
    SelectAll(y, aligned, side);
    var a, b := CountSide(m, true), CountSide(m, false);
    var left, right := imp(Select(y, aligned, true)), imp(Select(y, aligned, false));
    assert Gain(col, y, v, isCategorical, imp) == WeightedGain(imp(y), a, b, left, right);
    WholeSide(imp(y), a, b, left, right);
  }

  /** A mask that is constant has every entry on its side and none on the other. */
  lemma {:induction false} ConstantMaskCounts(m: seq<bool>, side: bool)
    requires forall i :: 0 <= i < |m| ==> m[i] == side
    ensures CountSide(m, side) == |m| && CountSide(m, !side) == 0
  {
    if m != [] {
      ConstantMaskCounts(m[1..], side);
    }
  }

  /** All the weight on one side whose impurity is the base impurity: nothing is gained. */
  lemma WholeSide(base: real, a: nat, b: nat, left: real, right: real)
    requires a + b > 0
    requires (b == 0 && left == base) || (a == 0 && right == base)
    ensures WeightedGain(base, a, b, left, right) == 0.0
  {
    var t := (a + b) as real;
    if b == 0 {
      assert a as real / t == 1.0 && b as real / t == 0.0;
    } else {
      assert b as real / t == 1.0 && a as real / t == 0.0;
    }
  }
}
