/**
 * Attribute selection (`_generate_attribute_random`, `_generate_attribute_best`, `generate_attribute`).
 * The random column index, the categorical test on the column's dtype, and the candidate values
 * (distinct values or quantiles) are inputs.
 */
module Selection {
  import opened Common
  import opened Impurity
  import opened Nodes

  const TypeCritRandom: int := 0
  const TypeCritBest: int := 1

  /** The gain of every candidate, as the loop at lines 93-97 would compute them. */
  function Gains(col: seq<real>, y: seq<int>, cands: seq<real>, isCategorical: bool,
                 impFunc: int, entropy: ImpurityFn): (gs: seq<real>)
    requires |col| >= |y| && |col| > 0
    ensures |gs| == |cands|
  {
    seq(|cands|, j requires 0 <= j < |cands| => Gain(col, y, cands[j], isCategorical, ImpurityFor(impFunc, entropy)))
  }

  /**
   * What the argmax loop keeps, starting from `best_val = best_ig = -1` and replacing only on a
   * strictly greater gain: -1 when no gain exceeds -1, otherwise the first candidate whose gain
   * is the greatest of all.
   */
  predicate IsSelectedValue(gains: seq<real>, cands: seq<real>, best: real)
    requires |gains| == |cands|
  {
    || (best == -1.0 && forall j :: 0 <= j < |gains| ==> gains[j] <= -1.0)
    || (exists k :: 0 <= k < |cands| && best == cands[k] && gains[k] > -1.0
                    && (forall j :: 0 <= j < |gains| ==> gains[j] <= gains[k])
                    && (forall j :: 0 <= j < k ==> gains[j] < gains[k]))
  }

  /** The selected value is determined by the gains: the loop's outcome is a function of its inputs. */
  lemma SelectedValueUnique(gains: seq<real>, cands: seq<real>, v1: real, v2: real)
    requires |gains| == |cands|
    requires IsSelectedValue(gains, cands, v1) && IsSelectedValue(gains, cands, v2)
    ensures v1 == v2
  {
  }

  /**
   * The loop at lines 91-97: the value with the strictly greatest information gain, evaluated with
   * the given mask kind and impurity selector; an error of `_information_gain` propagates.
   */
  method BestValue(col: seq<real>, y: seq<int>, cands: seq<real>, isCategorical: bool,
                   impFunc: int, entropy: ImpurityFn) returns (r: Result<real>)
    ensures cands == [] ==> r == Success(-1.0)
    ensures cands != [] && |col| == 0 ==> r == Failure(ZeroDivision)
    ensures cands != [] && 0 < |col| < |y| ==> r == Failure(Unalignable)
    ensures cands != [] && |col| >= |y| && |col| > 0 ==>
      r.Success? && IsSelectedValue(Gains(col, y, cands, isCategorical, impFunc, entropy), cands, r.value)
  {
    var bestVal := -1.0;
    var bestIg := -1.0;
    var valid := |col| >= |y| && |col| > 0;
    ghost var gs := if valid then Gains(col, y, cands, isCategorical, impFunc, entropy) else [];
    for i := 0 to |cands|
      invariant !valid ==> i == 0
      invariant valid ==> |gs| == |cands| && PrefixBest(gs, cands, i, bestVal, bestIg)
      invariant i == 0 ==> bestVal == -1.0
    {
      var ig := InformationGain(col, y, cands[i], isCategorical, impFunc, entropy);
      if ig.Failure? {
        return Failure(ig.error);
      }
      PrefixBestStep(gs, cands, i, bestVal, bestIg);
      if ig.value > bestIg {
        bestIg := ig.value;
        bestVal := cands[i];
      }
    }
    if valid {
      PrefixBestDone(gs, cands, bestVal, bestIg);
    }
    return Success(bestVal);
  }

  /** The state of the argmax loop after the first `i` candidates. */
  predicate PrefixBest(gains: seq<real>, cands: seq<real>, i: nat, bestVal: real, bestIg: real)
    requires i <= |gains| == |cands|
  {
    || (bestVal == -1.0 && bestIg == -1.0 && forall j :: 0 <= j < i ==> gains[j] <= -1.0)
    || (exists k :: 0 <= k < i && bestVal == cands[k] && bestIg == gains[k] && bestIg > -1.0
                    && (forall j :: 0 <= j < i ==> gains[j] <= bestIg)
                    && (forall j :: 0 <= j < k ==> gains[j] < bestIg))
  }

  lemma PrefixBestStep(gains: seq<real>, cands: seq<real>, i: nat, bestVal: real, bestIg: real)
    requires i < |gains| == |cands|
    requires PrefixBest(gains, cands, i, bestVal, bestIg)
    ensures gains[i] > bestIg ==> PrefixBest(gains, cands, i + 1, cands[i], gains[i])
    ensures gains[i] <= bestIg ==> PrefixBest(gains, cands, i + 1, bestVal, bestIg)
  {
    if gains[i] > bestIg {
      assert forall j :: 0 <= j < i ==> gains[j] <= bestIg;
    } else if bestVal == -1.0 && bestIg == -1.0 && forall j :: 0 <= j < i ==> gains[j] <= -1.0 {
    } else {
      var k :| 0 <= k < i && bestVal == cands[k] && bestIg == gains[k] && bestIg > -1.0
                && (forall j :: 0 <= j < i ==> gains[j] <= bestIg)
                && (forall j :: 0 <= j < k ==> gains[j] < bestIg);
      assert 0 <= k < i + 1;
    }
  }

  lemma PrefixBestDone(gains: seq<real>, cands: seq<real>, bestVal: real, bestIg: real)
    requires |gains| == |cands|
    requires PrefixBest(gains, cands, |gains|, bestVal, bestIg)
    ensures IsSelectedValue(gains, cands, bestVal)
  {
  }

  /** The condition a random selection returns: `==` on a categorical attribute, `<=` otherwise. */
  function MakeCondition(isCategorical: bool, feature: string, best: real): Condition {
    if isCategorical then Equals(feature, best) else AtMost(feature, best)
  }

  /**
   * The outcome of a random selection on column `index`, whose gains are evaluated with mask kind
   * `maskIsEq` and impurity selector `impFunc`: the errors of `randint` and `_information_gain`, or the
   * condition on that column with the selected value.
   */
  ghost predicate IsChosenCondition(r: Result<Condition>, table: Table, y: seq<int>, index: int,
                                    isCategorical: bool, cands: seq<real>, maskIsEq: bool,
                                    impFunc: int, entropy: ImpurityFn)
  {
    if !(0 <= index < |table.columns|) then r == Failure(EmptyRange)
    else
      var col := table.columns[index];
      if cands != [] && |col.values| == 0 then r == Failure(ZeroDivision)
      else if cands != [] && |col.values| < |y| then r == Failure(Unalignable)
      else
        && r.Success?
        && !r.value.ConstantZero?
        && r.value == MakeCondition(isCategorical, col.name, r.value.value)
        && (cands == [] ==> r.value.value == -1.0)
        && (cands != [] ==>
              IsSelectedValue(Gains(col.values, y, cands, maskIsEq, impFunc, entropy), cands, r.value.value))
  }

  /**
   * `_generate_attribute_random` as written: line 94 passes `imp_func` in the `is_categorical` slot,
   * so the gains use an `==` mask exactly when `imp_func` is non-zero and always use entropy.
   */
  method GenerateAttributeRandom(table: Table, y: seq<int>, index: int, isCategorical: bool,
                                 cands: seq<real>, impFunc: int, entropy: ImpurityFn)
    returns (r: Result<Condition>)
    ensures IsChosenCondition(r, table, y, index, isCategorical, cands, impFunc != 0, ImpFuncEntropy, entropy)
  {
    if !(0 <= index < |table.columns|) {
      return Failure(EmptyRange);
    }
    var col := table.columns[index];
    var best := BestValue(col.values, y, cands, impFunc != 0, ImpFuncEntropy, entropy);
    if best.Failure? {
      return Failure(best.error);
    }
    return Success(MakeCondition(isCategorical, col.name, best.value));
  }

  /**
   * `_generate_attribute_random` as evidently intended: the gains use the attribute's own mask kind
   * and the configured impurity.
   */
  method GenerateAttributeRandomIntended(table: Table, y: seq<int>, index: int, isCategorical: bool,
                                         cands: seq<real>, impFunc: int, entropy: ImpurityFn)
    returns (r: Result<Condition>)
    ensures IsChosenCondition(r, table, y, index, isCategorical, cands, isCategorical, impFunc, entropy)
  {
    if !(0 <= index < |table.columns|) {
      return Failure(EmptyRange);
    }
    var col := table.columns[index];
    var best := BestValue(col.values, y, cands, isCategorical, impFunc, entropy);
    if best.Failure? {
      return Failure(best.error);
    }
    return Success(MakeCondition(isCategorical, col.name, best.value));
  }

  /**
   * `_generate_attribute_best`: a stub that ignores its argument and returns `lambda x: 0`, a
   * condition that sends every record, whatever its features, to `children[0]`.
   */
  function GenerateAttributeBest(impFunc: int): (c: Condition)
    ensures forall x :: EvalCondition(c, x) == Success(0)
  {
    ConstantZero
  }

  /** `generate_attribute`: the best stub when `type_criterion == 1`, the random selection otherwise. */
  method GenerateAttribute(typeCriterion: int, impFunc: int, table: Table, y: seq<int>, index: int,
                           isCategorical: bool, cands: seq<real>, entropy: ImpurityFn)
    returns (r: Result<Condition>)
    ensures typeCriterion == TypeCritBest ==> r == Success(ConstantZero)
    ensures typeCriterion != TypeCritBest ==>
      IsChosenCondition(r, table, y, index, isCategorical, cands, impFunc != 0, ImpFuncEntropy, entropy)
  {
    if typeCriterion == TypeCritBest {
      return Success(GenerateAttributeBest(impFunc));
    }
    r := GenerateAttributeRandom(table, y, index, isCategorical, cands, impFunc, entropy);
  }

  // ---------------------------------------------------------------- line 94, a counterexample

  /*
   * Column c = [0, 1, 2] (categorical), labels [0, 1, 0], candidates [0, 1, 2], entropy mode with
   * Gini impurity standing in for the entropy function. The `==` split on 1 separates the classes;
   * as written, the gains are computed with `<=` masks, under which 0 and 1 tie, so 0 is kept.
   */

  lemma GiniPure(ys: seq<int>)
    requires ys == [0] || ys == [1] || ys == [0, 0]
    ensures GiniOf(ys) == 0.0
  {
    GiniBounds(ys);
  }

  /** A one-label series has one class counted once. */
  lemma ValueCountsSingle(d: int)
    ensures ValueCounts([d]) == [1]
  {
    assert [d][1..] == [];
    assert Count([d], d) == 1;
    assert Without([d], d) == [];
  }

  /** Two different labels: two classes of one label each, so Gini impurity 1/2. */
  lemma GiniPair(ys: seq<int>)
    requires |ys| == 2 && ys[0] != ys[1]
    ensures GiniOf(ys) == 0.5
  {
    var c, d := ys[0], ys[1];
    assert ys[1..] == [d];
    assert Count([d], c) == 0 by {
      assert [d][1..] == [];
    }
    assert Count(ys, c) == 1;
    assert Without([d], c) == [d] by {
      assert [d][1..] == [];
    }
    assert Without(ys, c) == [d];
    ValueCountsSingle(d);
    assert ValueCounts(ys) == [1] + ValueCounts([d]);
    assert SumSquaredProportions([1, 1], 2) == 0.5 by {
      assert [1, 1][1..] == [1] && [1][1..] == [];
    }
  }

  lemma GiniTripleLiteral()
    ensures GiniOf([0, 1, 0]) == 4.0 / 9.0
  {
    var y := [0, 1, 0];
    assert y[1..] == [1, 0] && y[1..][1..] == [0];
    assert Count(y, 0) == 2;
    assert Without(y, 0) == [1];
    assert Without([1], 1) == [];
    assert ValueCounts(y) == [2, 1];
    assert SumSquaredProportions([2, 1], 3) == 5.0 / 9.0 by {
      assert [2, 1][1..] == [1] && [1][1..] == [];
    }
  }

  lemma GainOfSides(col: seq<real>, y: seq<int>, v: real, isCategorical: bool, imp: ImpurityFn,
                    left: seq<int>, right: seq<int>, a: nat, b: nat)
    requires |col| == |y| > 0
    requires Select(y, Mask(col, v, isCategorical), true) == left
    requires Select(y, Mask(col, v, isCategorical), false) == right
    requires CountSide(Mask(col, v, isCategorical), true) == a
    requires CountSide(Mask(col, v, isCategorical), false) == b
    ensures a + b > 0
    ensures Gain(col, y, v, isCategorical, imp)
         == imp(y) - (a as real / (a + b) as real) * imp(left) - (b as real / (a + b) as real) * imp(right)
  {
    CountSidesTotal(Mask(col, v, isCategorical));
    assert Mask(col, v, isCategorical)[..|y|] == Mask(col, v, isCategorical);
  }

  lemma {:induction false} SelectCons(h: int, t: seq<int>, mh: bool, mt: seq<bool>, side: bool)
    requires |t| == |mt|
    ensures Select([h] + t, [mh] + mt, side) == (if mh == side then [h] else []) + Select(t, mt, side)
  {
    assert ([h] + t)[1..] == t && ([mh] + mt)[1..] == mt;
  }

  lemma {:induction false} CountSideCons(mh: bool, mt: seq<bool>, side: bool)
    ensures CountSide([mh] + mt, side) == (if mh == side then 1 else 0) + CountSide(mt, side)
  {
    assert ([mh] + mt)[1..] == mt;
  }

  /** The sides of a three-row mask over labels [0, 1, 0]. */
  lemma Sides(m0: bool, m1: bool, m2: bool, side: bool)
    ensures Select([0, 1, 0], [m0, m1, m2], side)
         == (if m0 == side then [0] else []) + (if m1 == side then [1] else []) + (if m2 == side then [0] else [])
    ensures CountSide([m0, m1, m2], side)
         == (if m0 == side then 1 else 0) + (if m1 == side then 1 else 0) + (if m2 == side then 1 else 0)
  {
    SelectCons(0, [1, 0], m0, [m1, m2], side);
    SelectCons(1, [0], m1, [m2], side);
    SelectCons(0, [], m2, [], side);
    assert [0, 1, 0] == [0] + [1, 0] && [1, 0] == [1] + [0] && [0] == [0] + [];
    assert [m0, m1, m2] == [m0] + [m1, m2] && [m1, m2] == [m1] + [m2] && [m2] == [m2] + [];
    CountSideCons(m0, [m1, m2], side);
    CountSideCons(m1, [m2], side);
    CountSideCons(m2, [], side);
  }

  lemma AsWrittenSides0(col: seq<real>, y: seq<int>, l: seq<int>, r: seq<int>)
    requires col == [0.0, 1.0, 2.0] && y == [0, 1, 0] && l == [0] && r == [1, 0]
    ensures Select(y, Mask(col, 0.0, false), true) == l && CountSide(Mask(col, 0.0, false), true) == 1
    ensures Select(y, Mask(col, 0.0, false), false) == r && CountSide(Mask(col, 0.0, false), false) == 2
  {
    assert Mask(col, 0.0, false) == [true, false, false];
    Sides(true, false, false, true);
    Sides(true, false, false, false);
  }

  lemma AsWrittenGain0(col: seq<real>, y: seq<int>, l: seq<int>, r: seq<int>)
    requires col == [0.0, 1.0, 2.0] && y == [0, 1, 0] && l == [0] && r == [1, 0]
    ensures Gain(col, y, 0.0, false, GiniOf) == 1.0 / 9.0
  {
    AsWrittenSides0(col, y, l, r);
    GainOfSides(col, y, 0.0, false, GiniOf, l, r, 1, 2);
    assert GiniOf(l) == 0.0 by { GiniPure(l); }
    assert GiniOf(r) == 0.5 by { GiniPair(r); }
    assert GiniOf(y) == 4.0 / 9.0 by { GiniTripleLiteral(); }
  }

  lemma AsWrittenSides1(col: seq<real>, y: seq<int>, l: seq<int>, r: seq<int>)
    requires col == [0.0, 1.0, 2.0] && y == [0, 1, 0] && l == [0, 1] && r == [0]
    ensures Select(y, Mask(col, 1.0, false), true) == l && CountSide(Mask(col, 1.0, false), true) == 2
    ensures Select(y, Mask(col, 1.0, false), false) == r && CountSide(Mask(col, 1.0, false), false) == 1
  {
    assert Mask(col, 1.0, false) == [true, true, false];
    Sides(true, true, false, true);
    Sides(true, true, false, false);
  }

  lemma AsWrittenGain1(col: seq<real>, y: seq<int>, l: seq<int>, r: seq<int>)
    requires col == [0.0, 1.0, 2.0] && y == [0, 1, 0] && l == [0, 1] && r == [0]
    ensures Gain(col, y, 1.0, false, GiniOf) == 1.0 / 9.0
  {
    AsWrittenSides1(col, y, l, r);
    GainOfSides(col, y, 1.0, false, GiniOf, l, r, 2, 1);
    assert GiniOf(l) == 0.5 by { GiniPair(l); }
    assert GiniOf(r) == 0.0 by { GiniPure(r); }
    assert GiniOf(y) == 4.0 / 9.0 by { GiniTripleLiteral(); }
  }

  lemma AsWrittenSides2(col: seq<real>, y: seq<int>, l: seq<int>, r: seq<int>)
    requires col == [0.0, 1.0, 2.0] && y == [0, 1, 0] && l == [0, 1, 0] && r == []
    ensures Select(y, Mask(col, 2.0, false), true) == l && CountSide(Mask(col, 2.0, false), true) == 3
    ensures Select(y, Mask(col, 2.0, false), false) == r && CountSide(Mask(col, 2.0, false), false) == 0
  {
    assert Mask(col, 2.0, false) == [true, true, true];
    Sides(true, true, true, true);
    Sides(true, true, true, false);
  }

  lemma AsWrittenGain2(col: seq<real>, y: seq<int>, l: seq<int>, r: seq<int>)
    requires col == [0.0, 1.0, 2.0] && y == [0, 1, 0] && l == [0, 1, 0] && r == []
    ensures Gain(col, y, 2.0, false, GiniOf) == 0.0
  {
    AsWrittenSides2(col, y, l, r);
    GainOfSides(col, y, 2.0, false, GiniOf, l, r, 3, 0);
    assert GiniOf(l) == 4.0 / 9.0 && GiniOf(y) == 4.0 / 9.0 by { GiniTripleLiteral(); }
  }

  lemma IntendedSides0(col: seq<real>, y: seq<int>, l: seq<int>, r: seq<int>)
    requires col == [0.0, 1.0, 2.0] && y == [0, 1, 0] && l == [0] && r == [1, 0]
    ensures Select(y, Mask(col, 0.0, true), true) == l && CountSide(Mask(col, 0.0, true), true) == 1
    ensures Select(y, Mask(col, 0.0, true), false) == r && CountSide(Mask(col, 0.0, true), false) == 2
  {
    assert Mask(col, 0.0, true) == [true, false, false];
    Sides(true, false, false, true);
    Sides(true, false, false, false);
  }

  lemma IntendedGain0(col: seq<real>, y: seq<int>, l: seq<int>, r: seq<int>)
    requires col == [0.0, 1.0, 2.0] && y == [0, 1, 0] && l == [0] && r == [1, 0]
    ensures Gain(col, y, 0.0, true, GiniOf) == 1.0 / 9.0
  {
    IntendedSides0(col, y, l, r);
    GainOfSides(col, y, 0.0, true, GiniOf, l, r, 1, 2);
    assert GiniOf(l) == 0.0 by { GiniPure(l); }
    assert GiniOf(r) == 0.5 by { GiniPair(r); }
    assert GiniOf(y) == 4.0 / 9.0 by { GiniTripleLiteral(); }
  }

  lemma IntendedSides1(col: seq<real>, y: seq<int>, l: seq<int>, r: seq<int>)
    requires col == [0.0, 1.0, 2.0] && y == [0, 1, 0] && l == [1] && r == [0, 0]
    ensures Select(y, Mask(col, 1.0, true), true) == l && CountSide(Mask(col, 1.0, true), true) == 1
    ensures Select(y, Mask(col, 1.0, true), false) == r && CountSide(Mask(col, 1.0, true), false) == 2
  {
    assert Mask(col, 1.0, true) == [false, true, false];
    Sides(false, true, false, true);
    Sides(false, true, false, false);
  }

  lemma IntendedGain1(col: seq<real>, y: seq<int>, l: seq<int>, r: seq<int>)
    requires col == [0.0, 1.0, 2.0] && y == [0, 1, 0] && l == [1] && r == [0, 0]
    ensures Gain(col, y, 1.0, true, GiniOf) == 4.0 / 9.0
  {
    IntendedSides1(col, y, l, r);
    GainOfSides(col, y, 1.0, true, GiniOf, l, r, 1, 2);
    assert GiniOf(l) == 0.0 by { GiniPure(l); }
    assert GiniOf(r) == 0.0 by { GiniPure(r); }
    assert GiniOf(y) == 4.0 / 9.0 by { GiniTripleLiteral(); }
  }

  lemma IntendedSides2(col: seq<real>, y: seq<int>, l: seq<int>, r: seq<int>)
    requires col == [0.0, 1.0, 2.0] && y == [0, 1, 0] && l == [0] && r == [0, 1]
    ensures Select(y, Mask(col, 2.0, true), true) == l && CountSide(Mask(col, 2.0, true), true) == 1
    ensures Select(y, Mask(col, 2.0, true), false) == r && CountSide(Mask(col, 2.0, true), false) == 2
  {
    assert Mask(col, 2.0, true) == [false, false, true];
    Sides(false, false, true, true);
    Sides(false, false, true, false);
  }

  lemma IntendedGain2(col: seq<real>, y: seq<int>, l: seq<int>, r: seq<int>)
    requires col == [0.0, 1.0, 2.0] && y == [0, 1, 0] && l == [0] && r == [0, 1]
    ensures Gain(col, y, 2.0, true, GiniOf) == 1.0 / 9.0
  {
    IntendedSides2(col, y, l, r);
    GainOfSides(col, y, 2.0, true, GiniOf, l, r, 1, 2);
    assert GiniOf(l) == 0.0 by { GiniPure(l); }
    assert GiniOf(r) == 0.5 by { GiniPair(r); }
    assert GiniOf(y) == 4.0 / 9.0 by { GiniTripleLiteral(); }
  }

  /** The gains of three candidates, one Gini gain each, entropy standing as Gini. */
  lemma GainsOfThree(col: seq<real>, y: seq<int>, isCategorical: bool, g0: real, g1: real, g2: real)
    requires |col| == 3 && |y| == 3
    requires Gain(col, y, col[0], isCategorical, GiniOf) == g0
    requires Gain(col, y, col[1], isCategorical, GiniOf) == g1
    requires Gain(col, y, col[2], isCategorical, GiniOf) == g2
    ensures Gains(col, y, col, isCategorical, ImpFuncEntropy, GiniOf) == [g0, g1, g2]
  {
    var gs := Gains(col, y, col, isCategorical, ImpFuncEntropy, GiniOf);
    assert ImpurityFor(ImpFuncEntropy, GiniOf) == GiniOf;
    assert gs == [gs[0], gs[1], gs[2]];
  }

  /** The gains of the three candidates under the `<=` masks used as written. */
  lemma AsWrittenGains(col: seq<real>, y: seq<int>)
    requires col == [0.0, 1.0, 2.0] && y == [0, 1, 0]
    ensures Gains(col, y, col, false, ImpFuncEntropy, GiniOf) == [1.0 / 9.0, 1.0 / 9.0, 0.0]
  {
    AsWrittenGain0(col, y, [0], [1, 0]);
    AsWrittenGain1(col, y, [0, 1], [0]);
    AsWrittenGain2(col, y, [0, 1, 0], []);
    GainsOfThree(col, y, false, 1.0 / 9.0, 1.0 / 9.0, 0.0);
  }

  /** The gains of the three candidates under the intended `==` masks. */
  lemma IntendedGains(col: seq<real>, y: seq<int>)
    requires col == [0.0, 1.0, 2.0] && y == [0, 1, 0]
    ensures Gains(col, y, col, true, ImpFuncEntropy, GiniOf) == [1.0 / 9.0, 4.0 / 9.0, 1.0 / 9.0]
  {
    IntendedGain0(col, y, [0], [1, 0]);
    IntendedGain1(col, y, [1], [0, 0]);
    IntendedGain2(col, y, [0], [0, 1]);
    GainsOfThree(col, y, true, 1.0 / 9.0, 4.0 / 9.0, 1.0 / 9.0);
  }

  /** As written, the only value the selection can keep on the example is 0. */
  lemma AsWrittenChoice(col: seq<real>, y: seq<int>, v: real)
    requires col == [0.0, 1.0, 2.0] && y == [0, 1, 0]
    requires IsSelectedValue(Gains(col, y, col, false, ImpFuncEntropy, GiniOf), col, v)
    ensures v == 0.0
  {
    AsWrittenGains(col, y);
    var gs := Gains(col, y, col, false, ImpFuncEntropy, GiniOf);
    assert IsSelectedValue(gs, col, 0.0) by {
      assert 0.0 == col[0] && gs[0] > -1.0;
    }
    SelectedValueUnique(gs, col, 0.0, v);
  }

  /** Intended, the only value the selection can keep on the example is 1. */
  lemma IntendedChoice(col: seq<real>, y: seq<int>, v: real)
    requires col == [0.0, 1.0, 2.0] && y == [0, 1, 0]
    requires IsSelectedValue(Gains(col, y, col, true, ImpFuncEntropy, GiniOf), col, v)
    ensures v == 1.0
  {
    IntendedGains(col, y);
    var gs := Gains(col, y, col, true, ImpFuncEntropy, GiniOf);
    assert IsSelectedValue(gs, col, 1.0) by {
      assert 1.0 == col[1] && gs[1] > -1.0 && gs[0] < gs[1];
    }
    SelectedValueUnique(gs, col, 1.0, v);
  }

  /**
   * On the example, the selection as written keeps `c == 0` while the intended selection finds
   * the separating test `c == 1`.
   */
  method Line94Counterexample() returns (asWritten: Result<Condition>, intended: Result<Condition>)
    ensures asWritten == Success(Equals("c", 0.0))
    ensures intended == Success(Equals("c", 1.0))
  {
    var col := [0.0, 1.0, 2.0];
    var y := [0, 1, 0];
    var table := Table([Column("c", col)]);
    asWritten := GenerateAttributeRandom(table, y, 0, true, col, ImpFuncEntropy, GiniOf);
    intended := GenerateAttributeRandomIntended(table, y, 0, true, col, ImpFuncEntropy, GiniOf);
    AsWrittenChoice(col, y, asWritten.value.value);
    IntendedChoice(col, y, intended.value.value);
  }
}
