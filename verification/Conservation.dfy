/** Splitting a total over several points loses nothing of it. */
module Conservation {
  import opened Common
  import opened Derive
  import opened RegisterMap

  predicate Distinct(names: seq<Name>) {
    forall i, j :: 0 <= i < j < |names| ==> names[i] != names[j]
  }

  predicate FiniteAt(values: Values, names: seq<Name>) {
    forall n :: n in names ==> n in values && values[n].Fin?
  }

  function SumAt(values: Values, names: seq<Name>): real
    requires FiniteAt(values, names)
    decreases |names|
  {
    if names == [] then 0.0
    else
      var n := |names| - 1;
      SumAt(values, names[..n]) + values[names[n]].r
  }

  lemma {:induction false} SumOfEqual(values: Values, names: seq<Name>, x: real)
    requires FiniteAt(values, names) && forall n :: n in names ==> values[n] == Fin(x)
    ensures SumAt(values, names) == |names| as real * x
    decreases |names|
  {
    if names != [] {
      SumOfEqual(values, names[..|names| - 1], x);
    }
  }

  lemma EqualSharesConserve(values: Values, targets: seq<Name>, total: real)
    requires targets != []
    ensures var r := SetAll(values, targets, DivideBy(Fin(total), |targets| as real));
            FiniteAt(r, targets) && SumAt(r, targets) == total
  {
    var n := |targets| as real;
    var share := total / n;
    SetAllFrame(values, targets, Fin(share));
    SumOfEqual(SetAll(values, targets, Fin(share)), targets, share);
    assert n * (total / n) == total;
  }

  lemma {:induction false} WeightsFinite(values: Values, weights: seq<Name>, i: nat)
    requires WeightSum(values, weights).Some? && i < |weights|
    ensures Get(values, weights[i]).Fin?
    ensures WeightSum(values, weights[..i]).Some?
    ensures WeightSum(values, weights[..i + 1]) ==
            Some(WeightSum(values, weights[..i]).value + Abs(Get(values, weights[i]).r))
    decreases |weights|
  {
    var n := |weights| - 1;
    if i == n {
      assert weights[..i + 1] == weights;
    } else {
      WeightsFinite(values, weights[..n], i);
      assert weights[..n][..i] == weights[..i] && weights[..n][..i + 1] == weights[..i + 1];
    }
  }

  lemma {:induction false} ShareAt(before: Values, values: Values, op: DeriveOp, total: real, sum: real, i: nat, j: nat)
    requires op.ArityAccepted() && op.op == RatioSplit && i <= j < |op.targets| && Distinct(op.targets)
    requires WeightSum(before, op.weights) == Some(sum) && sum > 0.0
    ensures var r := SharesFrom(before, values, op, Fin(total), sum, i);
            && op.targets[j] in r && Get(before, op.weights[j]).Fin?
            && r[op.targets[j]] == Fin(Portion(total, Abs(Get(before, op.weights[j]).r), sum))
    decreases |op.targets| - i
  {
    WeightsFinite(before, op.weights, i);
    var next := values[op.targets[i] := Share(Fin(total), Get(before, op.weights[i]).r, sum)];
    if i < j {
      ShareAt(before, next, op, total, sum, i + 1, j);
    } else {
      var t := op.targets[i];
      SharesFrame(before, next, op, Fin(total), sum, i + 1);
      assert t !in op.targets[i + 1..] && t in next;
      assert SharesFrom(before, values, op, Fin(total), sum, i)[t] == next[t];
    }
  }

  lemma PortionAdds(total: real, a: real, b: real, sum: real)
    requires sum > 0.0
    ensures Portion(total, a, sum) + Portion(total, b, sum) == Portion(total, a + b, sum)
    ensures Portion(total, 0.0, sum) == 0.0 && Portion(total, sum, sum) == total
  {
  }

  lemma SumAtNext(values: Values, names: seq<Name>, n: nat)
    requires n < |names| && FiniteAt(values, names[..n]) && names[n] in values && values[names[n]].Fin?
    ensures FiniteAt(values, names[..n + 1])
    ensures SumAt(values, names[..n + 1]) == SumAt(values, names[..n]) + values[names[n]].r
  {
    assert names[..n + 1] == names[..n] + [names[n]];
    assert names[..n + 1][..n] == names[..n];
  }

  lemma {:induction false} SharesSum(before: Values, r: Values, op: DeriveOp, total: real, sum: real, i: nat)
    requires op.ArityAccepted() && op.op == RatioSplit && i <= |op.targets| && Distinct(op.targets)
    requires WeightSum(before, op.weights) == Some(sum) && sum > 0.0
    requires r == SharesFrom(before, before, op, Fin(total), sum, 0)
    ensures FiniteAt(r, op.targets[..i])
    ensures WeightSum(before, op.weights[..i]).Some?
    ensures SumAt(r, op.targets[..i]) == Portion(total, WeightSum(before, op.weights[..i]).value, sum)
  {
    if i == 0 {
      PortionAdds(total, 0.0, 0.0, sum);
    } else {
      var n := i - 1;
      SharesSum(before, r, op, total, sum, n);
      ShareAt(before, before, op, total, sum, 0, n);
      WeightsFinite(before, op.weights, n);
      SumAtNext(r, op.targets, n);
      PortionAdds(total, WeightSum(before, op.weights[..n]).value, Abs(Get(before, op.weights[n]).r), sum);
    }
  }

  predicate IsSplit(op: DeriveOp) {
    op.ArityAccepted() && (op.op == SplitEqual || op.op == RatioSplit) && Distinct(op.targets)
  }

  /** Right after an equal or a weighted split, whatever the weights are (missing, not finite or
      all zero included), the targets add up to the total. */
  lemma SplitConserves(h: Hypotenuse, values: Values, op: DeriveOp, total: real)
    requires IsSplit(op) && Get(values, op.from_[0]) == Fin(total)
    ensures var r := Applied(h, values, op); FiniteAt(r, op.targets) && SumAt(r, op.targets) == total
  {
    var sum := WeightSum(values, op.weights);
    if op.op == SplitEqual || sum == None || sum.value == 0.0 {
      EqualSharesConserve(values, op.targets, total);
    } else {
      SharesSum(values, Applied(h, values, op), op, total, sum.value, |op.targets|);
      assert op.targets[..|op.targets|] == op.targets && op.weights[..|op.weights|] == op.weights;
      PortionAdds(total, 0.0, 0.0, sum.value);
    }
  }

  lemma {:induction false} SumAtSame(x: Values, y: Values, names: seq<Name>)
    requires FiniteAt(x, names) && forall n :: n in names ==> n in y && y[n] == x[n]
    ensures FiniteAt(y, names) && SumAt(y, names) == SumAt(x, names)
    decreases |names|
  {
    if names != [] { SumAtSame(x, y, names[..|names| - 1]); }
  }

  /** In the finished sample, the targets of a split still add up to what the split read, as
      long as no later step writes one of them. */
  lemma SplitConservedInSample(h: Hypotenuse, values: Values, pre: seq<DeriveOp>, op: DeriveOp, post: seq<DeriveOp>,
                               total: real)
    requires OpsAccepted(pre) && IsSplit(op) && OpsAccepted(post)
    requires forall t :: t in op.targets ==> t !in DeriveTargets(post)
    requires Get(Derived(h, values, pre), op.from_[0]) == Fin(total)
    ensures OpsAccepted(pre + [op] + post)
    ensures var r := Derived(h, values, pre + [op] + post); FiniteAt(r, op.targets) && SumAt(r, op.targets) == total
  {
    var a := Derived(h, values, pre);
    var b := Applied(h, a, op);
    DerivedAppend(h, values, pre + [op], post);
    DerivedAppend(h, values, pre, [op]);
    assert [op][1..] == [];
    assert Derived(h, a, [op]) == Derived(h, b, []) == b;
    SplitConserves(h, a, op, total);
    DerivedFrame(h, b, post);
    SumAtSame(b, Derived(h, b, post), op.targets);
  }
}
