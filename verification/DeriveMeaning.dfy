/** What each derive step writes, in plain arithmetic on what it reads. */
module DeriveMeaning {
  import opened Common
  import opened Conservation
  import opened Derive
  import opened RegisterMap

  /** The sample holds this finite number under this name. */
  predicate Holds(values: Values, name: Name, x: real) {
    name in values && values[name] == Fin(x)
  }

  /** The sample holds no number under this name. */
  predicate Lacks(values: Values, name: Name) {
    name !in values || values[name] == NaN
  }

  /** Targets are distinct and the step reads none of them. */
  predicate NoFeedback(op: DeriveOp) {
    Distinct(op.targets) && forall n :: n in op.from_ ==> n !in op.targets
  }

  // ----- Steps that write one number everywhere

  lemma ConstantMeans(h: Hypotenuse, values: Values, op: DeriveOp, x: real, t: Name)
    requires op.op == Constant && op.value == Some(x) && op.from_ == [] && op.weights == [] && t in op.targets
    ensures op.ArityAccepted() && Holds(Applied(h, values, op), t, x)
  {
    SetAllFrame(values, op.targets, Fin(x));
  }

  lemma CopyMeans(h: Hypotenuse, values: Values, op: DeriveOp, from_: Name, t: Name)
    requires op.op == Copy && op.value == None && op.from_ == [from_] && op.weights == [] && t in op.targets
    ensures op.ArityAccepted() && t in Applied(h, values, op)
    ensures Applied(h, values, op)[t] == if from_ in values then values[from_] else NaN
  {
    SetAllFrame(values, op.targets, Get(values, from_));
  }

  lemma SplitEqualMeans(h: Hypotenuse, values: Values, op: DeriveOp, from_: Name, x: real, t: Name)
    requires op.op == SplitEqual && op.value == None && op.from_ == [from_] && op.weights == [] && t in op.targets
    ensures op.ArityAccepted()
    ensures Holds(values, from_, x) ==> Holds(Applied(h, values, op), t, x / |op.targets| as real)
    ensures Lacks(values, from_) ==> Lacks(Applied(h, values, op), t)
  {
    SetAllFrame(values, op.targets, DivideBy(Get(values, from_), |op.targets| as real));
  }

  // ----- phase_from_line

  lemma {:induction false} PhasesAt(values: Values, op: DeriveOp, i: nat, j: nat)
    requires op.ArityAccepted() && op.op == PhaseFromLine && NoFeedback(op) && i <= j < |op.targets|
    ensures op.targets[j] in PhasesFrom(values, op, i)
    ensures PhasesFrom(values, op, i)[op.targets[j]] == DivideBy(Get(values, op.from_[j]), SQRT3)
    decreases |op.targets| - i
  {
    var next := values[op.targets[i] := DivideBy(Get(values, op.from_[i]), SQRT3)];
    if i < j {
      PhasesAt(next, op, i + 1, j);
      assert op.from_[j] in op.from_ && op.targets[i] in op.targets;
    } else {
      PhasesFrame(next, op, i + 1);
      assert op.targets[i] !in op.targets[i + 1..];
    }
  }

  lemma PhaseFromLineMeans(h: Hypotenuse, values: Values, op: DeriveOp, i: nat, line: real)
    requires op.op == PhaseFromLine && op.value == None && op.weights == [] && NoFeedback(op)
    requires i < |op.targets| == |op.from_|
    ensures op.ArityAccepted()
    ensures Holds(values, op.from_[i], line) ==> Holds(Applied(h, values, op), op.targets[i], line / 1.7320508075688772)
    ensures Lacks(values, op.from_[i]) ==> Lacks(Applied(h, values, op), op.targets[i])
  {
    PhasesAt(values, op, 0, i);
  }

  /** The divisor is the square root of three as far as a double can tell. */
  lemma DivisorIsRootThree()
    ensures 2.9999999999999990 < SQRT3 * SQRT3 < 3.0000000000000010
  {
  }

  // ----- hypot and pf_from_p_s

  function PairValue(h: Hypotenuse, op: DeriveOp, a: Num, b: Num): Num {
    if op.op == Hypot then HypotNum(h, a, b) else PowerFactor(a, b)
  }

  lemma {:induction false} PairsAt(h: Hypotenuse, values: Values, op: DeriveOp, i: nat, j: nat)
    requires op.ArityAccepted() && (op.op == Hypot || op.op == PfFromPS) && NoFeedback(op) && i <= j < |op.targets|
    ensures op.targets[j] in PairsFrom(h, values, op, i)
    ensures PairsFrom(h, values, op, i)[op.targets[j]] ==
            PairValue(h, op, Get(values, op.from_[2 * j]), Get(values, op.from_[2 * j + 1]))
    decreases |op.targets| - i
  {
    var a, b := Get(values, op.from_[2 * i]), Get(values, op.from_[2 * i + 1]);
    var next := values[op.targets[i] := PairValue(h, op, a, b)];
    if i < j {
      PairsAt(h, next, op, i + 1, j);
      assert op.from_[2 * j] in op.from_ && op.from_[2 * j + 1] in op.from_ && op.targets[i] in op.targets;
    } else {
      PairsFrame(h, next, op, i + 1);
      assert op.targets[i] !in op.targets[i + 1..];
    }
  }

  predicate IsPairs(op: DeriveOp) {
    op.value == None && op.weights == [] && |op.targets| >= 1 && |op.from_| == 2 * |op.targets| && NoFeedback(op)
  }

  /** Unity for a meter at rest, active over apparent power otherwise. */
  lemma PowerFactorMeans(h: Hypotenuse, values: Values, op: DeriveOp, i: nat, p: real, s: real)
    requires op.op == PfFromPS && IsPairs(op) && i < |op.targets|
    ensures op.ArityAccepted()
    ensures Holds(values, op.from_[2 * i + 1], 0.0) ==> Holds(Applied(h, values, op), op.targets[i], 1.0)
    ensures Holds(values, op.from_[2 * i], p) && Holds(values, op.from_[2 * i + 1], s) && s != 0.0 ==>
              Holds(Applied(h, values, op), op.targets[i], p / s)
    ensures Lacks(values, op.from_[2 * i + 1]) ==> Lacks(Applied(h, values, op), op.targets[i])
    ensures Lacks(values, op.from_[2 * i]) && !Holds(values, op.from_[2 * i + 1], 0.0) ==>
              Lacks(Applied(h, values, op), op.targets[i])
  {
    PairsAt(h, values, op, 0, i);
  }

  lemma HypotMeans(h: Hypotenuse, values: Values, op: DeriveOp, i: nat, p: real, q: real)
    requires op.op == Hypot && IsPairs(op) && i < |op.targets|
    ensures op.ArityAccepted()
    ensures Holds(values, op.from_[2 * i], p) && Holds(values, op.from_[2 * i + 1], q) ==>
              Holds(Applied(h, values, op), op.targets[i], h(p, q))
    ensures Lacks(values, op.from_[2 * i]) && Holds(values, op.from_[2 * i + 1], q) ==>
              Lacks(Applied(h, values, op), op.targets[i])
    ensures Holds(values, op.from_[2 * i], p) && Lacks(values, op.from_[2 * i + 1]) ==>
              Lacks(Applied(h, values, op), op.targets[i])
  {
    PairsAt(h, values, op, 0, i);
  }

  /** A number over an infinity vanishes, an infinity over a number keeps its size and the product of
      the signs, and two infinities give nothing. */
  lemma PowerFactorOfInfinities(p: real, s: real, a: bool, b: bool)
    ensures PowerFactor(Fin(p), Inf(b)) == Fin(0.0)
    ensures s != 0.0 ==> PowerFactor(Inf(a), Fin(s)) == Inf(if s > 0.0 then a else !a)
    ensures PowerFactor(Inf(a), Inf(b)) == NaN
  {
  }

  /** A side that is infinite decides the hypotenuse, even beside a NaN. */
  lemma HypotOfInfinities(h: Hypotenuse, x: Num, a: bool)
    ensures HypotNum(h, Inf(a), x) == HypotNum(h, x, Inf(a)) == Inf(false)
  {
  }

  // ----- ratio_split

  /** The sum of the absolute values, first to last. */
  function SumAbs(ws: seq<real>): real
    decreases |ws|
  {
    if ws == [] then 0.0 else (if ws[0] < 0.0 then -ws[0] else ws[0]) + SumAbs(ws[1..])
  }

  predicate HoldsAll(values: Values, names: seq<Name>, ws: seq<real>) {
    |ws| == |names| && forall i :: 0 <= i < |ws| ==> Holds(values, names[i], ws[i])
  }

  lemma {:induction false} SumAbsAppend(ws: seq<real>, w: real)
    ensures SumAbs(ws + [w]) == SumAbs(ws) + Abs(w)
    decreases |ws|
  {
    if ws == [] {
      assert [w][1..] == [] && ws + [w] == [w];
    } else {
      assert (ws + [w])[1..] == ws[1..] + [w];
      SumAbsAppend(ws[1..], w);
    }
  }

  lemma {:induction false} WeightSumMeans(values: Values, names: seq<Name>, ws: seq<real>)
    requires HoldsAll(values, names, ws)
    ensures WeightSum(values, names) == Some(SumAbs(ws))
    decreases |names|
  {
    if names != [] {
      var n := |names| - 1;
      WeightSumMeans(values, names[..n], ws[..n]);
      SumAbsAppend(ws[..n], ws[n]);
      assert ws == ws[..n] + [ws[n]];
    }
  }

  predicate IsRatio(op: DeriveOp, from_: Name) {
    op.op == RatioSplit && op.value == None && op.from_ == [from_] && 1 <= |op.weights| == |op.targets| &&
      Distinct(op.targets)
  }

  /** A weight's share of the total. */
  function ShareOf(total: real, w: real, sum: real): real
    requires sum > 0.0
  {
    total * (if w < 0.0 then -w else w) / sum
  }

  lemma {:induction false} SumAbsPositive(ws: seq<real>)
    ensures SumAbs(ws) >= 0.0
    decreases |ws|
  {
    if ws != [] { SumAbsPositive(ws[1..]); }
  }

  lemma SharePortion(total: real, w: real, sum: real)
    requires sum > 0.0
    ensures Portion(total, Abs(w), sum) == ShareOf(total, w, sum)
  {
  }

  lemma AppliedShares(h: Hypotenuse, values: Values, op: DeriveOp, from_: Name, total: real, sum: real)
    requires IsRatio(op, from_) && Holds(values, from_, total)
    requires WeightSum(values, op.weights) == Some(sum) && sum > 0.0
    ensures op.ArityAccepted() && Applied(h, values, op) == SharesFrom(values, values, op, Fin(total), sum, 0)
  {
  }

  /** Each target gets its weight's share of the total. */
  lemma RatioSplitMeans(h: Hypotenuse, values: Values, op: DeriveOp, from_: Name, total: real, ws: seq<real>, i: nat)
    requires IsRatio(op, from_) && i < |op.targets| && Holds(values, from_, total) && HoldsAll(values, op.weights, ws)
    requires SumAbs(ws) > 0.0
    ensures op.ArityAccepted() && i < |ws| &&
            Holds(Applied(h, values, op), op.targets[i], ShareOf(total, ws[i], SumAbs(ws)))
  {
    var sum := SumAbs(ws);
    WeightSumMeans(values, op.weights, ws);
    assert Holds(values, op.weights[i], ws[i]);
    AppliedShares(h, values, op, from_, total, sum);
    ShareAt(values, values, op, total, sum, 0, i);
    SharePortion(total, ws[i], sum);
  }

  /** An equal one when all weights are zero. */
  lemma RatioSplitAtRest(h: Hypotenuse, values: Values, op: DeriveOp, from_: Name, total: real, ws: seq<real>, i: nat)
    requires IsRatio(op, from_) && i < |op.targets| && Holds(values, from_, total) && HoldsAll(values, op.weights, ws)
    requires SumAbs(ws) == 0.0
    ensures op.ArityAccepted() && Holds(Applied(h, values, op), op.targets[i], total / |op.targets| as real)
  {
    WeightSumMeans(values, op.weights, ws);
    SetAllFrame(values, op.targets, DivideBy(Fin(total), |op.targets| as real));
  }

  /** A weight that is missing or not a number makes it an equal split as well. */
  lemma RatioSplitWithoutWeight(h: Hypotenuse, values: Values, op: DeriveOp, from_: Name, total: real, i: nat, j: nat)
    requires IsRatio(op, from_) && i < |op.targets| && Holds(values, from_, total)
    requires j < |op.weights| && (op.weights[j] !in values || !values[op.weights[j]].Fin?)
    ensures op.ArityAccepted() && Holds(Applied(h, values, op), op.targets[i], total / |op.targets| as real)
  {
    NoWeightSum(values, op.weights, j);
    SetAllFrame(values, op.targets, DivideBy(Fin(total), |op.targets| as real));
  }

  lemma {:induction false} NoWeightSum(values: Values, weights: seq<Name>, j: nat)
    requires j < |weights| && (weights[j] !in values || !values[weights[j]].Fin?)
    ensures WeightSum(values, weights) == None
    decreases |weights|
  {
    var n := |weights| - 1;
    if j < n { NoWeightSum(values, weights[..n], j); }
  }

  // ----- Steps run in order

  /** A target keeps what its step wrote unless a later step writes it, and the step saw what all the
      earlier ones wrote. */
  lemma InFinishedSample(h: Hypotenuse, values: Values, pre: seq<DeriveOp>, op: DeriveOp, post: seq<DeriveOp>, t: Name)
    requires OpsAccepted(pre) && op.ArityAccepted() && OpsAccepted(post) && t in op.targets && t !in DeriveTargets(post)
    ensures OpsAccepted(pre + [op] + post)
    ensures t in Applied(h, Derived(h, values, pre), op) && t in Derived(h, values, pre + [op] + post)
    ensures Derived(h, values, pre + [op] + post)[t] == Applied(h, Derived(h, values, pre), op)[t]
  {
    var a := Derived(h, values, pre);
    var b := Applied(h, a, op);
    DerivedAppend(h, values, pre + [op], post);
    DerivedAppend(h, values, pre, [op]);
    assert [op][1..] == [];
    assert Derived(h, a, [op]) == Derived(h, b, []) == b;
    AppliedFrame(h, a, op);
    DerivedFrame(h, b, post);
  }
}
