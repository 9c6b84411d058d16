/** The declarative derive steps that fill the canonical points a source cannot report. */
module Derive {
  import opened Common
  import opened RegisterMap

  type Values = map<Name, Num>

  const SQRT3: real := 1.7320508075688772

  /** The length of a right triangle's long side; its numerics are a parameter. */
  type Hypotenuse = (real, real) -> real

  function Get(values: Values, name: Name): Num {
    if name in values then values[name] else NaN
  }

  function SetAll(values: Values, targets: seq<Name>, x: Num): Values
    decreases |targets|
  {
    if targets == [] then values else SetAll(values[targets[0] := x], targets[1..], x)
  }

  function HypotNum(h: Hypotenuse, a: Num, b: Num): Num {
    if a.Inf? || b.Inf? then Inf(false)
    else if a.NaN? || b.NaN? then NaN
    else Fin(h(a.r, b.r))
  }

  function Divide(p: Num, s: Num): Num
    requires s != Fin(0.0)
  {
    match (p, s)
    case (NaN, _) => NaN
    case (_, NaN) => NaN
    case (Inf(_), Inf(_)) => NaN
    case (Fin(_), Inf(_)) => Fin(0.0)
    case (_, Fin(d)) => DivideBy(p, d)
  }

  /** A meter at rest reports s = 0, shown as unity. */
  function PowerFactor(p: Num, s: Num): Num {
    if s == Fin(0.0) then Fin(1.0) else Divide(p, s)
  }

  /** phase_from_line from the i-th target on; a target may feed a later line. */
  function PhasesFrom(values: Values, op: DeriveOp, i: nat): Values
    requires op.ArityAccepted() && op.op == PhaseFromLine && i <= |op.targets|
    decreases |op.targets| - i
  {
    if i == |op.targets| then values
    else PhasesFrom(values[op.targets[i] := DivideBy(Get(values, op.from_[i]), SQRT3)], op, i + 1)
  }

  /** hypot and pf_from_p_s from the i-th target on, one pair of inputs per target. */
  function PairsFrom(h: Hypotenuse, values: Values, op: DeriveOp, i: nat): Values
    requires op.ArityAccepted() && (op.op == Hypot || op.op == PfFromPS) && i <= |op.targets|
    decreases |op.targets| - i
  {
    if i == |op.targets| then values
    else
      var a, b := Get(values, op.from_[2 * i]), Get(values, op.from_[2 * i + 1]);
      PairsFrom(h, values[op.targets[i] := if op.op == Hypot then HypotNum(h, a, b) else PowerFactor(a, b)], op, i + 1)
  }

  /** The sum of absolute weights; None unless every weight is finite. */
  function WeightSum(values: Values, weights: seq<Name>): (r: Option<real>)
    ensures r.Some? ==> r.value >= 0.0
    decreases |weights|
  {
    if weights == [] then Some(0.0)
    else
      var n := |weights| - 1;
      var sum, w := WeightSum(values, weights[..n]), Get(values, weights[n]);
      if sum == None || !w.Fin? then None else Some(sum.value + Abs(w.r))
  }

  function Portion(total: real, part: real, whole: real): real
    requires whole > 0.0
  {
    total * part / whole
  }

  /** One weighted share of the total. */
  function Share(total: Num, w: real, sum: real): Num
    requires sum > 0.0
  {
    match total
    case Fin(t) => Fin(Portion(t, Abs(w), sum))
    case NaN => NaN
    case Inf(neg) => if w == 0.0 then NaN else Inf(neg)
  }

  function SharesFrom(before: Values, values: Values, op: DeriveOp, total: Num, sum: real, i: nat): Values
    requires op.ArityAccepted() && op.op == RatioSplit && i <= |op.targets|
    requires WeightSum(before, op.weights) == Some(sum) && sum > 0.0
    decreases |op.targets| - i
  {
    if i == |op.targets| then values
    else
      var w := Get(before, op.weights[i]);
      SharesFrom(before, values[op.targets[i] := if w.Fin? then Share(total, w.r, sum) else NaN], op, total, sum, i + 1)
  }

  function RatioSplitStep(values: Values, op: DeriveOp): Values
    requires op.ArityAccepted() && op.op == RatioSplit
  {
    var total, sum := Get(values, op.from_[0]), WeightSum(values, op.weights);
    if sum == None || sum.value == 0.0 then SetAll(values, op.targets, DivideBy(total, |op.targets| as real))
    else SharesFrom(values, values, op, total, sum.value, 0)
  }

  function Applied(h: Hypotenuse, values: Values, op: DeriveOp): Values
    requires op.ArityAccepted()
  {
    match op.op
    case Constant => SetAll(values, op.targets, Fin(op.value.value))
    case Copy => SetAll(values, op.targets, Get(values, op.from_[0]))
    case SplitEqual => SetAll(values, op.targets, DivideBy(Get(values, op.from_[0]), |op.targets| as real))
    case PhaseFromLine => PhasesFrom(values, op, 0)
    case Hypot | PfFromPS => PairsFrom(h, values, op, 0)
    case RatioSplit => RatioSplitStep(values, op)
  }

  predicate OpsAccepted(ops: seq<DeriveOp>) {
    forall i :: 0 <= i < |ops| ==> ops[i].ArityAccepted()
  }

  function Derived(h: Hypotenuse, values: Values, ops: seq<DeriveOp>): Values
    requires OpsAccepted(ops)
    decreases |ops|
  {
    if ops == [] then values else Derived(h, Applied(h, values, ops[0]), ops[1..])
  }

  // ----- The interpreter, writing into the caller's dictionary

  class Sample {
    var at: Values

    constructor (values: Values)
      ensures at == values
    {
      at := values;
    }

    method SetTargets(targets: seq<Name>, x: Num)
      modifies this
      ensures at == SetAll(old(at), targets, x)
    {
      for i := 0 to |targets|
        invariant SetAll(at, targets[i..], x) == SetAll(old(at), targets, x)
      {
        assert targets[i..][1..] == targets[i + 1..];
        at := at[targets[i] := x];
      }
    }

    method ApplyPhases(op: DeriveOp)
      requires op.ArityAccepted() && op.op == PhaseFromLine
      modifies this
      ensures at == PhasesFrom(old(at), op, 0)
    {
      for i := 0 to |op.targets|
        invariant PhasesFrom(at, op, i) == PhasesFrom(old(at), op, 0)
      {
        at := at[op.targets[i] := DivideBy(Get(at, op.from_[i]), SQRT3)];
      }
    }

    method ApplyPairs(h: Hypotenuse, op: DeriveOp)
      requires op.ArityAccepted() && (op.op == Hypot || op.op == PfFromPS)
      modifies this
      ensures at == PairsFrom(h, old(at), op, 0)
    {
      for i := 0 to |op.targets|
        invariant PairsFrom(h, at, op, i) == PairsFrom(h, old(at), op, 0)
      {
        var a, b := Get(at, op.from_[2 * i]), Get(at, op.from_[2 * i + 1]);
        at := at[op.targets[i] := if op.op == Hypot then HypotNum(h, a, b) else PowerFactor(a, b)];
      }
    }

    method ApplyRatioSplit(op: DeriveOp)
      requires op.ArityAccepted() && op.op == RatioSplit
      modifies this
      ensures at == RatioSplitStep(old(at), op)
    {
      var total := Get(at, op.from_[0]);
      var before := at;
      var sum := WeightSum(before, op.weights);
      if sum == None || sum.value == 0.0 {
        SetTargets(op.targets, DivideBy(total, |op.targets| as real));
        return;
      }
      for i := 0 to |op.targets|
        invariant SharesFrom(before, at, op, total, sum.value, i) == SharesFrom(before, before, op, total, sum.value, 0)
      {
        var w := Get(before, op.weights[i]);
        at := at[op.targets[i] := if w.Fin? then Share(total, w.r, sum.value) else NaN];
      }
    }

    method ApplyDerive(h: Hypotenuse, ops: seq<DeriveOp>)
      requires OpsAccepted(ops)
      modifies this
      ensures at == Derived(h, old(at), ops)
    {
      for i := 0 to |ops|
        invariant Derived(h, at, ops[i..]) == Derived(h, old(at), ops)
      {
        var op := ops[i];
        assert ops[i..][1..] == ops[i + 1..];
        match op.op
        case Constant => SetTargets(op.targets, Fin(op.value.value));
        case Copy => SetTargets(op.targets, Get(at, op.from_[0]));
        case SplitEqual => SetTargets(op.targets, DivideBy(Get(at, op.from_[0]), |op.targets| as real));
        case PhaseFromLine => ApplyPhases(op);
        case Hypot | PfFromPS => ApplyPairs(h, op);
        case RatioSplit => ApplyRatioSplit(op);
      }
    }

    /** The energy aliases every source provides; a missing total counts as zero. */
    method ComputeDerived()
      modifies this
      ensures at == WithEnergyAliases(old(at))
    {
      at := WithEnergyAliases(at);
    }
  }

  function Plus(a: Num, b: Num): Num {
    if a.NaN? || b.NaN? then NaN
    else if a.Fin? && b.Fin? then Fin(a.r + b.r)
    else if a.Inf? && b.Inf? then (if a == b then a else NaN)
    else if a.Inf? then a
    else b
  }

  function OrZero(values: Values, name: Name): Num {
    if name in values then values[name] else Fin(0.0)
  }

  /** The value of a name once the energy aliases are filled in. */
  function AfterAliases(values: Values, name: Name): Num
    requires name in values || name in DERIVED_KEYS
  {
    var imp, exp := OrZero(values, ImpEnergyTotal), OrZero(values, ExpEnergyTotal);
    if name == ActiveEnergyTotal then Plus(imp, exp)
    else if name == NetImpEnergyTotal then imp
    else if name == NetExpEnergyTotal then exp
    else values[name]
  }

  function WithEnergyAliases(values: Values): Values {
    map k | k in values.Keys + DERIVED_KEYS :: AfterAliases(values, k)
  }

  // ----- Which keys a derive list writes

  lemma {:induction false} SetAllFrame(values: Values, targets: seq<Name>, x: Num)
    ensures var r := SetAll(values, targets, x);
            && r.Keys == values.Keys + (set t | t in targets)
            && forall k :: k in r ==> r[k] == if k in targets then x else values[k]
    decreases |targets|
  {
    if targets != [] {
      SetAllFrame(values[targets[0] := x], targets[1..], x);
      assert targets == [targets[0]] + targets[1..];
    }
  }

  predicate Frame(before: Values, after: Values, targets: seq<Name>) {
    && after.Keys == before.Keys + (set t | t in targets)
    && forall k :: k in before && k !in targets ==> after[k] == before[k]
  }

  lemma FrameCompose(a: Values, b: Values, c: Values, x: seq<Name>, y: seq<Name>)
    requires Frame(a, b, x) && Frame(b, c, y)
    ensures Frame(a, c, x + y)
  {
  }

  lemma {:induction false} PhasesFrame(values: Values, op: DeriveOp, i: nat)
    requires op.ArityAccepted() && op.op == PhaseFromLine && i <= |op.targets|
    ensures Frame(values, PhasesFrom(values, op, i), op.targets[i..])
    decreases |op.targets| - i
  {
    if i < |op.targets| {
      var next := values[op.targets[i] := DivideBy(Get(values, op.from_[i]), SQRT3)];
      PhasesFrame(next, op, i + 1);
      FrameCompose(values, next, PhasesFrom(next, op, i + 1), [op.targets[i]], op.targets[i + 1..]);
      assert op.targets[i..] == [op.targets[i]] + op.targets[i + 1..];
    }
  }

  lemma {:induction false} PairsFrame(h: Hypotenuse, values: Values, op: DeriveOp, i: nat)
    requires op.ArityAccepted() && (op.op == Hypot || op.op == PfFromPS) && i <= |op.targets|
    ensures Frame(values, PairsFrom(h, values, op, i), op.targets[i..])
    decreases |op.targets| - i
  {
    if i < |op.targets| {
      var a, b := Get(values, op.from_[2 * i]), Get(values, op.from_[2 * i + 1]);
      var next := values[op.targets[i] := if op.op == Hypot then HypotNum(h, a, b) else PowerFactor(a, b)];
      PairsFrame(h, next, op, i + 1);
      FrameCompose(values, next, PairsFrom(h, next, op, i + 1), [op.targets[i]], op.targets[i + 1..]);
      assert op.targets[i..] == [op.targets[i]] + op.targets[i + 1..];
    }
  }

  lemma {:induction false} SharesFrame(before: Values, values: Values, op: DeriveOp, total: Num, sum: real, i: nat)
    requires op.ArityAccepted() && op.op == RatioSplit && i <= |op.targets|
    requires WeightSum(before, op.weights) == Some(sum) && sum > 0.0
    ensures Frame(values, SharesFrom(before, values, op, total, sum, i), op.targets[i..])
    decreases |op.targets| - i
  {
    if i < |op.targets| {
      var w := Get(before, op.weights[i]);
      var next := values[op.targets[i] := if w.Fin? then Share(total, w.r, sum) else NaN];
      SharesFrame(before, next, op, total, sum, i + 1);
      FrameCompose(values, next, SharesFrom(before, next, op, total, sum, i + 1), [op.targets[i]], op.targets[i + 1..]);
      assert op.targets[i..] == [op.targets[i]] + op.targets[i + 1..];
    }
  }

  /** One step writes every one of its targets and nothing else. */
  lemma AppliedFrame(h: Hypotenuse, values: Values, op: DeriveOp)
    requires op.ArityAccepted()
    ensures Frame(values, Applied(h, values, op), op.targets)
  {
    assert op.targets[0..] == op.targets;
    match op.op
    case Constant => SetAllFrame(values, op.targets, Fin(op.value.value));
    case Copy => SetAllFrame(values, op.targets, Get(values, op.from_[0]));
    case SplitEqual => SetAllFrame(values, op.targets, DivideBy(Get(values, op.from_[0]), |op.targets| as real));
    case PhaseFromLine => PhasesFrame(values, op, 0);
    case Hypot | PfFromPS => PairsFrame(h, values, op, 0);
    case RatioSplit =>
      var total, sum := Get(values, op.from_[0]), WeightSum(values, op.weights);
      if sum == None || sum.value == 0.0 {
        SetAllFrame(values, op.targets, DivideBy(total, |op.targets| as real));
      } else {
        SharesFrame(values, values, op, total, sum.value, 0);
      }
  }

  /** A derive list adds exactly its targets and leaves every other value alone. */
  lemma {:induction false} DerivedFrame(h: Hypotenuse, values: Values, ops: seq<DeriveOp>)
    requires OpsAccepted(ops)
    ensures var r := Derived(h, values, ops);
            && r.Keys == values.Keys + DeriveTargets(ops)
            && forall k :: k in values && k !in DeriveTargets(ops) ==> r[k] == values[k]
    decreases |ops|
  {
    if ops != [] {
      AppliedFrame(h, values, ops[0]);
      DerivedFrame(h, Applied(h, values, ops[0]), ops[1..]);
      assert ops == [ops[0]] + ops[1..];
      TargetsOfCons(ops[0], ops[1..]);
    }
  }

  lemma TargetsOfCons(op: DeriveOp, rest: seq<DeriveOp>)
    ensures DeriveTargets([op] + rest) == (set t | t in op.targets) + DeriveTargets(rest)
  {
    var all := [op] + rest;
    forall t | t in DeriveTargets(rest) ensures t in DeriveTargets(all) {
      var i :| 0 <= i < |rest| && t in rest[i].targets;
      assert all[i + 1] == rest[i];
    }
    forall t | t in op.targets ensures t in DeriveTargets(all) {
      assert all[0] == op;
    }
  }

  lemma {:induction false} DerivedAppend(h: Hypotenuse, values: Values, x: seq<DeriveOp>, y: seq<DeriveOp>)
    requires OpsAccepted(x) && OpsAccepted(y)
    ensures OpsAccepted(x + y) && Derived(h, values, x + y) == Derived(h, Derived(h, values, x), y)
    decreases |x|
  {
    if x == [] {
      assert x + y == y;
    } else {
      assert (x + y)[1..] == x[1..] + y;
      DerivedAppend(h, Applied(h, values, x[0]), x[1..], y);
    }
  }
}
