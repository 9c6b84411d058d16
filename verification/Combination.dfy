/** Combining several meters into one reading: values that agree across devices are averaged,
    additive ones are summed, and for linear derive rules it does not matter whether the rule
    runs on each device or on the combined reading. */
module Combination {
  import opened Common
  import opened Derive
  import opened RegisterMap

  /** One device's finite values. */
  type Reading = map<Name, real>

  function ModeFrom(key: Name, ops: seq<DeriveOp>): Aggregate
    decreases |ops|
  {
    if ops == [] then Avg
    else if key in ops[0].targets then ops[0].aggregate
    else ModeFrom(key, ops[1..])
  }

  function PointMode(key: Name, points: seq<Named<SourcePoint>>): Option<Aggregate>
    decreases |points|
  {
    if points == [] then None
    else if points[0].name == key then Some(points[0].point.aggregate)
    else PointMode(key, points[1..])
  }

  /** How a key is combined: as its point says, else as the first derive step that writes it says. */
  function Mode(side: SourceSide, key: Name): Aggregate {
    match PointMode(key, side.points)
    case Some(m) => m
    case None => ModeFrom(key, side.derive)
  }

  function Total(xs: seq<real>): real
    decreases |xs|
  {
    if xs == [] then 0.0 else Total(xs[..|xs| - 1]) + xs[|xs| - 1]
  }

  function Readings(devices: seq<Reading>, key: Name): seq<real>
    decreases |devices|
  {
    if devices == [] then []
    else
      var n := |devices| - 1;
      Readings(devices[..n], key) + if key in devices[n] then [devices[n][key]] else []
  }

  function CombinedValue(mode: Aggregate, xs: seq<real>): real
    requires xs != []
  {
    if mode == Sum then Total(xs) else Total(xs) / |xs| as real
  }

  function AllKeys(devices: seq<Reading>): set<Name> {
    set i, k | 0 <= i < |devices| && k in devices[i] :: k
  }

  lemma {:induction false} ReadingsExist(devices: seq<Reading>, key: Name)
    ensures Readings(devices, key) != [] <==> key in AllKeys(devices)
    decreases |devices|
  {
    if devices != [] {
      var n := |devices| - 1;
      ReadingsExist(devices[..n], key);
      if key in AllKeys(devices) {
        var i :| 0 <= i < |devices| && key in devices[i];
        if i < n { assert key in devices[..n][i]; }
      }
      if key in AllKeys(devices[..n]) {
        var i :| 0 <= i < n && key in devices[..n][i];
        assert key in devices[i];
      }
    }
  }

  function Combined(side: SourceSide, devices: seq<Reading>): (r: Reading)
    ensures r.Keys == AllKeys(devices)
  {
    map k | k in AllKeys(devices) :: (ReadingsExist(devices, k); CombinedValue(Mode(side, k), Readings(devices, k)))
  }

  method Combine(side: SourceSide, devices: seq<Reading>) returns (combined: Reading)
    ensures combined == Combined(side, devices)
  {
    var keys: set<Name> := {};
    for i := 0 to |devices|
      invariant keys == AllKeys(devices[..i])
    {
      assert devices[..i + 1] == devices[..i] + [devices[i]];
      assert AllKeys(devices[..i + 1]) == AllKeys(devices[..i]) + devices[i].Keys by {
        assert devices[..i + 1][i] == devices[i];
        assert forall k :: 0 <= k < i ==> devices[..i + 1][k] == devices[..i][k];
      }
      keys := keys + devices[i].Keys;
    }
    assert devices[..|devices|] == devices;
    combined := map[];
    var todo := keys;
    while todo != {}
      invariant todo <= keys && combined.Keys == keys - todo
      invariant forall k :: k in combined ==> combined[k] == Combined(side, devices)[k]
      decreases todo
    {
      var key :| key in todo;
      var readings := Readings(devices, key);
      ReadingsExist(devices, key);
      var total := Total(readings);
      combined := combined[key := if Mode(side, key) == Sum then total else total / |readings| as real];
      todo := todo - {key};
    }
  }

  // ----- Linear rules commute with combining

  predicate Linear(op: DeriveOp) {
    op.ArityAccepted() && (op.op == Copy || op.op == SplitEqual || op.op == PhaseFromLine)
  }

  /** The i-th line of a phase_from_line and those after it are there when they are read; a
      target written earlier in the same step counts. */
  predicate LinesThere(keys: set<Name>, op: DeriveOp, i: nat)
    requires Linear(op) && op.op == PhaseFromLine && i <= |op.targets|
    decreases |op.targets| - i
  {
    i == |op.targets| || (op.from_[i] in keys && LinesThere(keys + {op.targets[i]}, op, i + 1))
  }

  /** Every input of the step is there when the step reads it. */
  predicate Supplied(keys: set<Name>, op: DeriveOp)
    requires Linear(op)
  {
    if op.op == PhaseFromLine then LinesThere(keys, op, 0) else op.from_[0] in keys
  }

  /** Each target is combined the way its own input is. */
  predicate ModesMatch(side: SourceSide, op: DeriveOp)
    requires Linear(op)
  {
    forall i :: 0 <= i < |op.targets| ==>
      Mode(side, op.targets[i]) == Mode(side, if op.op == PhaseFromLine then op.from_[i] else op.from_[0])
  }

  function SetAllReal(v: Reading, targets: seq<Name>, x: real): (r: Reading)
    ensures r.Keys == v.Keys + (set t | t in targets)
    decreases |targets|
  {
    if targets == [] then v
    else
      assert targets == [targets[0]] + targets[1..];
      SetAllReal(v[targets[0] := x], targets[1..], x)
  }

  function PhasesReal(v: Reading, op: DeriveOp, i: nat): Reading
    requires Linear(op) && op.op == PhaseFromLine && i <= |op.targets| && LinesThere(v.Keys, op, i)
    decreases |op.targets| - i
  {
    if i == |op.targets| then v
    else
      var next := v[op.targets[i] := v[op.from_[i]] / SQRT3];
      assert next.Keys == v.Keys + {op.targets[i]};
      PhasesReal(next, op, i + 1)
  }

  function AppliedReal(v: Reading, op: DeriveOp): Reading
    requires Linear(op) && Supplied(v.Keys, op)
  {
    if op.op == PhaseFromLine then PhasesReal(v, op, 0)
    else SetAllReal(v, op.targets, v[op.from_[0]] / Divisor(op))
  }

  /** A copy gives every target the whole input, an equal split one part of it. */
  function Divisor(op: DeriveOp): (d: real)
    requires op.ArityAccepted()
    ensures d != 0.0
  {
    if op.op == Copy then 1.0 else |op.targets| as real
  }

  function Lift(v: Reading): Values {
    map k | k in v :: Fin(v[k])
  }

  lemma {:induction false} LiftSetAll(v: Reading, targets: seq<Name>, x: real)
    ensures SetAll(Lift(v), targets, Fin(x)) == Lift(SetAllReal(v, targets, x))
    decreases |targets|
  {
    if targets != [] {
      assert Lift(v)[targets[0] := Fin(x)] == Lift(v[targets[0] := x]);
      LiftSetAll(v[targets[0] := x], targets[1..], x);
    }
  }

  lemma {:induction false} LiftPhases(v: Reading, op: DeriveOp, i: nat)
    requires Linear(op) && op.op == PhaseFromLine && i <= |op.targets| && LinesThere(v.Keys, op, i)
    ensures PhasesFrom(Lift(v), op, i) == Lift(PhasesReal(v, op, i))
    decreases |op.targets| - i
  {
    if i < |op.targets| {
      var next := v[op.targets[i] := v[op.from_[i]] / SQRT3];
      assert Lift(v)[op.targets[i] := Fin(v[op.from_[i]] / SQRT3)] == Lift(next);
      assert next.Keys == v.Keys + {op.targets[i]};
      LiftPhases(next, op, i + 1);
    }
  }

  /** On finite inputs the interpreter's linear steps are these functions. */
  lemma LiftApplied(h: Hypotenuse, v: Reading, op: DeriveOp)
    requires Linear(op) && Supplied(v.Keys, op)
    ensures Applied(h, Lift(v), op) == Lift(AppliedReal(v, op))
  {
    if op.op == PhaseFromLine {
      LiftPhases(v, op, 0);
    } else {
      LiftSetAll(v, op.targets, v[op.from_[0]] / Divisor(op));
    }
  }

  /** All devices report the same keys, as one map decodes them all. */
  predicate SameKeys(devices: seq<Reading>, keys: set<Name>) {
    devices != [] && forall i :: 0 <= i < |devices| ==> devices[i].Keys == keys
  }

  function Column(devices: seq<Reading>, key: Name): (xs: seq<real>)
    requires forall i :: 0 <= i < |devices| ==> key in devices[i]
    ensures |xs| == |devices|
  {
    seq(|devices|, i requires 0 <= i < |devices| => devices[i][key])
  }

  lemma {:induction false} ReadingsAreColumn(devices: seq<Reading>, key: Name)
    requires forall i :: 0 <= i < |devices| ==> key in devices[i]
    ensures Readings(devices, key) == Column(devices, key)
    decreases |devices|
  {
    if devices != [] {
      ReadingsAreColumn(devices[..|devices| - 1], key);
    }
  }

  lemma AllKeysOf(devices: seq<Reading>, keys: set<Name>)
    requires SameKeys(devices, keys)
    ensures AllKeys(devices) == keys
  {
    assert devices[0].Keys == keys;
    forall k ensures k in AllKeys(devices) <==> k in keys {
      if k in keys { assert k in devices[0]; }
    }
  }

  lemma CombinedAtKey(side: SourceSide, devices: seq<Reading>, k: Name)
    requires devices != [] && forall i :: 0 <= i < |devices| ==> k in devices[i]
    ensures k in Combined(side, devices)
    ensures Combined(side, devices)[k] == CombinedValue(Mode(side, k), Column(devices, k))
  {
    ReadingsAreColumn(devices, k);
    ReadingsExist(devices, k);
  }

  lemma CombinedAt(side: SourceSide, devices: seq<Reading>, keys: set<Name>)
    requires SameKeys(devices, keys)
    ensures Combined(side, devices).Keys == keys
    ensures forall k :: k in keys ==> Combined(side, devices)[k] == CombinedValue(Mode(side, k), Column(devices, k))
  {
    AllKeysOf(devices, keys);
    forall k | k in keys ensures Combined(side, devices)[k] == CombinedValue(Mode(side, k), Column(devices, k)) {
      CombinedAtKey(side, devices, k);
    }
  }

  function SetEach(devices: seq<Reading>, target: Name, xs: seq<real>): (r: seq<Reading>)
    requires |xs| == |devices|
    ensures |r| == |devices|
  {
    seq(|devices|, i requires 0 <= i < |devices| => devices[i][target := xs[i]])
  }

  lemma ColumnAfterSet(devices: seq<Reading>, keys: set<Name>, target: Name, xs: seq<real>, k: Name)
    requires SameKeys(devices, keys) && |xs| == |devices| && k in keys + {target}
    ensures SameKeys(SetEach(devices, target, xs), keys + {target})
    ensures Column(SetEach(devices, target, xs), k) == if k == target then xs else Column(devices, k)
  {
  }

  /** Writing a key on every device writes the combination of what was written. */
  lemma CombinedSetEach(side: SourceSide, devices: seq<Reading>, keys: set<Name>, target: Name, xs: seq<real>)
    requires SameKeys(devices, keys) && |xs| == |devices|
    ensures SameKeys(SetEach(devices, target, xs), keys + {target})
    ensures Combined(side, SetEach(devices, target, xs)) ==
            Combined(side, devices)[target := CombinedValue(Mode(side, target), xs)]
  {
    ColumnAfterSet(devices, keys, target, xs, target);
    CombinedAt(side, devices, keys);
    CombinedAt(side, SetEach(devices, target, xs), keys + {target});
    forall k | k in keys + {target}
      ensures Combined(side, SetEach(devices, target, xs))[k] ==
              if k == target then CombinedValue(Mode(side, target), xs) else Combined(side, devices)[k]
    {
      CombinedSetEachAt(side, devices, keys, target, xs, k);
    }
    SameMap(Combined(side, SetEach(devices, target, xs)), Combined(side, devices), target,
            CombinedValue(Mode(side, target), xs));
  }

  lemma SameMap(after: Reading, before: Reading, target: Name, x: real)
    requires after.Keys == before.Keys + {target}
    requires forall k :: k in after ==> after[k] == if k == target then x else before[k]
    ensures after == before[target := x]
  {
  }

  lemma CombinedSetEachAt(side: SourceSide, devices: seq<Reading>, keys: set<Name>, target: Name, xs: seq<real>,
                          k: Name)
    requires SameKeys(devices, keys) && |xs| == |devices| && k in keys + {target}
    ensures k in Combined(side, SetEach(devices, target, xs)) && (k != target ==> k in Combined(side, devices))
    ensures Combined(side, SetEach(devices, target, xs))[k] ==
            if k == target then CombinedValue(Mode(side, target), xs) else Combined(side, devices)[k]
  {
    ColumnAfterSet(devices, keys, target, xs, k);
    CombinedAt(side, SetEach(devices, target, xs), keys + {target});
    CombinedAt(side, devices, keys);
  }

  function Divided(xs: seq<real>, d: real): (r: seq<real>)
    requires d != 0.0
    ensures |r| == |xs|
  {
    seq(|xs|, i requires 0 <= i < |xs| => xs[i] / d)
  }

  lemma {:induction false} TotalDivided(xs: seq<real>, d: real)
    requires d != 0.0
    ensures Total(Divided(xs, d)) == Total(xs) / d
    decreases |xs|
  {
    if xs != [] {
      var n := |xs| - 1;
      TotalDivided(xs[..n], d);
      assert Divided(xs, d)[..n] == Divided(xs[..n], d);
    }
  }

  lemma CombinedDivided(mode: Aggregate, xs: seq<real>, d: real)
    requires xs != [] && d != 0.0
    ensures CombinedValue(mode, Divided(xs, d)) == CombinedValue(mode, xs) / d
  {
    TotalDivided(xs, d);
    var n := |xs| as real;
    assert Total(xs) / d / n == Total(xs) / n / d;
  }

  function SetAllEach(devices: seq<Reading>, targets: seq<Name>, xs: seq<real>): (r: seq<Reading>)
    requires |xs| == |devices|
    ensures |r| == |devices|
  {
    seq(|devices|, i requires 0 <= i < |devices| => SetAllReal(devices[i], targets, xs[i]))
  }

  lemma {:induction false} CombinedSetAllEach(
      side: SourceSide, devices: seq<Reading>, keys: set<Name>, targets: seq<Name>, xs: seq<real>, y: real)
    requires SameKeys(devices, keys) && |xs| == |devices|
    requires forall t :: t in targets ==> CombinedValue(Mode(side, t), xs) == y
    ensures Combined(side, SetAllEach(devices, targets, xs)) == SetAllReal(Combined(side, devices), targets, y)
    decreases |targets|
  {
    if targets == [] {
      assert SetAllEach(devices, targets, xs) == devices;
    } else {
      var next := SetEach(devices, targets[0], xs);
      CombinedSetEach(side, devices, keys, targets[0], xs);
      CombinedSetAllEach(side, next, keys + {targets[0]}, targets[1..], xs, y);
      assert SetAllEach(next, targets[1..], xs) == SetAllEach(devices, targets, xs);
    }
  }

  function PhasesEach(devices: seq<Reading>, keys: set<Name>, op: DeriveOp, i: nat): (r: seq<Reading>)
    requires Linear(op) && op.op == PhaseFromLine && i <= |op.targets| && LinesThere(keys, op, i)
    requires forall j :: 0 <= j < |devices| ==> devices[j].Keys == keys
    ensures |r| == |devices|
  {
    seq(|devices|, j requires 0 <= j < |devices| => PhasesReal(devices[j], op, i))
  }

  /** The first remaining target of a phase_from_line, written on every device. */
  function FirstPhase(devices: seq<Reading>, keys: set<Name>, op: DeriveOp, i: nat): seq<Reading>
    requires Linear(op) && op.op == PhaseFromLine && i < |op.targets| && op.from_[i] in keys
    requires forall j :: 0 <= j < |devices| ==> devices[j].Keys == keys
  {
    SetEach(devices, op.targets[i], Divided(Column(devices, op.from_[i]), SQRT3))
  }

  lemma PhasesEachNext(devices: seq<Reading>, keys: set<Name>, op: DeriveOp, i: nat)
    requires Linear(op) && op.op == PhaseFromLine && i < |op.targets| && LinesThere(keys, op, i)
    requires SameKeys(devices, keys)
    ensures SameKeys(FirstPhase(devices, keys, op, i), keys + {op.targets[i]})
    ensures PhasesEach(FirstPhase(devices, keys, op, i), keys + {op.targets[i]}, op, i + 1) ==
            PhasesEach(devices, keys, op, i)
  {
    var next := FirstPhase(devices, keys, op, i);
    forall j | 0 <= j < |devices|
      ensures next[j].Keys == keys + {op.targets[i]} && PhasesReal(next[j], op, i + 1) == PhasesReal(devices[j], op, i)
    {
      assert next[j] == devices[j][op.targets[i] := devices[j][op.from_[i]] / SQRT3];
    }
  }

  /** Writing that target on every device writes the same line of the combined reading. */
  lemma CombinedFirstPhase(side: SourceSide, devices: seq<Reading>, keys: set<Name>, op: DeriveOp, i: nat)
    requires Linear(op) && op.op == PhaseFromLine && i < |op.targets| && op.from_[i] in keys
    requires SameKeys(devices, keys) && ModesMatch(side, op)
    ensures Combined(side, devices).Keys == keys
    ensures Combined(side, FirstPhase(devices, keys, op, i)) ==
            Combined(side, devices)[op.targets[i] := Combined(side, devices)[op.from_[i]] / SQRT3]
  {
    var column := Column(devices, op.from_[i]);
    CombinedAt(side, devices, keys);
    CombinedSetEach(side, devices, keys, op.targets[i], Divided(column, SQRT3));
    CombinedDivided(Mode(side, op.from_[i]), column, SQRT3);
  }

  lemma PhasesRealNext(v: Reading, w: Reading, op: DeriveOp, i: nat)
    requires Linear(op) && op.op == PhaseFromLine && i < |op.targets| && LinesThere(v.Keys, op, i)
    requires w == v[op.targets[i] := v[op.from_[i]] / SQRT3]
    ensures LinesThere(w.Keys, op, i + 1) && PhasesReal(v, op, i) == PhasesReal(w, op, i + 1)
  {
    assert w.Keys == v.Keys + {op.targets[i]};
  }

  predicate PhasesReady(side: SourceSide, devices: seq<Reading>, keys: set<Name>, op: DeriveOp, i: nat) {
    && Linear(op) && op.op == PhaseFromLine && i <= |op.targets| && LinesThere(keys, op, i)
    && SameKeys(devices, keys) && ModesMatch(side, op)
  }

  lemma NextReady(side: SourceSide, devices: seq<Reading>, keys: set<Name>, op: DeriveOp, i: nat)
    requires PhasesReady(side, devices, keys, op, i) && i < |op.targets|
    ensures PhasesReady(side, FirstPhase(devices, keys, op, i), keys + {op.targets[i]}, op, i + 1)
  {
    PhasesEachNext(devices, keys, op, i);
  }

  /** The combined reading a phase_from_line leaves when it runs from the i-th target on every device. */
  function CombinedPhases(side: SourceSide, devices: seq<Reading>, keys: set<Name>, op: DeriveOp, i: nat): Reading
    requires PhasesReady(side, devices, keys, op, i)
  {
    Combined(side, PhasesEach(devices, keys, op, i))
  }

  /** The same, run on the combined reading. */
  function PhasesCombined(side: SourceSide, devices: seq<Reading>, keys: set<Name>, op: DeriveOp, i: nat): Reading
    requires PhasesReady(side, devices, keys, op, i)
  {
    CombinedAt(side, devices, keys);
    PhasesReal(Combined(side, devices), op, i)
  }

  lemma CombinedPhasesNext(side: SourceSide, devices: seq<Reading>, keys: set<Name>, op: DeriveOp, i: nat)
    requires PhasesReady(side, devices, keys, op, i) && i < |op.targets|
    requires PhasesReady(side, FirstPhase(devices, keys, op, i), keys + {op.targets[i]}, op, i + 1)
    ensures CombinedPhases(side, devices, keys, op, i) ==
            CombinedPhases(side, FirstPhase(devices, keys, op, i), keys + {op.targets[i]}, op, i + 1)
  {
    PhasesEachNext(devices, keys, op, i);
  }

  lemma PhasesCombinedNext(side: SourceSide, devices: seq<Reading>, keys: set<Name>, op: DeriveOp, i: nat)
    requires PhasesReady(side, devices, keys, op, i) && i < |op.targets|
    requires PhasesReady(side, FirstPhase(devices, keys, op, i), keys + {op.targets[i]}, op, i + 1)
    ensures PhasesCombined(side, devices, keys, op, i) ==
            PhasesCombined(side, FirstPhase(devices, keys, op, i), keys + {op.targets[i]}, op, i + 1)
  {
    CombinedFirstPhase(side, devices, keys, op, i);
    PhasesRealNext(Combined(side, devices), Combined(side, FirstPhase(devices, keys, op, i)), op, i);
  }

  lemma PhasesDone(side: SourceSide, devices: seq<Reading>, keys: set<Name>, op: DeriveOp)
    requires PhasesReady(side, devices, keys, op, |op.targets|)
    ensures CombinedPhases(side, devices, keys, op, |op.targets|) ==
            PhasesCombined(side, devices, keys, op, |op.targets|)
  {
    assert PhasesEach(devices, keys, op, |op.targets|) == devices;
  }

  lemma {:induction false} CombinedPhasesEach(side: SourceSide, devices: seq<Reading>, keys: set<Name>, op: DeriveOp,
                                              i: nat)
    requires PhasesReady(side, devices, keys, op, i)
    ensures CombinedPhases(side, devices, keys, op, i) == PhasesCombined(side, devices, keys, op, i)
    decreases |op.targets| - i
  {
    if i == |op.targets| {
      PhasesDone(side, devices, keys, op);
    } else {
      NextReady(side, devices, keys, op, i);
      CombinedPhasesNext(side, devices, keys, op, i);
      PhasesCombinedNext(side, devices, keys, op, i);
      CombinedPhasesEach(side, FirstPhase(devices, keys, op, i), keys + {op.targets[i]}, op, i + 1);
    }
  }

  function AppliedEach(devices: seq<Reading>, op: DeriveOp): (r: seq<Reading>)
    requires Linear(op) && forall j :: 0 <= j < |devices| ==> Supplied(devices[j].Keys, op)
    ensures |r| == |devices|
  {
    seq(|devices|, j requires 0 <= j < |devices| => AppliedReal(devices[j], op))
  }

  lemma SpreadEach(devices: seq<Reading>, keys: set<Name>, op: DeriveOp)
    requires Linear(op) && op.op != PhaseFromLine && Supplied(keys, op) && SameKeys(devices, keys)
    ensures SetAllEach(devices, op.targets, Divided(Column(devices, op.from_[0]), Divisor(op))) ==
            AppliedEach(devices, op)
  {
  }

  lemma SpreadTargets(side: SourceSide, op: DeriveOp, xs: seq<real>, t: Name)
    requires Linear(op) && op.op != PhaseFromLine && ModesMatch(side, op) && t in op.targets && xs != []
    ensures CombinedValue(Mode(side, t), Divided(xs, Divisor(op))) ==
            CombinedValue(Mode(side, op.from_[0]), xs) / Divisor(op)
  {
    var i :| 0 <= i < |op.targets| && op.targets[i] == t;
    CombinedDivided(Mode(side, op.from_[0]), xs, Divisor(op));
  }

  lemma SpreadCommutes(side: SourceSide, devices: seq<Reading>, keys: set<Name>, op: DeriveOp)
    requires Linear(op) && op.op != PhaseFromLine && Supplied(keys, op) && SameKeys(devices, keys) &&
             ModesMatch(side, op)
    ensures Combined(side, devices).Keys == keys
    ensures Combined(side, AppliedEach(devices, op)) == AppliedReal(Combined(side, devices), op)
  {
    var column := Column(devices, op.from_[0]);
    CombinedAt(side, devices, keys);
    forall t | t in op.targets
      ensures CombinedValue(Mode(side, t), Divided(column, Divisor(op))) ==
              Combined(side, devices)[op.from_[0]] / Divisor(op)
    {
      SpreadTargets(side, op, column, t);
    }
    CombinedSetAllEach(side, devices, keys, op.targets, Divided(column, Divisor(op)),
                       Combined(side, devices)[op.from_[0]] / Divisor(op));
    SpreadEach(devices, keys, op);
  }

  lemma CombinedPhasesApplied(side: SourceSide, devices: seq<Reading>, keys: set<Name>, op: DeriveOp)
    requires PhasesReady(side, devices, keys, op, 0)
    ensures CombinedPhases(side, devices, keys, op, 0) == Combined(side, AppliedEach(devices, op))
  {
    assert AppliedEach(devices, op) == PhasesEach(devices, keys, op, 0);
  }

  lemma AppliedPhasesCombined(side: SourceSide, devices: seq<Reading>, keys: set<Name>, op: DeriveOp)
    requires PhasesReady(side, devices, keys, op, 0) && Combined(side, devices).Keys == keys
    ensures PhasesCombined(side, devices, keys, op, 0) == AppliedReal(Combined(side, devices), op)
  {
  }

  lemma PhaseFromLineCommutes(side: SourceSide, devices: seq<Reading>, keys: set<Name>, op: DeriveOp)
    requires PhasesReady(side, devices, keys, op, 0) && Combined(side, devices).Keys == keys
    ensures Combined(side, AppliedEach(devices, op)) == AppliedReal(Combined(side, devices), op)
  {
    CombinedPhasesApplied(side, devices, keys, op);
    CombinedPhasesEach(side, devices, keys, op, 0);
    AppliedPhasesCombined(side, devices, keys, op);
  }

  /** One linear step: deriving on each device and then combining is combining and then deriving. */
  lemma StepCommutes(side: SourceSide, devices: seq<Reading>, keys: set<Name>, op: DeriveOp)
    requires Linear(op) && Supplied(keys, op) && SameKeys(devices, keys) && ModesMatch(side, op)
    ensures Combined(side, devices).Keys == keys
    ensures Combined(side, AppliedEach(devices, op)) == AppliedReal(Combined(side, devices), op)
  {
    if op.op == PhaseFromLine {
      CombinedAt(side, devices, keys);
      PhaseFromLineCommutes(side, devices, keys, op);
    } else {
      SpreadCommutes(side, devices, keys, op);
    }
  }

  /** A list of linear steps, each supplied by the keys before it. */
  predicate AllLinear(side: SourceSide, keys: set<Name>, ops: seq<DeriveOp>)
    decreases |ops|
  {
    ops == [] ||
    (Linear(ops[0]) && Supplied(keys, ops[0]) && ModesMatch(side, ops[0])
     && AllLinear(side, keys + (set t | t in ops[0].targets), ops[1..]))
  }

  lemma {:induction false} PhasesKeys(v: Reading, op: DeriveOp, i: nat)
    requires Linear(op) && op.op == PhaseFromLine && i <= |op.targets| && LinesThere(v.Keys, op, i)
    ensures PhasesReal(v, op, i).Keys == v.Keys + (set t | t in op.targets[i..])
    decreases |op.targets| - i
  {
    if i < |op.targets| {
      var next := v[op.targets[i] := v[op.from_[i]] / SQRT3];
      assert next.Keys == v.Keys + {op.targets[i]};
      PhasesKeys(next, op, i + 1);
      assert op.targets[i..] == [op.targets[i]] + op.targets[i + 1..];
    }
  }

  lemma AppliedKeys(v: Reading, op: DeriveOp)
    requires Linear(op) && Supplied(v.Keys, op)
    ensures AppliedReal(v, op).Keys == v.Keys + (set t | t in op.targets)
  {
    if op.op == PhaseFromLine {
      PhasesKeys(v, op, 0);
      assert op.targets[0..] == op.targets;
    }
  }

  function DerivedReal(side: SourceSide, v: Reading, ops: seq<DeriveOp>): Reading
    requires AllLinear(side, v.Keys, ops)
    decreases |ops|
  {
    if ops == [] then v
    else
      AppliedKeys(v, ops[0]);
      DerivedReal(side, AppliedReal(v, ops[0]), ops[1..])
  }

  /** The interpreter on a finite sample is this function, so nothing turns non-finite. */
  lemma {:induction false} LiftDerived(side: SourceSide, h: Hypotenuse, v: Reading, ops: seq<DeriveOp>)
    requires AllLinear(side, v.Keys, ops)
    ensures OpsAccepted(ops) && Derived(h, Lift(v), ops) == Lift(DerivedReal(side, v, ops))
    decreases |ops|
  {
    if ops != [] {
      AppliedKeys(v, ops[0]);
      LiftApplied(h, v, ops[0]);
      LiftDerived(side, h, AppliedReal(v, ops[0]), ops[1..]);
    }
  }

  function DerivedEach(side: SourceSide, devices: seq<Reading>, ops: seq<DeriveOp>): (r: seq<Reading>)
    requires forall j :: 0 <= j < |devices| ==> AllLinear(side, devices[j].Keys, ops)
    ensures |r| == |devices|
  {
    seq(|devices|, j requires 0 <= j < |devices| => DerivedReal(side, devices[j], ops))
  }

  lemma DerivedEachNext(side: SourceSide, devices: seq<Reading>, keys: set<Name>, ops: seq<DeriveOp>)
    requires ops != [] && SameKeys(devices, keys) && AllLinear(side, keys, ops)
    ensures SameKeys(AppliedEach(devices, ops[0]), keys + (set t | t in ops[0].targets))
    ensures DerivedEach(side, AppliedEach(devices, ops[0]), ops[1..]) == DerivedEach(side, devices, ops)
  {
    forall j | 0 <= j < |devices|
      ensures AppliedEach(devices, ops[0])[j].Keys == keys + (set t | t in ops[0].targets)
    {
      AppliedKeys(devices[j], ops[0]);
    }
  }

  /** For a list of linear rules, combining the derived readings of the devices is deriving from
      their combined reading. */
  lemma {:induction false} DeriveCommutesWithCombine(side: SourceSide, devices: seq<Reading>, keys: set<Name>,
                                                     ops: seq<DeriveOp>)
    requires SameKeys(devices, keys) && AllLinear(side, keys, ops)
    ensures Combined(side, devices).Keys == keys
    ensures Combined(side, DerivedEach(side, devices, ops)) == DerivedReal(side, Combined(side, devices), ops)
    decreases |ops|
  {
    CombinedAt(side, devices, keys);
    if ops == [] {
      assert DerivedEach(side, devices, ops) == devices;
    } else {
      DerivedEachNext(side, devices, keys, ops);
      StepCommutes(side, devices, keys, ops[0]);
      AppliedKeys(Combined(side, devices), ops[0]);
      DeriveCommutesWithCombine(side, AppliedEach(devices, ops[0]), keys + (set t | t in ops[0].targets), ops[1..]);
    }
  }

  // ----- Where the two orders differ

  lemma {:induction false} SetAllRealAt(v: Reading, targets: seq<Name>, x: real, k: Name)
    requires k in v || k in targets
    ensures k in SetAllReal(v, targets, x)
    ensures SetAllReal(v, targets, x)[k] == if k in targets then x else v[k]
    decreases |targets|
  {
    if targets != [] {
      assert targets == [targets[0]] + targets[1..];
      SetAllRealAt(v[targets[0] := x], targets[1..], x, k);
    }
  }

  lemma SpreadColumn(devices: seq<Reading>, keys: set<Name>, targets: seq<Name>, xs: seq<real>, k: Name)
    requires SameKeys(devices, keys) && |xs| == |devices| && (k in keys || k in targets)
    ensures forall j :: 0 <= j < |devices| ==> k in SetAllEach(devices, targets, xs)[j]
    ensures Column(SetAllEach(devices, targets, xs), k) == if k in targets then xs else Column(devices, k)
  {
    var all := SetAllEach(devices, targets, xs);
    forall j | 0 <= j < |devices|
      ensures k in all[j] && all[j][k] == if k in targets then xs[j] else devices[j][k]
    {
      SetAllRealAt(devices[j], targets, xs[j], k);
    }
  }

  predicate IsSpread(keys: set<Name>, devices: seq<Reading>, op: DeriveOp) {
    Linear(op) && op.op != PhaseFromLine && Supplied(keys, op) && SameKeys(devices, keys)
  }

  /** Deriving on each device and then combining, at one key. */
  lemma SpreadThenCombine(side: SourceSide, devices: seq<Reading>, keys: set<Name>, op: DeriveOp, k: Name)
    requires IsSpread(keys, devices, op) && (k in keys || k in op.targets)
    ensures k in Combined(side, AppliedEach(devices, op))
    ensures Combined(side, AppliedEach(devices, op))[k] ==
            if k in op.targets then CombinedValue(Mode(side, k), Column(devices, op.from_[0])) / Divisor(op)
            else CombinedValue(Mode(side, k), Column(devices, k))
  {
    var column := Column(devices, op.from_[0]);
    SpreadEach(devices, keys, op);
    SpreadColumn(devices, keys, op.targets, Divided(column, Divisor(op)), k);
    CombinedAtKey(side, SetAllEach(devices, op.targets, Divided(column, Divisor(op))), k);
    CombinedDivided(Mode(side, k), column, Divisor(op));
  }

  /** Combining and then deriving, at one key. */
  lemma CombineThenSpread(side: SourceSide, devices: seq<Reading>, keys: set<Name>, op: DeriveOp, k: Name)
    requires IsSpread(keys, devices, op) && (k in keys || k in op.targets)
    ensures Combined(side, devices).Keys == keys
    ensures k in AppliedReal(Combined(side, devices), op)
    ensures AppliedReal(Combined(side, devices), op)[k] ==
            if k in op.targets then CombinedValue(Mode(side, op.from_[0]), Column(devices, op.from_[0])) / Divisor(op)
            else CombinedValue(Mode(side, k), Column(devices, k))
  {
    CombinedAt(side, devices, keys);
    SetAllRealAt(Combined(side, devices), op.targets, Combined(side, devices)[op.from_[0]] / Divisor(op), k);
  }

  lemma SpreadKeys(side: SourceSide, devices: seq<Reading>, keys: set<Name>, op: DeriveOp)
    requires IsSpread(keys, devices, op)
    ensures Combined(side, AppliedEach(devices, op)).Keys == keys + (set t | t in op.targets)
  {
    forall j | 0 <= j < |devices| ensures AppliedEach(devices, op)[j].Keys == keys + (set t | t in op.targets) {
      AppliedKeys(devices[j], op);
    }
    CombinedAt(side, AppliedEach(devices, op), keys + (set t | t in op.targets));
  }

  /** Averaging and summing one list of readings agree only when there is nothing to tell apart. */
  lemma CombinedAlikeIff(xs: seq<real>, targetMode: Aggregate, sourceMode: Aggregate)
    requires xs != []
    ensures CombinedValue(targetMode, xs) == CombinedValue(sourceMode, xs) <==>
            targetMode == sourceMode || |xs| == 1 || Total(xs) == 0.0
  {
    if Total(xs) != 0.0 && |xs| > 1 { QuotientDiffers(Total(xs), |xs| as real); }
  }

  predicate AlikeAt(side: SourceSide, devices: seq<Reading>, keys: set<Name>, op: DeriveOp, t: Name)
    requires IsSpread(keys, devices, op)
  {
    Mode(side, t) == Mode(side, op.from_[0]) || |devices| == 1 || Total(Column(devices, op.from_[0])) == 0.0
  }

  lemma SameQuotient(a: real, b: real, d: real)
    requires d != 0.0
    ensures a / d == b / d <==> a == b
  {
    if a / d == b / d {
      assert a == a / d * d && b == b / d * d;
    }
  }

  lemma AlikeIffSameValue(side: SourceSide, devices: seq<Reading>, keys: set<Name>, op: DeriveOp, t: Name)
    requires IsSpread(keys, devices, op) && t in op.targets && Combined(side, devices).Keys == keys
    ensures t in Combined(side, AppliedEach(devices, op)) && t in AppliedReal(Combined(side, devices), op)
    ensures Combined(side, AppliedEach(devices, op))[t] == AppliedReal(Combined(side, devices), op)[t] <==>
            AlikeAt(side, devices, keys, op, t)
  {
    var column := Column(devices, op.from_[0]);
    SpreadThenCombine(side, devices, keys, op, t);
    CombineThenSpread(side, devices, keys, op, t);
    CombinedAlikeIff(column, Mode(side, t), Mode(side, op.from_[0]));
    SameQuotient(CombinedValue(Mode(side, t), column), CombinedValue(Mode(side, op.from_[0]), column), Divisor(op));
  }

  lemma SameReading(x: Reading, y: Reading)
    requires x.Keys == y.Keys && forall k :: k in x ==> x[k] == y[k]
    ensures x == y
  {
  }

  /** A copy or an equal split gives the same reading in both orders exactly when every target
      is combined the way its source is, or there is one device, or the readings cancel. */
  lemma MismatchedModes(side: SourceSide, devices: seq<Reading>, keys: set<Name>, op: DeriveOp)
    requires IsSpread(keys, devices, op)
    ensures Combined(side, devices).Keys == keys
    ensures Combined(side, AppliedEach(devices, op)) == AppliedReal(Combined(side, devices), op) <==>
            forall t :: t in op.targets ==> AlikeAt(side, devices, keys, op, t)
  {
    CombinedAt(side, devices, keys);
    SpreadKeys(side, devices, keys, op);
    AppliedKeys(Combined(side, devices), op);
    var x, y := Combined(side, AppliedEach(devices, op)), AppliedReal(Combined(side, devices), op);
    forall t | t in op.targets ensures t in x && t in y && (x[t] == y[t] <==> AlikeAt(side, devices, keys, op, t)) {
      AlikeIffSameValue(side, devices, keys, op, t);
    }
    if forall t :: t in op.targets ==> AlikeAt(side, devices, keys, op, t) {
      forall k | k in x ensures x[k] == y[k] {
        if k !in op.targets {
          SpreadThenCombine(side, devices, keys, op, k);
          CombineThenSpread(side, devices, keys, op, k);
        }
      }
      SameReading(x, y);
    }
  }

  lemma QuotientDiffers(t: real, n: real)
    requires t != 0.0 && n > 1.0
    ensures t / n != t
  {
    var q := t / n;
    assert q * n == t;
    assert q * (n - 1.0) == t - q;
    NonZeroProduct(q, n - 1.0);
  }

  lemma NonZeroProduct(a: real, b: real)
    requires a != 0.0 && b != 0.0
    ensures a * b != 0.0
  {
  }

  lemma CrossTerms(a: real, b: real, s1: real, s2: real)
    requires s1 > 0.0 && s2 > 0.0
    ensures (a + b) / 2.0 == (a * s1 + b * s2) / (s1 + s2) <==> (a - b) * (s2 - s1) == 0.0
  {
    var mean, whole := (a + b) / 2.0, (a * s1 + b * s2) / (s1 + s2);
    assert whole * (s1 + s2) == a * s1 + b * s2;
    assert 2.0 * (mean * (s1 + s2) - (a * s1 + b * s2)) == (a - b) * (s2 - s1);
    if mean != whole {
      NonZeroProduct(mean - whole, s1 + s2);
      assert (mean - whole) * (s1 + s2) == mean * (s1 + s2) - whole * (s1 + s2);
    }
  }

  /** The average of two power factors, and the power factor of the summed powers. */
  function MeanFactor(p1: real, s1: real, p2: real, s2: real): real {
    CombinedValue(Avg, [PowerFactor(Fin(p1), Fin(s1)).r, PowerFactor(Fin(p2), Fin(s2)).r])
  }

  function FactorOfSums(p1: real, s1: real, p2: real, s2: real): real {
    PowerFactor(Fin(CombinedValue(Aggregate.Sum, [p1, p2])), Fin(CombinedValue(Aggregate.Sum, [s1, s2]))).r
  }

  lemma TotalOfTwo(x: real, y: real)
    ensures Total([x, y]) == x + y
  {
    assert [x, y][..1] == [x] && [x][..0] == [];
    assert Total([x]) == x;
  }

  lemma LoadedFactor(p: real, s: real)
    requires s > 0.0
    ensures PowerFactor(Fin(p), Fin(s)) == Fin(p / s)
  {
  }

  lemma TwoFactors(p1: real, s1: real, p2: real, s2: real)
    requires s1 > 0.0 && s2 > 0.0
    ensures MeanFactor(p1, s1, p2, s2) == (p1 / s1 + p2 / s2) / 2.0
    ensures FactorOfSums(p1, s1, p2, s2) == (p1 + p2) / (s1 + s2)
  {
    LoadedFactor(p1, s1);
    LoadedFactor(p2, s2);
    LoadedFactor(p1 + p2, s1 + s2);
    TotalOfTwo(p1 / s1, p2 / s2);
    TotalOfTwo(p1, p2);
    TotalOfTwo(s1, s2);
  }

  lemma ZeroProduct(a: real, b: real)
    ensures a * b == 0.0 <==> a == 0.0 || b == 0.0
  {
    if a != 0.0 && b != 0.0 { NonZeroProduct(a, b); }
  }

  lemma QuotientTimes(p: real, s: real)
    requires s != 0.0
    ensures p / s * s == p
  {
  }

  lemma WeightedMean(a: real, b: real, s1: real, s2: real, p1: real, p2: real)
    requires s1 > 0.0 && s2 > 0.0 && a * s1 == p1 && b * s2 == p2
    ensures (a + b) / 2.0 == (p1 + p2) / (s1 + s2) <==> s1 == s2 || a == b
  {
    CrossTerms(a, b, s1, s2);
    ZeroProduct(a - b, s2 - s1);
  }

  /** For two loaded devices, averaging their power factors gives the power factor of their summed
      powers exactly when the apparent powers or the power factors are equal. */
  lemma PowerFactorCommutesIff(p1: real, s1: real, p2: real, s2: real)
    requires s1 > 0.0 && s2 > 0.0
    ensures MeanFactor(p1, s1, p2, s2) == FactorOfSums(p1, s1, p2, s2) <==> s1 == s2 || p1 / s1 == p2 / s2
  {
    TwoFactors(p1, s1, p2, s2);
    QuotientTimes(p1, s1);
    QuotientTimes(p2, s2);
    WeightedMean(p1 / s1, p2 / s2, s1, s2, p1, p2);
  }

  /** The power factors of devices with these active and apparent powers. */
  function Factors(ps: seq<real>, ss: seq<real>): (r: seq<real>)
    requires |ps| == |ss|
    ensures |r| == |ps|
  {
    seq(|ps|, i requires 0 <= i < |ps| => PowerFactor(Fin(ps[i]), Fin(ss[i])).r)
  }

  predicate AllLoaded(ss: seq<real>) {
    forall i :: 0 <= i < |ss| ==> ss[i] > 0.0
  }

  /** Sum of (s - m) f over the devices. */
  function Deviation(ss: seq<real>, m: real, fs: seq<real>): real
    requires |ss| == |fs|
    decreases |ss|
  {
    if ss == [] then 0.0
    else
      var n := |ss| - 1;
      Deviation(ss[..n], m, fs[..n]) + (ss[n] - m) * fs[n]
  }

  /** How far the active powers are from what the mean load at every power factor would give. */
  function Shortfall(ps: seq<real>, ss: seq<real>, m: real): real
    requires |ps| == |ss|
  {
    Total(ps) - m * Total(Factors(ps, ss))
  }

  lemma DeviationStep(s: real, m: real, p: real)
    requires s > 0.0
    ensures (s - m) * (p / s) == p - m * (p / s)
  {
    var f := p / s;
    assert s * f == p;
  }

  lemma {:induction false} DeviationMeans(ps: seq<real>, ss: seq<real>, m: real)
    requires |ps| == |ss| && AllLoaded(ss)
    ensures Deviation(ss, m, Factors(ps, ss)) == Shortfall(ps, ss, m)
    decreases |ps|
  {
    if ps != [] {
      var n := |ps| - 1;
      DeviationMeans(ps[..n], ss[..n], m);
      assert Factors(ps, ss)[..n] == Factors(ps[..n], ss[..n]);
      LoadedFactor(ps[n], ss[n]);
      DeviationStep(ss[n], m, ps[n]);
      Distribute(m, Total(Factors(ps[..n], ss[..n])), ps[n] / ss[n]);
    }
  }

  lemma Distribute(m: real, a: real, b: real)
    ensures m * (a + b) == m * a + m * b
  {
  }

  lemma {:induction false} TotalPositive(ss: seq<real>)
    requires ss != [] && AllLoaded(ss)
    ensures Total(ss) > 0.0
    decreases |ss|
  {
    if |ss| > 1 {
      TotalPositive(ss[..|ss| - 1]);
    } else {
      assert ss[..0] == [];
    }
  }

  lemma MeansAgree(total: real, factors: real, loads: real, n: real, load: real, mean: real, whole: real, dev: real)
    requires n > 0.0 && loads > 0.0 && load == loads / n
    requires mean == factors / n && whole == total / loads && dev == total - load * factors
    ensures mean == whole <==> dev == 0.0
  {
    assert load * factors == loads * mean by { assert mean * n == factors && load * n == loads; }
    assert whole * loads == total;
    assert dev == loads * (whole - mean);
    ZeroProduct(loads, whole - mean);
  }

  function MeanOfFactors(ps: seq<real>, ss: seq<real>): real
    requires |ps| == |ss| > 0
  {
    CombinedValue(Avg, Factors(ps, ss))
  }

  function FactorOfTotals(ps: seq<real>, ss: seq<real>): real
    requires |ps| == |ss| > 0
  {
    PowerFactor(Fin(CombinedValue(Aggregate.Sum, ps)), Fin(CombinedValue(Aggregate.Sum, ss))).r
  }

  /** How load and power factor vary together over the devices: the sum of (load - mean load) times
      the power factor. */
  function Covariance(ps: seq<real>, ss: seq<real>): real
    requires |ps| == |ss| > 0
  {
    Deviation(ss, MeanLoad(ss), Factors(ps, ss))
  }

  function MeanLoad(ss: seq<real>): real
    requires ss != []
  {
    CombinedValue(Avg, ss)
  }

  lemma FactorOfTotalsIs(ps: seq<real>, ss: seq<real>)
    requires |ps| == |ss| > 0 && AllLoaded(ss)
    ensures Total(ss) > 0.0 && FactorOfTotals(ps, ss) == Total(ps) / Total(ss)
  {
    TotalPositive(ss);
    LoadedFactor(Total(ps), Total(ss));
  }

  lemma CovarianceIs(ps: seq<real>, ss: seq<real>)
    requires |ps| == |ss| > 0 && AllLoaded(ss)
    ensures Covariance(ps, ss) == Shortfall(ps, ss, MeanLoad(ss))
  {
    DeviationMeans(ps, ss, MeanLoad(ss));
  }

  /** For any number of loaded devices, averaging their power factors gives the power factor of their
      summed powers exactly when load and power factor do not vary together. */
  lemma PowerFactorsCommuteIff(ps: seq<real>, ss: seq<real>)
    requires |ps| == |ss| > 0 && AllLoaded(ss)
    ensures MeanOfFactors(ps, ss) == FactorOfTotals(ps, ss) <==> Covariance(ps, ss) == 0.0
  {
    FactorOfTotalsIs(ps, ss);
    CovarianceIs(ps, ss);
    MeansAgree(Total(ps), Total(Factors(ps, ss)), Total(ss), |ss| as real, MeanLoad(ss),
               MeanOfFactors(ps, ss), FactorOfTotals(ps, ss), Covariance(ps, ss));
  }

  /** So the order matters: equal active powers at apparent powers 1 and 3 tell them apart. */
  lemma PowerFactorDoesNotCommute()
    ensures MeanFactor(1.0, 1.0, 1.0, 3.0) != FactorOfSums(1.0, 1.0, 1.0, 3.0)
  {
    PowerFactorCommutesIff(1.0, 1.0, 1.0, 3.0);
  }
}
