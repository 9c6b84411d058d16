/** The register-map sections of the configuration and the checks made when it is loaded. */
module RegisterMap {
  import opened Codec
  import opened Common

  datatype Aggregate = Avg | Sum

  datatype SourcePoint = SourcePoint(addr: Option<int>, compose: Option<seq<int>>, factors: Option<seq<real>>,
                                     scale: real, offset: real, sign: int, dtype: Dtype, aggregate: Aggregate) {
    /** Exactly one of addr and compose; compose is a non-empty float32 sum with matching factors. */
    predicate ShapeAccepted() {
      match compose
      case Some(c) => addr == None && |c| >= 1 && (factors.Some? ==> |factors.value| == |c|) && dtype == Float32
      case None => addr.Some?
    }
  }

  datatype ReadGroup = ReadGroup(base: int, count: nat, unitId: Option<int>)

  const MAX_READ_REGISTERS: nat := 125

  datatype OpKind = Constant | Copy | SplitEqual | PhaseFromLine | Hypot | RatioSplit | PfFromPS

  datatype DeriveOp = DeriveOp(op: OpKind, targets: seq<Name>, from_: seq<Name>, weights: seq<Name>,
                               value: Option<real>, aggregate: Aggregate) {
    predicate ArityAccepted() {
      && |targets| >= 1
      && (match op
          case Constant => value.Some? && from_ == []
          case Copy | SplitEqual | RatioSplit => |from_| == 1
          case PhaseFromLine => |from_| == |targets|
          case Hypot | PfFromPS => |from_| == 2 * |targets|)
      && (if op == RatioSplit then |weights| == |targets| else weights == [])
      && (op != Constant ==> value == None)
    }
  }

  /** A dictionary of points in declaration order. */
  datatype Named<+T> = Named(name: Name, point: T)

  function Names<T>(points: seq<Named<T>>): set<Name> {
    set i | 0 <= i < |points| :: points[i].name
  }

  predicate DistinctNames<T>(points: seq<Named<T>>) {
    forall i, j :: 0 <= i < j < |points| ==> points[i].name != points[j].name
  }

  datatype SourceSide = SourceSide(wordOrder: Order, byteOrder: Order, points: seq<Named<SourcePoint>>,
                                   readGroups: Option<seq<ReadGroup>>, addressOffset: int, derive: seq<DeriveOp>) {
    function Groups(): seq<ReadGroup> {
      if readGroups.Some? then readGroups.value else []
    }

    /** The load-time coverage rule. It looks only at points with an address of their own. */
    predicate CoverageAccepted() {
      readGroups.Some? ==>
        forall i :: 0 <= i < |points| && points[i].point.addr.Some? ==> InSomeGroup(points[i].point)
    }

    predicate InSomeGroup(p: SourcePoint)
      requires p.addr.Some?
    {
      exists g :: g in Groups() && g.base <= p.addr.value && p.addr.value + Width(p.dtype) <= g.base + g.count
    }

    predicate Accepted() {
      && DistinctNames(points)
      && (forall i :: 0 <= i < |points| ==> points[i].point.ShapeAccepted())
      && (forall g :: g in Groups() ==> 0 < g.count <= MAX_READ_REGISTERS)
      && (forall i :: 0 <= i < |derive| ==> derive[i].ArityAccepted())
      && CoverageAccepted()
    }
  }

  datatype TargetPoint = TargetPoint(addr: int, from_: Name, scale: real, offset: real, sign: int,
                                     divideByCt: bool, zeroLowWord: bool)

  datatype TargetSide = TargetSide(wordOrder: Order, byteOrder: Order, fc: int, points: seq<Named<TargetPoint>>) {
    predicate Accepted() {
      (fc == 3 || fc == 4) && DistinctNames(points) && SpansDisjoint(points)
    }
  }

  /** The shape check of a source point. */
  method CheckShape(p: SourcePoint) returns (ok: bool)
    ensures ok <==> p.ShapeAccepted()
  {
    if p.compose.Some? {
      if p.addr.Some? {
        return false;
      }
      if |p.compose.value| < 1 {
        return false;
      }
      if p.factors.Some? && |p.factors.value| != |p.compose.value| {
        return false;
      }
      if p.dtype != Float32 {
        return false;
      }
    } else if p.addr == None {
      return false;
    }
    return true;
  }

  /** The arity check of a derive step, with the field rule that there is a target. */
  method CheckArity(op: DeriveOp) returns (ok: bool)
    ensures ok <==> op.ArityAccepted()
  {
    var n, sources := |op.targets|, |op.from_|;
    if n < 1 {
      return false;
    }
    if op.op == Constant {
      if op.value == None || sources != 0 {
        return false;
      }
    } else if op.op == Copy || op.op == SplitEqual || op.op == RatioSplit {
      if sources != 1 {
        return false;
      }
    } else if op.op == PhaseFromLine {
      if sources != n {
        return false;
      }
    } else if sources != 2 * n {
      return false;
    }
    if op.op == RatioSplit {
      if |op.weights| != n {
        return false;
      }
    } else if |op.weights| != 0 {
      return false;
    }
    return op.op == Constant || op.value == None;
  }

  predicate Overlap(a: int, b: int) {
    -1 <= a - b <= 1
  }

  /** Two-register spans of different points never share a register. */
  predicate SpansDisjoint(points: seq<Named<TargetPoint>>) {
    forall i, j :: 0 <= i < j < |points| ==> !Overlap(points[i].point.addr, points[j].point.addr)
  }

  /** The overlap check: it accepts exactly the sides whose spans are pairwise disjoint. */
  method CheckRangesDoNotOverlap(points: seq<Named<TargetPoint>>) returns (ok: bool)
    ensures ok <==> SpansDisjoint(points)
  {
    var occupied: map<int, int> := map[];
    for i := 0 to |points|
      invariant forall a :: a in occupied <==> exists k :: 0 <= k < i && 0 <= a - points[k].point.addr <= 1
      invariant SpansDisjoint(points[..i])
    {
      var addr := points[i].point.addr;
      if addr in occupied || addr + 1 in occupied {
        ghost var a := if addr in occupied then addr else addr + 1;
        ghost var k :| 0 <= k < i && 0 <= a - points[k].point.addr <= 1;
        assert Overlap(points[k].point.addr, points[i].point.addr);
        return false;
      }
      assert forall k :: 0 <= k < i && Overlap(points[k].point.addr, addr) ==> addr in occupied || addr + 1 in occupied;
      assert forall k :: 0 <= k < i ==> points[..i][k] == points[k];
      occupied := occupied[addr := i][addr + 1 := i];
      assert forall k :: 0 <= k <= i ==> points[..i + 1][k] == points[k];
    }
    assert points[..|points|] == points;
    return true;
  }

  /** What every source gets for free. */
  const DERIVED_KEYS: set<Name> := {ActiveEnergyTotal, NetImpEnergyTotal, NetExpEnergyTotal}

  function DeriveTargets(ops: seq<DeriveOp>): set<Name> {
    set i, t | 0 <= i < |ops| && t in ops[i].targets :: t
  }

  function Needed(sides: seq<TargetSide>): set<Name> {
    set i, j | 0 <= i < |sides| && 0 <= j < |sides[i].points| :: sides[i].points[j].point.from_
  }

  datatype RegisterMap = RegisterMap(nd45: SourceSide, huaweiPlant: Option<SourceSide>, huaweiMeter: Option<SourceSide>,
                                     etango: Option<SourceSide>, target: TargetSide, extTarget: TargetSide,
                                     extEnergy: TargetSide)
  {
    function Targets(): seq<TargetSide> { [target, extTarget, extEnergy] }

    function Sources(): set<SourceSide> {
      {nd45}
      + (if huaweiPlant.Some? then {huaweiPlant.value} else {})
      + (if huaweiMeter.Some? then {huaweiMeter.value} else {})
      + (if etango.Some? then {etango.value} else {})
    }

    /** Each source section must name, as a point or a derive target, everything a target reads. */
    predicate Producible() {
      forall s :: s in Sources() ==> Needed(Targets()) <= Names(s.points) + DeriveTargets(s.derive) + DERIVED_KEYS
    }

    predicate Accepted() {
      && (forall s :: s in Sources() ==> s.Accepted())
      && target.Accepted() && extTarget.Accepted() && extEnergy.Accepted()
      && Producible()
    }
  }
}
