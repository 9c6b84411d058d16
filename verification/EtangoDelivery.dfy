/** Exactly when a poll of e2TANGO devices returns a sample. */
module EtangoDelivery {
  import opened Common
  import opened Codec
  import opened Derive
  import HubCache
  import opened Pollers
  import opened PollerSoundness
  import opened RegisterMap
  import opened SampleMeaning
  import opened Sources

  // ----- Steps whose inputs are there keep a reading finite

  predicate Reads(keys: set<Name>, op: DeriveOp) {
    && (forall n :: n in op.from_ ==> n in keys)
    && (forall n :: n in op.weights ==> n in keys)
  }

  /** Every step finds its inputs among these keys and what the steps before it wrote. */
  predicate Fed(keys: set<Name>, ops: seq<DeriveOp>)
    decreases |ops|
  {
    ops == [] || (Reads(keys, ops[0]) && Fed(keys + (set t | t in ops[0].targets), ops[1..]))
  }

  lemma {:induction false} PhasesFinite(values: Values, op: DeriveOp, i: nat)
    requires op.ArityAccepted() && op.op == PhaseFromLine && i <= |op.targets|
    requires AllFinite(values) && forall n :: n in op.from_ ==> n in values
    ensures AllFinite(PhasesFrom(values, op, i))
    decreases |op.targets| - i
  {
    if i < |op.targets| {
      assert op.from_[i] in op.from_;
      PhasesFinite(values[op.targets[i] := DivideBy(Get(values, op.from_[i]), SQRT3)], op, i + 1);
    }
  }

  lemma {:induction false} PairsFinite(h: Hypotenuse, values: Values, op: DeriveOp, i: nat)
    requires op.ArityAccepted() && (op.op == Hypot || op.op == PfFromPS) && i <= |op.targets|
    requires AllFinite(values) && forall n :: n in op.from_ ==> n in values
    ensures AllFinite(PairsFrom(h, values, op, i))
    decreases |op.targets| - i
  {
    if i < |op.targets| {
      assert op.from_[2 * i] in op.from_ && op.from_[2 * i + 1] in op.from_;
      var a, b := Get(values, op.from_[2 * i]), Get(values, op.from_[2 * i + 1]);
      var x := if op.op == Hypot then HypotNum(h, a, b) else PowerFactor(a, b);
      PairsFinite(h, values[op.targets[i] := x], op, i + 1);
    }
  }

  lemma {:induction false} SharesFinite(before: Values, values: Values, op: DeriveOp, total: Num, sum: real, i: nat)
    requires op.ArityAccepted() && op.op == RatioSplit && i <= |op.targets|
    requires WeightSum(before, op.weights) == Some(sum) && sum > 0.0 && total.Fin?
    requires AllFinite(values) && AllFinite(before) && forall n :: n in op.weights ==> n in before
    ensures AllFinite(SharesFrom(before, values, op, total, sum, i))
    decreases |op.targets| - i
  {
    if i < |op.targets| {
      assert op.weights[i] in op.weights;
      var w := Get(before, op.weights[i]);
      var x := if w.Fin? then Share(total, w.r, sum) else NaN;
      SharesFinite(before, values[op.targets[i] := x], op, total, sum, i + 1);
    }
  }

  lemma SpreadFinite(values: Values, targets: seq<Name>, x: Num)
    requires AllFinite(values) && x.Fin?
    ensures AllFinite(SetAll(values, targets, x))
  {
    SetAllFrame(values, targets, x);
  }

  lemma AppliedFinite(h: Hypotenuse, values: Values, op: DeriveOp)
    requires op.ArityAccepted() && AllFinite(values) && Reads(values.Keys, op)
    ensures AllFinite(Applied(h, values, op))
  {
    assert forall j :: 0 <= j < |op.from_| ==> op.from_[j] in op.from_;
    match op.op
    case Constant => SpreadFinite(values, op.targets, Fin(op.value.value));
    case Copy => SpreadFinite(values, op.targets, Get(values, op.from_[0]));
    case SplitEqual => SpreadFinite(values, op.targets, DivideBy(Get(values, op.from_[0]), |op.targets| as real));
    case PhaseFromLine => PhasesFinite(values, op, 0);
    case Hypot | PfFromPS => PairsFinite(h, values, op, 0);
    case RatioSplit =>
      var total, sum := Get(values, op.from_[0]), WeightSum(values, op.weights);
      if sum == None || sum.value == 0.0 {
        SpreadFinite(values, op.targets, DivideBy(total, |op.targets| as real));
      } else {
        SharesFinite(values, values, op, total, sum.value, 0);
      }
  }

  /** Deriving never leaves the finite numbers when every step finds its inputs: no step divides by
      zero, whatever the readings. */
  lemma {:induction false} DerivedFinite(h: Hypotenuse, values: Values, ops: seq<DeriveOp>)
    requires OpsAccepted(ops) && AllFinite(values) && Fed(values.Keys, ops)
    ensures AllFinite(Derived(h, values, ops))
    decreases |ops|
  {
    if ops != [] {
      AppliedFinite(h, values, ops[0]);
      AppliedFrame(h, values, ops[0]);
      DerivedFinite(h, Applied(h, values, ops[0]), ops[1..]);
    }
  }

  // ----- One device

  /** The float of a point that the blocks hold is in range. */
  predicate InRange(p: SourcePoint, blocks: seq<Block>, wo: Order, bo: Order) {
    && p.addr.Some? && Width(p.dtype) >= 2
    && var regs := Extract(p.addr.value, blocks, Width(p.dtype));
       regs.Some? && Valid(RegistersToFloat(regs.value, wo, bo))
  }

  predicate Found(p: SourcePoint, blocks: seq<Block>) {
    p.addr.Some? && Width(p.dtype) >= 2 && Extract(p.addr.value, blocks, Width(p.dtype)).Some?
  }

  lemma DecodeEtangoIff(p: SourcePoint, blocks: seq<Block>, wo: Order, bo: Order)
    requires Found(p, blocks)
    ensures DecodeEtango(p, blocks, wo, bo).Value? <==> InRange(p, blocks, wo, bo)
    ensures !DecodeEtango(p, blocks, wo, bo).Undecodable?
    ensures DecodeEtango(p, blocks, wo, bo).Value? ==> DecodeEtango(p, blocks, wo, bo).x.Fin?
  {
    ValidIsInRange(RegistersToFloat(Extract(p.addr.value, blocks, Width(p.dtype)).value, wo, bo));
  }

  predicate AllInRange(points: seq<Named<SourcePoint>>, blocks: seq<Block>, wo: Order, bo: Order) {
    forall i :: 0 <= i < |points| ==> InRange(points[i].point, blocks, wo, bo)
  }

  lemma LastInRange(points: seq<Named<SourcePoint>>, blocks: seq<Block>, wo: Order, bo: Order, n: nat)
    requires |points| == n + 1
    ensures AllInRange(points, blocks, wo, bo) <==>
            AllInRange(points[..n], blocks, wo, bo) && InRange(points[n].point, blocks, wo, bo)
  {
    assert points == points[..n] + [points[n]];
  }

  lemma {:induction false} DecodedEtangoIff(points: seq<Named<SourcePoint>>, blocks: seq<Block>, wo: Order, bo: Order)
    requires forall i :: 0 <= i < |points| ==> Found(points[i].point, blocks)
    ensures var r := DecodedEtango(points, blocks, wo, bo);
            && (r.Good? <==> AllInRange(points, blocks, wo, bo))
            && (r.Good? ==> AllFinite(r.values))
            && r != Broken
    decreases |points|
  {
    if points != [] {
      var n := |points| - 1;
      DecodedEtangoIff(points[..n], blocks, wo, bo);
      DecodeEtangoIff(points[n].point, blocks, wo, bo);
      LastInRange(points, blocks, wo, bo, n);
    }
  }

  /** What a map must be for the readings alone to decide: two registers a point, and derive steps
      that find their inputs. */
  predicate Regular(side: SourceSide) {
    && side.Accepted() && side.readGroups.Some?
    && FloatReadable(side.points) && Fed(Names(side.points), side.derive)
  }

  /** A completely read device delivers exactly when every point holds a float in range. */
  lemma DeviceGoodIff(h: Hypotenuse, side: SourceSide, blocks: seq<Block>)
    requires Regular(side) && Complete(side.Groups(), blocks)
    ensures OutcomeDevice(h, side, blocks).Good? <==>
            AllInRange(side.points, blocks, side.wordOrder, side.byteOrder)
    ensures !OutcomeDevice(h, side, blocks).Good? ==> OutcomeDevice(h, side, blocks) == Rejected
  {
    forall i | 0 <= i < |side.points| ensures Found(side.points[i].point, blocks) {
      PointFound(side, blocks, i);
    }
    DecodedEtangoIff(side.points, blocks, side.wordOrder, side.byteOrder);
    var decoded := DecodedEtango(side.points, blocks, side.wordOrder, side.byteOrder);
    if decoded.Good? { DerivedFinite(h, decoded.values, side.derive); }
  }

  // ----- All devices

  /** Every read of one device came back complete, and every point holds a float in range. */
  predicate Delivers(side: SourceSide, responses: seq<HubCache.Response>)
    requires |responses| == |side.Groups()|
  {
    && (forall g :: 0 <= g < |responses| ==>
          responses[g].Ok? && |responses[g].registers| >= side.Groups()[g].count)
    && AllInRange(side.points, AsBlocks(side.Groups(), responses), side.wordOrder, side.byteOrder)
  }

  /** The registers that came back, under the addresses the map documents. */
  function AsBlocks(groups: seq<ReadGroup>, responses: seq<HubCache.Response>): seq<Block>
    requires |responses| == |groups|
  {
    seq(|groups|, g requires 0 <= g < |groups| =>
      Block(groups[g].base, if responses[g].Ok? then responses[g].registers else []))
  }

  /** The answers to the reads of the k-th device. */
  function Answers(responses: seq<HubCache.Response>, k: nat, n: nat): (r: seq<HubCache.Response>)
    requires k * n + n <= |responses|
    ensures |r| == n
  {
    responses[k * n..k * n + n]
  }

  predicate DeliversAt(side: SourceSide, d: nat, responses: seq<HubCache.Response>, k: nat)
    requires |responses| == d * |side.Groups()| && k < d
  {
    AnswersFit(k, d, |side.Groups()|);
    Delivers(side, Answers(responses, k, |side.Groups()|))
  }

  predicate AllDeliver(side: SourceSide, d: nat, responses: seq<HubCache.Response>)
    requires |responses| == d * |side.Groups()|
  {
    forall k: nat :: k < d ==> DeliversAt(side, d, responses, k)
  }

  lemma AnswersFit(k: nat, d: nat, n: nat)
    requires k < d
    ensures k * n + n <= d * n
  {
    var left: nat := d - k - 1;
    assert d * n == k * n + n + left * n;
  }

  lemma OneDeviceIff(h: Hypotenuse, side: SourceSide, responses: seq<HubCache.Response>)
    requires Regular(side) && |responses| == |side.Groups()|
    ensures Delivers(side, responses) <==>
            Gathered(side.Groups(), responses).Some?
            && OutcomeDevice(h, side, Gathered(side.Groups(), responses).value).Good?
    ensures Gathered(side.Groups(), responses).Some? ==>
              OutcomeDevice(h, side, Gathered(side.Groups(), responses).value) != Broken
  {
    forall g | 0 <= g < |responses|
      ensures GoodRead(responses[g], side.Groups()[g].count) <==>
              responses[g].Ok? && |responses[g].registers| >= side.Groups()[g].count
    {
    }
    if Gathered(side.Groups(), responses).Some? {
      assert AsBlocks(side.Groups(), responses) == Gathered(side.Groups(), responses).value;
      DeviceGoodIff(h, side, Gathered(side.Groups(), responses).value);
    }
  }

  lemma AnswersShift(responses: seq<HubCache.Response>, d: nat, n: nat, k: nat)
    requires k + 1 < d && |responses| == d * n && n <= |responses|
    ensures (k + 1) * n + n <= |responses| && k * n + n <= |responses[n..]|
    ensures Answers(responses[n..], k, n) == Answers(responses, k + 1, n)
  {
    AnswersFit(k + 1, d, n);
    assert (k + 1) * n == k * n + n;
  }

  lemma NextDelivers(side: SourceSide, d: nat, responses: seq<HubCache.Response>, rest: seq<HubCache.Response>, k: nat)
    requires |responses| == d * |side.Groups()| && k + 1 < d
    requires |side.Groups()| <= |responses| && rest == responses[|side.Groups()|..]
    requires |rest| == (d - 1) * |side.Groups()|
    ensures DeliversAt(side, d - 1, rest, k) <==> DeliversAt(side, d, responses, k + 1)
  {
    AnswersShift(responses, d, |side.Groups()|, k);
  }

  lemma FirstDelivers(side: SourceSide, d: nat, responses: seq<HubCache.Response>)
    requires |responses| == d * |side.Groups()| && d > 0
    ensures |side.Groups()| <= |responses|
    ensures DeliversAt(side, d, responses, 0) <==> Delivers(side, responses[..|side.Groups()|])
  {
    FirstChunk(|responses|, d, |side.Groups()|);
    assert Answers(responses, 0, |side.Groups()|) == responses[..|side.Groups()|];
  }

  lemma RestDelivers(side: SourceSide, d: nat, responses: seq<HubCache.Response>)
    requires d > 0 && |responses| == d * |side.Groups()|
    ensures |side.Groups()| <= |responses| && |responses| - |side.Groups()| == (d - 1) * |side.Groups()|
    ensures AllDeliver(side, d, responses) <==>
            Delivers(side, responses[..|side.Groups()|]) && AllDeliver(side, d - 1, responses[|side.Groups()|..])
  {
    FirstChunk(|responses|, d, |side.Groups()|);
    FirstDelivers(side, d, responses);
    var rest, left: nat := responses[|side.Groups()|..], d - 1;
    if AllDeliver(side, d, responses) {
      forall k: nat | k < left ensures DeliversAt(side, left, rest, k) {
        NextDelivers(side, d, responses, rest, k);
      }
    }
    if AllDeliver(side, d - 1, rest) {
      forall k: nat | 0 < k < d ensures DeliversAt(side, d, responses, k) {
        NextDelivers(side, d, responses, rest, k - 1);
      }
    }
  }

  /** A poll returns a sample exactly when every configured device delivers, whether it takes part in
      the combination or not; otherwise the poll is rejected. */
  lemma EtangoGoodIff(h: Hypotenuse, side: SourceSide, devices: seq<Device>,
                      responses: seq<HubCache.Response>)
    requires Regular(side) && |responses| == |devices| * |side.Groups()|
    ensures OutcomeEtango(h, side, devices, responses).Good? <==> AllDeliver(side, |devices|, responses)
    ensures !OutcomeEtango(h, side, devices, responses).Good? ==>
              OutcomeEtango(h, side, devices, responses) == Rejected
  {
    DevicesIff(h, side, devices, responses);
  }

  lemma {:induction false} DevicesIff(h: Hypotenuse, side: SourceSide, devices: seq<Device>,
                                      responses: seq<HubCache.Response>)
    requires Regular(side) && |responses| == |devices| * |side.Groups()|
    ensures var g := OutcomeDevices(h, side, devices, responses);
            && (g.Group? <==> AllDeliver(side, |devices|, responses))
            && (g.Failing? ==> g.why == Rejected)
    decreases |devices|
  {
    if devices != [] {
      var n := |side.Groups()|;
      RestDelivers(side, |devices|, responses);
      OneDeviceIff(h, side, responses[..n]);
      DevicesIff(h, side, devices[1..], responses[n..]);
    }
  }
}
