/** Decoding one poll of each kind of source into a canonical sample. */
module Pollers {
  import opened Codec
  import opened Combination
  import opened Common
  import opened Derive
  import opened Episodes
  import opened HubCache
  import opened RegisterMap
  import opened Sources

  /** Rejected is a PollError; Broken any exception that says the map cannot be decoded at all. */
  datatype Outcome = Good(values: Values) | Rejected | Broken

  // ----- Reading the blocks

  predicate GoodRead(r: Response, count: nat) {
    r.Ok? && |r.registers| >= count
  }

  /** None is the PollError of an error response or a short read. */
  function Gathered(groups: seq<ReadGroup>, responses: seq<Response>): Option<seq<Block>>
    requires |responses| == |groups|
  {
    if forall i :: 0 <= i < |groups| ==> GoodRead(responses[i], groups[i].count) then
      Some(seq(|groups|, i requires 0 <= i < |groups| && responses[i].Ok? =>
        Block(groups[i].base, responses[i].registers)))
    else None
  }

  method ReadGroups(groups: seq<ReadGroup>, responses: seq<Response>) returns (blocks: Option<seq<Block>>)
    requires |responses| == |groups|
    ensures blocks == Gathered(groups, responses)
  {
    var out: seq<Block> := [];
    for i := 0 to |groups|
      invariant forall k :: 0 <= k < i ==> GoodRead(responses[k], groups[k].count)
      invariant |out| == i && forall k :: 0 <= k < i ==> out[k] == Block(groups[k].base, responses[k].registers)
    {
      var rr := responses[i];
      if rr.Failed? {
        return None;
      }
      if |rr.registers| < groups[i].count {
        return None;
      }
      out := out + [Block(groups[i].base, rr.registers)];
    }
    assert out == Gathered(groups, responses).value;
    return Some(out);
  }

  // ----- ND45

  const OPTIONAL_INVALID_ZERO_POINTS: set<Name> := {PfL1, PfL2, PfL3, PfTotal}

  /** The float32 values a point is made of. */
  function Parts(addrs: seq<int>, blocks: seq<Block>, wo: Order, bo: Order): (r: Option<seq<Num>>)
    ensures r.Some? ==> |r.value| == |addrs|
    decreases |addrs|
  {
    if addrs == [] then Some([])
    else
      var n := |addrs| - 1;
      var init, last := Parts(addrs[..n], blocks, wo, bo), Extract(addrs[n], blocks, 2);
      if init == None || last == None then None else Some(init.value + [RegistersToFloat(last.value, wo, bo)])
  }

  function FirstOverRange(parts: seq<Num>): Option<Num>
    decreases |parts|
  {
    if parts == [] then None
    else if OverRange(parts[0]) then Some(parts[0])
    else FirstOverRange(parts[1..])
  }

  function Weighted(parts: seq<Num>, factors: seq<real>): real
    requires |factors| == |parts| && forall i :: 0 <= i < |parts| ==> parts[i].Fin?
    decreases |parts|
  {
    if parts == [] then 0.0
    else
      var n := |parts| - 1;
      Weighted(parts[..n], factors[..n]) + parts[n].r * factors[n]
  }

  lemma {:induction false} NoneOverRange(parts: seq<Num>)
    ensures FirstOverRange(parts) == None <==> forall i :: 0 <= i < |parts| ==> !OverRange(parts[i])
    decreases |parts|
  {
    if parts != [] {
      NoneOverRange(parts[1..]);
      assert forall i :: 0 <= i < |parts| - 1 ==> parts[1..][i] == parts[i + 1];
    }
  }

  /** The value as the meter wrote it (or the weighted sum of its parts). */
  function RawNd45(p: SourcePoint, parts: seq<Num>): Num
    requires p.ShapeAccepted() && |parts| == |PointAddresses(p)|
  {
    if p.compose == None then parts[0]
    else
      NoneOverRange(parts);
      match FirstOverRange(parts)
      case Some(bad) => bad
      case None => Fin(Weighted(parts, if p.factors.Some? then p.factors.value else seq(|parts|, _ => 1.0)))
  }

  function SiNd45(p: SourcePoint, parts: seq<Num>): Num
    requires p.ShapeAccepted() && |parts| == |PointAddresses(p)|
  {
    if p.compose.Some? && FirstOverRange(parts).Some? then RawNd45(p, parts)
    else Affine(RawNd45(p, parts), p.scale, p.sign, p.offset)
  }

  datatype Decoded = Decoded(name: Name, si: Num, invalid: bool)

  function DecodeNd45(np: Named<SourcePoint>, blocks: seq<Block>, wo: Order, bo: Order): Option<Decoded>
    requires np.point.ShapeAccepted()
  {
    match Parts(PointAddresses(np.point), blocks, wo, bo)
    case None => None
    case Some(parts) =>
      var si := SiNd45(np.point, parts);
      Some(Decoded(np.name, si, OverRange(si) || OverRange(RawNd45(np.point, parts))))
  }

  predicate Shaped(points: seq<Named<SourcePoint>>) {
    forall i :: 0 <= i < |points| ==> points[i].point.ShapeAccepted()
  }

  /** None if some address is in no block. */
  function DecodedNd45(points: seq<Named<SourcePoint>>, blocks: seq<Block>, wo: Order, bo: Order)
    : (r: Option<seq<Decoded>>)
    requires Shaped(points)
    ensures r.Some? ==> |r.value| == |points| && forall i :: 0 <= i < |points| ==> r.value[i].name == points[i].name
    decreases |points|
  {
    if points == [] then Some([])
    else
      var n := |points| - 1;
      var init, last := DecodedNd45(points[..n], blocks, wo, bo), DecodeNd45(points[n], blocks, wo, bo);
      if init == None || last == None then None else Some(init.value + [last.value])
  }

  function Served(d: Decoded): Num {
    if d.invalid && d.name in OPTIONAL_INVALID_ZERO_POINTS then Fin(0.0) else d.si
  }

  function ServedValues(ds: seq<Decoded>): Values
    decreases |ds|
  {
    if ds == [] then map[] else ServedValues(ds[..|ds| - 1])[ds[|ds| - 1].name := Served(ds[|ds| - 1])]
  }

  predicate Critical(d: Decoded) { d.invalid && d.name !in OPTIONAL_INVALID_ZERO_POINTS }

  predicate AnyCritical(ds: seq<Decoded>) { exists i :: 0 <= i < |ds| && Critical(ds[i]) }

  function OutcomeNd45(side: SourceSide, blocks: seq<Block>): Outcome
    requires Shaped(side.points)
  {
    match DecodedNd45(side.points, blocks, side.wordOrder, side.byteOrder)
    case None => Broken
    case Some(ds) =>
      if AnyCritical(ds) then Rejected
      else Good(WithEnergyAliases(ServedValues(ds)))
  }

  function Observations(ds: seq<Decoded>): (r: seq<Observation>)
    ensures |r| == |ds|
  {
    seq(|ds|, i requires 0 <= i < |ds| => Observation(ds[i].name, ds[i].invalid))
  }

  lemma AppendDecoded(l: Log, ds: seq<Decoded>, d: Decoded)
    ensures ServedValues(ds + [d]) == ServedValues(ds)[d.name := Served(d)]
    ensures AnyCritical(ds + [d]) <==> AnyCritical(ds) || Critical(d)
    ensures Polled(l, Observations(ds + [d])) == Observed(Polled(l, Observations(ds)), Observation(d.name, d.invalid))
  {
    var more := ds + [d];
    assert more[..|ds|] == ds && more[|ds|] == d;
    assert Observations(more)[..|ds|] == Observations(ds);
    if i :| 0 <= i < |ds| && Critical(ds[i]) { assert Critical(more[i]); }
    if i :| 0 <= i < |more| && Critical(more[i]) { assert i < |ds| ==> Critical(ds[i]); }
  }

  lemma DecodedNext(points: seq<Named<SourcePoint>>, blocks: seq<Block>, wo: Order, bo: Order, i: nat, ds: seq<Decoded>)
    requires Shaped(points) && i < |points| && DecodedNd45(points[..i], blocks, wo, bo) == Some(ds)
    ensures DecodedNd45(points[..i + 1], blocks, wo, bo) ==
            match DecodeNd45(points[i], blocks, wo, bo) case None => None case Some(d) => Some(ds + [d])
  {
    assert points[..i + 1][..i] == points[..i];
  }

  /** The decoding loop of one poll, muting repeated warnings through the caller's log. */
  method DecodeLoop(side: SourceSide, blocks: seq<Block>, log: EpisodeLog)
    returns (values: Option<Values>, invalidCritical: bool)
    requires Shaped(side.points)
    modifies log
    ensures match DecodedNd45(side.points, blocks, side.wordOrder, side.byteOrder)
            case None => values == None
            case Some(ds) =>
              && values == Some(ServedValues(ds)) && (invalidCritical <==> AnyCritical(ds))
              && log.Now() == Polled(old(log.Now()), Observations(ds))
  {
    var wo, bo := side.wordOrder, side.byteOrder;
    var out: Values := map[];
    invalidCritical := false;
    ghost var ds: seq<Decoded> := [];
    for i := 0 to |side.points|
      invariant DecodedNd45(side.points[..i], blocks, wo, bo) == Some(ds)
      invariant out == ServedValues(ds) && (invalidCritical <==> AnyCritical(ds))
      invariant log.Now() == Polled(old(log.Now()), Observations(ds))
    {
      var d := DecodeNd45(side.points[i], blocks, wo, bo);
      DecodedNext(side.points, blocks, wo, bo, i, ds);
      if d == None {
        UndecodedPrefix(side.points, blocks, wo, bo, i + 1);
        return None, false;
      }
      AppendDecoded(old(log.Now()), ds, d.value);
      ds := ds + [d.value];
      log.Observe(d.value.name, d.value.invalid);
      if Critical(d.value) {
        invalidCritical := true;
      }
      out := out[d.value.name := Served(d.value)];
    }
    assert side.points[..|side.points|] == side.points;
    values := Some(out);
  }

  method FillAliases(values: Values) returns (r: Values)
    ensures r == WithEnergyAliases(values)
  {
    var sample := new Sample(values);
    sample.ComputeDerived();
    r := sample.at;
  }

  method PollNd45(side: SourceSide, blocks: seq<Block>, log: EpisodeLog) returns (outcome: Outcome)
    requires Shaped(side.points)
    modifies log
    ensures outcome == OutcomeNd45(side, blocks)
    ensures var ds := DecodedNd45(side.points, blocks, side.wordOrder, side.byteOrder);
            ds.Some? ==> log.Now() == Polled(old(log.Now()), Observations(ds.value))
  {
    var values, invalidCritical := DecodeLoop(side, blocks, log);
    if values == None {
      return Broken;
    }
    if invalidCritical {
      return Rejected;
    }
    var filled := FillAliases(values.value);
    return Good(filled);
  }

  lemma {:induction false} UndecodedPrefix(points: seq<Named<SourcePoint>>, blocks: seq<Block>, wo: Order, bo: Order,
                                           i: nat)
    requires Shaped(points) && i <= |points| && DecodedNd45(points[..i], blocks, wo, bo) == None
    ensures DecodedNd45(points, blocks, wo, bo) == None
    decreases |points| - i
  {
    if i < |points| {
      assert points[..i + 1][..i] == points[..i];
      UndecodedPrefix(points, blocks, wo, bo, i + 1);
    } else {
      assert points[..i] == points;
    }
  }

  // ----- SmartLogger

  /** None is the exception of a point without an address of its own or outside every block. */
  function DecodeHuawei(p: SourcePoint, blocks: seq<Block>, wo: Order, bo: Order): Option<Num> {
    if p.addr == None then None
    else
      match Extract(p.addr.value, blocks, Width(p.dtype))
      case None => None
      case Some(regs) =>
        if p.dtype == Float32 then Some(Affine(RegistersToFloat(regs, wo, bo), p.scale, p.sign, p.offset))
        else DecodeIntPoint(regs, p.dtype, p.scale, p.sign, p.offset, wo, bo)
  }

  function DecodedHuawei(points: seq<Named<SourcePoint>>, blocks: seq<Block>, wo: Order, bo: Order): (r: Option<Values>)
    ensures r.Some? ==> r.value.Keys == Names(points)
    decreases |points|
  {
    if points == [] then
      assert Names(points) == {};
      Some(map[])
    else
      var n := |points| - 1;
      var init, last := DecodedHuawei(points[..n], blocks, wo, bo), DecodeHuawei(points[n].point, blocks, wo, bo);
      NamesAppend(points);
      if init == None || last == None then None else Some(init.value[points[n].name := last.value])
  }

  lemma NamesAppend<T>(points: seq<Named<T>>)
    requires points != []
    ensures var n := |points| - 1; Names(points) == Names(points[..n]) + {points[n].name}
  {
    var n := |points| - 1;
    forall x | x in Names(points[..n]) ensures x in Names(points) {
      var i :| 0 <= i < n && points[..n][i].name == x;
      assert points[i].name == x;
    }
    forall x | x in Names(points) ensures x in Names(points[..n]) + {points[n].name} {
      var i :| 0 <= i < |points| && points[i].name == x;
      if i < n { assert points[..n][i].name == x; }
    }
    assert points[n].name in Names(points);
  }

  /** Anything not finite becomes zero. */
  function Scrubbed(values: Values): Values {
    map k | k in values :: if values[k].Fin? then values[k] else Fin(0.0)
  }

  function OutcomeHuawei(h: Hypotenuse, side: SourceSide, blocks: seq<Block>): Outcome
    requires OpsAccepted(side.derive)
  {
    match DecodedHuawei(side.points, blocks, side.wordOrder, side.byteOrder)
    case None => Broken
    case Some(v) => Good(WithEnergyAliases(Scrubbed(Derived(h, Scrubbed(v), side.derive))))
  }

  method DecodeLoopHuawei(side: SourceSide, blocks: seq<Block>) returns (values: Option<Values>)
    ensures values == DecodedHuawei(side.points, blocks, side.wordOrder, side.byteOrder)
  {
    var wo, bo := side.wordOrder, side.byteOrder;
    var out: Values := map[];
    for i := 0 to |side.points|
      invariant DecodedHuawei(side.points[..i], blocks, wo, bo) == Some(out)
    {
      assert side.points[..i + 1][..i] == side.points[..i];
      var x := DecodeHuawei(side.points[i].point, blocks, wo, bo);
      if x == None {
        UndecodedPrefixHuawei(side.points, blocks, wo, bo, i + 1);
        return None;
      }
      out := out[side.points[i].name := x.value];
    }
    assert side.points[..|side.points|] == side.points;
    return Some(out);
  }

  lemma {:induction false} UndecodedPrefixHuawei(points: seq<Named<SourcePoint>>, blocks: seq<Block>, wo: Order,
                                                 bo: Order, i: nat)
    requires i <= |points| && DecodedHuawei(points[..i], blocks, wo, bo) == None
    ensures DecodedHuawei(points, blocks, wo, bo) == None
    decreases |points| - i
  {
    if i < |points| {
      assert points[..i + 1][..i] == points[..i];
      UndecodedPrefixHuawei(points, blocks, wo, bo, i + 1);
    } else {
      assert points[..i] == points;
    }
  }

  /** What the zeroing loop sees, channel by channel. */
  function ObservationsHuawei(points: seq<Named<SourcePoint>>, values: Values): (r: seq<Observation>)
    ensures |r| == |points|
  {
    seq(|points|, i requires 0 <= i < |points| => Observation(points[i].name, !Get(values, points[i].name).Fin?))
  }

  lemma ObservedNext(l: Log, points: seq<Named<SourcePoint>>, values: Values, i: nat)
    requires i < |points|
    ensures var all := ObservationsHuawei(points, values);
            Polled(l, all[..i + 1]) ==
            Observed(Polled(l, all[..i]), Observation(points[i].name, !Get(values, points[i].name).Fin?))
  {
    var all := ObservationsHuawei(points, values);
    assert all[..i + 1][..i] == all[..i];
  }

  /** Zero every bad channel in place, reporting it once per episode. */
  method ZeroBad(points: seq<Named<SourcePoint>>, sample: Sample, log: EpisodeLog)
    requires DistinctNames(points) && sample.at.Keys == Names(points)
    modifies sample, log
    ensures sample.at == Scrubbed(old(sample.at))
    ensures log.Now() == Polled(old(log.Now()), ObservationsHuawei(points, old(sample.at)))
  {
    ghost var before := sample.at;
    for i := 0 to |points|
      invariant sample.at.Keys == before.Keys
      invariant forall k :: 0 <= k < i ==> sample.at[points[k].name] == Scrubbed(before)[points[k].name]
      invariant forall k :: i <= k < |points| ==> sample.at[points[k].name] == before[points[k].name]
      invariant log.Now() == Polled(old(log.Now()), ObservationsHuawei(points, before)[..i])
    {
      var name := points[i].name;
      var bad := !sample.at[name].Fin?;
      ObservedNext(old(log.Now()), points, before, i);
      log.Observe(name, bad);
      if bad {
        sample.at := sample.at[name := Fin(0.0)];
      }
    }
    assert ObservationsHuawei(points, before)[..|points|] == ObservationsHuawei(points, before);
    forall k | k in before ensures sample.at[k] == Scrubbed(before)[k] {
      var i :| 0 <= i < |points| && points[i].name == k;
    }
  }

  method PollHuawei(h: Hypotenuse, side: SourceSide, blocks: seq<Block>, log: EpisodeLog) returns (outcome: Outcome)
    requires DistinctNames(side.points) && OpsAccepted(side.derive)
    modifies log
    ensures outcome == OutcomeHuawei(h, side, blocks)
    ensures var v := DecodedHuawei(side.points, blocks, side.wordOrder, side.byteOrder);
            v.Some? ==> log.Now() == Polled(old(log.Now()), ObservationsHuawei(side.points, v.value))
  {
    var values := DecodeLoopHuawei(side, blocks);
    if values == None {
      return Broken;
    }
    var sample := new Sample(values.value);
    ZeroBad(side.points, sample, log);
    var derived := DeriveAndScrub(h, sample.at, side.derive);
    var filled := FillAliases(derived);
    return Good(filled);
  }

  method DeriveAndScrub(h: Hypotenuse, values: Values, ops: seq<DeriveOp>) returns (r: Values)
    requires OpsAccepted(ops)
    ensures r == Scrubbed(Derived(h, values, ops))
  {
    var sample := new Sample(values);
    sample.ApplyDerive(h, ops);
    ghost var before := sample.at;
    var todo := sample.at.Keys;
    while todo != {}
      invariant todo <= before.Keys == sample.at.Keys
      invariant forall k :: k in before ==> sample.at[k] == if k in todo then before[k] else Scrubbed(before)[k]
      decreases todo
    {
      var key :| key in todo;
      if !sample.at[key].Fin? {
        sample.at := sample.at[key := Fin(0.0)];
      }
      todo := todo - {key};
    }
    r := sample.at;
  }

  // ----- e2TANGO

  datatype PointOutcome = Value(x: Num) | OutOfRange | Undecodable

  function DecodeEtango(p: SourcePoint, blocks: seq<Block>, wo: Order, bo: Order): PointOutcome {
    if p.addr == None then Undecodable
    else
      match Extract(p.addr.value, blocks, Width(p.dtype))
      case None => Undecodable
      case Some(regs) =>
        if |regs| < 2 then Undecodable
        else if OverRange(RegistersToFloat(regs, wo, bo)) then OutOfRange
        else Value(Affine(RegistersToFloat(regs, wo, bo), p.scale, p.sign, p.offset))
  }

  /** The first failing point decides. */
  function DecodedEtango(points: seq<Named<SourcePoint>>, blocks: seq<Block>, wo: Order, bo: Order): (r: Outcome)
    ensures r.Good? ==> r.values.Keys == Names(points)
    decreases |points|
  {
    if points == [] then
      assert Names(points) == {};
      Good(map[])
    else
      var n := |points| - 1;
      NamesAppend(points);
      match DecodedEtango(points[..n], blocks, wo, bo)
      case Rejected => Rejected
      case Broken => Broken
      case Good(v) =>
        match DecodeEtango(points[n].point, blocks, wo, bo)
        case Undecodable => Broken
        case OutOfRange => Rejected
        case Value(x) => Good(v[points[n].name := x])
  }

  predicate AllFinite(values: Values) { forall k :: k in values ==> values[k].Fin? }

  /** One device: decode, derive on its own readings, refuse anything not finite. */
  function OutcomeDevice(h: Hypotenuse, side: SourceSide, blocks: seq<Block>): Outcome
    requires OpsAccepted(side.derive)
  {
    match DecodedEtango(side.points, blocks, side.wordOrder, side.byteOrder)
    case Rejected => Rejected
    case Broken => Broken
    case Good(v) => if AllFinite(Derived(h, v, side.derive)) then Good(Derived(h, v, side.derive)) else Rejected
  }

  datatype Group = Group(readings: seq<Values>) | Failing(why: Outcome)

  lemma FirstChunk(total: nat, d: nat, n: nat)
    requires d > 0 && total == d * n
    ensures n <= total && total - n == (d - 1) * n
  {
  }

  /** All devices in order; the first failing one decides. */
  function OutcomeDevices(h: Hypotenuse, side: SourceSide, devices: seq<Device>, responses: seq<Response>): (g: Group)
    requires OpsAccepted(side.derive) && |responses| == |devices| * |side.Groups()|
    ensures g.Group? ==> |g.readings| == |devices|
    decreases |devices|
  {
    if devices == [] then Group([])
    else
      var n := |side.Groups()|;
      FirstChunk(|responses|, |devices|, n);
      match Gathered(side.Groups(), responses[..n])
      case None => Failing(Rejected)
      case Some(blocks) =>
        match OutcomeDevice(h, side, blocks)
        case Rejected => Failing(Rejected)
        case Broken => Failing(Broken)
        case Good(v) =>
          match OutcomeDevices(h, side, devices[1..], responses[n..])
          case Failing(why) => Failing(why)
          case Group(rest) => Group([v] + rest)
  }

  function Reals(values: Values): Reading {
    map k | k in values && values[k].Fin? :: values[k].r
  }

  /** The readings of the devices that take part in the combination. */
  function Aggregating(devices: seq<Device>, readings: seq<Values>): seq<Reading>
    requires |readings| == |devices|
    decreases |devices|
  {
    if devices == [] then []
    else (if devices[0].aggregate then [Reals(readings[0])] else []) + Aggregating(devices[1..], readings[1..])
  }

  function OutcomeEtango(h: Hypotenuse, side: SourceSide, devices: seq<Device>, responses: seq<Response>): Outcome
    requires OpsAccepted(side.derive) && |responses| == |devices| * |side.Groups()|
  {
    match OutcomeDevices(h, side, devices, responses)
    case Failing(why) => why
    case Group(readings) => Good(WithEnergyAliases(Lift(Combined(side, Aggregating(devices, readings)))))
  }

  method DecodeLoopEtango(side: SourceSide, blocks: seq<Block>) returns (outcome: Outcome)
    ensures outcome == DecodedEtango(side.points, blocks, side.wordOrder, side.byteOrder)
  {
    var wo, bo := side.wordOrder, side.byteOrder;
    var out: Values := map[];
    for i := 0 to |side.points|
      invariant DecodedEtango(side.points[..i], blocks, wo, bo) == Good(out)
    {
      assert side.points[..i + 1][..i] == side.points[..i];
      match DecodeEtango(side.points[i].point, blocks, wo, bo) {
        case Undecodable =>
          FailedPrefixEtango(side.points, blocks, wo, bo, i + 1);
          return Broken;
        case OutOfRange =>
          FailedPrefixEtango(side.points, blocks, wo, bo, i + 1);
          return Rejected;
        case Value(x) =>
          out := out[side.points[i].name := x];
      }
    }
    assert side.points[..|side.points|] == side.points;
    return Good(out);
  }

  lemma {:induction false} FailedPrefixEtango(points: seq<Named<SourcePoint>>, blocks: seq<Block>, wo: Order,
                                              bo: Order, i: nat)
    requires i <= |points| && !DecodedEtango(points[..i], blocks, wo, bo).Good?
    ensures DecodedEtango(points, blocks, wo, bo) == DecodedEtango(points[..i], blocks, wo, bo)
    decreases |points| - i
  {
    if i < |points| {
      assert points[..i + 1][..i] == points[..i];
      FailedPrefixEtango(points, blocks, wo, bo, i + 1);
    } else {
      assert points[..i] == points;
    }
  }

  method PollDevice(h: Hypotenuse, side: SourceSide, blocks: seq<Block>) returns (outcome: Outcome)
    requires OpsAccepted(side.derive)
    ensures outcome == OutcomeDevice(h, side, blocks)
  {
    outcome := DecodeLoopEtango(side, blocks);
    if outcome.Good? {
      var sample := new Sample(outcome.values);
      sample.ApplyDerive(h, side.derive);
      if !AllFinite(sample.at) {
        return Rejected;
      }
      return Good(sample.at);
    }
  }

  function Prepend(done: seq<Values>, rest: Group): Group {
    match rest
    case Failing(why) => Failing(why)
    case Group(more) => Group(done + more)
  }

  /** Read, decode and combine every configured device. */
  method PollEtango(h: Hypotenuse, side: SourceSide, devices: seq<Device>, responses: seq<Response>)
    returns (outcome: Outcome)
    requires OpsAccepted(side.derive) && |responses| == |devices| * |side.Groups()|
    ensures outcome == OutcomeEtango(h, side, devices, responses)
  {
    var n := |side.Groups()|;
    var perDevice: seq<Values> := [];
    var left := responses;
    for i := 0 to |devices|
      invariant |left| == |devices[i..]| * n && |perDevice| == i
      invariant Prepend(perDevice, OutcomeDevices(h, side, devices[i..], left)) ==
                OutcomeDevices(h, side, devices, responses)
    {
      assert devices[i..][1..] == devices[i + 1..];
      FirstChunk(|left|, |devices[i..]|, n);
      var blocks := ReadGroups(side.Groups(), left[..n]);
      if blocks == None {
        return Rejected;
      }
      var one := PollDevice(h, side, blocks.value);
      if !one.Good? {
        return one;
      }
      ghost var rest := OutcomeDevices(h, side, devices[i + 1..], left[n..]);
      PrependOne(perDevice, one.values, rest);
      perDevice := perDevice + [one.values];
      left := left[n..];
    }
    assert devices[|devices|..] == [];
    assert perDevice + [] == perDevice;
    var combined := Combine(side, Aggregating(devices, perDevice));
    var filled := FillAliases(Lift(combined));
    return Good(filled);
  }

  lemma PrependOne(done: seq<Values>, v: Values, rest: Group)
    ensures Prepend(done + [v], rest) ==
            Prepend(done, match rest case Failing(why) => Failing(why) case Group(more) => Group([v] + more))
  {
    if rest.Group? { assert done + [v] + rest.readings == done + ([v] + rest.readings); }
  }

  // ----- A whole poll of any source

  predicate Decodable(s: Source) {
    OpsAccepted(s.side.derive) && (s.Nd45? ==> Shaped(s.side.points))
  }

  lemma {:induction false} EtangoRequestCount(side: SourceSide, devices: seq<Device>)
    ensures |EtangoRequests(side, devices)| == |devices| * |side.Groups()|
    decreases |devices|
  {
    if devices != [] {
      EtangoRequestCount(side, devices[1..]);
      assert |devices| * |side.Groups()| == |side.Groups()| + (|devices| - 1) * |side.Groups()|;
    }
  }

  /** The sample a poll makes of the answers to its requests. */
  function PollOutcome(h: Hypotenuse, s: Source, responses: seq<Response>): Outcome
    requires Decodable(s) && |responses| == |PollRequests(s)|
  {
    match s
    case Nd45(side, _, _) =>
      (match Gathered(READ_GROUPS, responses)
       case None => Rejected
       case Some(blocks) => OutcomeNd45(side, blocks))
    case Huawei(side, _, _) =>
      (match Gathered(side.Groups(), responses)
       case None => Rejected
       case Some(blocks) => OutcomeHuawei(h, side, blocks))
    case Etango(side, devices) =>
      EtangoRequestCount(side, devices);
      OutcomeEtango(h, side, devices, responses)
  }
}
