/** When the order of deriving and combining does not matter for an e2TANGO source: with linear rules
    its poller, which derives on each device first, returns what deriving once from the combined
    decoded readings would give. */
module CombinedDerive {
  import opened Codec
  import opened Combination
  import opened Common
  import opened Derive
  import opened DeviceReadings
  import opened HubCache
  import opened Pollers
  import opened PollerSoundness
  import opened RegisterMap
  import opened Sources

  lemma LiftReals(v: Values)
    requires AllFinite(v)
    ensures Lift(Reals(v)) == v
  {
  }

  lemma RealsLift(r: Reading)
    ensures Reals(Lift(r)) == r
  {
  }

  lemma {:induction false} DecodedEtangoFinite(points: seq<Named<SourcePoint>>, blocks: seq<Block>, wo: Order,
                                               bo: Order)
    requires DecodedEtango(points, blocks, wo, bo).Good?
    ensures AllFinite(DecodedEtango(points, blocks, wo, bo).values)
    decreases |points|
  {
    if points != [] {
      DecodedEtangoFinite(points[..|points| - 1], blocks, wo, bo);
    }
  }

  /** What the aggregating devices of a poll decoded, before any derive step. */
  function DecodedReadings(side: SourceSide, devices: seq<Device>, responses: seq<Response>): seq<Reading>
    requires |responses| == |devices| * |side.Groups()|
    decreases |devices|
  {
    if devices == [] then []
    else
      var n := |side.Groups()|;
      FirstChunk(|responses|, |devices|, n);
      DecodedReading(side, devices[0], responses[..n]) + DecodedReadings(side, devices[1..], responses[n..])
  }

  function DecodedReading(side: SourceSide, d: Device, responses: seq<Response>): seq<Reading>
    requires |responses| == |side.Groups()|
  {
    match Gathered(side.Groups(), responses)
    case None => []
    case Some(blocks) =>
      var o := DecodedEtango(side.points, blocks, side.wordOrder, side.byteOrder);
      if d.aggregate && o.Good? then [Reals(o.values)] else []
  }

  predicate LinearSide(side: SourceSide) {
    OpsAccepted(side.derive) && AllLinear(side, Names(side.points), side.derive)
  }

  predicate AllHave(rs: seq<Reading>, keys: set<Name>) {
    forall i :: 0 <= i < |rs| ==> rs[i].Keys == keys
  }

  /** On one device the interpreter is exact arithmetic. */
  lemma DeviceDerives(h: Hypotenuse, side: SourceSide, blocks: seq<Block>)
    requires LinearSide(side) && OutcomeDevice(h, side, blocks).Good?
    ensures DecodedEtango(side.points, blocks, side.wordOrder, side.byteOrder).Good?
    ensures var decoded := Reals(DecodedEtango(side.points, blocks, side.wordOrder, side.byteOrder).values);
            && decoded.Keys == Names(side.points)
            && Reals(OutcomeDevice(h, side, blocks).values) == DerivedReal(side, decoded, side.derive)
  {
    var v := DecodedEtango(side.points, blocks, side.wordOrder, side.byteOrder).values;
    DecodedEtangoFinite(side.points, blocks, side.wordOrder, side.byteOrder);
    LiftReals(v);
    assert Reals(v).Keys == Names(side.points);
    LiftDerived(side, h, Reals(v), side.derive);
    RealsLift(DerivedReal(side, Reals(v), side.derive));
  }

  lemma DerivedEachCons(side: SourceSide, x: seq<Reading>, rest: seq<Reading>)
    requires LinearSide(side) && AllHave(x, Names(side.points)) && AllHave(rest, Names(side.points))
    ensures AllHave(x + rest, Names(side.points))
    ensures DerivedEach(side, x + rest, side.derive) ==
            DerivedEach(side, x, side.derive) + DerivedEach(side, rest, side.derive)
  {
  }

  lemma OneDerives(h: Hypotenuse, side: SourceSide, d: Device, responses: seq<Response>, blocks: seq<Block>)
    requires LinearSide(side) && |responses| == |side.Groups()| && Gathered(side.Groups(), responses) == Some(blocks)
    requires OutcomeDevice(h, side, blocks).Good?
    ensures AllHave(DecodedReading(side, d, responses), Names(side.points))
    ensures DerivedEach(side, DecodedReading(side, d, responses), side.derive) ==
            if d.aggregate then [Reals(OutcomeDevice(h, side, blocks).values)] else []
  {
    DeviceDerives(h, side, blocks);
  }

  lemma FirstGathered(h: Hypotenuse, side: SourceSide, devices: seq<Device>, responses: seq<Response>, n: nat)
    requires devices != [] && n == |side.Groups()| && OpsAccepted(side.derive) && |responses| == |devices| * n
    requires OutcomeDevices(h, side, devices, responses).Group?
    ensures n <= |responses| && Gathered(side.Groups(), responses[..n]).Some?
  {
    FirstChunk(|responses|, |devices|, n);
  }

  lemma AggregatingFirst(devices: seq<Device>, one: Values, rest: seq<Values>)
    requires devices != [] && |rest| + 1 == |devices|
    ensures Aggregating(devices, [one] + rest) ==
            (if devices[0].aggregate then [Reals(one)] else []) + Aggregating(devices[1..], rest)
  {
    assert ([one] + rest)[1..] == rest;
  }

  lemma {:induction false} DevicesDerive(h: Hypotenuse, side: SourceSide, devices: seq<Device>,
                                         responses: seq<Response>)
    requires LinearSide(side) && |responses| == |devices| * |side.Groups()|
    requires OutcomeDevices(h, side, devices, responses).Group?
    ensures AllHave(DecodedReadings(side, devices, responses), Names(side.points))
    ensures Aggregating(devices, OutcomeDevices(h, side, devices, responses).readings) ==
            DerivedEach(side, DecodedReadings(side, devices, responses), side.derive)
    decreases |devices|
  {
    if devices != [] {
      var n := |side.Groups()|;
      FirstGathered(h, side, devices, responses, n);
      var blocks := Gathered(side.Groups(), responses[..n]).value;
      FirstDeviceOutcome(h, side, devices, responses, n, blocks);
      OneDerives(h, side, devices[0], responses[..n], blocks);
      DevicesDerive(h, side, devices[1..], responses[n..]);
      DerivedEachCons(side, DecodedReading(side, devices[0], responses[..n]),
                      DecodedReadings(side, devices[1..], responses[n..]));
      AggregatingFirst(devices, OutcomeDevice(h, side, blocks).values,
                       OutcomeDevices(h, side, devices[1..], responses[n..]).readings);
    }
  }

  lemma DecodedSome(h: Hypotenuse, side: SourceSide, devices: seq<Device>, responses: seq<Response>)
    requires LinearSide(side) && |responses| == |devices| * |side.Groups()| && SomeAggregating(devices)
    requires OutcomeDevices(h, side, devices, responses).Group?
    ensures SameKeys(DecodedReadings(side, devices, responses), Names(side.points))
  {
    DevicesDerive(h, side, devices, responses);
    var i :| 0 <= i < |devices| && devices[i].aggregate;
    AggregatingSome(devices, OutcomeDevices(h, side, devices, responses).readings, i);
  }

  /** For a source whose rules are linear and combined the way their inputs are, a returned sample is
      the derive list run once on the combination of what the aggregating devices decoded. */
  lemma SampleDerivesCombined(h: Hypotenuse, side: SourceSide, devices: seq<Device>, responses: seq<Response>)
    requires LinearSide(side) && |responses| == |devices| * |side.Groups()| && SomeAggregating(devices)
    requires OutcomeEtango(h, side, devices, responses).Good?
    ensures var decoded := DecodedReadings(side, devices, responses);
            && SameKeys(decoded, Names(side.points))
            && OutcomeEtango(h, side, devices, responses).values ==
               WithEnergyAliases(Derived(h, Lift(Combined(side, decoded)), side.derive))
  {
    FailingIsNotGood(h, side, devices, responses);
    var decoded := DecodedReadings(side, devices, responses);
    DecodedSome(h, side, devices, responses);
    DevicesDerive(h, side, devices, responses);
    DeriveCommutesWithCombine(side, decoded, Names(side.points), side.derive);
    LiftDerived(side, h, Combined(side, decoded), side.derive);
  }
}
