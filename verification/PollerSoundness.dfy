/** What the load-time checks buy at run time: which keys a sample holds, when decoding cannot
    fail structurally, and that what reaches the store is finite and in range. */
module PollerSoundness {
  import opened Codec
  import opened Combination
  import opened Common
  import opened Derive
  import Episodes
  import opened HubCache
  import opened Pollers
  import opened RegisterMap
  import opened Sources

  // ----- Keys

  lemma {:induction false} ServedKeys(ds: seq<Decoded>, points: seq<Named<SourcePoint>>)
    requires |ds| == |points| && forall i :: 0 <= i < |ds| ==> ds[i].name == points[i].name
    ensures ServedValues(ds).Keys == Names(points)
    decreases |ds|
  {
    if ds != [] {
      ServedKeys(ds[..|ds| - 1], points[..|points| - 1]);
      NamesAppend(points);
    } else {
      assert Names(points) == {};
    }
  }

  lemma AliasKeys(values: Values, keys: set<Name>)
    requires values.Keys == keys
    ensures WithEnergyAliases(values).Keys == keys + DERIVED_KEYS
  {
  }

  lemma KeysNd45(side: SourceSide, blocks: seq<Block>)
    requires Shaped(side.points) && OutcomeNd45(side, blocks).Good?
    ensures OutcomeNd45(side, blocks).values.Keys == Names(side.points) + DERIVED_KEYS
  {
    var ds := DecodedNd45(side.points, blocks, side.wordOrder, side.byteOrder).value;
    ServedKeys(ds, side.points);
    assert OutcomeNd45(side, blocks) == Good(WithEnergyAliases(ServedValues(ds)));
    AliasKeys(ServedValues(ds), Names(side.points));
  }

  lemma ScrubbedKeys(h: Hypotenuse, ops: seq<DeriveOp>, v: Values)
    requires OpsAccepted(ops)
    ensures Scrubbed(Derived(h, Scrubbed(v), ops)).Keys == v.Keys + DeriveTargets(ops)
  {
    DerivedFrame(h, Scrubbed(v), ops);
  }

  lemma KeysHuawei(h: Hypotenuse, side: SourceSide, blocks: seq<Block>)
    requires OpsAccepted(side.derive) && OutcomeHuawei(h, side, blocks).Good?
    ensures OutcomeHuawei(h, side, blocks).values.Keys == Names(side.points) + DeriveTargets(side.derive) + DERIVED_KEYS
  {
    var v := DecodedHuawei(side.points, blocks, side.wordOrder, side.byteOrder).value;
    ScrubbedKeys(h, side.derive, v);
    AliasKeys(Scrubbed(Derived(h, Scrubbed(v), side.derive)), Names(side.points) + DeriveTargets(side.derive));
  }

  lemma KeysDevice(h: Hypotenuse, side: SourceSide, blocks: seq<Block>)
    requires OpsAccepted(side.derive) && OutcomeDevice(h, side, blocks).Good?
    ensures var v := OutcomeDevice(h, side, blocks).values;
            AllFinite(v) && v.Keys == Names(side.points) + DeriveTargets(side.derive)
  {
    DerivedFrame(h, DecodedEtango(side.points, blocks, side.wordOrder, side.byteOrder).values, side.derive);
  }

  predicate Uniform(readings: seq<Values>, keys: set<Name>) {
    forall i :: 0 <= i < |readings| ==> AllFinite(readings[i]) && readings[i].Keys == keys
  }

  lemma UniformCons(v: Values, rest: seq<Values>, keys: set<Name>)
    requires AllFinite(v) && v.Keys == keys && Uniform(rest, keys)
    ensures Uniform([v] + rest, keys)
  {
  }

  lemma {:induction false} KeysDevices(h: Hypotenuse, side: SourceSide, devices: seq<Device>, responses: seq<Response>)
    requires OpsAccepted(side.derive) && |responses| == |devices| * |side.Groups()|
    requires OutcomeDevices(h, side, devices, responses).Group?
    ensures Uniform(OutcomeDevices(h, side, devices, responses).readings,
                    Names(side.points) + DeriveTargets(side.derive))
    decreases |devices|
  {
    if devices != [] {
      var n := |side.Groups()|;
      FirstChunk(|responses|, |devices|, n);
      var blocks := Gathered(side.Groups(), responses[..n]).value;
      var keys := Names(side.points) + DeriveTargets(side.derive);
      var one := OutcomeDevice(h, side, blocks).values;
      var rest := OutcomeDevices(h, side, devices[1..], responses[n..]).readings;
      KeysDevice(h, side, blocks);
      KeysDevices(h, side, devices[1..], responses[n..]);
      UniformCons(one, rest, keys);
      assert OutcomeDevices(h, side, devices, responses).readings == [one] + rest;
    }
  }

  lemma {:induction false} AggregatingKeys(devices: seq<Device>, readings: seq<Values>, keys: set<Name>)
    requires |readings| == |devices| && Uniform(readings, keys)
    ensures forall r :: r in Aggregating(devices, readings) ==> r.Keys == keys
    decreases |devices|
  {
    if devices != [] {
      AggregatingKeys(devices[1..], readings[1..], keys);
      assert Reals(readings[0]).Keys == keys;
    }
  }

  lemma {:induction false} AggregatingSome(devices: seq<Device>, readings: seq<Values>, i: nat)
    requires |readings| == |devices| && i < |devices| && devices[i].aggregate
    ensures Aggregating(devices, readings) != []
    decreases |devices|
  {
    if i > 0 { AggregatingSome(devices[1..], readings[1..], i - 1); }
  }

  /** The load-time rule for the devices of an e2TANGO source: somebody must be aggregated. */
  predicate SomeAggregating(devices: seq<Device>) {
    exists i :: 0 <= i < |devices| && devices[i].aggregate
  }

  lemma KeysEtango(h: Hypotenuse, side: SourceSide, devices: seq<Device>, responses: seq<Response>)
    requires OpsAccepted(side.derive) && |responses| == |devices| * |side.Groups()| && SomeAggregating(devices)
    requires OutcomeEtango(h, side, devices, responses).Good?
    ensures OutcomeEtango(h, side, devices, responses).values.Keys ==
            Names(side.points) + DeriveTargets(side.derive) + DERIVED_KEYS
  {
    FailingIsNotGood(h, side, devices, responses);
    var readings := OutcomeDevices(h, side, devices, responses).readings;
    KeysCombined(h, side, devices, responses, readings);
    AliasKeys(Lift(Combined(side, Aggregating(devices, readings))), Names(side.points) + DeriveTargets(side.derive));
  }

  lemma KeysCombined(h: Hypotenuse, side: SourceSide, devices: seq<Device>, responses: seq<Response>,
                     readings: seq<Values>)
    requires OpsAccepted(side.derive) && |responses| == |devices| * |side.Groups()| && SomeAggregating(devices)
    requires OutcomeDevices(h, side, devices, responses) == Group(readings)
    ensures Lift(Combined(side, Aggregating(devices, readings))).Keys == Names(side.points) + DeriveTargets(side.derive)
  {
    var keys := Names(side.points) + DeriveTargets(side.derive);
    KeysDevices(h, side, devices, responses);
    AggregatingKeys(devices, readings, keys);
    var i :| 0 <= i < |devices| && devices[i].aggregate;
    AggregatingSome(devices, readings, i);
    AllKeysSame(Aggregating(devices, readings), keys);
  }

  lemma AllKeysSame(rs: seq<Reading>, keys: set<Name>)
    requires rs != [] && forall r :: r in rs ==> r.Keys == keys
    ensures AllKeys(rs) == keys
  {
    assert rs[0].Keys == keys;
    assert forall i :: 0 <= i < |rs| ==> rs[i] in rs;
  }

  lemma {:induction false} FailingIsNotGood(h: Hypotenuse, side: SourceSide, devices: seq<Device>,
                                            responses: seq<Response>)
    requires OpsAccepted(side.derive) && |responses| == |devices| * |side.Groups()|
    ensures var g := OutcomeDevices(h, side, devices, responses); g.Failing? ==> !g.why.Good?
    decreases |devices|
  {
    if devices != [] {
      var n := |side.Groups()|;
      FirstChunk(|responses|, |devices|, n);
      FailingIsNotGood(h, side, devices[1..], responses[n..]);
    }
  }

  /** What the configuration checks establish about a source. */
  predicate Configured(s: Source, m: RegisterMap) {
    && m.Accepted() && s.side in m.Sources()
    && (s.Etango? ==> SomeAggregating(s.devices))
  }

  /** The keys of every sample any of the three pollers returns. */
  lemma SampleKeys(h: Hypotenuse, s: Source, responses: seq<Response>)
    requires Decodable(s) && |responses| == |PollRequests(s)| && PollOutcome(h, s, responses).Good?
    requires s.Etango? ==> SomeAggregating(s.devices)
    ensures PollOutcome(h, s, responses).values.Keys ==
            Names(s.side.points) + (if s.Nd45? then {} else DeriveTargets(s.side.derive)) + DERIVED_KEYS
  {
    match s
    case Nd45(side, _, _) => KeysNd45(side, Gathered(READ_GROUPS, responses).value);
    case Huawei(side, _, _) => KeysHuawei(h, side, Gathered(side.Groups(), responses).value);
    case Etango(side, devices) =>
      EtangoRequestCount(side, devices);
      KeysEtango(h, side, devices, responses);
  }

  /** For every accepted map, every sample holds every name a target reads. For an ND45 source,
      whose poller never derives, that is so exactly when no needed name relies on a derive step. */
  lemma EverySampleServesTargets(h: Hypotenuse, m: RegisterMap, s: Source, responses: seq<Response>)
    requires Configured(s, m) && Decodable(s) && |responses| == |PollRequests(s)|
    requires PollOutcome(h, s, responses).Good?
    ensures Needed(m.Targets()) <= PollOutcome(h, s, responses).values.Keys <==>
            (s.Nd45? ==> Needed(m.Targets()) * DeriveTargets(s.side.derive) <= Names(s.side.points) + DERIVED_KEYS)
  {
    SampleKeys(h, s, responses);
    var need, names, derived := Needed(m.Targets()), Names(s.side.points), DeriveTargets(s.side.derive);
    assert need <= names + derived + DERIVED_KEYS;
    if s.Nd45? {
      if need * derived <= names + DERIVED_KEYS {
        forall n | n in need ensures n in names + DERIVED_KEYS {
        }
      }
    }
  }

  // ----- Structure

  /** Blocks as a poll keeps them: the declared bases, at least the declared lengths. */
  predicate Complete(groups: seq<ReadGroup>, blocks: seq<Block>) {
    |blocks| == |groups| &&
    forall i :: 0 <= i < |groups| ==> blocks[i].base == groups[i].base && |blocks[i].regs| >= groups[i].count
  }

  lemma GatheredIsComplete(groups: seq<ReadGroup>, responses: seq<Response>)
    requires |responses| == |groups| && Gathered(groups, responses).Some?
    ensures Complete(groups, Gathered(groups, responses).value)
  {
  }

  lemma {:induction false} CoveredIsFound(groups: seq<ReadGroup>, blocks: seq<Block>, addr: int, width: nat)
    requires Complete(groups, blocks) && Covered(groups, addr, width)
    ensures Extract(addr, blocks, width).Some?
    decreases |groups|
  {
    if !Holds(blocks[0], addr, width) {
      assert forall g :: g in groups ==> g == groups[0] || g in groups[1..];
      CoveredIsFound(groups[1..], blocks[1..], addr, width);
    }
  }

  lemma {:induction false} PartsFound(addrs: seq<int>, blocks: seq<Block>, wo: Order, bo: Order)
    requires forall a :: a in addrs ==> Extract(a, blocks, 2).Some?
    ensures Parts(addrs, blocks, wo, bo).Some?
    decreases |addrs|
  {
    if addrs != [] {
      assert addrs[|addrs| - 1] in addrs;
      PartsFound(addrs[..|addrs| - 1], blocks, wo, bo);
    }
  }

  lemma {:induction false} DecodedFound(points: seq<Named<SourcePoint>>, blocks: seq<Block>, wo: Order, bo: Order)
    requires Shaped(points)
    requires forall i, a :: 0 <= i < |points| && a in PointAddresses(points[i].point) ==> Extract(a, blocks, 2).Some?
    ensures DecodedNd45(points, blocks, wo, bo).Some?
    decreases |points|
  {
    if points != [] {
      var n := |points| - 1;
      DecodedFound(points[..n], blocks, wo, bo);
      PartsFound(PointAddresses(points[n].point), blocks, wo, bo);
    }
  }

  /** An ND45 map that passed the start-up coverage check never fails structurally. */
  lemma Nd45NeverBreaks(side: SourceSide, blocks: seq<Block>)
    requires Shaped(side.points) && Nd45Covered(side) && Complete(READ_GROUPS, blocks)
    ensures OutcomeNd45(side, blocks) != Broken
    ensures DecodedNd45(side.points, blocks, side.wordOrder, side.byteOrder).Some?
  {
    forall i, a | 0 <= i < |side.points| && a in PointAddresses(side.points[i].point)
      ensures Extract(a, blocks, 2).Some?
    {
      AddressCovered(side, i, a);
      CoveredIsFound(READ_GROUPS, blocks, a, 2);
    }
    DecodedFound(side.points, blocks, side.wordOrder, side.byteOrder);
  }

  lemma PointFound(side: SourceSide, blocks: seq<Block>, i: nat)
    requires side.Accepted() && side.readGroups.Some? && Complete(side.Groups(), blocks)
    requires i < |side.points| && side.points[i].point.addr.Some?
    ensures Extract(side.points[i].point.addr.value, blocks, Width(side.points[i].point.dtype)).Some?
  {
    var p := side.points[i].point;
    assert side.InSomeGroup(p);
    AcceptedCovered(side, p);
    CoveredIsFound(side.Groups(), blocks, p.addr.value, Width(p.dtype));
  }

  lemma AcceptedCovered(side: SourceSide, p: SourcePoint)
    requires p.addr.Some? && side.InSomeGroup(p)
    ensures Covered(side.Groups(), p.addr.value, Width(p.dtype))
  {
    var g :| g in side.Groups() && g.base <= p.addr.value && p.addr.value + Width(p.dtype) <= g.base + g.count;
    assert GroupHolds(g, p.addr.value, Width(p.dtype));
  }

  predicate NoCompose(points: seq<Named<SourcePoint>>) {
    forall i :: 0 <= i < |points| ==> points[i].point.compose == None
  }

  predicate Located(p: SourcePoint, blocks: seq<Block>) {
    p.addr.Some? ==> Extract(p.addr.value, blocks, Width(p.dtype)).Some?
  }

  lemma DecodeHuaweiIff(p: SourcePoint, blocks: seq<Block>, wo: Order, bo: Order)
    requires p.ShapeAccepted() && Located(p, blocks)
    ensures DecodeHuawei(p, blocks, wo, bo).Some? <==> p.compose == None
  {
    if p.addr.Some? && p.dtype != Float32 {
      IntDecodingRange(Extract(p.addr.value, blocks, Width(p.dtype)).value, p.dtype, wo, bo);
    }
  }

  lemma NoComposeLast(points: seq<Named<SourcePoint>>, n: nat)
    requires n + 1 == |points|
    ensures NoCompose(points) <==> NoCompose(points[..n]) && points[n].point.compose == None
  {
    assert points == points[..n] + [points[n]];
  }

  lemma {:induction false} DecodedHuaweiIff(points: seq<Named<SourcePoint>>, blocks: seq<Block>, wo: Order, bo: Order)
    requires Shaped(points) && forall i :: 0 <= i < |points| ==> Located(points[i].point, blocks)
    ensures DecodedHuawei(points, blocks, wo, bo).Some? <==> NoCompose(points)
    decreases |points|
  {
    if points != [] {
      var n := |points| - 1;
      DecodedHuaweiIff(points[..n], blocks, wo, bo);
      DecodeHuaweiIff(points[n].point, blocks, wo, bo);
      NoComposeLast(points, n);
    }
  }

  /** The coverage rule skips composed points, which the SmartLogger decoder cannot read: an
      accepted map decodes on complete reads exactly when it composes nothing. */
  lemma HuaweiBreaksIffComposed(h: Hypotenuse, side: SourceSide, blocks: seq<Block>)
    requires side.Accepted() && side.readGroups.Some? && Complete(side.Groups(), blocks)
    ensures OutcomeHuawei(h, side, blocks) == Broken <==> !NoCompose(side.points)
  {
    forall i | 0 <= i < |side.points| ensures Located(side.points[i].point, blocks) {
      if side.points[i].point.addr.Some? { PointFound(side, blocks, i); }
    }
    DecodedHuaweiIff(side.points, blocks, side.wordOrder, side.byteOrder);
  }

  /** Such a SmartLogger map is accepted: one composed point, which the coverage rule skips. */
  lemma ComposedMapIsAccepted(h: Hypotenuse) returns (side: SourceSide, blocks: seq<Block>)
    ensures side.Accepted() && side.readGroups.Some? && Complete(side.Groups(), blocks)
    ensures OutcomeHuawei(h, side, blocks) == Broken
  {
    var p := SourcePoint(None, Some([0]), None, 1.0, 0.0, 1, Float32, Avg);
    side := SourceSide(Big, Big, [Named(PfTotal, p)], Some([ReadGroup(0, 2, None)]), 0, []);
    blocks := [Block(0, [0, 0])];
    assert side.points[0].point.compose.Some?;
    HuaweiBreaksIffComposed(h, side, blocks);
  }

  /** Whatever the responses of a poll are, a covered ND45 map never fails structurally. */
  lemma Nd45PollNeverBreaks(h: Hypotenuse, s: Source, responses: seq<Response>)
    requires s.Nd45? && Decodable(s) && Nd45Covered(s.side) && |responses| == |PollRequests(s)|
    ensures PollOutcome(h, s, responses) != Broken
  {
    if Gathered(READ_GROUPS, responses).Some? {
      GatheredIsComplete(READ_GROUPS, responses);
      Nd45NeverBreaks(s.side, Gathered(READ_GROUPS, responses).value);
    }
  }

  /** A poll of an accepted SmartLogger map fails structurally exactly when every block was read
      and some point is composed. */
  lemma HuaweiPollBreaksIff(h: Hypotenuse, s: Source, responses: seq<Response>)
    requires s.Huawei? && Decodable(s) && s.side.Accepted() && s.side.readGroups.Some? &&
             |responses| == |PollRequests(s)|
    ensures PollOutcome(h, s, responses) == Broken <==>
            Gathered(s.side.Groups(), responses).Some? && !NoCompose(s.side.points)
  {
    if Gathered(s.side.Groups(), responses).Some? {
      GatheredIsComplete(s.side.Groups(), responses);
      HuaweiBreaksIffComposed(h, s.side, Gathered(s.side.Groups(), responses).value);
    }
  }

  /** What the e2TANGO decoder needs of a point: an address, and at least the two registers of a float32. */
  predicate FloatReadable(points: seq<Named<SourcePoint>>) {
    forall i :: 0 <= i < |points| ==> points[i].point.compose == None && Width(points[i].point.dtype) >= 2
  }

  lemma {:induction false} DecodedEtangoSound(points: seq<Named<SourcePoint>>, blocks: seq<Block>, wo: Order, bo: Order)
    requires Shaped(points) && FloatReadable(points)
    requires forall i :: 0 <= i < |points| ==>
               Extract(points[i].point.addr.value, blocks, Width(points[i].point.dtype)).Some?
    ensures DecodedEtango(points, blocks, wo, bo) != Broken
    decreases |points|
  {
    if points != [] { DecodedEtangoSound(points[..|points| - 1], blocks, wo, bo); }
  }

  lemma {:induction false} ZeroReads(addr: int, blocks: seq<Block>, width: nat, wo: Order, bo: Order)
    requires forall b :: b in blocks ==> forall r :: r in b.regs ==> r == 0
    ensures var e := Extract(addr, blocks, width);
            e.Some? && width >= 2 ==> RegistersToFloat(e.value, wo, bo) == Fin(0.0)
    decreases |blocks|
  {
    if blocks != [] {
      if Holds(blocks[0], addr, width) {
        var e := Extract(addr, blocks, width).value;
        assert blocks[0] in blocks;
        if width >= 2 {
          var k := addr - blocks[0].base;
          assert e[0] == blocks[0].regs[k] && e[1] == blocks[0].regs[k + 1];
          assert blocks[0].regs[k] in blocks[0].regs && blocks[0].regs[k + 1] in blocks[0].regs;
          assert RegistersToBits(e, wo, bo) == 0;
        }
      } else {
        ZeroReads(addr, blocks[1..], width, wo, bo);
      }
    }
  }

  predicate ReadsZero(p: SourcePoint, blocks: seq<Block>, wo: Order, bo: Order) {
    p.addr.Some? ==>
      var e := Extract(p.addr.value, blocks, Width(p.dtype));
      e.Some? && (Width(p.dtype) >= 2 ==> RegistersToFloat(e.value, wo, bo) == Fin(0.0))
  }

  lemma DecodeEtangoZero(p: SourcePoint, blocks: seq<Block>, wo: Order, bo: Order)
    requires p.ShapeAccepted() && ReadsZero(p, blocks, wo, bo)
    ensures DecodeEtango(p, blocks, wo, bo).Undecodable? <==> p.compose.Some? || Width(p.dtype) < 2
    ensures !DecodeEtango(p, blocks, wo, bo).OutOfRange?
  {
  }

  lemma {:induction false} DecodedEtangoBreaks(points: seq<Named<SourcePoint>>, blocks: seq<Block>, wo: Order,
                                               bo: Order)
    requires Shaped(points)
    requires forall i :: 0 <= i < |points| ==> ReadsZero(points[i].point, blocks, wo, bo)
    ensures DecodedEtango(points, blocks, wo, bo) == Broken <==> !FloatReadable(points)
    ensures DecodedEtango(points, blocks, wo, bo) != Rejected
    decreases |points|
  {
    if points != [] {
      var n := |points| - 1;
      DecodedEtangoBreaks(points[..n], blocks, wo, bo);
      DecodeEtangoZero(points[n].point, blocks, wo, bo);
      assert points == points[..n] + [points[n]];
    }
  }

  lemma PointReadsZero(side: SourceSide, blocks: seq<Block>, i: nat)
    requires side.Accepted() && side.readGroups.Some? && Complete(side.Groups(), blocks)
    requires forall b :: b in blocks ==> forall r :: r in b.regs ==> r == 0
    requires i < |side.points| && side.points[i].point.addr.Some?
    ensures ReadsZero(side.points[i].point, blocks, side.wordOrder, side.byteOrder)
  {
    PointFound(side, blocks, i);
    var p := side.points[i].point;
    ZeroReads(p.addr.value, blocks, Width(p.dtype), side.wordOrder, side.byteOrder);
  }

  /** The accepted maps on which no complete read can break the e2TANGO decoder are exactly those
      with neither composed nor one-register points; the load-time checks demand neither. */
  lemma EtangoBreaksIffUnreadable(side: SourceSide)
    requires side.Accepted() && side.readGroups.Some?
    ensures (forall blocks :: Complete(side.Groups(), blocks) ==>
               DecodedEtango(side.points, blocks, side.wordOrder, side.byteOrder) != Broken)
            <==> FloatReadable(side.points)
  {
    if FloatReadable(side.points) {
      forall blocks | Complete(side.Groups(), blocks)
        ensures DecodedEtango(side.points, blocks, side.wordOrder, side.byteOrder) != Broken
      {
        forall i | 0 <= i < |side.points|
          ensures Extract(side.points[i].point.addr.value, blocks, Width(side.points[i].point.dtype)).Some?
        {
          PointFound(side, blocks, i);
        }
        DecodedEtangoSound(side.points, blocks, side.wordOrder, side.byteOrder);
      }
    } else {
      var blocks := CompleteReads((u, a) => 0, side.Groups(), 0, 0);
      assert Complete(side.Groups(), blocks);
      forall i | 0 <= i < |side.points|
        ensures ReadsZero(side.points[i].point, blocks, side.wordOrder, side.byteOrder)
      {
        if side.points[i].point.addr.Some? { PointReadsZero(side, blocks, i); }
      }
      DecodedEtangoBreaks(side.points, blocks, side.wordOrder, side.byteOrder);
    }
  }

  /** Such an e2TANGO map is accepted: one point of a one-register type. */
  lemma OneRegisterMapIsAccepted() returns (side: SourceSide, blocks: seq<Block>)
    ensures side.Accepted() && side.readGroups.Some? && Complete(side.Groups(), blocks)
    ensures DecodedEtango(side.points, blocks, side.wordOrder, side.byteOrder) == Broken
  {
    var p := SourcePoint(Some(0), None, None, 1.0, 0.0, 1, U16, Avg);
    side := SourceSide(Big, Big, [Named(PfTotal, p)], Some([ReadGroup(0, 2, None)]), 0, []);
    blocks := [Block(0, [0, 0])];
    assert side.Groups()[0] == ReadGroup(0, 2, None);
    assert side.InSomeGroup(p);
    assert side.points[..0] == [];
    assert DecodeEtango(p, blocks, Big, Big).Undecodable?;
  }

  /** Such a map is accepted: two blocks of different units over the same addresses. The point
      reads unit 1, although a block of unit 2 holds it as well. */
  lemma OverlappingUnitsAreAccepted() returns (side: SourceSide, mem: Memory)
    ensures side.Accepted() && side.readGroups.Some? && |side.points| == 1 && side.points[0].point.addr == Some(0)
    ensures ReadGroup(0, 2, Some(2)) in side.Groups()
    ensures Extract(0, CompleteReads(mem, side.Groups(), side.addressOffset, 0), 2) != Some(Stretch(mem, 2, 0, 2))
  {
    var p := SourcePoint(Some(0), None, None, 1.0, 0.0, 1, Float32, Avg);
    var groups := [ReadGroup(0, 2, Some(1)), ReadGroup(0, 2, Some(2))];
    side := SourceSide(Big, Big, [Named(PfTotal, p)], Some(groups), 0, []);
    mem := (unit, a) => if unit == 2 then 1 else 0;
    assert side.Groups()[0] == groups[0] && side.Groups()[1] == groups[1];
    assert GroupHolds(groups[0], 0, 2) && side.InSomeGroup(p);
    ExtractReadsMemory(mem, groups, 0, 0, 0, 2);
    assert Stretch(mem, 1, 0, 2)[0] == 0 && Stretch(mem, 2, 0, 2)[0] == 1;
  }

  // ----- What a returned sample contains

  lemma AliasesFinite(values: Values)
    requires AllFinite(values)
    ensures AllFinite(WithEnergyAliases(values))
  {
  }

  lemma {:induction false} ServedFinite(ds: seq<Decoded>)
    requires forall i :: 0 <= i < |ds| ==> Served(ds[i]).Fin?
    ensures AllFinite(ServedValues(ds))
    decreases |ds|
  {
    if ds != [] { ServedFinite(ds[..|ds| - 1]); }
  }

  lemma CleanParts(p: SourcePoint, parts: seq<Num>)
    requires p.ShapeAccepted() && |parts| == |PointAddresses(p)| && !OverRange(RawNd45(p, parts))
    ensures forall j :: 0 <= j < |parts| ==> !OverRange(parts[j])
  {
    NoneOverRange(parts);
    if p.compose == None {
      assert |parts| == 1 && RawNd45(p, parts) == parts[0];
    } else {
      FirstIsOverRange(parts);
    }
  }

  lemma {:induction false} FirstIsOverRange(parts: seq<Num>)
    ensures FirstOverRange(parts).Some? ==> OverRange(FirstOverRange(parts).value)
    decreases |parts|
  {
    if parts != [] { FirstIsOverRange(parts[1..]); }
  }

  lemma DecodedNotInvalid(np: Named<SourcePoint>, blocks: seq<Block>, wo: Order, bo: Order)
    requires np.point.ShapeAccepted() && DecodeNd45(np, blocks, wo, bo).Some?
    requires !DecodeNd45(np, blocks, wo, bo).value.invalid
    ensures var parts := Parts(PointAddresses(np.point), blocks, wo, bo);
            && parts.Some? && !OverRange(RawNd45(np.point, parts.value))
            && forall j :: 0 <= j < |parts.value| ==> !OverRange(parts.value[j])
  {
    CleanParts(np.point, Parts(PointAddresses(np.point), blocks, wo, bo).value);
  }

  lemma {:induction false} DecodedAt(points: seq<Named<SourcePoint>>, blocks: seq<Block>, wo: Order, bo: Order, i: nat)
    requires Shaped(points) && DecodedNd45(points, blocks, wo, bo).Some? && i < |points|
    ensures DecodeNd45(points[i], blocks, wo, bo) == Some(DecodedNd45(points, blocks, wo, bo).value[i])
    decreases |points|
  {
    var n := |points| - 1;
    if i < n { DecodedAt(points[..n], blocks, wo, bo, i); }
  }

  /** An ND45 sample that is returned at all is finite throughout, and for every critical point
      the raw value and each register pair it is composed of is below the sentinel threshold. */
  lemma ReturnedNd45SampleIsClean(side: SourceSide, blocks: seq<Block>, i: nat)
    requires Shaped(side.points) && OutcomeNd45(side, blocks).Good? && i < |side.points|
    ensures AllFinite(OutcomeNd45(side, blocks).values)
    ensures side.points[i].name !in OPTIONAL_INVALID_ZERO_POINTS ==>
              var p := side.points[i].point;
              var parts := Parts(PointAddresses(p), blocks, side.wordOrder, side.byteOrder);
              && parts.Some? && !OverRange(RawNd45(p, parts.value))
              && forall j :: 0 <= j < |parts.value| ==> !OverRange(parts.value[j])
  {
    var wo, bo := side.wordOrder, side.byteOrder;
    var ds := DecodedNd45(side.points, blocks, wo, bo).value;
    forall k | 0 <= k < |ds| ensures Served(ds[k]).Fin? {
      assert !Critical(ds[k]);
      DecodedAt(side.points, blocks, wo, bo, k);
    }
    ServedFinite(ds);
    AliasesFinite(ServedValues(ds));
    assert !Critical(ds[i]);
    DecodedAt(side.points, blocks, wo, bo, i);
    if side.points[i].name !in OPTIONAL_INVALID_ZERO_POINTS { DecodedNotInvalid(side.points[i], blocks, wo, bo); }
  }

  /** Whatever the source, a sample that reaches the store holds only finite values. */
  lemma EveryReturnedSampleFinite(h: Hypotenuse, s: Source, responses: seq<Response>)
    requires Decodable(s) && |responses| == |PollRequests(s)| && PollOutcome(h, s, responses).Good?
    ensures AllFinite(PollOutcome(h, s, responses).values)
  {
    match s
    case Nd45(side, _, _) =>
      var blocks := Gathered(READ_GROUPS, responses).value;
      if side.points == [] {
        AliasesFinite(map[]);
      } else {
        ReturnedNd45SampleIsClean(side, blocks, 0);
      }
    case Huawei(side, _, _) =>
      var blocks := Gathered(side.Groups(), responses).value;
      var v := DecodedHuawei(side.points, blocks, side.wordOrder, side.byteOrder).value;
      AliasesFinite(Scrubbed(Derived(h, Scrubbed(v), side.derive)));
    case Etango(side, devices) =>
      EtangoRequestCount(side, devices);
      FailingIsNotGood(h, side, devices, responses);
      AliasesFinite(Lift(Combined(side, Aggregating(devices, OutcomeDevices(h, side, devices, responses).readings))));
  }

  // ----- Over-range episodes of an ND45 bridge

  function PointNames(points: seq<Named<SourcePoint>>): (r: seq<Name>)
    ensures |r| == |points|
  {
    seq(|points|, i requires 0 <= i < |points| => points[i].name)
  }

  /** What each poll of a run observed. */
  function ObservedRun(side: SourceSide, polls: seq<seq<Block>>): (r: seq<seq<Episodes.Observation>>)
    requires Shaped(side.points)
    requires forall k :: 0 <= k < |polls| ==> DecodedNd45(side.points, polls[k], side.wordOrder, side.byteOrder).Some?
    ensures |r| == |polls|
  {
    seq(|polls|, k requires 0 <= k < |polls| =>
      Observations(DecodedNd45(side.points, polls[k], side.wordOrder, side.byteOrder).value))
  }

  /** Across any run of fully read ND45 polls, a channel is warned about exactly once per
      valid-to-invalid transition, rejected samples included, and the muted set is what was
      invalid in the last of them. */
  lemma OverRangeEpisodes(side: SourceSide, polls: seq<seq<Block>>, c: Name)
    requires Shaped(side.points) && DistinctNames(side.points) && Nd45Covered(side)
    requires forall k :: 0 <= k < |polls| ==> Complete(READ_GROUPS, polls[k])
    ensures forall k :: 0 <= k < |polls| ==> DecodedNd45(side.points, polls[k], side.wordOrder, side.byteOrder).Some?
    ensures var run := ObservedRun(side, polls);
            && multiset(Episodes.Run(true, run).warnings)[c] == Episodes.Rises(run, c)
            && (c in Episodes.Run(true, run).seen <==> run != [] && Episodes.Bad(run[|run| - 1], c))
  {
    forall k | 0 <= k < |polls|
      ensures DecodedNd45(side.points, polls[k], side.wordOrder, side.byteOrder).Some?
    {
      Nd45NeverBreaks(side, polls[k]);
    }
    Episodes.WarningsAreEpisodes(ObservedRun(side, polls), PointNames(side.points), c);
  }
}
