/** What the values of a returned sample say about the device: each is the conversion of the
    registers the device holds at the documented address, whatever blocks they came in. */
module DeviceReadings {
  import opened Codec
  import opened Combination
  import opened Common
  import opened Derive
  import HubCache
  import opened Pollers
  import opened PollerSoundness
  import opened RegisterMap
  import opened Sources

  lemma AliasesKeepOthers(values: Values, name: Name)
    requires name in values && name !in DERIVED_KEYS
    ensures name in WithEnergyAliases(values) && WithEnergyAliases(values)[name] == values[name]
  {
  }

  // ----- ND45

  predicate AllCovered(addrs: seq<int>) {
    forall a :: a in addrs ==> Covered(READ_GROUPS, a, 2)
  }

  /** The float32 values the meter held at these addresses, each when its block was read. */
  function DeviceParts(mems: seq<Memory>, unitId: int, addrs: seq<int>, wo: Order, bo: Order): (r: seq<Num>)
    requires |mems| == |READ_GROUPS| && AllCovered(addrs)
    ensures |r| == |addrs|
  {
    seq(|addrs|, j requires 0 <= j < |addrs| => DevicePart(mems, unitId, addrs[j], wo, bo))
  }

  function DevicePart(mems: seq<Memory>, unitId: int, a: int, wo: Order, bo: Order): Num
    requires |mems| == |READ_GROUPS| && Covered(READ_GROUPS, a, 2)
  {
    RegistersToFloat(Stretch(mems[Answering(READ_GROUPS, a, 2)], unitId, a, 2), wo, bo)
  }

  lemma ExtractPart(mems: seq<Memory>, unitId: int, a: int, wo: Order, bo: Order)
    requires |mems| == |READ_GROUPS| && Covered(READ_GROUPS, a, 2)
    ensures var e := Extract(a, SnapshotReads(mems, READ_GROUPS, 0, unitId), 2);
            e.Some? && RegistersToFloat(e.value, wo, bo) == DevicePart(mems, unitId, a, wo, bo)
  {
    ExtractReadsSnapshot(mems, READ_GROUPS, 0, unitId, a, 2);
  }

  predicate PartIs(a: int, blocks: seq<Block>, wo: Order, bo: Order, part: Num) {
    var e := Extract(a, blocks, 2);
    e.Some? && RegistersToFloat(e.value, wo, bo) == part
  }

  lemma {:induction false} PartsAre(addrs: seq<int>, blocks: seq<Block>, wo: Order, bo: Order, parts: seq<Num>)
    requires |parts| == |addrs| && forall j :: 0 <= j < |addrs| ==> PartIs(addrs[j], blocks, wo, bo, parts[j])
    ensures Parts(addrs, blocks, wo, bo) == Some(parts)
    decreases |addrs|
  {
    if addrs != [] {
      var n := |addrs| - 1;
      PartsAre(addrs[..n], blocks, wo, bo, parts[..n]);
      assert PartIs(addrs[n], blocks, wo, bo, parts[n]);
      assert parts == parts[..n] + [parts[n]];
    }
  }

  lemma PartsReadMemory(mems: seq<Memory>, unitId: int, addrs: seq<int>, wo: Order, bo: Order)
    requires |mems| == |READ_GROUPS| && AllCovered(addrs)
    ensures Parts(addrs, SnapshotReads(mems, READ_GROUPS, 0, unitId), wo, bo) ==
            Some(DeviceParts(mems, unitId, addrs, wo, bo))
  {
    var blocks, parts := SnapshotReads(mems, READ_GROUPS, 0, unitId), DeviceParts(mems, unitId, addrs, wo, bo);
    forall j | 0 <= j < |addrs| ensures PartIs(addrs[j], blocks, wo, bo, parts[j]) {
      assert addrs[j] in addrs;
      ExtractPart(mems, unitId, addrs[j], wo, bo);
    }
    PartsAre(addrs, blocks, wo, bo, parts);
  }

  lemma {:induction false} ServedAt(ds: seq<Decoded>, i: nat)
    requires i < |ds| && forall x, y :: 0 <= x < y < |ds| ==> ds[x].name != ds[y].name
    ensures ds[i].name in ServedValues(ds) && ServedValues(ds)[ds[i].name] == Served(ds[i])
    decreases |ds|
  {
    if i < |ds| - 1 { ServedAt(ds[..|ds| - 1], i); }
  }

  lemma PointCovered(side: SourceSide, i: nat)
    requires Nd45Covered(side) && i < |side.points|
    ensures AllCovered(PointAddresses(side.points[i].point))
  {
    forall a | a in PointAddresses(side.points[i].point) ensures Covered(READ_GROUPS, a, 2) {
      AddressCovered(side, i, a);
    }
  }

  /** What an ND45 point is worth given what the meter held: its conversion, or zero for a power
      factor the meter marks as out of range. */
  function Nd45Reading(mems: seq<Memory>, unitId: int, p: SourcePoint, wo: Order, bo: Order): Num
    requires |mems| == |READ_GROUPS| && p.ShapeAccepted() && AllCovered(PointAddresses(p))
  {
    var parts := DeviceParts(mems, unitId, PointAddresses(p), wo, bo);
    if OverRange(RawNd45(p, parts)) || OverRange(SiNd45(p, parts)) then Fin(0.0) else SiNd45(p, parts)
  }

  lemma Nd45ServedReading(mems: seq<Memory>, np: Named<SourcePoint>, unitId: int, wo: Order, bo: Order, d: Decoded)
    requires |mems| == |READ_GROUPS| && np.point.ShapeAccepted() && AllCovered(PointAddresses(np.point))
    requires DecodeNd45(np, SnapshotReads(mems, READ_GROUPS, 0, unitId), wo, bo) == Some(d) && !Critical(d)
    ensures Served(d) == Nd45Reading(mems, unitId, np.point, wo, bo)
  {
    PartsReadMemory(mems, unitId, PointAddresses(np.point), wo, bo);
  }

  /** Every value of a returned ND45 sample, energy aliases aside, is what the meter held at the
      addresses of its point. */
  lemma Nd45SampleReadsDevice(mems: seq<Memory>, side: SourceSide, unitId: int, i: nat)
    requires |mems| == |READ_GROUPS| && Shaped(side.points) && DistinctNames(side.points) && Nd45Covered(side)
    requires i < |side.points| && side.points[i].name !in DERIVED_KEYS
    requires OutcomeNd45(side, SnapshotReads(mems, READ_GROUPS, 0, unitId)).Good?
    ensures AllCovered(PointAddresses(side.points[i].point))
    ensures var values := OutcomeNd45(side, SnapshotReads(mems, READ_GROUPS, 0, unitId)).values;
            && side.points[i].name in values
            && values[side.points[i].name] ==
               Nd45Reading(mems, unitId, side.points[i].point, side.wordOrder, side.byteOrder)
  {
    var blocks := SnapshotReads(mems, READ_GROUPS, 0, unitId);
    var ds := DecodedNd45(side.points, blocks, side.wordOrder, side.byteOrder).value;
    PointCovered(side, i);
    DecodedAt(side.points, blocks, side.wordOrder, side.byteOrder, i);
    assert !Critical(ds[i]);
    ServedAt(ds, i);
    Nd45ServedReading(mems, side.points[i], unitId, side.wordOrder, side.byteOrder, ds[i]);
    AliasesKeepOthers(ServedValues(ds), side.points[i].name);
  }

  // ----- SmartLogger and e2TANGO

  /** The registers of a covered point as its device held them when its block was read. */
  function DeviceRegisters(mems: seq<Memory>, side: SourceSide, unitId: int, p: SourcePoint): (r: seq<Word>)
    requires |mems| == |side.Groups()| && p.addr.Some? && side.InSomeGroup(p)
    ensures |r| == Width(p.dtype)
  {
    AcceptedCovered(side, p);
    var addr, width := p.addr.value, Width(p.dtype);
    Stretch(mems[Answering(side.Groups(), addr, width)], AnsweringUnit(side.Groups(), unitId, addr, width),
            addr + side.addressOffset, width)
  }

  /** Complete reads of all blocks of a source. */
  function Snapshots(mems: seq<Memory>, side: SourceSide, unitId: int): (r: seq<Block>)
    requires |mems| == |side.Groups()|
  {
    SnapshotReads(mems, side.Groups(), side.addressOffset, unitId)
  }

  lemma PointReadsDevice(mems: seq<Memory>, side: SourceSide, unitId: int, p: SourcePoint)
    requires |mems| == |side.Groups()| && p.addr.Some? && side.InSomeGroup(p)
    ensures Extract(p.addr.value, Snapshots(mems, side, unitId), Width(p.dtype)) ==
            Some(DeviceRegisters(mems, side, unitId, p))
  {
    AcceptedCovered(side, p);
    ExtractReadsSnapshot(mems, side.Groups(), side.addressOffset, unitId, p.addr.value, Width(p.dtype));
  }

  /** What a SmartLogger point is worth given what the device held; NaN where the device marks it unavailable. */
  function HuaweiReading(mems: seq<Memory>, side: SourceSide, unitId: int, p: SourcePoint): Num
    requires |mems| == |side.Groups()| && p.addr.Some? && side.InSomeGroup(p)
  {
    var regs := DeviceRegisters(mems, side, unitId, p);
    if p.dtype == Float32 then Affine(RegistersToFloat(regs, side.wordOrder, side.byteOrder), p.scale, p.sign, p.offset)
    else
      IntDecodingRange(regs, p.dtype, side.wordOrder, side.byteOrder);
      DecodeIntPoint(regs, p.dtype, p.scale, p.sign, p.offset, side.wordOrder, side.byteOrder).value
  }

  lemma DecodedHuaweiLast(points: seq<Named<SourcePoint>>, blocks: seq<Block>, wo: Order, bo: Order, n: nat)
    requires n + 1 == |points| && DecodedHuawei(points, blocks, wo, bo).Some?
    ensures DecodedHuawei(points[..n], blocks, wo, bo).Some? && DecodeHuawei(points[n].point, blocks, wo, bo).Some?
    ensures DecodedHuawei(points, blocks, wo, bo).value ==
            var last := DecodeHuawei(points[n].point, blocks, wo, bo).value;
            DecodedHuawei(points[..n], blocks, wo, bo).value[points[n].name := last]
  {
  }

  lemma {:induction false} DecodedHuaweiAt(points: seq<Named<SourcePoint>>, blocks: seq<Block>, wo: Order, bo: Order,
                                           i: nat)
    requires DistinctNames(points) && i < |points| && DecodedHuawei(points, blocks, wo, bo).Some?
    ensures var v := DecodedHuawei(points, blocks, wo, bo).value;
            points[i].name in v && DecodeHuawei(points[i].point, blocks, wo, bo) == Some(v[points[i].name])
    decreases |points|
  {
    var n := |points| - 1;
    DecodedHuaweiLast(points, blocks, wo, bo, n);
    if i < n { DecodedHuaweiAt(points[..n], blocks, wo, bo, i); }
  }

  lemma HuaweiValueKept(h: Hypotenuse, v: Values, ops: seq<DeriveOp>, name: Name)
    requires OpsAccepted(ops) && name in v && name !in DeriveTargets(ops) && name !in DERIVED_KEYS
    ensures var r := WithEnergyAliases(Scrubbed(Derived(h, Scrubbed(v), ops)));
            name in r && r[name] == if v[name].Fin? then v[name] else Fin(0.0)
  {
    DerivedFrame(h, Scrubbed(v), ops);
    AliasesKeepOthers(Scrubbed(Derived(h, Scrubbed(v), ops)), name);
  }

  /** Every value of a SmartLogger sample that no derive step and no alias writes is what the
      device held at its point's address, or zero when that is not a finite number. */
  lemma HuaweiSampleReadsDevice(h: Hypotenuse, mems: seq<Memory>, side: SourceSide, unitId: int, i: nat)
    requires |mems| == |side.Groups()| && side.Accepted() && side.readGroups.Some? && i < |side.points|
    requires side.points[i].name !in DERIVED_KEYS && side.points[i].name !in DeriveTargets(side.derive)
    requires OutcomeHuawei(h, side, Snapshots(mems, side, unitId)).Good?
    ensures side.points[i].point.addr.Some? && side.InSomeGroup(side.points[i].point)
    ensures var values := OutcomeHuawei(h, side, Snapshots(mems, side, unitId)).values;
            var reading := HuaweiReading(mems, side, unitId, side.points[i].point);
            && side.points[i].name in values
            && values[side.points[i].name] == if reading.Fin? then reading else Fin(0.0)
  {
    var blocks := Snapshots(mems, side, unitId);
    var v := DecodedHuawei(side.points, blocks, side.wordOrder, side.byteOrder).value;
    DecodedHuaweiAt(side.points, blocks, side.wordOrder, side.byteOrder, i);
    assert side.InSomeGroup(side.points[i].point);
    PointReadsDevice(mems, side, unitId, side.points[i].point);
    HuaweiValueKept(h, v, side.derive, side.points[i].name);
  }

  lemma {:induction false} DecodedEtangoAt(points: seq<Named<SourcePoint>>, blocks: seq<Block>, wo: Order, bo: Order,
                                           i: nat)
    requires DistinctNames(points) && i < |points| && DecodedEtango(points, blocks, wo, bo).Good?
    ensures var v := DecodedEtango(points, blocks, wo, bo).values;
            points[i].name in v && DecodeEtango(points[i].point, blocks, wo, bo) == Value(v[points[i].name])
    decreases |points|
  {
    var n := |points| - 1;
    if i < n { DecodedEtangoAt(points[..n], blocks, wo, bo, i); }
  }

  /** Every value of one accepted e2TANGO device that no derive step writes is the conversion of
      an in-range float the device holds. */
  lemma EtangoDeviceReadsDevice(h: Hypotenuse, mems: seq<Memory>, side: SourceSide, unitId: int, i: nat)
    requires |mems| == |side.Groups()| && side.Accepted() && side.readGroups.Some? && i < |side.points|
    requires side.points[i].name !in DeriveTargets(side.derive)
    requires OutcomeDevice(h, side, Snapshots(mems, side, unitId)).Good?
    ensures var p := side.points[i].point;
            var values := OutcomeDevice(h, side, Snapshots(mems, side, unitId)).values;
            && p.addr.Some? && side.InSomeGroup(p) && Width(p.dtype) >= 2 && side.points[i].name in values
            && var raw := RegistersToFloat(DeviceRegisters(mems, side, unitId, p), side.wordOrder, side.byteOrder);
               !OverRange(raw) && values[side.points[i].name] == Affine(raw, p.scale, p.sign, p.offset)
  {
    var blocks := Snapshots(mems, side, unitId);
    var p := side.points[i].point;
    DecodedEtangoAt(side.points, blocks, side.wordOrder, side.byteOrder, i);
    assert side.InSomeGroup(p);
    PointReadsDevice(mems, side, unitId, p);
    DerivedFrame(h, DecodedEtango(side.points, blocks, side.wordOrder, side.byteOrder).values, side.derive);
  }

  lemma FirstDeviceOutcome(
      h: Hypotenuse, side: SourceSide, devices: seq<Device>, responses: seq<HubCache.Response>, n: nat,
      blocks: seq<Block>)
    requires devices != [] && n == |side.Groups()| && OpsAccepted(side.derive) && |responses| == |devices| * n
    requires n <= |responses| && Gathered(side.Groups(), responses[..n]) == Some(blocks)
    requires OutcomeDevices(h, side, devices, responses).Group?
    ensures |responses[n..]| == |devices[1..]| * n
    ensures var one, rest := OutcomeDevice(h, side, blocks), OutcomeDevices(h, side, devices[1..], responses[n..]);
            && one.Good? && rest.Group?
            && OutcomeDevices(h, side, devices, responses).readings == [one.values] + rest.readings
  {
    FirstChunk(|responses|, |devices|, n);
  }

  /** A returned e2TANGO sample holds, alias names aside, the combination of what the
      aggregating devices decoded and derived, and nothing of the others. */
  lemma EtangoSampleCombines(h: Hypotenuse, side: SourceSide, devices: seq<Device>, responses: seq<HubCache.Response>,
                             name: Name)
    requires OpsAccepted(side.derive) && |responses| == |devices| * |side.Groups()|
    requires OutcomeEtango(h, side, devices, responses).Good? && name !in DERIVED_KEYS
    ensures OutcomeDevices(h, side, devices, responses).Group?
    ensures var values := OutcomeEtango(h, side, devices, responses).values;
            var readings := Readings(Aggregating(devices, OutcomeDevices(h, side, devices, responses).readings), name);
            && (name in values <==> readings != [])
            && (readings != [] ==> values[name] == Fin(CombinedValue(Mode(side, name), readings)))
  {
    FailingIsNotGood(h, side, devices, responses);
    var rs := Aggregating(devices, OutcomeDevices(h, side, devices, responses).readings);
    ReadingsExist(rs, name);
    if name in Combined(side, rs) { AliasesKeepOthers(Lift(Combined(side, rs)), name); }
  }
}
