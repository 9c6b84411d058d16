/** What the values of a returned sample are, in plain arithmetic, and exactly when there is one. */
module SampleMeaning {
  import opened Codec
  import opened Combination
  import opened CombinationMeaning
  import opened Common
  import opened Decoding
  import opened Derive
  import opened DeriveMeaning
  import opened DeviceReadings
  import opened HubCache
  import opened Pollers
  import opened PollerSoundness
  import opened RegisterMap
  import opened Sources

  // ----- Energy aliases

  /** Net import and export repeat the totals, zero where a total is missing, and the active energy is
      their sum. */
  predicate AliasesRight(v: Values) {
    && NetImpEnergyTotal in v && NetExpEnergyTotal in v && ActiveEnergyTotal in v
    && v[NetImpEnergyTotal] == (if ImpEnergyTotal in v then v[ImpEnergyTotal] else Fin(0.0))
    && v[NetExpEnergyTotal] == (if ExpEnergyTotal in v then v[ExpEnergyTotal] else Fin(0.0))
    && v[NetImpEnergyTotal].Fin? && v[NetExpEnergyTotal].Fin?
    && v[ActiveEnergyTotal] == Fin(v[NetImpEnergyTotal].r + v[NetExpEnergyTotal].r)
  }

  lemma AliasAt(values: Values, name: Name)
    requires name == NetImpEnergyTotal || name == NetExpEnergyTotal || name == ActiveEnergyTotal
    ensures name in DERIVED_KEYS
    ensures name in WithEnergyAliases(values) && WithEnergyAliases(values)[name] == AfterAliases(values, name)
  {
  }

  lemma TotalsKept(values: Values, name: Name)
    requires name == ImpEnergyTotal || name == ExpEnergyTotal
    ensures name in WithEnergyAliases(values) <==> name in values
    ensures name in values ==> WithEnergyAliases(values)[name] == values[name]
  {
  }

  /** A total as it was reported, zero where it was not. */
  function Reported(values: Values, name: Name): Num {
    if name in values then values[name] else Fin(0.0)
  }

  lemma NetAliases(values: Values)
    ensures NetImpEnergyTotal in DERIVED_KEYS && NetExpEnergyTotal in DERIVED_KEYS
    ensures AfterAliases(values, NetImpEnergyTotal) == Reported(values, ImpEnergyTotal)
    ensures AfterAliases(values, NetExpEnergyTotal) == Reported(values, ExpEnergyTotal)
  {
  }

  lemma ActiveAlias(values: Values, imp: real, exp: real)
    requires Reported(values, ImpEnergyTotal) == Fin(imp) && Reported(values, ExpEnergyTotal) == Fin(exp)
    ensures ActiveEnergyTotal in DERIVED_KEYS && AfterAliases(values, ActiveEnergyTotal) == Fin(imp + exp)
  {
  }

  predicate Has(r: Values, name: Name, x: Num) {
    name in r && r[name] == x
  }

  lemma NetFilled(values: Values, imp: real, exp: real)
    requires Reported(values, ImpEnergyTotal) == Fin(imp) && Reported(values, ExpEnergyTotal) == Fin(exp)
    ensures Has(WithEnergyAliases(values), NetImpEnergyTotal, Fin(imp))
    ensures Has(WithEnergyAliases(values), NetExpEnergyTotal, Fin(exp))
  {
    AliasAt(values, NetImpEnergyTotal);
    AliasAt(values, NetExpEnergyTotal);
    NetAliases(values);
  }

  lemma ActiveFilled(values: Values, imp: real, exp: real)
    requires Reported(values, ImpEnergyTotal) == Fin(imp) && Reported(values, ExpEnergyTotal) == Fin(exp)
    ensures Has(WithEnergyAliases(values), ActiveEnergyTotal, Fin(imp + exp))
  {
    AliasAt(values, ActiveEnergyTotal);
    ActiveAlias(values, imp, exp);
  }

  lemma TotalsFilled(values: Values, imp: real, exp: real)
    requires Reported(values, ImpEnergyTotal) == Fin(imp) && Reported(values, ExpEnergyTotal) == Fin(exp)
    ensures Reported(WithEnergyAliases(values), ImpEnergyTotal) == Fin(imp)
    ensures Reported(WithEnergyAliases(values), ExpEnergyTotal) == Fin(exp)
  {
    TotalsKept(values, ImpEnergyTotal);
    TotalsKept(values, ExpEnergyTotal);
  }

  lemma AliasesCombine(r: Values, imp: real, exp: real)
    requires Reported(r, ImpEnergyTotal) == Fin(imp) && Reported(r, ExpEnergyTotal) == Fin(exp)
    requires Has(r, NetImpEnergyTotal, Fin(imp)) && Has(r, NetExpEnergyTotal, Fin(exp))
    requires Has(r, ActiveEnergyTotal, Fin(imp + exp))
    ensures AliasesRight(r)
  {
  }

  lemma AliasesRightFor(values: Values, imp: real, exp: real)
    requires Reported(values, ImpEnergyTotal) == Fin(imp) && Reported(values, ExpEnergyTotal) == Fin(exp)
    ensures AliasesRight(WithEnergyAliases(values))
  {
    NetFilled(values, imp, exp);
    ActiveFilled(values, imp, exp);
    TotalsFilled(values, imp, exp);
    AliasesCombine(WithEnergyAliases(values), imp, exp);
  }

  lemma AliasesFilledRight(values: Values)
    requires ImpEnergyTotal in values ==> values[ImpEnergyTotal].Fin?
    requires ExpEnergyTotal in values ==> values[ExpEnergyTotal].Fin?
    ensures AliasesRight(WithEnergyAliases(values))
  {
    AliasesRightFor(values, Reported(values, ImpEnergyTotal).r, Reported(values, ExpEnergyTotal).r);
  }

  /** Every sample any of the three pollers returns has them right. */
  lemma SampleAliases(h: Hypotenuse, s: Source, responses: seq<Response>)
    requires Decodable(s) && |responses| == |PollRequests(s)| && PollOutcome(h, s, responses).Good?
    ensures AliasesRight(PollOutcome(h, s, responses).values)
  {
    match s
    case Nd45(side, _, _) => Nd45Aliases(side, Gathered(READ_GROUPS, responses).value);
    case Huawei(side, _, _) =>
      var blocks := Gathered(side.Groups(), responses).value;
      var v := DecodedHuawei(side.points, blocks, side.wordOrder, side.byteOrder).value;
      AliasesFilledRight(Scrubbed(Derived(h, Scrubbed(v), side.derive)));
    case Etango(side, devices) =>
      EtangoRequestCount(side, devices);
      FailingIsNotGood(h, side, devices, responses);
      var readings := OutcomeDevices(h, side, devices, responses).readings;
      AliasesFilledRight(Lift(Combined(side, Aggregating(devices, readings))));
  }

  lemma Nd45Aliases(side: SourceSide, blocks: seq<Block>)
    requires Shaped(side.points) && OutcomeNd45(side, blocks).Good?
    ensures AliasesRight(OutcomeNd45(side, blocks).values)
  {
    var ds := DecodedNd45(side.points, blocks, side.wordOrder, side.byteOrder).value;
    forall k | 0 <= k < |ds| ensures Served(ds[k]).Fin? {
      assert !Critical(ds[k]);
      DecodedAt(side.points, blocks, side.wordOrder, side.byteOrder, k);
    }
    ServedFinite(ds);
    AliasesFilledRight(ServedValues(ds));
  }

  // ----- ND45 points

  /** Strictly inside the measuring range. */
  predicate Valid(x: Num) {
    x.Fin? && -100000000000000000000.0 < x.r < 100000000000000000000.0
  }

  lemma ValidIsInRange(x: Num)
    ensures Valid(x) <==> !OverRange(x)
  {
  }

  predicate AllNumbers(parts: seq<Num>) {
    forall j :: 0 <= j < |parts| ==> parts[j].Fin?
  }

  predicate AllValid(parts: seq<Num>) {
    forall j :: 0 <= j < |parts| ==> Valid(parts[j])
  }

  function Numbers(parts: seq<Num>): (r: seq<real>)
    requires AllNumbers(parts)
    ensures |r| == |parts|
  {
    seq(|parts|, j requires 0 <= j < |parts| => parts[j].r)
  }

  /** The sum of the products, first to last. */
  function Dot(xs: seq<real>, fs: seq<real>): real
    requires |xs| == |fs|
    decreases |xs|
  {
    if xs == [] then 0.0 else xs[0] * fs[0] + Dot(xs[1..], fs[1..])
  }

  lemma {:induction false} DotAppend(xs: seq<real>, fs: seq<real>, x: real, f: real)
    requires |xs| == |fs|
    ensures Dot(xs + [x], fs + [f]) == Dot(xs, fs) + x * f
    decreases |xs|
  {
    if xs == [] {
      assert [x][1..] == [] && [f][1..] == [] && xs + [x] == [x] && fs + [f] == [f];
      assert Dot([], []) == 0.0;
    } else {
      assert (xs + [x])[1..] == xs[1..] + [x] && (fs + [f])[1..] == fs[1..] + [f];
      DotAppend(xs[1..], fs[1..], x, f);
    }
  }

  lemma {:induction false} WeightedIsDot(parts: seq<Num>, fs: seq<real>)
    requires |fs| == |parts| && AllNumbers(parts)
    ensures Weighted(parts, fs) == Dot(Numbers(parts), fs)
    decreases |parts|
  {
    if parts != [] {
      var n := |parts| - 1;
      WeightedIsDot(parts[..n], fs[..n]);
      DotAppend(Numbers(parts[..n]), fs[..n], parts[n].r, fs[n]);
      assert Numbers(parts) == Numbers(parts[..n]) + [parts[n].r] && fs == fs[..n] + [fs[n]];
    }
  }

  /** The factors of a composed point, ones where the map gives none. */
  function FactorsOf(p: SourcePoint, n: nat): (fs: seq<real>)
    requires p.factors.Some? ==> |p.factors.value| == n
    ensures |fs| == n
  {
    if p.factors.Some? then p.factors.value else seq(n, _ => 1.0)
  }

  /** The raw number of a point: its own register pair, or the weighted sum of those it is made of. */
  function RawNumber(p: SourcePoint, parts: seq<Num>): real
    requires p.ShapeAccepted() && |parts| == |PointAddresses(p)| && AllNumbers(parts)
  {
    if p.compose == None then parts[0].r else Dot(Numbers(parts), FactorsOf(p, |parts|))
  }

  /** Every part, the raw number and its conversion are in range. */
  predicate ValidPoint(p: SourcePoint, parts: seq<Num>)
    requires p.ShapeAccepted() && |parts| == |PointAddresses(p)|
  {
    && AllValid(parts) && AllNumbers(parts)
    && Valid(Fin(RawNumber(p, parts)))
    && Valid(Fin(Converted(RawNumber(p, parts), p.scale, p.sign, p.offset)))
  }

  lemma PointMeans(p: SourcePoint, parts: seq<Num>)
    requires p.ShapeAccepted() && |parts| == |PointAddresses(p)|
    ensures ValidPoint(p, parts) <==> !OverRange(RawNd45(p, parts)) && !OverRange(SiNd45(p, parts))
    ensures ValidPoint(p, parts) ==> SiNd45(p, parts) == Fin(Converted(RawNumber(p, parts), p.scale, p.sign, p.offset))
  {
    NoneOverRange(parts);
    forall j | 0 <= j < |parts| ensures Valid(parts[j]) <==> !OverRange(parts[j]) {
      ValidIsInRange(parts[j]);
    }
    if AllValid(parts) {
      AllValidMeans(p, parts);
    } else if p.compose.Some? {
      FirstIsOverRange(parts);
    }
  }

  lemma AllValidMeans(p: SourcePoint, parts: seq<Num>)
    requires p.ShapeAccepted() && |parts| == |PointAddresses(p)| && AllValid(parts)
    ensures AllNumbers(parts)
    ensures RawNd45(p, parts) == Fin(RawNumber(p, parts))
    ensures SiNd45(p, parts) == Fin(Converted(RawNumber(p, parts), p.scale, p.sign, p.offset))
  {
    NoneOverRange(parts);
    forall j | 0 <= j < |parts| ensures !OverRange(parts[j]) {
      ValidIsInRange(parts[j]);
    }
    if p.compose.Some? { WeightedIsDot(parts, FactorsOf(p, |parts|)); }
    AffineMeans(RawNumber(p, parts), p.scale, p.sign, p.offset);
  }

  /** The points whose invalid readings become zero instead of rejecting the sample. */
  predicate Optional(name: Name) {
    name == PfL1 || name == PfL2 || name == PfL3 || name == PfTotal
  }

  lemma OptionalIs(name: Name)
    ensures Optional(name) <==> name in OPTIONAL_INVALID_ZERO_POINTS
  {
  }

  /** What an ND45 point is worth: the converted number when it is in range, zero otherwise. */
  lemma Nd45ReadingMeans(mems: seq<Memory>, unitId: int, p: SourcePoint, wo: Order, bo: Order)
    requires |mems| == |READ_GROUPS| && p.ShapeAccepted() && AllCovered(PointAddresses(p))
    ensures var parts := DeviceParts(mems, unitId, PointAddresses(p), wo, bo);
            Nd45Reading(mems, unitId, p, wo, bo) ==
            Fin(if ValidPoint(p, parts) then Converted(RawNumber(p, parts), p.scale, p.sign, p.offset) else 0.0)
  {
    PointMeans(p, DeviceParts(mems, unitId, PointAddresses(p), wo, bo));
  }

  /** A fully read ND45 poll returns a sample exactly when every point that is not optional is valid. */
  lemma Nd45GoodIff(side: SourceSide, blocks: seq<Block>)
    requires Shaped(side.points) && Nd45Covered(side) && Complete(READ_GROUPS, blocks)
    ensures forall i :: 0 <= i < |side.points| ==>
              Parts(PointAddresses(side.points[i].point), blocks, side.wordOrder, side.byteOrder).Some?
    ensures OutcomeNd45(side, blocks).Good? <==>
            forall i :: 0 <= i < |side.points| && !Optional(side.points[i].name) ==>
              ValidPoint(side.points[i].point,
                         Parts(PointAddresses(side.points[i].point), blocks, side.wordOrder, side.byteOrder).value)
    ensures !OutcomeNd45(side, blocks).Good? ==> OutcomeNd45(side, blocks) == Rejected
  {
    var wo, bo := side.wordOrder, side.byteOrder;
    Nd45NeverBreaks(side, blocks);
    var ds := DecodedNd45(side.points, blocks, wo, bo).value;
    forall i | 0 <= i < |side.points|
      ensures Parts(PointAddresses(side.points[i].point), blocks, wo, bo).Some?
      ensures var parts := Parts(PointAddresses(side.points[i].point), blocks, wo, bo).value;
              Critical(ds[i]) <==> !Optional(side.points[i].name) && !ValidPoint(side.points[i].point, parts)
    {
      DecodedAt(side.points, blocks, wo, bo, i);
      CriticalMeans(side.points[i], blocks, wo, bo, ds[i]);
    }
  }

  lemma CriticalMeans(np: Named<SourcePoint>, blocks: seq<Block>, wo: Order, bo: Order, d: Decoded)
    requires np.point.ShapeAccepted() && DecodeNd45(np, blocks, wo, bo) == Some(d)
    ensures Parts(PointAddresses(np.point), blocks, wo, bo).Some?
    ensures var parts := Parts(PointAddresses(np.point), blocks, wo, bo).value;
            Critical(d) <==> !Optional(np.name) && !ValidPoint(np.point, parts)
  {
    PointMeans(np.point, Parts(PointAddresses(np.point), blocks, wo, bo).value);
    OptionalIs(np.name);
  }

  /** A SmartLogger poll of an accepted map without composed points returns a sample exactly when every
      block was read completely, and then whatever the values are. */
  lemma HuaweiGoodIff(h: Hypotenuse, s: Source, responses: seq<Response>)
    requires s.Huawei? && Decodable(s) && s.side.Accepted() && s.side.readGroups.Some? &&
             |responses| == |PollRequests(s)|
    requires NoCompose(s.side.points)
    ensures PollOutcome(h, s, responses).Good? <==>
            forall i :: 0 <= i < |responses| ==>
              responses[i].Ok? && |responses[i].registers| >= s.side.Groups()[i].count
  {
    HuaweiPollBreaksIff(h, s, responses);
    if Gathered(s.side.Groups(), responses).Some? {
      assert OutcomeHuawei(h, s.side, Gathered(s.side.Groups(), responses).value) != Rejected;
    }
    forall i | 0 <= i < |responses|
      ensures GoodRead(responses[i], s.side.Groups()[i].count) <==>
              responses[i].Ok? && |responses[i].registers| >= s.side.Groups()[i].count
    {
    }
  }

  // ----- SmartLogger and e2TANGO points

  /** What a SmartLogger point is worth: the converted float or integer, NaN where it is marked unavailable. */
  lemma HuaweiReadingMeans(mems: seq<Memory>, side: SourceSide, unitId: int, p: SourcePoint)
    requires |mems| == |side.Groups()| && p.addr.Some? && side.InSomeGroup(p)
    ensures var regs := DeviceRegisters(mems, side, unitId, p);
            if p.dtype == Float32 then
              var x := RegistersToFloat(regs, side.wordOrder, side.byteOrder);
              x.Fin? ==> HuaweiReading(mems, side, unitId, p) == Fin(Converted(x.r, p.scale, p.sign, p.offset))
            else
              var raw := RegistersToInt(regs, p.dtype, side.wordOrder, side.byteOrder);
              && raw.Some?
              && HuaweiReading(mems, side, unitId, p) ==
                 if raw.value == Unavailable(p.dtype) then NaN
                 else Fin(Converted(raw.value as real, p.scale, p.sign, p.offset))
  {
    var regs := DeviceRegisters(mems, side, unitId, p);
    if p.dtype == Float32 {
      var x := RegistersToFloat(regs, side.wordOrder, side.byteOrder);
      if x.Fin? { AffineMeans(x.r, p.scale, p.sign, p.offset); }
    } else {
      IntDecodingRange(regs, p.dtype, side.wordOrder, side.byteOrder);
      IntPointMeans(regs, p.dtype, p.scale, p.sign, p.offset, side.wordOrder, side.byteOrder);
    }
  }

  /** The sum and the number of the aggregating devices that have a value, over what each returned. */
  function SumAggregating(devices: seq<Device>, readings: seq<Values>, key: Name): real
    requires |readings| == |devices|
    decreases |devices|
  {
    if devices == [] then 0.0
    else
      var here := devices[0].aggregate && key in readings[0] && readings[0][key].Fin?;
      (if here then readings[0][key].r else 0.0) + SumAggregating(devices[1..], readings[1..], key)
  }

  function CountAggregating(devices: seq<Device>, readings: seq<Values>, key: Name): nat
    requires |readings| == |devices|
    decreases |devices|
  {
    if devices == [] then 0
    else
      var here := devices[0].aggregate && key in readings[0] && readings[0][key].Fin?;
      (if here then 1 else 0) + CountAggregating(devices[1..], readings[1..], key)
  }

  lemma {:induction false} SumOverCons(x: Reading, rest: seq<Reading>, key: Name)
    ensures SumOver([x] + rest, key) == (if key in x then x[key] else 0.0) + SumOver(rest, key)
    ensures CountOver([x] + rest, key) == (if key in x then 1 else 0) + CountOver(rest, key)
    decreases |rest|
  {
    var all := [x] + rest;
    if rest == [] {
      assert all == [x] && all[..0] == [];
    } else {
      var n := |rest| - 1;
      assert all[..|all| - 1] == [x] + rest[..n] && all[|all| - 1] == rest[n];
      SumOverCons(x, rest[..n], key);
    }
  }

  lemma {:induction false} AggregatingAdds(devices: seq<Device>, readings: seq<Values>, key: Name)
    requires |readings| == |devices|
    ensures SumOver(Aggregating(devices, readings), key) == SumAggregating(devices, readings, key)
    ensures CountOver(Aggregating(devices, readings), key) == CountAggregating(devices, readings, key)
    decreases |devices|
  {
    if devices != [] {
      var rest := Aggregating(devices[1..], readings[1..]);
      AggregatingAdds(devices[1..], readings[1..], key);
      if devices[0].aggregate {
        SumOverCons(Reals(readings[0]), rest, key);
        assert Aggregating(devices, readings) == [Reals(readings[0])] + rest;
      } else {
        assert Aggregating(devices, readings) == rest;
      }
    }
  }

  /** A value of a returned e2TANGO sample, aliases aside, is the sum of what the aggregating devices
      returned when the map wants it summed, and that sum over their number otherwise. */
  lemma EtangoValueMeans(h: Hypotenuse, side: SourceSide, devices: seq<Device>, responses: seq<Response>, key: Name)
    requires OpsAccepted(side.derive) && |responses| == |devices| * |side.Groups()|
    requires DistinctNames(side.points) && Produced(side, key) && key !in DERIVED_KEYS
    requires OutcomeEtango(h, side, devices, responses).Good?
    ensures OutcomeDevices(h, side, devices, responses).Group?
    ensures var values := OutcomeEtango(h, side, devices, responses).values;
            var readings := OutcomeDevices(h, side, devices, responses).readings;
            var sum, count := SumAggregating(devices, readings, key), CountAggregating(devices, readings, key);
            && (key in values <==> count > 0)
            && (count > 0 ==> values[key] == Fin(if WantsSum(side, key) then sum else sum / count as real))
  {
    EtangoSampleCombines(h, side, devices, responses, key);
    var rs := Aggregating(devices, OutcomeDevices(h, side, devices, responses).readings);
    ReadingsAdd(rs, key);
    ModeMeans(side, key);
    AggregatingAdds(devices, OutcomeDevices(h, side, devices, responses).readings, key);
  }

  // ----- Derived values of a SmartLogger sample

  lemma ScrubbedMeans(v: Values, name: Name)
    requires name in v
    ensures name in Scrubbed(v) && Scrubbed(v)[name] == if v[name].Fin? then v[name] else Fin(0.0)
  {
  }

  /** What a derive step writes is what it makes of the decoded points, those that are not numbers
      taken as zero, and of what the earlier steps wrote; a result that is no number is served as zero. */
  lemma HuaweiDerivedMeans(h: Hypotenuse, side: SourceSide, blocks: seq<Block>, pre: seq<DeriveOp>, op: DeriveOp,
                           post: seq<DeriveOp>, t: Name)
    requires OpsAccepted(pre) && op.ArityAccepted() && OpsAccepted(post) && side.derive == pre + [op] + post
    requires OpsAccepted(side.derive) && OutcomeHuawei(h, side, blocks).Good?
    requires t in op.targets && t !in DeriveTargets(post) && t !in DERIVED_KEYS
    ensures DecodedHuawei(side.points, blocks, side.wordOrder, side.byteOrder).Some?
    ensures var v := DecodedHuawei(side.points, blocks, side.wordOrder, side.byteOrder).value;
            var at := Derive.Applied(h, Derived(h, Scrubbed(v), pre), op);
            && t in at && t in OutcomeHuawei(h, side, blocks).values
            && OutcomeHuawei(h, side, blocks).values[t] == if at[t].Fin? then at[t] else Fin(0.0)
  {
    var v := DecodedHuawei(side.points, blocks, side.wordOrder, side.byteOrder).value;
    InFinishedSample(h, Scrubbed(v), pre, op, post, t);
    ScrubbedMeans(Derived(h, Scrubbed(v), side.derive), t);
    AliasesKeepOthers(Scrubbed(Derived(h, Scrubbed(v), side.derive)), t);
  }

  // ----- What a poll asks for

  lemma Nd45Requests(side: SourceSide, unitId: int, link: string)
    ensures PollRequests(Nd45(side, unitId, link)) ==
            [Request(link, unitId, 3, 50, 96), Request(link, unitId, 3, 818, 2), Request(link, unitId, 3, 900, 96)]
  {
  }

  /** One declared block of one device on the wire. */
  function BlockRequest(g: ReadGroup, offset: int, fc: int, unitId: int, link: string): Request {
    Request(link, if g.unitId == None then unitId else g.unitId.value, fc, g.base + offset, g.count)
  }

  /** A SmartLogger poll reads the holding registers of its blocks, shifted by the address offset. */
  lemma HuaweiRequests(side: SourceSide, unitId: int, link: string, g: nat)
    requires g < |side.Groups()|
    ensures |PollRequests(Huawei(side, unitId, link))| == |side.Groups()|
    ensures PollRequests(Huawei(side, unitId, link))[g] ==
            BlockRequest(side.Groups()[g], side.addressOffset, 3, unitId, link)
  {
  }

  /** The requests of one device follow those of the devices before it. */
  lemma {:induction false} RequestAt(side: SourceSide, devices: seq<Device>, d: nat, before: nat, g: nat)
    requires d < |devices| && g < |side.Groups()| && before == d * |side.Groups()|
    ensures before + g < |EtangoRequests(side, devices)|
    ensures EtangoRequests(side, devices)[before + g] ==
            BlockRequest(side.Groups()[g], side.addressOffset, 4, devices[d].unitId, devices[d].link)
    decreases d
  {
    if d > 0 {
      var n := |side.Groups()|;
      FirstChunk(before, d, n);
      RequestAt(side, devices[1..], d - 1, before - n, g);
      var first := DeviceRequests(side.Groups(), side.addressOffset, FC_INPUT, devices[0].unitId, devices[0].link);
      var rest := EtangoRequests(side, devices[1..]);
      assert EtangoRequests(side, devices) == first + rest && |first| == n;
      assert (first + rest)[n + (before - n + g)] == rest[before - n + g];
    }
  }

  /** An e2TANGO poll reads the input registers of all blocks of one device after the other. */
  lemma EtangoRequestAt(side: SourceSide, devices: seq<Device>, d: nat, g: nat)
    requires d < |devices| && g < |side.Groups()|
    ensures d * |side.Groups()| + g < |PollRequests(Etango(side, devices))|
    ensures PollRequests(Etango(side, devices))[d * |side.Groups()| + g] ==
            BlockRequest(side.Groups()[g], side.addressOffset, 4, devices[d].unitId, devices[d].link)
  {
    RequestAt(side, devices, d, d * |side.Groups()|, g);
  }
}
