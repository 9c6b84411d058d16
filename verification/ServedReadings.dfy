/** From the device to the meter that reads the bridge: while a server is up, every served pair of
    registers is the encoding of what the devices held a bounded time ago. The registers of the
    devices vary over time; what is assumed is that a device, or the hub, does not make them up. */
module ServedReadings {
  import opened Bridge
  import opened Codec
  import opened Combination
  import opened CombinationMeaning
  import opened Common
  import opened Datastore
  import opened Decoding
  import opened Derive
  import opened DeviceReadings
  import opened Encoding
  import opened HubCache
  import opened ImageCoherence
  import opened Pipeline
  import opened Pollers
  import opened PollerSoundness
  import opened RegisterMap
  import SampleMeaning
  import opened Sources

  // ----- What a sample says when every block is a snapshot of its device

  /** The response is exactly what was asked for, from this memory. */
  predicate Snapped(r: Request, mem: Memory, response: Response) {
    response == Ok(Stretch(mem, r.unitId, r.addr, r.count))
  }

  predicate AllSnapped(requests: seq<Request>, mems: seq<Memory>, responses: seq<Response>) {
    && |mems| == |responses| == |requests|
    && forall k :: 0 <= k < |requests| ==> Snapped(requests[k], mems[k], responses[k])
  }

  lemma GatheredSnapshots(mems: seq<Memory>, groups: seq<ReadGroup>, offset: int, fc: int, unitId: int, link: string,
                          responses: seq<Response>)
    requires AllSnapped(DeviceRequests(groups, offset, fc, unitId, link), mems, responses)
    ensures Gathered(groups, responses) == Some(SnapshotReads(mems, groups, offset, unitId))
  {
    var requests := DeviceRequests(groups, offset, fc, unitId, link);
    forall k | 0 <= k < |groups|
      ensures responses[k] == Ok(Stretch(mems[k], UnitOf(groups[k], unitId), groups[k].base + offset, groups[k].count))
    {
      assert Snapped(requests[k], mems[k], responses[k]);
    }
    assert forall k :: 0 <= k < |groups| ==> GoodRead(responses[k], groups[k].count);
    assert Gathered(groups, responses).value == SnapshotReads(mems, groups, offset, unitId);
  }

  /** What one e2TANGO device is worth at a point given what it held; NaN for a point it cannot decode. */
  function EtangoReading(mems: seq<Memory>, side: SourceSide, unitId: int, p: SourcePoint): Num
    requires |mems| == |side.Groups()|
  {
    if p.addr.Some? && side.InSomeGroup(p) && Width(p.dtype) >= 2 then
      Affine(RegistersToFloat(DeviceRegisters(mems, side, unitId, p), side.wordOrder, side.byteOrder),
             p.scale, p.sign, p.offset)
    else NaN
  }

  /** In plain arithmetic: the float its registers hold, times scale and sign, plus the offset. */
  lemma EtangoReadingMeans(mems: seq<Memory>, side: SourceSide, unitId: int, p: SourcePoint, x: real)
    requires |mems| == |side.Groups()| && p.addr.Some? && side.InSomeGroup(p) && Width(p.dtype) >= 2
    requires RegistersToFloat(DeviceRegisters(mems, side, unitId, p), side.wordOrder, side.byteOrder) == Fin(x)
    ensures EtangoReading(mems, side, unitId, p) == Fin(Converted(x, p.scale, p.sign, p.offset))
  {
    AffineMeans(x, p.scale, p.sign, p.offset);
  }

  function RealOf(x: Num): real {
    if x.Fin? then x.r else 0.0
  }

  /** What the aggregating devices are worth at a point, device by device. */
  function EtangoColumn(side: SourceSide, devices: seq<Device>, mems: seq<Memory>, p: SourcePoint): seq<real>
    requires |mems| == |devices| * |side.Groups()|
    decreases |devices|
  {
    if devices == [] then []
    else
      var n := |side.Groups()|;
      FirstChunk(|mems|, |devices|, n);
      (if devices[0].aggregate then [RealOf(EtangoReading(mems[..n], side, devices[0].unitId, p))] else [])
      + EtangoColumn(side, devices[1..], mems[n..], p)
  }

  lemma {:induction false} ReadingsCons(x: Reading, rest: seq<Reading>, key: Name)
    ensures Readings([x] + rest, key) == (if key in x then [x[key]] else []) + Readings(rest, key)
    decreases |rest|
  {
    var all := [x] + rest;
    if rest == [] {
      assert all == [x] && all[..0] == [];
    } else {
      var n := |rest| - 1;
      assert all[..|all| - 1] == [x] + rest[..n] && all[|all| - 1] == rest[n];
      ReadingsCons(x, rest[..n], key);
    }
  }

  lemma FirstDeviceSnapped(side: SourceSide, devices: seq<Device>, mems: seq<Memory>, responses: seq<Response>, n: nat)
    requires devices != [] && n == |side.Groups()| && AllSnapped(EtangoRequests(side, devices), mems, responses)
    requires |responses| == |devices| * n
    ensures n <= |responses|
    ensures AllSnapped(DeviceRequests(side.Groups(), side.addressOffset, FC_INPUT, devices[0].unitId, devices[0].link),
                       mems[..n], responses[..n])
    ensures AllSnapped(EtangoRequests(side, devices[1..]), mems[n..], responses[n..])
  {
    var all, rest := EtangoRequests(side, devices), EtangoRequests(side, devices[1..]);
    FirstChunk(|responses|, |devices|, n);
    forall k | 0 <= k < |rest| ensures Snapped(rest[k], mems[n..][k], responses[n..][k]) {
      assert rest[k] == all[n + k] && Snapped(all[n + k], mems[n + k], responses[n + k]);
    }
    forall k | 0 <= k < n ensures Snapped(all[k], mems[k], responses[k]) {
    }
  }

  lemma FirstDeviceReading(h: Hypotenuse, side: SourceSide, d: Device, mems: seq<Memory>, i: nat)
    requires |mems| == |side.Groups()| && side.Accepted() && side.readGroups.Some? && i < |side.points|
    requires side.points[i].name !in DeriveTargets(side.derive)
    requires OutcomeDevice(h, side, Snapshots(mems, side, d.unitId)).Good?
    ensures var values := OutcomeDevice(h, side, Snapshots(mems, side, d.unitId)).values;
            var name := side.points[i].name;
            && name in Reals(values)
            && Reals(values)[name] == RealOf(EtangoReading(mems, side, d.unitId, side.points[i].point))
  {
    EtangoDeviceReadsDevice(h, mems, side, d.unitId, i);
    KeysDevice(h, side, Snapshots(mems, side, d.unitId));
  }

  lemma AggregatingCons(devices: seq<Device>, one: Values, rest: seq<Values>, name: Name)
    requires devices != [] && |rest| + 1 == |devices| && name in Reals(one)
    ensures Readings(Aggregating(devices, [one] + rest), name) ==
            (if devices[0].aggregate then [Reals(one)[name]] else []) + Readings(Aggregating(devices[1..], rest), name)
  {
    assert ([one] + rest)[1..] == rest;
    var tail := Aggregating(devices[1..], rest);
    if devices[0].aggregate {
      ReadingsCons(Reals(one), tail, name);
      assert Aggregating(devices, [one] + rest) == [Reals(one)] + tail;
    } else {
      assert Aggregating(devices, [one] + rest) == tail;
    }
  }

  lemma {:induction false} ColumnReadsDevices(
      h: Hypotenuse, side: SourceSide, devices: seq<Device>, mems: seq<Memory>, responses: seq<Response>, i: nat)
    requires side.Accepted() && side.readGroups.Some? && i < |side.points|
    requires side.points[i].name !in DeriveTargets(side.derive)
    requires |responses| == |devices| * |side.Groups()| && AllSnapped(EtangoRequests(side, devices), mems, responses)
    requires OutcomeDevices(h, side, devices, responses).Group?
    ensures Readings(Aggregating(devices, OutcomeDevices(h, side, devices, responses).readings), side.points[i].name) ==
            EtangoColumn(side, devices, mems, side.points[i].point)
    decreases |devices|
  {
    if devices != [] {
      var n, d := |side.Groups()|, devices[0];
      FirstChunk(|responses|, |devices|, n);
      FirstDeviceSnapped(side, devices, mems, responses, n);
      GatheredSnapshots(mems[..n], side.Groups(), side.addressOffset, FC_INPUT, d.unitId, d.link, responses[..n]);
      FirstDeviceOutcome(h, side, devices, responses, n, Snapshots(mems[..n], side, d.unitId));
      FirstDeviceReading(h, side, d, mems[..n], i);
      ColumnReadsDevices(h, side, devices[1..], mems[n..], responses[n..], i);
      AggregatingCons(devices, OutcomeDevice(h, side, Snapshots(mems[..n], side, d.unitId)).values,
                      OutcomeDevices(h, side, devices[1..], responses[n..]).readings, side.points[i].name);
    }
  }

  /** What the load-time and start-up checks establish about the source of a bridge. */
  predicate Checked(s: Source) {
    && OpsAccepted(s.side.derive)
    && if s.Nd45? then Shaped(s.side.points) && DistinctNames(s.side.points) && Nd45Covered(s.side)
       else s.side.Accepted() && s.side.readGroups.Some?
  }

  /** The point is neither overwritten by a derive step that the poller runs nor an alias. */
  predicate Plain(s: Source, i: nat)
    requires i < |s.side.points|
  {
    && s.side.points[i].name !in DERIVED_KEYS
    && (s.Nd45? || s.side.points[i].name !in DeriveTargets(s.side.derive))
  }

  /** What a point of any source is worth given what its devices held when each block was read. */
  function SampleReading(s: Source, mems: seq<Memory>, i: nat): Num
    requires |mems| == |PollRequests(s)| && Checked(s) && i < |s.side.points|
  {
    var np := s.side.points[i];
    match s
    case Nd45(side, unitId, _) =>
      PointCovered(side, i);
      Nd45Reading(mems, unitId, np.point, side.wordOrder, side.byteOrder)
    case Huawei(side, unitId, _) =>
      if np.point.addr.Some? then
        assert side.InSomeGroup(np.point);
        var reading := HuaweiReading(mems, side, unitId, np.point);
        if reading.Fin? then reading else Fin(0.0)
      else NaN
    case Etango(side, devices) =>
      EtangoRequestCount(side, devices);
      var column := EtangoColumn(side, devices, mems, np.point);
      if column != [] then Fin(CombinedValue(Mode(side, np.name), column)) else NaN
  }

  /** A plain point of an e2TANGO sample: the sum over the aggregating devices where its map entry
      says so, their average otherwise. */
  lemma EtangoPointMeans(s: Source, mems: seq<Memory>, i: nat)
    requires s.Etango? && Checked(s) && i < |s.side.points| && |mems| == |PollRequests(s)|
    ensures |mems| == |s.devices| * |s.side.Groups()|
    ensures var column := EtangoColumn(s.side, s.devices, mems, s.side.points[i].point);
            column != [] ==>
              SampleReading(s, mems, i) ==
              Fin(if s.side.points[i].point.aggregate == Sum then Total(column)
                  else Total(column) / |column| as real)
  {
    EtangoRequestCount(s.side, s.devices);
    PointDeclares(s.side.points, i);
  }

  lemma EtangoSampleReads(h: Hypotenuse, s: Source, mems: seq<Memory>, responses: seq<Response>, i: nat)
    requires s.Etango? && Checked(s) && i < |s.side.points| && Plain(s, i) &&
             AllSnapped(PollRequests(s), mems, responses)
    requires PollOutcome(h, s, responses).Good? && s.side.points[i].name in PollOutcome(h, s, responses).values
    ensures PollOutcome(h, s, responses).values[s.side.points[i].name] == SampleReading(s, mems, i)
  {
    EtangoRequestCount(s.side, s.devices);
    EtangoSampleCombines(h, s.side, s.devices, responses, s.side.points[i].name);
    ColumnReadsDevices(h, s.side, s.devices, mems, responses, i);
  }

  /** Every plain value of a returned sample, whatever the source, is what its devices held. */
  lemma SampleReadsDevices(h: Hypotenuse, s: Source, mems: seq<Memory>, responses: seq<Response>, i: nat)
    requires Checked(s) && i < |s.side.points| && Plain(s, i) && AllSnapped(PollRequests(s), mems, responses)
    requires PollOutcome(h, s, responses).Good? && s.side.points[i].name in PollOutcome(h, s, responses).values
    ensures PollOutcome(h, s, responses).values[s.side.points[i].name] == SampleReading(s, mems, i)
  {
    match s
    case Nd45(side, unitId, link) =>
      GatheredSnapshots(mems, READ_GROUPS, 0, FC_HOLDING, unitId, link, responses);
      Nd45SampleReadsDevice(mems, side, unitId, i);
    case Huawei(side, unitId, link) =>
      GatheredSnapshots(mems, side.Groups(), side.addressOffset, FC_HOLDING, unitId, link, responses);
      HuaweiSampleReadsDevice(h, mems, side, unitId, i);
    case Etango(_, _) => EtangoSampleReads(h, s, mems, responses, i);
  }

  // ----- Devices that change over time

  /** What every register holds at one instant: link, unit, function code, address. */
  type Network = (string, int, int, int) -> Word

  type History = real -> Network

  function MemoryOf(net: Network, r: Request): Memory {
    (unit, a) => net(r.link, unit, r.fc, a)
  }

  /** These registers were all held at once, from this address on. */
  predicate HeldAt(net: Network, link: string, unitId: int, fc: int, addr: int, regs: seq<Word>) {
    forall k :: 0 <= k < |regs| ==> regs[k] == net(link, unitId, fc, addr + k)
  }

  /** A device answers with what it holds, no more registers than asked for. */
  predicate HonestRead(device: History, r: Request, response: Response, now: real) {
    response.Ok? ==>
      && |response.registers| <= r.count
      && HeldAt(device(now), r.link, r.unitId, r.fc, r.addr, response.registers)
  }

  /** The hub forwards what the device held at most `lag` ago. */
  ghost predicate HonestMessage(device: History, lag: real, u: Update) {
    u.error == "" ==>
      && |u.registers| <= u.key.count
      && exists t :: u.at - lag <= t <= u.at &&
                     HeldAt(device(t), u.key.link, u.key.unitId, u.key.fc, u.key.base, u.registers)
  }

  ghost predicate HonestEvent(c: Conf, device: History, lag: real, s: State, e: Event) {
    match e
    case PollReads(direct) =>
      !c.viaHub && |s.taken| < |PollRequests(c.source)| ==>
        HonestRead(device, PollRequests(c.source)[|s.taken|], direct, s.Now())
    case HubMessage(key, registers, error) => HonestMessage(device, lag, Update(key, registers, error, s.Now()))
    case _ => true
  }

  ghost predicate HonestRun(c: Conf, device: History, lag: real, states: seq<State>, events: seq<Event>)
    requires |states| == |events| + 1
  {
    forall i :: 0 <= i < |events| ==> HonestEvent(c, device, lag, states[i], events[i])
  }

  /** How long before it was answered a read can have been true. */
  function Delay(c: Conf, lag: real): real {
    if c.viaHub then c.maxStale + lag else 0.0
  }

  /** The answer was true of the device at this instant. */
  predicate TrueAt(device: History, r: Request, t: Taken, h: real) {
    Snapped(r, MemoryOf(device(h), r), t.response)
  }

  ghost predicate TrueWithin(device: History, r: Request, t: Taken, delay: real) {
    exists h :: t.at - delay <= h <= t.at && TrueAt(device, r, t, h)
  }

  ghost predicate TrueReads(c: Conf, device: History, lag: real, taken: seq<Taken>) {
    && |taken| <= |PollRequests(c.source)|
    && forall i :: 0 <= i < |taken| ==> TrueWithin(device, PollRequests(c.source)[i], taken[i], Delay(c, lag))
  }

  lemma HeldIsSnapped(net: Network, r: Request, regs: seq<Word>)
    requires |regs| == r.count && HeldAt(net, r.link, r.unitId, r.fc, r.addr, regs)
    ensures Snapped(r, MemoryOf(net, r), Ok(regs))
  {
    assert regs == Stretch(MemoryOf(net, r), r.unitId, r.addr, r.count);
  }

  lemma DirectReadIsTrue(device: History, r: Request, response: Response, now: real)
    requires HonestRead(device, r, response, now) && GoodRead(response, r.count)
    ensures TrueWithin(device, r, Taken(response, now), 0.0)
  {
    HeldIsSnapped(device(now), r, response.registers);
    assert TrueAt(device, r, Taken(response, now), now);
  }

  lemma HubReadIsTrue(device: History, lag: real, u: Update, r: Request, t: Taken, maxStale: real)
    requires AnsweredBy(u, r, t, maxStale) && HonestMessage(device, lag, u) && GoodRead(t.response, r.count)
    ensures TrueWithin(device, r, t, maxStale + lag)
  {
    var h :| u.at - lag <= h <= u.at && HeldAt(device(h), u.key.link, u.key.unitId, u.key.fc, u.key.base, u.registers);
    var regs, off := t.response.registers, r.addr - u.key.base;
    assert |regs| == r.count;
    forall k | 0 <= k < |regs| ensures regs[k] == device(h)(r.link, r.unitId, r.fc, r.addr + k) {
      assert regs[k] == u.registers[off + k];
    }
    HeldIsSnapped(device(h), r, regs);
    assert TrueAt(device, r, t, h);
  }

  ghost predicate AllHonest(device: History, lag: real, log: seq<Update>) {
    forall k :: 0 <= k < |log| ==> HonestMessage(device, lag, log[k])
  }

  lemma AnsweredIsTrue(c: Conf, device: History, lag: real, log: seq<Update>, r: Request, t: Taken)
    requires c.viaHub && Answered(c, log, r, t) && AllHonest(device, lag, log)
    ensures TrueWithin(device, r, t, Delay(c, lag))
  {
    var k :| 0 <= k < |log| && AnsweredBy(log[k], r, t, c.maxStale);
    HubReadIsTrue(device, lag, log[k], r, t, c.maxStale);
  }

  lemma TraceableIsTrue(c: Conf, device: History, lag: real, log: seq<Update>, taken: seq<Taken>)
    requires c.viaHub && Traceable(c, log, taken) && AllHonest(device, lag, log)
    ensures TrueReads(c, device, lag, taken)
  {
    forall i | 0 <= i < |taken| ensures TrueWithin(device, PollRequests(c.source)[i], taken[i], Delay(c, lag)) {
      assert Answered(c, log, PollRequests(c.source)[i], taken[i]);
      AnsweredIsTrue(c, device, lag, log, PollRequests(c.source)[i], taken[i]);
    }
  }

  // ----- Over a run

  ghost predicate Truthful(c: Conf, device: History, lag: real, s: State) {
    && AllHonest(device, lag, s.Received())
    && (!c.viaHub ==>
          && TrueReads(c, device, lag, s.taken)
          && (s.served.latest.Some? ==> TrueReads(c, device, lag, s.basis)))
  }

  lemma MessageTruthful(c: Conf, device: History, lag: real, s: State, e: Event)
    requires c.Accepted() && Truthful(c, device, lag, s) && e.HubMessage? && HonestEvent(c, device, lag, s, e)
    ensures Truthful(c, device, lag, Step(c, s, e))
  {
    assert Step(c, s, e).Received() == s.Received() + [Update(e.key, e.registers, e.error, s.Now())];
  }

  lemma ReadTruthful(c: Conf, device: History, lag: real, s: State, direct: Response)
    requires c.Accepted() && Truthful(c, device, lag, s) && Enabled(c, s, PollReads(direct))
    requires HonestEvent(c, device, lag, s, PollReads(direct))
    ensures Truthful(c, device, lag, AfterRead(c, s, ReadAnswer(c, s, direct)))
  {
    var t := AfterRead(c, s, ReadAnswer(c, s, direct));
    assert t.Received() == s.Received();
    var r := PollRequests(c.source)[|s.taken|];
    if !c.viaHub && GoodRead(direct, r.count) {
      DirectReadIsTrue(device, r, direct, s.Now());
      forall i | 0 <= i < |t.taken| ensures TrueWithin(device, PollRequests(c.source)[i], t.taken[i], Delay(c, lag)) {
        if i < |s.taken| { assert t.taken[i] == s.taken[i]; }
      }
    }
  }

  lemma DeliverTruthful(c: Conf, device: History, lag: real, s: State)
    requires c.Accepted() && Truthful(c, device, lag, s) && Enabled(c, s, PollDelivers)
    ensures Truthful(c, device, lag, Delivering(c, s))
  {
    assert Delivering(c, s).Received() == s.Received();
  }

  lemma StepTruthful(c: Conf, device: History, lag: real, s: State, e: Event)
    requires c.Accepted() && Truthful(c, device, lag, s) && Enabled(c, s, e) && HonestEvent(c, device, lag, s, e)
    ensures Truthful(c, device, lag, Step(c, s, e))
  {
    if e.HubMessage? {
      MessageTruthful(c, device, lag, s, e);
    } else if e.PollReads? {
      ReadTruthful(c, device, lag, s, e.direct);
    } else if e.PollDelivers? {
      DeliverTruthful(c, device, lag, s);
    } else {
      assert Step(c, s, e).Received() == s.Received();
    }
  }

  lemma {:induction false} EveryStateTruthful(
      c: Conf, device: History, lag: real, states: seq<State>, events: seq<Event>, i: nat)
    requires c.Accepted() && IsRun(c, states, events) && HonestRun(c, device, lag, states, events) && i < |states|
    ensures Truthful(c, device, lag, states[i])
  {
    if i > 0 {
      EveryStateTruthful(c, device, lag, states, events, i - 1);
      StepTruthful(c, device, lag, states[i - 1], events[i - 1]);
    }
  }

  lemma BasisTrue(c: Conf, device: History, lag: real, s: State)
    requires c.Accepted() && Invariant(c, s) && Truthful(c, device, lag, s) && s.served.latest.Some?
    ensures TrueReads(c, device, lag, s.basis)
  {
    if c.viaHub { TraceableIsTrue(c, device, lag, s.Received(), s.basis); }
  }

  /** An instant for each read at which its answer was true. */
  lemma {:induction false} Instants(c: Conf, device: History, lag: real, taken: seq<Taken>) returns (hs: seq<real>)
    requires TrueReads(c, device, lag, taken)
    ensures |hs| == |taken|
    ensures forall k :: 0 <= k < |taken| ==>
              taken[k].at - Delay(c, lag) <= hs[k] <= taken[k].at &&
                TrueAt(device, PollRequests(c.source)[k], taken[k], hs[k])
    decreases |taken|
  {
    hs := [];
    if taken != [] {
      var n := |taken| - 1;
      assert TrueReads(c, device, lag, taken[..n]) by {
        forall k | 0 <= k < n ensures TrueWithin(device, PollRequests(c.source)[k], taken[..n][k], Delay(c, lag)) {
          assert taken[..n][k] == taken[k];
        }
      }
      var init := Instants(c, device, lag, taken[..n]);
      assert TrueWithin(device, PollRequests(c.source)[n], taken[n], Delay(c, lag));
      var h :| taken[n].at - Delay(c, lag) <= h <= taken[n].at &&
        TrueAt(device, PollRequests(c.source)[n], taken[n], h);
      hs := init + [h];
      forall k | 0 <= k < n ensures TrueAt(device, PollRequests(c.source)[k], taken[k], hs[k]) {
        assert taken[..n][k] == taken[k] && hs[k] == init[k];
      }
    }
  }

  /** What the devices held at these instants, one for each read of a poll. */
  function Memories(device: History, hs: seq<real>, requests: seq<Request>): (r: seq<Memory>)
    requires |hs| == |requests|
    ensures |r| == |requests|
  {
    seq(|requests|, k requires 0 <= k < |requests| => MemoryOf(device(hs[k]), requests[k]))
  }

  /** Complete answers to the reads of a poll, each what its device held at its instant. */
  function HeldResponses(device: History, hs: seq<real>, requests: seq<Request>): (rs: seq<Response>)
    requires |hs| == |requests|
    ensures AllSnapped(requests, Memories(device, hs, requests), rs)
  {
    seq(|requests|, k requires 0 <= k < |requests| =>
      Ok(Stretch(MemoryOf(device(hs[k]), requests[k]), requests[k].unitId, requests[k].addr, requests[k].count)))
  }

  lemma TrueReadsAreHeld(device: History, requests: seq<Request>, taken: seq<Taken>, hs: seq<real>)
    requires |hs| == |taken| == |requests|
    requires forall k :: 0 <= k < |taken| ==> TrueAt(device, requests[k], taken[k], hs[k])
    ensures Responses(taken) == HeldResponses(device, hs, requests)
  {
    forall k | 0 <= k < |requests|
      ensures Responses(taken)[k] == HeldResponses(device, hs, requests)[k]
    {
      assert TrueAt(device, requests[k], taken[k], hs[k]);
    }
  }

  /** What a poll makes of what the devices held at these instants. */
  ghost function HeldOutcome(c: Conf, device: History, hs: seq<real>): Outcome
    requires c.Accepted() && |hs| == |PollRequests(c.source)|
  {
    PollOutcome(c.hypot, c.source, HeldResponses(device, hs, PollRequests(c.source)))
  }

  /** Its net and active energies repeat and add its totals. */
  lemma HeldAliases(c: Conf, device: History, hs: seq<real>)
    requires c.Accepted() && |hs| == |PollRequests(c.source)| && HeldOutcome(c, device, hs).Good?
    ensures SampleMeaning.AliasesRight(HeldOutcome(c, device, hs).values)
  {
    SampleMeaning.SampleAliases(c.hypot, c.source, HeldResponses(device, hs, PollRequests(c.source)));
  }

  /** The whole promise in one statement. In every state of every run in which a server is up, with
      devices that do not make up registers, there is for each read of a poll an instant, at most a
      hung poll, the freshness threshold and a tick (over the hub: plus staleness and forwarding
      delay) ago, such that one poll of what the devices held then gives a sample, and every served pair, be its value a
      source point, a derived one or an energy alias, is the encoding of its value in that sample.
      The last holds exactly when points that share registers agree on them, so whenever target
      spans are apart. */
  lemma ServedIsWhatDevicesHeld(c: Conf, device: History, lag: real, states: seq<State>, events: seq<Event>, i: nat)
    returns (hs: seq<real>)
    requires c.Accepted()
    requires IsRun(c, states, events) && HonestRun(c, device, lag, states, events) && i < |states|
    requires states[i].server.state.server.Some?
    ensures |hs| == |PollRequests(c.source)|
    ensures forall k :: 0 <= k < |hs| ==>
              states[i].Now() - hs[k] <= c.poller.stall + c.poller.safetyCheck + c.server.maxAge + c.tick
                                         + if c.viaHub then c.maxStale + lag else 0.0
    ensures forall k :: 0 <= k < |hs| ==> hs[k] <= states[i].Now()
    ensures HeldOutcome(c, device, hs).Good? && SampleMeaning.AliasesRight(HeldOutcome(c, device, hs).values)
    ensures EncodeAll(c.pack, HeldOutcome(c, device, hs).values, c.sides, c.ct).Ready?
    ensures ServesAll(states[i].served.image, c.pack, HeldOutcome(c, device, hs).values, c.sides, c.ct) <==>
            SampleAgrees(c, HeldOutcome(c, device, hs).values)
    ensures Disjoint(Layout(c.sides)) ==>
              ServesAll(states[i].served.image, c.pack, HeldOutcome(c, device, hs).values, c.sides, c.ct)
  {
    var s := states[i];
    EveryStateInvariant(c, states, events, i);
    RecentState(c, s);
    EveryStateTruthful(c, device, lag, states, events, i);
    BasisTrue(c, device, lag, s);
    hs := Instants(c, device, lag, s.basis);
    TrueReadsAreHeld(device, PollRequests(c.source), s.basis, hs);
    CoherentServes(c, s.served);
    HeldAliases(c, device, hs);
  }

  /** What that says about a plain source point: the served pair is the encoding of the conversion
      of the registers its devices held. */
  lemma PlainPointIsServed(c: Conf, device: History, hs: seq<real>, img: Image, x: nat, j: nat, q: nat)
    requires c.Accepted() && Checked(c.source) && |hs| == |PollRequests(c.source)| && HeldOutcome(c, device, hs).Good?
    requires ServesAll(img, c.pack, HeldOutcome(c, device, hs).values, c.sides, c.ct)
    requires x < |c.sides| && j < |c.sides[x].points| && q < |c.source.side.points| && Plain(c.source, q)
    requires c.sides[x].points[j].point.from_ == c.source.side.points[q].name
    ensures var side, p := c.sides[x], c.sides[x].points[j].point;
            var reading := SampleReading(c.source, Memories(device, hs, PollRequests(c.source)), q);
            && Fits(img, Span(side.fc, p.addr))
            && EncodeTarget(c.pack, reading, p, side, c.ct) == Some(ReadBack(img, Span(side.fc, p.addr)))
            && reading.Fin? && RatioUsable(p, c.ct) && FitsFloat32(OnTheWire(reading.r, p, c.ct))
            && RegistersToBits(ReadBack(img, Span(side.fc, p.addr)), side.wordOrder, side.byteOrder) ==
               WirePattern(c.pack, OnTheWire(reading.r, p, c.ct), p)
  {
    var requests := PollRequests(c.source);
    var side, p := c.sides[x], c.sides[x].points[j].point;
    assert ServesPoint(img, c.pack, HeldOutcome(c, device, hs).values, p, side, c.ct);
    SampleReadsDevices(c.hypot, c.source, Memories(device, hs, requests), HeldResponses(device, hs, requests), q);
    WhatIsEncoded(c.pack, SampleReading(c.source, Memories(device, hs, requests), q), p, side, c.ct);
  }
}
