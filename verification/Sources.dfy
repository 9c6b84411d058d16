/** What each kind of source asks for on the wire, what the hub subscription declares for it,
    and how a point's registers are cut out of the blocks that were read. */
module Sources {
  import opened Codec
  import opened Common
  import opened HubCache
  import opened RegisterMap

  const FC_HOLDING: int := 3
  const FC_INPUT: int := 4

  /** The ND45 poller's fixed blocks: measurements, frequency, energy. */
  const READ_GROUPS: seq<ReadGroup> := [ReadGroup(50, 96, None), ReadGroup(818, 2, None), ReadGroup(900, 96, None)]

  datatype Device = Device(link: string, unitId: int, aggregate: bool)

  datatype Source =
    | Nd45(side: SourceSide, unitId: int, link: string)
    | Huawei(side: SourceSide, unitId: int, link: string)
    | Etango(side: SourceSide, devices: seq<Device>)

  function UnitOf(g: ReadGroup, unitId: int): int {
    if g.unitId.Some? then g.unitId.value else unitId
  }

  // ----- Requests and subscription

  /** The reads one poll of one device makes, in order. */
  function DeviceRequests(groups: seq<ReadGroup>, offset: int, fc: int, unitId: int, link: string): (r: seq<Request>)
    ensures |r| == |groups|
  {
    seq(|groups|, i requires 0 <= i < |groups| =>
      Request(link, UnitOf(groups[i], unitId), fc, groups[i].base + offset, groups[i].count))
  }

  function EtangoRequests(side: SourceSide, devices: seq<Device>): seq<Request>
    decreases |devices|
  {
    if devices == [] then []
    else
      DeviceRequests(side.Groups(), side.addressOffset, FC_INPUT, devices[0].unitId, devices[0].link)
      + EtangoRequests(side, devices[1..])
  }

  function PollRequests(s: Source): seq<Request> {
    match s
    case Nd45(_, unitId, link) => DeviceRequests(READ_GROUPS, 0, FC_HOLDING, unitId, link)
    case Huawei(side, unitId, link) => DeviceRequests(side.Groups(), side.addressOffset, FC_HOLDING, unitId, link)
    case Etango(side, devices) => EtangoRequests(side, devices)
  }

  datatype SourceType = TypeNd45 | TypeHuawei | TypeEtango

  /** The subscription of one device; None is the ValueError of a map that declares no blocks. */
  method BlocksForSource(sourceType: SourceType, side: SourceSide, unitId: int, link: string)
    returns (blocks: Option<seq<BlockKey>>)
    ensures sourceType.TypeNd45? ==> blocks == Some(Declared(READ_GROUPS, 0, FC_HOLDING, unitId, link))
    ensures !sourceType.TypeNd45? ==>
              blocks == if side.Groups() == [] then None
                        else Some(Declared(side.Groups(), side.addressOffset,
                                           if sourceType.TypeEtango? then FC_INPUT else FC_HOLDING, unitId, link))
  {
    if sourceType.TypeNd45? {
      return Some(Declared(READ_GROUPS, 0, FC_HOLDING, unitId, link));
    }
    var fc := if sourceType.TypeEtango? then FC_INPUT else FC_HOLDING;
    var out: seq<BlockKey> := [];
    var groups := side.Groups();
    for i := 0 to |groups|
      invariant out == Declared(groups[..i], side.addressOffset, fc, unitId, link)
    {
      var unit := if groups[i].unitId.Some? then groups[i].unitId.value else unitId;
      out := out + [BlockKey(link, unit, fc, groups[i].base + side.addressOffset, groups[i].count)];
    }
    assert groups[..|groups|] == groups;
    return if out == [] then None else Some(out);
  }

  function Declared(groups: seq<ReadGroup>, offset: int, fc: int, unitId: int, link: string): (r: seq<BlockKey>)
    ensures |r| == |groups|
  {
    seq(|groups|, i requires 0 <= i < |groups| =>
      BlockKey(link, UnitOf(groups[i], unitId), fc, groups[i].base + offset, groups[i].count))
  }

  function EtangoBlocks(side: SourceSide, devices: seq<Device>): seq<BlockKey>
    decreases |devices|
  {
    if devices == [] then []
    else
      Declared(side.Groups(), side.addressOffset, FC_INPUT, devices[0].unitId, devices[0].link)
      + EtangoBlocks(side, devices[1..])
  }

  /** Everything the hub client of a source subscribes to. */
  function Subscription(s: Source): seq<BlockKey> {
    match s
    case Nd45(_, unitId, link) => Declared(READ_GROUPS, 0, FC_HOLDING, unitId, link)
    case Huawei(side, unitId, link) => Declared(side.Groups(), side.addressOffset, FC_HOLDING, unitId, link)
    case Etango(side, devices) => EtangoBlocks(side, devices)
  }

  lemma {:induction false} EtangoCovered(side: SourceSide, devices: seq<Device>, i: nat)
    requires i < |EtangoRequests(side, devices)|
    ensures |EtangoBlocks(side, devices)| == |EtangoRequests(side, devices)|
    ensures Covers(EtangoBlocks(side, devices)[i], EtangoRequests(side, devices)[i])
    decreases |devices|
  {
    var n := |side.Groups()|;
    if i >= n {
      EtangoCovered(side, devices[1..], i - n);
    } else {
      EtangoSameLength(side, devices);
    }
  }

  lemma {:induction false} EtangoSameLength(side: SourceSide, devices: seq<Device>)
    ensures |EtangoBlocks(side, devices)| == |EtangoRequests(side, devices)|
    decreases |devices|
  {
    if devices != [] { EtangoSameLength(side, devices[1..]); }
  }

  /** Every read a poll makes lies inside a block its source subscribes to. */
  lemma EveryRequestSubscribed(s: Source, i: nat)
    requires i < |PollRequests(s)|
    ensures exists b :: b in Subscription(s) && Covers(b, PollRequests(s)[i])
  {
    match s
    case Nd45(_, _, _) => assert Covers(Subscription(s)[i], PollRequests(s)[i]);
    case Huawei(_, _, _) => assert Covers(Subscription(s)[i], PollRequests(s)[i]);
    case Etango(side, devices) =>
      EtangoCovered(side, devices, i);
      assert Covers(Subscription(s)[i], PollRequests(s)[i]);
  }

  // ----- Cutting a point out of the blocks that were read

  /** A block as read: its documented base and its registers. */
  datatype Block = Block(base: int, regs: seq<Word>)

  predicate Holds(b: Block, addr: int, width: nat) {
    0 <= addr - b.base && addr - b.base + width <= |b.regs|
  }

  /** The registers of a point in the first block that holds all of it; None is the KeyError. */
  function Extract(addr: int, groups: seq<Block>, width: nat): (r: Option<seq<Word>>)
    ensures r.Some? ==> |r.value| == width
    decreases |groups|
  {
    if groups == [] then None
    else if Holds(groups[0], addr, width) then
      var off := addr - groups[0].base;
      Some(groups[0].regs[off..off + width])
    else Extract(addr, groups[1..], width)
  }

  method ExtractRegisters(addr: int, groups: seq<Block>, width: nat) returns (r: Option<seq<Word>>)
    ensures r == Extract(addr, groups, width)
  {
    for i := 0 to |groups|
      invariant Extract(addr, groups[i..], width) == Extract(addr, groups, width)
    {
      assert groups[i..][1..] == groups[i + 1..];
      var offset := addr - groups[i].base;
      if 0 <= offset && offset + width <= |groups[i].regs| {
        return Some(groups[i].regs[offset..offset + width]);
      }
    }
    return None;
  }

  /** The ND45 variant always cuts two registers and words its test differently. */
  method ExtractRegistersNd45(addr: int, groups: seq<Block>) returns (r: Option<seq<Word>>)
    ensures r == Extract(addr, groups, 2)
  {
    for i := 0 to |groups|
      invariant Extract(addr, groups[i..], 2) == Extract(addr, groups, 2)
    {
      assert groups[i..][1..] == groups[i + 1..];
      if groups[i].base <= addr < groups[i].base + |groups[i].regs| - 1 {
        var off := addr - groups[i].base;
        return Some(groups[i].regs[off..off + 2]);
      }
    }
    return None;
  }

  /** The registers of a device network: unit and wire address. */
  type Memory = (int, int) -> Word

  function Stretch(mem: Memory, unit: int, addr: int, n: nat): (r: seq<Word>)
    ensures |r| == n
  {
    seq(n, i requires 0 <= i < n => mem(unit, addr + i))
  }

  lemma StretchMeans(mem: Memory, unit: int, addr: int, n: nat)
    ensures forall i :: 0 <= i < n ==> Stretch(mem, unit, addr, n)[i] == mem(unit, addr + i)
  {
  }

  /** Complete reads of these groups, kept under their documented bases. Each block was read at
      its own moment: `mems[i]` is what the device held when the i-th one was. */
  function SnapshotReads(mems: seq<Memory>, groups: seq<ReadGroup>, offset: int, unitId: int): (r: seq<Block>)
    requires |mems| == |groups|
    ensures |r| == |groups|
  {
    seq(|groups|, i requires 0 <= i < |groups| =>
      Block(groups[i].base, Stretch(mems[i], UnitOf(groups[i], unitId), groups[i].base + offset, groups[i].count)))
  }

  /** The same from a device that does not change meanwhile. */
  function CompleteReads(mem: Memory, groups: seq<ReadGroup>, offset: int, unitId: int): (r: seq<Block>)
    ensures |r| == |groups|
  {
    SnapshotReads(seq(|groups|, _ => mem), groups, offset, unitId)
  }

  predicate GroupHolds(g: ReadGroup, addr: int, width: nat) {
    g.base <= addr && addr + width <= g.base + g.count
  }

  predicate Covered(groups: seq<ReadGroup>, addr: int, width: nat) {
    exists g :: g in groups && GroupHolds(g, addr, width)
  }

  /** The group whose block answers for an address: the first holding it. */
  function Answering(groups: seq<ReadGroup>, addr: int, width: nat): (k: nat)
    requires Covered(groups, addr, width)
    ensures k < |groups| && GroupHolds(groups[k], addr, width)
    ensures forall i :: 0 <= i < k ==> !GroupHolds(groups[i], addr, width)
    decreases |groups|
  {
    if GroupHolds(groups[0], addr, width) then 0
    else
      assert forall g :: g in groups ==> g == groups[0] || g in groups[1..];
      1 + Answering(groups[1..], addr, width)
  }

  function AnsweringUnit(groups: seq<ReadGroup>, unitId: int, addr: int, width: nat): int
    requires Covered(groups, addr, width)
  {
    UnitOf(groups[Answering(groups, addr, width)], unitId)
  }

  /** On complete reads a covered point is always found, and what is found is what the device held
      at its documented address plus the offset, full width, when the first group that holds it
      was read, on that group's unit, however the groups overlap. */
  lemma {:induction false} ExtractReadsSnapshot(
      mems: seq<Memory>, groups: seq<ReadGroup>, offset: int, unitId: int, addr: int, width: nat)
    requires |mems| == |groups| && Covered(groups, addr, width)
    ensures Extract(addr, SnapshotReads(mems, groups, offset, unitId), width) ==
            Some(Stretch(mems[Answering(groups, addr, width)], AnsweringUnit(groups, unitId, addr, width),
                         addr + offset, width))
    decreases |groups|
  {
    var blocks := SnapshotReads(mems, groups, offset, unitId);
    assert blocks[1..] == SnapshotReads(mems[1..], groups[1..], offset, unitId);
    if GroupHolds(groups[0], addr, width) {
      assert blocks[0].regs[addr - blocks[0].base..addr - blocks[0].base + width] ==
             Stretch(mems[0], UnitOf(groups[0], unitId), addr + offset, width);
    } else {
      assert forall g :: g in groups ==> g == groups[0] || g in groups[1..];
      ExtractReadsSnapshot(mems[1..], groups[1..], offset, unitId, addr, width);
    }
  }

  lemma ExtractReadsMemory(mem: Memory, groups: seq<ReadGroup>, offset: int, unitId: int, addr: int, width: nat)
    requires Covered(groups, addr, width)
    ensures Extract(addr, CompleteReads(mem, groups, offset, unitId), width) ==
            Some(Stretch(mem, AnsweringUnit(groups, unitId, addr, width), addr + offset, width))
  {
    ExtractReadsSnapshot(seq(|groups|, _ => mem), groups, offset, unitId, addr, width);
  }

  /** Without a covering group the extraction fails, whatever the registers are. */
  lemma {:induction false} ExtractUncovered(
      mems: seq<Memory>, groups: seq<ReadGroup>, offset: int, unitId: int, addr: int, width: nat)
    requires |mems| == |groups| && !Covered(groups, addr, width)
    ensures Extract(addr, SnapshotReads(mems, groups, offset, unitId), width) == None
    decreases |groups|
  {
    if groups != [] {
      assert SnapshotReads(mems, groups, offset, unitId)[1..] == SnapshotReads(mems[1..], groups[1..], offset, unitId);
      assert groups[0] in groups && !GroupHolds(groups[0], addr, width);
      ExtractUncovered(mems[1..], groups[1..], offset, unitId, addr, width);
    }
  }

  /** Complete reads of an unchanging device give the registers of this unit. */
  predicate ReadsUnit(mem: Memory, groups: seq<ReadGroup>, offset: int, unitId: int, addr: int, width: nat, u: int) {
    Extract(addr, CompleteReads(mem, groups, offset, unitId), width) == Some(Stretch(mem, u, addr + offset, width))
  }

  /** A point read with unit u in mind gets u's registers for every memory exactly when the
      first group holding its address is on unit u. */
  lemma RightUnitIffFirstGroup(groups: seq<ReadGroup>, offset: int, unitId: int, addr: int, width: nat, u: int)
    requires width > 0 && Covered(groups, addr, width)
    ensures (forall mem: Memory :: ReadsUnit(mem, groups, offset, unitId, addr, width, u))
            <==> AnsweringUnit(groups, unitId, addr, width) == u
  {
    var answering := AnsweringUnit(groups, unitId, addr, width);
    if answering == u {
      forall mem: Memory ensures ReadsUnit(mem, groups, offset, unitId, addr, width, u) {
        ExtractReadsMemory(mem, groups, offset, unitId, addr, width);
      }
    } else {
      var telling: Memory := (unit, a) => if unit == u then 1 else 0;
      ExtractReadsMemory(telling, groups, offset, unitId, addr, width);
      assert Stretch(telling, answering, addr + offset, width)[0] != Stretch(telling, u, addr + offset, width)[0];
      assert !ReadsUnit(telling, groups, offset, unitId, addr, width, u);
    }
  }

  /** The start-up rule for ND45 maps: every address lies in a fixed block with its successor. */
  predicate Nd45Covered(side: SourceSide) {
    forall i, a :: 0 <= i < |side.points| && a in PointAddresses(side.points[i].point) ==>
      exists g :: g in READ_GROUPS && g.base <= a < g.base + g.count - 1
  }

  function PointAddresses(p: SourcePoint): seq<int> {
    if p.compose.Some? then p.compose.value else if p.addr.Some? then [p.addr.value] else []
  }

  /** An accepted ND45 map reads every address it names as what the meter held there when its
      block was read. */
  lemma Nd45ExtractReadsMemory(mems: seq<Memory>, side: SourceSide, unitId: int, i: nat, a: int)
    requires |mems| == |READ_GROUPS| && Nd45Covered(side) && i < |side.points| &&
             a in PointAddresses(side.points[i].point)
    ensures Covered(READ_GROUPS, a, 2)
    ensures Extract(a, SnapshotReads(mems, READ_GROUPS, 0, unitId), 2) ==
            Some(Stretch(mems[Answering(READ_GROUPS, a, 2)], unitId, a, 2))
  {
    AddressCovered(side, i, a);
    ExtractReadsSnapshot(mems, READ_GROUPS, 0, unitId, a, 2);
  }

  lemma AddressCovered(side: SourceSide, i: nat, a: int)
    requires Nd45Covered(side) && i < |side.points| && a in PointAddresses(side.points[i].point)
    ensures Covered(READ_GROUPS, a, 2)
  {
    var g :| g in READ_GROUPS && g.base <= a < g.base + g.count - 1;
    assert GroupHolds(g, a, 2);
  }
}
