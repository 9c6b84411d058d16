/** The traffic recorder on an RTU output port: which CRC-valid requests went past on the
    wire, whatever the read boundaries were. */
module WireScanner {
  import opened CappedTally
  import opened Common
  import opened Crc
  import opened SlidingWindow

  datatype Request = Request(slave: Byte, fc: Byte, addr: nat, count: nat)

  /** uid, fc, addr (2), count (2), crc (2). */
  const REQUEST_LEN: nat := 8

  function BigEndian(hi: Byte, lo: Byte): nat {
    256 * (hi as nat) + (lo as nat)
  }

  /** The request an 8-byte window holds, if it is one. */
  function ReadRequest(frame: seq<Byte>): Option<Request> {
    if |frame| == REQUEST_LEN && 1 <= frame[1] <= 6 && Accepts(frame) then
      Some(Request(frame[0], frame[1], BigEndian(frame[2], frame[3]), BigEndian(frame[4], frame[5])))
    else
      None
  }

  /** A request as a master frames it: unit, function, address and count high byte first, CRC low
      byte first. */
  function Framed(slave: Byte, fc: Byte, addr: Word, count: Word): (frame: seq<Byte>)
    ensures |frame| == 8
  {
    var body: seq<Byte> := [slave, fc, addr / 256, addr % 256, count / 256, count % 256];
    RunState(0xFFFF, body);
    body + [Crc16(body) % 256, Crc16(body) / 256]
  }

  lemma FramedAccepted(slave: Byte, fc: Byte, addr: Word, count: Word)
    ensures Accepts(Framed(slave, fc, addr, count))
  {
    var body: seq<Byte> := [slave, fc, addr / 256, addr % 256, count / 256, count % 256];
    assert Framed(slave, fc, addr, count)[..6] == body;
  }

  lemma Halves(hi: Byte, lo: Byte)
    ensures BigEndian(hi, lo) < 0x10000 && BigEndian(hi, lo) / 256 == hi && BigEndian(hi, lo) % 256 == lo
  {
  }

  lemma AcceptedIsFramed(frame: seq<Byte>) returns (addr: Word, count: Word)
    requires |frame| == 8 && Accepts(frame)
    ensures addr == BigEndian(frame[2], frame[3]) && count == BigEndian(frame[4], frame[5])
    ensures frame == Framed(frame[0], frame[1], addr, count)
  {
    Halves(frame[2], frame[3]);
    Halves(frame[4], frame[5]);
    addr, count := BigEndian(frame[2], frame[3]), BigEndian(frame[4], frame[5]);
    ghost var body: seq<Byte> := [frame[0], frame[1], addr / 256, addr % 256, count / 256, count % 256];
    assert frame[..6] == body;
    CrcBytes(frame, body);
  }

  lemma CrcBytes(frame: seq<Byte>, body: seq<Byte>)
    requires |frame| == 8 && frame[..6] == body && Accepts(frame)
    ensures Crc16(body) < 0x10000 && frame == body + [Crc16(body) % 256, Crc16(body) / 256]
  {
    Halves(frame[7], frame[6]);
    assert Crc16(body) == BigEndian(frame[7], frame[6]);
  }

  /** A window is taken for a request exactly when a master would have framed that request so. */
  lemma ReadRequestIff(frame: seq<Byte>, slave: Byte, fc: Byte, addr: Word, count: Word)
    ensures ReadRequest(frame) == Some(Request(slave, fc, addr, count)) <==>
            1 <= fc <= 6 && frame == Framed(slave, fc, addr, count)
  {
    FramedAccepted(slave, fc, addr, count);
    Halves(addr / 256, addr % 256);
    Halves(count / 256, count % 256);
    if |frame| == 8 && Accepts(frame) {
      var a, c := AcceptedIsFramed(frame);
    }
  }

  /** Nothing else is ever taken for one. */
  lemma EveryRequestIsFramed(frame: seq<Byte>)
    requires ReadRequest(frame).Some?
    ensures var r := ReadRequest(frame).value;
            r.addr < 0x10000 && r.count < 0x10000 && 1 <= r.fc <= 6 &&
            frame == Framed(r.slave, r.fc, r.addr, r.count)
  {
    var addr, count := AcceptedIsFramed(frame);
  }

  function SlaveOf(r: Request): Byte { r.slave }

  /** The test of one window as the scanner makes it. */
  method CheckWindow(frame: seq<Byte>) returns (found: Option<Request>)
    requires |frame| == REQUEST_LEN
    ensures found == ReadRequest(frame)
  {
    if !(1 <= frame[1] <= 6) {
      return None;
    }
    var crc := RtuCrc(frame[..6]);
    if crc != (frame[6] as nat) + 256 * (frame[7] as nat) {
      return None;
    }
    return Some(Request(frame[0], frame[1], BigEndian(frame[2], frame[3]), BigEndian(frame[4], frame[5])));
  }

  method ScanRtuRequests(buffer: seq<Byte>) returns (found: seq<Request>)
    ensures found == Found(ReadRequest, REQUEST_LEN, buffer)
  {
    found := [];
    var last := if |buffer| < REQUEST_LEN then 0 else |buffer| - REQUEST_LEN + 1;
    for i := 0 to last
      invariant found + FoundFrom(ReadRequest, REQUEST_LEN, buffer, i) == Found(ReadRequest, REQUEST_LEN, buffer)
    {
      var r := CheckWindow(buffer[i..i + REQUEST_LEN]);
      FoundNext(ReadRequest, REQUEST_LEN, buffer, i, found);
      found := found + if r.Some? then [r.value] else [];
    }
  }

  // ----- The recorder

  datatype Wire = Wire(scan: Recorder<Byte, Byte>, lastTs: Option<real>)

  const QUIET := Wire(Recorder(0, map[], []), None)

  function Recorded(maxIds: nat, w: Wire, data: seq<Byte>, ts: real): Wire {
    if data == [] then w
    else Wire(Fed(ReadRequest, SlaveOf, REQUEST_LEN, maxIds, w.scan, data), Some(ts))
  }

  class WireActivity {
    const maxIds: nat
    var bytesSeen: nat
    var lastTs: Option<real>
    var frames: map<Byte, nat>
    var tail: seq<Byte>

    function State(): Wire
      reads this
    {
      Wire(Recorder(bytesSeen, frames, tail), lastTs)
    }

    constructor (maxIds: nat)
      ensures this.maxIds == maxIds && State() == QUIET
    {
      this.maxIds := maxIds;
      bytesSeen, lastTs, frames, tail := 0, None, map[], [];
    }

    method Count(slaves: seq<Byte>)
      modifies `frames
      ensures frames == Bumps(maxIds, old(frames), slaves)
    {
      for i := 0 to |slaves|
        invariant Bumps(maxIds, frames, slaves[i..]) == Bumps(maxIds, old(frames), slaves)
      {
        var slave := slaves[i];
        assert slaves[i..] == [slave] + slaves[i + 1..];
        if slave in frames {
          frames := frames[slave := frames[slave] + 1];
        } else if |frames| < maxIds {
          frames := frames[slave := 1];
        }
      }
    }

    method Record(data: seq<Byte>, ts: real)
      modifies this
      ensures State() == Recorded(maxIds, old(State()), data, ts)
    {
      if data == [] {
        return;
      }
      bytesSeen := bytesSeen + |data|;
      lastTs := Some(ts);
      var buffer := tail + data;
      var found := ScanRtuRequests(buffer);
      Count(Keys(SlaveOf, found));
      tail := if |buffer| < REQUEST_LEN then buffer else buffer[|buffer| - (REQUEST_LEN - 1)..];
    }
  }

  // ----- Every chunking of a byte stream gives the same answer

  datatype Chunk = Chunk(data: seq<Byte>, ts: real)

  function Stream(chunks: seq<Chunk>): seq<Byte>
    decreases |chunks|
  {
    if chunks == [] then [] else Stream(chunks[..|chunks| - 1]) + chunks[|chunks| - 1].data
  }

  /** When the last byte arrived. */
  function LastArrival(chunks: seq<Chunk>): Option<real>
    decreases |chunks|
  {
    if chunks == [] then None
    else
      var c := chunks[|chunks| - 1];
      if c.data == [] then LastArrival(chunks[..|chunks| - 1]) else Some(c.ts)
  }

  function RecordedAll(maxIds: nat, chunks: seq<Chunk>): Wire
    decreases |chunks|
  {
    if chunks == [] then QUIET
    else
      var c := chunks[|chunks| - 1];
      Recorded(maxIds, RecordedAll(maxIds, chunks[..|chunks| - 1]), c.data, c.ts)
  }

  method RecordAll(maxIds: nat, chunks: seq<Chunk>) returns (w: WireActivity)
    ensures fresh(w) && w.State() == RecordedAll(maxIds, chunks)
  {
    w := new WireActivity(maxIds);
    for i := 0 to |chunks|
      invariant fresh(w) && w.maxIds == maxIds && w.State() == RecordedAll(maxIds, chunks[..i])
    {
      assert chunks[..i + 1][..i] == chunks[..i];
      w.Record(chunks[i].data, chunks[i].ts);
    }
    assert chunks[..|chunks|] == chunks;
  }

  lemma {:induction false} ChunkingIndependent(maxIds: nat, chunks: seq<Chunk>)
    ensures RecordedAll(maxIds, chunks) ==
            Wire(Whole(ReadRequest, SlaveOf, REQUEST_LEN, maxIds, Stream(chunks)), LastArrival(chunks))
    decreases |chunks|
  {
    if chunks == [] {
      assert Found(ReadRequest, REQUEST_LEN, []) == [];
    } else {
      var init, c := chunks[..|chunks| - 1], chunks[|chunks| - 1];
      ChunkingIndependent(maxIds, init);
      FedWhole(ReadRequest, SlaveOf, REQUEST_LEN, maxIds, Stream(init), c.data);
      if c.data == [] { assert Stream(init) + [] == Stream(init); }
    }
  }

  /** However the bytes arrived: each tracked slave is reported with exactly the number of
      CRC-valid windows addressed to it, and the tracked ones are the first maxIds seen. */
  lemma WireReportExact(maxIds: nat, chunks: seq<Chunk>, slave: Byte)
    ensures var w := RecordedAll(maxIds, chunks).scan;
            var s := Stream(chunks);
            && w.length == |s|
            && (slave in w.counts ==>
                  w.counts[slave] == |Positions(ReadRequest, SlaveOf, REQUEST_LEN, s, slave, 0)| > 0)
            && (slave in w.counts <==>
                  Early(maxIds, Keys(SlaveOf, Found(ReadRequest, REQUEST_LEN, s)), slave))
  {
    ChunkingIndependent(maxIds, chunks);
    WholeIsExact(ReadRequest, SlaveOf, REQUEST_LEN, maxIds, Stream(chunks), slave);
  }
}
