/** The hub subscription and the pollers agree: once everything subscribed has been delivered,
    no read of any poll can fail for want of a block. */
module HubAgreement {
  import opened Common
  import opened HubCache
  import Connection = HubConnection
  import opened RegisterMap
  import opened Sources

  function BlockSet(blocks: seq<BlockKey>): set<BlockKey> {
    set b | b in blocks
  }

  lemma OneDeviceMore(side: SourceSide, devices: seq<Device>, i: nat, out: seq<BlockKey>, one: seq<BlockKey>)
    requires i < |devices| && side.Groups() != []
    requires one == Declared(side.Groups(), side.addressOffset, FC_INPUT, devices[i].unitId, devices[i].link)
    ensures out + EtangoBlocks(side, devices[i..]) == out + one + EtangoBlocks(side, devices[i + 1..])
  {
    assert devices[i..][1..] == devices[i + 1..];
  }

  predicate NoLink(devices: seq<Device>) {
    exists i :: 0 <= i < |devices| && devices[i].link == []
  }

  method MakeEtangoSubscription(side: SourceSide, devices: seq<Device>) returns (blocks: Option<seq<BlockKey>>)
    ensures blocks.Some? ==> blocks.value == EtangoBlocks(side, devices)
    ensures blocks == None <==> devices != [] && (side.Groups() == [] || NoLink(devices))
  {
    var out: seq<BlockKey> := [];
    for i := 0 to |devices|
      invariant out + EtangoBlocks(side, devices[i..]) == EtangoBlocks(side, devices)
      invariant i > 0 ==> side.Groups() != []
      invariant forall k :: 0 <= k < i ==> devices[k].link != []
    {
      if devices[i].link == [] {
        return None;
      }
      var one := BlocksForSource(TypeEtango, side, devices[i].unitId, devices[i].link);
      if one == None {
        return None;
      }
      OneDeviceMore(side, devices, i, out, one.value);
      out := out + one.value;
    }
    assert out + [] == out;
    return Some(out);
  }

  /** The blocks the hub client of a source declares; None is the ValueError of an empty link
      name or of a map without any blocks. */
  method MakeSubscription(s: Source) returns (blocks: Option<seq<BlockKey>>)
    ensures blocks.Some? ==> blocks.value == Subscription(s)
    ensures blocks == None <==>
              if s.Etango? then s.devices != [] && (s.side.Groups() == [] || NoLink(s.devices))
              else s.link == [] || (s.Huawei? && s.side.Groups() == [])
  {
    if s.Etango? {
      blocks := MakeEtangoSubscription(s.side, s.devices);
      return;
    }
    if s.link == [] {
      return None;
    }
    blocks := BlocksForSource(if s.Nd45? then TypeNd45 else TypeHuawei, s.side, s.unitId, s.link);
  }

  /** Once every declared block has been seen, any read of any poll of the source fails only
      because the stream is down, the hub reported an error, or the block is stale. */
  lemma ReadyAnswersEveryRequest(s: Source, log: seq<Update>, streamError: Option<string>, maxStale: real, i: nat,
                                 now: real)
    requires BlockSet(Subscription(s)) <= Connection.Received(log)
    requires Monotone(log, now) && i < |PollRequests(s)|
    ensures Applied(log).Valid()
    ensures Answer(Applied(log), streamError, maxStale, PollRequests(s)[i], now) != Failed(NotCovered)
  {
    EveryRequestSubscribed(s, i);
    var b :| b in Subscription(s) && Covers(b, PollRequests(s)[i]);
    assert b in BlockSet(Subscription(s));
    assert b in Connection.Received(log);
    var j :| 0 <= j < |log| && log[j].key == b;
    AnswerRefinesHistory(log, streamError, maxStale, PollRequests(s)[i], now);
  }

  // ----- Staleness against freshness

  /** How old a pushed block may get before it counts as failed. */
  function StalenessThreshold(pollInterval: real, timeout: real): real {
    if timeout > pollInterval * 3.0 then timeout else pollInterval * 3.0
  }

  /** What the configuration checks of a source's times: all positive, a stall timeout above and a
      freshness threshold of at least two poll intervals. */
  predicate TimesAccepted(pollInterval: real, timeout: real, stallTimeout: real, maxDataAge: real) {
    && pollInterval > 0.0 && timeout > 0.0 && stallTimeout > 0.0
    && stallTimeout > pollInterval * 2.0 && maxDataAge >= pollInterval * 2.0
  }

  /** A read answered at this moment, if at all, rests on a message no older than maxAge than which
      no covering message is newer. */
  ghost predicate AnswerWithin(log: seq<Update>, r: Request, now: real, maxStale: real, maxAge: real) {
    && Applied(log).Valid()
    && var answer := Answer(Applied(log), None, maxStale, r, now);
       answer.Ok? ==> exists i :: Justified(log, r, now, maxStale, answer.registers, i) && now - log[i].at <= maxAge
  }

  ghost predicate AnswersWithin(maxStale: real, maxAge: real) {
    forall log: seq<Update>, r: Request, now: real ::
      Monotone(log, now) ==> AnswerWithin(log, r, now, maxStale, maxAge)
  }

  lemma OldMessageAnswers(maxStale: real, maxAge: real)
    requires maxStale >= 0.0 && maxStale > maxAge
    ensures !AnswersWithin(maxStale, maxAge)
  {
    var k := BlockKey([], 0, FC_HOLDING, 0, 1);
    var log, r := [Update(k, [0], [], 0.0)], Request([], 0, FC_HOLDING, 0, 1);
    AppliedValid(log);
    assert log[..0] == [];
    assert Applied(log) == Entries([k], map[k := EntryOf(log[0])]);
    assert Best(Applied(log), r, 1) == Some(k);
    assert Monotone(log, maxStale) && !AnswerWithin(log, r, maxStale, maxStale, maxAge);
  }

  lemma YoungMessageAnswers(log: seq<Update>, r: Request, now: real, maxStale: real, maxAge: real)
    requires Monotone(log, now) && maxStale <= maxAge
    ensures AnswerWithin(log, r, now, maxStale, maxAge)
  {
    AnswerRefinesHistory(log, None, maxStale, r, now);
    var answer := Answer(Applied(log), None, maxStale, r, now);
    if answer.Ok? {
      var i :| Justified(log, r, now, maxStale, answer.registers, i);
      assert now - log[i].at <= maxAge;
    }
  }

  /** The documented order, that a block is stale before the data made of it is, decides what the
      cache can answer: it never answers a read from a message older than the freshness threshold
      exactly when neither the timeout nor three poll intervals exceed that threshold. */
  lemma StalenessFiresFirstIff(pollInterval: real, timeout: real, maxDataAge: real)
    requires pollInterval > 0.0
    ensures AnswersWithin(StalenessThreshold(pollInterval, timeout), maxDataAge) <==>
            timeout <= maxDataAge && pollInterval * 3.0 <= maxDataAge
  {
    var maxStale := StalenessThreshold(pollInterval, timeout);
    if maxStale > maxDataAge {
      OldMessageAnswers(maxStale, maxDataAge);
    } else {
      forall log: seq<Update>, r: Request, now: real | Monotone(log, now)
        ensures AnswerWithin(log, r, now, maxStale, maxDataAge)
      {
        YoungMessageAnswers(log, r, now, maxStale, maxDataAge);
      }
    }
  }

  /** The checks ask for less on both counts: accepted times can have the poll interval too long
      for that, or the device timeout. */
  lemma StalenessMayFireLast()
    ensures TimesAccepted(2.0, 3.0, 30.0, 5.0) && StalenessThreshold(2.0, 3.0) > 5.0
    ensures TimesAccepted(0.3, 4.0, 30.0, 3.0) && StalenessThreshold(0.3, 4.0) > 3.0
  {
  }
}
