/** The client-side cache of pushed register blocks: last update per subscribed block plus the
    staleness rule. Every answer it gives is justified by the complete history of updates. */
module HubCache {
  import opened Common

  /** One contiguous register range on one device behind one hub link. */
  datatype BlockKey = BlockKey(link: string, unitId: int, fc: int, base: int, count: int)

  datatype Request = Request(link: string, unitId: int, fc: int, addr: int, count: nat)

  predicate Covers(k: BlockKey, r: Request) {
    k.link == r.link && k.unitId == r.unitId && k.fc == r.fc && r.addr >= k.base && r.addr + r.count <= k.base + k.count
  }

  /** One message of the hub as it arrived; an empty error means none. */
  datatype Update = Update(key: BlockKey, registers: seq<Word>, error: string, at: real)

  datatype Entry = Entry(registers: Option<seq<Word>>, receivedAt: real, error: string)

  function EntryOf(u: Update): Entry {
    Entry(if u.error != "" then None else Some(u.registers), u.at, u.error)
  }

  datatype Reason = StreamDown | NotCovered | Reported(error: string) | Stale

  datatype Response = Ok(registers: seq<Word>) | Failed(reason: Reason)

  /** Python's s[offset:offset + count] for a non-negative offset. */
  function Slice(s: seq<Word>, offset: nat, count: nat): seq<Word> {
    if offset >= |s| then [] else if offset + count > |s| then s[offset..] else s[offset..offset + count]
  }

  /** A dictionary in insertion order. */
  datatype Entries = Entries(order: seq<BlockKey>, at: map<BlockKey, Entry>) {
    ghost predicate Valid() {
      && (forall k :: k in order <==> k in at)
      && (forall k :: k in at ==> (at[k].error == "" <==> at[k].registers.Some?))
    }

    function Put(k: BlockKey, e: Entry): Entries {
      Entries(if k in at then order else order + [k], at[k := e])
    }
  }

  /** The newest covering block among the first n of the dictionary; the earlier one on a tie. */
  function Best(es: Entries, r: Request, n: nat): (b: Option<BlockKey>)
    requires n <= |es.order| && es.Valid()
    ensures b.Some? ==> b.value in es.at && Covers(b.value, r)
  {
    if n == 0 then None
    else
      var b, k := Best(es, r, n - 1), es.order[n - 1];
      if Covers(k, r) && (b == None || es.at[k].receivedAt > es.at[b.value].receivedAt) then Some(k) else b
  }

  function Answer(es: Entries, streamError: Option<string>, maxStale: real, r: Request, now: real): Response
    requires es.Valid()
  {
    if streamError.Some? then Failed(StreamDown)
    else
      match Best(es, r, |es.order|)
      case None => Failed(NotCovered)
      case Some(k) =>
        var e := es.at[k];
        if e.error != "" then Failed(Reported(e.error))
        else if now - e.receivedAt > maxStale then Failed(Stale)
        else Ok(Slice(e.registers.value, r.addr - k.base, r.count))
  }

  // ----- The dictionary against the complete history

  function Applied(log: seq<Update>): (es: Entries)
    decreases |log|
  {
    if log == [] then Entries([], map[])
    else
      var u := log[|log| - 1];
      Applied(log[..|log| - 1]).Put(u.key, EntryOf(u))
  }

  predicate Monotone(log: seq<Update>, now: real) {
    && (forall i, j :: 0 <= i <= j < |log| ==> log[i].at <= log[j].at)
    && (forall i :: 0 <= i < |log| ==> log[i].at <= now)
  }

  predicate LastOfKey(log: seq<Update>, i: int) {
    0 <= i < |log| && forall j :: i < j < |log| ==> log[j].key != log[i].key
  }

  /** A covering message than which no covering message, good or bad, is strictly newer. */
  predicate Newest(log: seq<Update>, r: Request, i: int) {
    && LastOfKey(log, i) && Covers(log[i].key, r)
    && forall j :: 0 <= j < |log| && Covers(log[j].key, r) ==> log[j].at <= log[i].at
  }

  lemma {:induction false} AppliedValid(log: seq<Update>)
    ensures Applied(log).Valid()
    ensures forall i :: 0 <= i < |log| ==> log[i].key in Applied(log).at
    decreases |log|
  {
    if log != [] {
      var init := log[..|log| - 1];
      AppliedValid(init);
      forall i | 0 <= i < |log| ensures log[i].key in Applied(log).at {
        if i < |init| { assert log[i] == init[i]; }
      }
    }
  }

  lemma {:induction false} AppliedIsLast(log: seq<Update>, k: BlockKey) returns (i: nat)
    requires k in Applied(log).at
    ensures LastOfKey(log, i) && log[i].key == k && Applied(log).at[k] == EntryOf(log[i])
    decreases |log|
  {
    var n := |log| - 1;
    if log[n].key == k {
      i := n;
    } else {
      i := AppliedIsLast(log[..n], k);
      assert log[i] == log[..n][i];
      forall j | i < j < |log| ensures log[j].key != k {
        if j < n { assert log[j] == log[..n][j]; }
      }
    }
  }

  lemma {:induction false} BestIsMax(es: Entries, r: Request, n: nat)
    requires n <= |es.order| && es.Valid()
    ensures var b := Best(es, r, n);
            forall m :: 0 <= m < n && Covers(es.order[m], r) ==>
                 b.Some? && es.at[es.order[m]].receivedAt <= es.at[b.value].receivedAt
  {
    if n > 0 { BestIsMax(es, r, n - 1); }
  }

  predicate FirstNewest(es: Entries, r: Request, n: nat, i: nat)
    requires n <= |es.order| && es.Valid()
  {
    && i < n && Covers(es.order[i], r)
    && forall m :: 0 <= m < i && Covers(es.order[m], r) ==>
         es.at[es.order[m]].receivedAt < es.at[es.order[i]].receivedAt
  }

  /** Of equally new blocks the one heard of first answers. */
  lemma {:induction false} TieGoesToFirst(es: Entries, r: Request, n: nat) returns (i: nat)
    requires n <= |es.order| && es.Valid() && Best(es, r, n).Some?
    ensures FirstNewest(es, r, n, i) && Best(es, r, n) == Some(es.order[i])
  {
    BestIsMax(es, r, n - 1);
    if Best(es, r, n) == Best(es, r, n - 1) {
      i := TieGoesToFirst(es, r, n - 1);
    } else {
      i := n - 1;
    }
  }

  lemma BestIsNewest(log: seq<Update>, r: Request, now: real)
    requires Monotone(log, now)
    ensures Applied(log).Valid()
    ensures var b := Best(Applied(log), r, |Applied(log).order|);
            && (b == None ==> forall j :: 0 <= j < |log| ==> !Covers(log[j].key, r))
            && (b.Some? ==> exists i :: Newest(log, r, i) && log[i].key == b.value &&
                                        Applied(log).at[b.value] == EntryOf(log[i]))
  {
    AppliedValid(log);
    var es := Applied(log);
    BestIsMax(es, r, |es.order|);
    var b := Best(es, r, |es.order|);
    forall j | 0 <= j < |log| && Covers(log[j].key, r)
      ensures b.Some? && log[j].at <= es.at[b.value].receivedAt
    {
      var i := AppliedIsLast(log, log[j].key);
      assert j <= i;
      assert log[j].key in es.order;
    }
    if b.Some? {
      var i := AppliedIsLast(log, b.value);
      assert Newest(log, r, i);
    }
  }

  /** What a successful answer means: it is the requested slice of one good covering message,
      at most maxStale old, and no covering message or error arrived strictly later. */
  ghost predicate Justified(log: seq<Update>, r: Request, now: real, maxStale: real, regs: seq<Word>, i: int) {
    && Newest(log, r, i) && log[i].error == ""
    && now - log[i].at <= maxStale
    && regs == Slice(log[i].registers, r.addr - log[i].key.base, r.count)
  }

  /** What any answer means in terms of everything ever received. */
  ghost predicate Explained(
    log: seq<Update>, streamError: Option<string>, maxStale: real, r: Request, now: real, response: Response)
  {
    match response
    case Ok(regs) => streamError == None && exists i :: Justified(log, r, now, maxStale, regs, i)
    case Failed(StreamDown) => streamError.Some?
    case Failed(NotCovered) => streamError == None && forall j :: 0 <= j < |log| ==> !Covers(log[j].key, r)
    case Failed(Reported(e)) => streamError == None && exists i :: Newest(log, r, i) && log[i].error == e != ""
    case Failed(Stale) =>
      streamError == None && exists i :: Newest(log, r, i) && log[i].error == "" && now - log[i].at > maxStale
  }

  lemma AnswerRefinesHistory(log: seq<Update>, streamError: Option<string>, maxStale: real, r: Request, now: real)
    requires Monotone(log, now)
    ensures Applied(log).Valid()
    ensures Explained(log, streamError, maxStale, r, now, Answer(Applied(log), streamError, maxStale, r, now))
  {
    BestIsNewest(log, r, now);
    var es := Applied(log);
    var b := Best(es, r, |es.order|);
    if streamError == None && b.Some? {
      var i :| Newest(log, r, i) && log[i].key == b.value && es.at[b.value] == EntryOf(log[i]);
      var e := es.at[b.value];
      if e.error == "" && now - e.receivedAt <= maxStale {
        assert Justified(log, r, now, maxStale, Slice(e.registers.value, r.addr - b.value.base, r.count), i);
      }
    }
  }

  /** What a slice holds: as much of the requested stretch as there is. */
  lemma SliceMeans(s: seq<Word>, offset: nat, count: nat)
    ensures |Slice(s, offset, count)| ==
            if offset + count <= |s| then count else if offset <= |s| then |s| - offset else 0
    ensures forall k :: 0 <= k < |Slice(s, offset, count)| ==> Slice(s, offset, count)[k] == s[offset + k]
  {
  }

  /** The message holds all of its block, and this is the requested part of it. */
  predicate ServedFrom(u: Update, r: Request, regs: seq<Word>)
    requires Covers(u.key, r)
  {
    && |u.registers| == u.key.count && |regs| == r.count
    && forall k :: 0 <= k < r.count ==> regs[k] == u.registers[r.addr - u.key.base + k]
  }

  ghost predicate SomeServes(log: seq<Update>, r: Request, response: Response) {
    response.Ok? && exists i :: Newest(log, r, i) && ServedFrom(log[i], r, response.registers)
  }

  lemma JustifiedIsServed(log: seq<Update>, r: Request, now: real, maxStale: real, regs: seq<Word>, i: int)
    requires Justified(log, r, now, maxStale, regs, i) && |log[i].registers| == log[i].key.count
    ensures ServedFrom(log[i], r, regs)
  {
    SliceMeans(log[i].registers, r.addr - log[i].key.base, r.count);
  }

  lemma ExplainedIsServed(log: seq<Update>, maxStale: real, r: Request, now: real, response: Response, j: nat)
    requires Explained(log, None, maxStale, r, now, response) && j < |log| && Covers(log[j].key, r)
    requires forall i :: Newest(log, r, i) ==>
               log[i].error == "" && now - log[i].at <= maxStale && |log[i].registers| == log[i].key.count
    ensures SomeServes(log, r, response)
  {
    if response.Ok? {
      var i :| Justified(log, r, now, maxStale, response.registers, i);
      JustifiedIsServed(log, r, now, maxStale, response.registers, i);
    }
  }

  /** Whenever some message covers the request and the newest ones are good, complete and fresh, the
      answer is the requested registers of one of them. */
  lemma FreshBlockIsServed(log: seq<Update>, maxStale: real, r: Request, now: real, j: nat)
    requires Monotone(log, now) && j < |log| && Covers(log[j].key, r)
    requires forall i :: Newest(log, r, i) ==>
               log[i].error == "" && now - log[i].at <= maxStale && |log[i].registers| == log[i].key.count
    ensures Applied(log).Valid()
    ensures SomeServes(log, r, Answer(Applied(log), None, maxStale, r, now))
  {
    AnswerRefinesHistory(log, None, maxStale, r, now);
    ExplainedIsServed(log, maxStale, r, now, Answer(Applied(log), None, maxStale, r, now), j);
  }

  class BlockCache {
    const maxStale: real
    var entries: Entries
    var streamError: Option<string>
    /** Every update since the start. */
    ghost var log: seq<Update>

    ghost predicate Valid()
      reads this
    {
      entries == Applied(log) && entries.Valid()
    }

    constructor (maxStale: real)
      ensures Valid() && log == [] && streamError.Some? && this.maxStale == maxStale
    {
      this.maxStale := maxStale;
      entries, streamError, log := Entries([], map[]), Some("not connected yet"), [];
    }

    method SetStreamError(error: Option<string>)
      requires Valid()
      modifies `streamError
      ensures Valid() && streamError == error
    {
      streamError := error;
    }

    method Receive(key: BlockKey, registers: seq<Word>, error: string, now: real)
      requires Valid()
      modifies `entries, `log
      ensures Valid() && log == old(log) + [Update(key, registers, error, now)]
    {
      var u := Update(key, registers, error, now);
      assert (log + [u])[..|log|] == log;
      entries := entries.Put(key, Entry(if error != "" then None else Some(registers), now, error));
      log := log + [u];
    }

    method Lookup(r: Request, now: real) returns (response: Response)
      requires Valid() && Monotone(log, now)
      ensures response == Answer(entries, streamError, maxStale, r, now)
      ensures Explained(log, streamError, maxStale, r, now, response)
    {
      AnswerRefinesHistory(log, streamError, maxStale, r, now);
      if streamError.Some? {
        return Failed(StreamDown);
      }
      var best: Option<BlockKey> := None;
      for n := 0 to |entries.order|
        invariant best == Best(entries, r, n)
      {
        var key := entries.order[n];
        if !Covers(key, r) {
          continue;
        }
        if best == None || entries.at[key].receivedAt > entries.at[best.value].receivedAt {
          best := Some(key);
        }
      }
      if best == None {
        return Failed(NotCovered);
      }
      var entry := entries.at[best.value];
      if entry.error != "" {
        return Failed(Reported(entry.error));
      }
      if now - entry.receivedAt > maxStale {
        return Failed(Stale);
      }
      response := Ok(Slice(entry.registers.value, r.addr - best.value.base, r.count));
    }
  }
}
