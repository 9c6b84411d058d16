/** Readiness, failure and close of the one subscription stream behind a bridge's hub client. */
module HubConnection {
  import opened Common
  import opened HubCache

  function Received(log: seq<Update>): set<BlockKey> {
    set i | 0 <= i < |log| :: log[i].key
  }

  lemma ReceivedGrows(log: seq<Update>, u: Update)
    ensures Received(log + [u]) == Received(log) + {u.key}
  {
    var all := log + [u];
    forall k | k in Received(log) + {u.key} ensures k in Received(all) {
      if k in Received(log) {
        var i :| 0 <= i < |log| && log[i].key == k;
        assert all[i].key == k;
      } else {
        assert all[|log|].key == k;
      }
    }
  }

  class HubConnection {
    const blocks: set<BlockKey>
    const cache: BlockCache
    var awaited: set<BlockKey>
    var ready: bool
    var closed: bool
    /** The stream task exists. */
    var running: bool

    ghost predicate Valid()
      reads this, cache
    {
      && cache.Valid()
      && awaited == blocks - Received(cache.log)
      && (ready ==> awaited == {})
      && (awaited == {} && cache.log != [] ==> ready)
      && (closed ==> cache.streamError.Some? && !running)
    }

    constructor (blocks: set<BlockKey>, maxStale: real)
      requires blocks != {}
      ensures Valid() && fresh(cache) && this.blocks == blocks && cache.maxStale == maxStale
      ensures cache.log == [] && !closed && !ready && !running
    {
      this.blocks := blocks;
      cache := new BlockCache(maxStale);
      awaited, ready, closed, running := blocks, false, false, false;
    }

    /** `waited` is the outcome of waiting for readiness with a timeout. True means every
        declared block has been delivered and the stream is up; never so after a close. */
    method Connect(waited: bool) returns (ok: bool)
      requires Valid() && (waited ==> ready)
      modifies `running
      ensures Valid()
      ensures ok <==> !closed && waited && cache.streamError == None
      ensures ok ==> blocks <= Received(cache.log)
      ensures running == !closed
    {
      if closed {
        return false;
      }
      running := true;
      assert forall b :: b in blocks && b !in Received(cache.log) ==> b in awaited;
      return waited && cache.streamError == None;
    }

    /** One message of the stream task. */
    method OnUpdate(key: BlockKey, registers: seq<Word>, error: string, now: real)
      requires Valid() && running
      modifies this, cache
      ensures Valid() && running && !closed && (old(ready) ==> ready)
      ensures cache.log == old(cache.log) + [Update(key, registers, error, now)]
      ensures cache.streamError == None
      ensures ready <==> blocks <= Received(cache.log)
    {
      cache.Receive(key, registers, error, now);
      cache.SetStreamError(None);
      awaited := awaited - {key};
      ReceivedGrows(old(cache.log), Update(key, registers, error, now));
      if awaited == {} {
        ready := true;
      }
    }

    /** The stream ended or failed; the task sleeps and tries again. What was ready stays ready. */
    method OnStreamFailure(error: string)
      requires Valid() && running
      modifies cache`streamError
      ensures Valid() && cache.streamError.Some?
    {
      cache.SetStreamError(Some(error));
    }

    method Close()
      requires Valid()
      modifies `closed, `running, cache`streamError
      ensures Valid() && closed && !running
      ensures old(closed) ==> cache.streamError == old(cache.streamError)
    {
      if closed {
        return;
      }
      closed := true;
      running := false;
      cache.SetStreamError(Some("closed"));
    }

    /** After a close every read fails; once ready, a read inside a declared block can only
        fail because the stream is down, the hub reported an error, or the block is stale. */
    method Read(r: Request, now: real) returns (response: Response)
      requires Valid() && Monotone(cache.log, now)
      ensures response == Answer(cache.entries, cache.streamError, cache.maxStale, r, now)
      ensures closed ==> response == Failed(StreamDown)
      ensures ready && (exists b :: b in blocks && Covers(b, r)) ==> response != Failed(NotCovered)
      ensures Explained(cache.log, cache.streamError, cache.maxStale, r, now, response)
    {
      response := cache.Lookup(r, now);
      if ready && exists b :: b in blocks && Covers(b, r) {
        ghost var b :| b in blocks && Covers(b, r);
        assert b !in Received(cache.log) ==> b in awaited;
        ghost var j :| 0 <= j < |cache.log| && cache.log[j].key == b;
      }
    }
  }
}
