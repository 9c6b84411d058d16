/** The record of read requests a master makes: a bounded, pruned and capped summary that
    still answers exactly as the complete history would. */
module ReadActivity {
  import opened CappedTally
  import opened Common

  datatype Read = Read(fc: nat, address: nat, count: nat, ts: real)

  type Block = (nat, nat, nat)

  function Blocks(log: seq<Read>): (r: seq<Block>)
    ensures |r| == |log|
  {
    seq(|log|, i requires 0 <= i < |log| => (log[i].fc, log[i].address, log[i].count))
  }

  function Times(log: seq<Read>): (r: seq<real>)
    ensures |r| == |log|
  {
    seq(|log|, i requires 0 <= i < |log| => log[i].ts)
  }

  function DropOld(times: seq<real>, now: real, window: real): seq<real>
    decreases |times|
  {
    if times != [] && now - times[0] > window then DropOld(times[1..], now, window) else times
  }

  /** The time stamps still held after a history of reads. */
  function KeptTimes(log: seq<Read>, window: real): seq<real>
    decreases |log|
  {
    if log == [] then []
    else
      var n := |log| - 1;
      DropOld(KeptTimes(log[..n], window) + [log[n].ts], log[n].ts, window)
  }

  predicate Covers(r: Read, fc: nat, a: nat) {
    r.fc == fc && r.address <= a < r.address + r.count
  }

  /** When the latest read covering this register happened. */
  function LastCover(log: seq<Read>, fc: nat, a: nat): Option<real>
    decreases |log|
  {
    if log == [] then None
    else
      var n := |log| - 1;
      if Covers(log[n], fc, a) then Some(log[n].ts) else LastCover(log[..n], fc, a)
  }

  function Get<K, V>(m: map<K, V>, k: K): Option<V> {
    if k in m then Some(m[k]) else None
  }

  /** The time stamps no older than the window, in order. */
  function Within(times: seq<real>, now: real, window: real): seq<real>
    decreases |times|
  {
    if times == [] then []
    else (if now - times[0] <= window then [times[0]] else []) + Within(times[1..], now, window)
  }

  /** The reads of a history that are no older than the window. */
  function RecentReads(log: seq<Read>, now: real, window: real): set<nat> {
    set i: nat | i < |log| && now - log[i].ts <= window
  }

  lemma {:induction false} WithinAppend(times: seq<real>, t: real, now: real, window: real)
    ensures Within(times + [t], now, window) == Within(times, now, window) + if now - t <= window then [t] else []
    decreases |times|
  {
    if times == [] {
      assert [t][1..] == [] && times + [t] == [t];
    } else {
      assert (times + [t])[1..] == times[1..] + [t];
      WithinAppend(times[1..], t, now, window);
      var first := if now - times[0] <= window then [times[0]] else [];
      var last := if now - t <= window then [t] else [];
      var rest := Within(times[1..], now, window);
      assert Within(times + [t], now, window) == first + (rest + last);
      assert first + (rest + last) == (first + rest) + last;
    }
  }

  /** One time stamp is kept for each of them. */
  lemma {:induction false} WithinCounts(log: seq<Read>, now: real, window: real)
    ensures |Within(Times(log), now, window)| == |RecentReads(log, now, window)|
    decreases |log|
  {
    if log != [] {
      var n := |log| - 1;
      WithinCounts(log[..n], now, window);
      WithinAppend(Times(log[..n]), log[n].ts, now, window);
      assert Times(log) == Times(log[..n]) + [log[n].ts];
      var more: set<nat> := if now - log[n].ts <= window then {n} else {};
      assert RecentReads(log, now, window) == RecentReads(log[..n], now, window) + more;
    }
  }

  // ----- Pruning never changes an answer

  predicate Monotone(log: seq<Read>) {
    forall i, j :: 0 <= i <= j < |log| ==> log[i].ts <= log[j].ts
  }

  lemma {:induction false} WithinDropsOld(times: seq<real>, k: nat, now: real, window: real)
    requires k <= |times| && forall i :: 0 <= i < k ==> now - times[i] > window
    ensures Within(times[k..], now, window) == Within(times, now, window)
    decreases k
  {
    if k > 0 {
      assert times[1..][k - 1..] == times[k..];
      WithinDropsOld(times[1..], k - 1, now, window);
    }
  }

  lemma {:induction false} DropOldIsSuffix(times: seq<real>, now: real, window: real) returns (k: nat)
    ensures k <= |times| && DropOld(times, now, window) == times[k..]
    ensures forall i :: 0 <= i < k ==> now - times[i] > window
    decreases |times|
  {
    k := 0;
    if times != [] && now - times[0] > window {
      k := DropOldIsSuffix(times[1..], now, window);
      assert times[1..][k..] == times[k + 1..];
      k := k + 1;
    }
  }

  lemma {:induction false} KeptIsSuffix(log: seq<Read>, window: real) returns (k: nat)
    requires Monotone(log)
    ensures k <= |log| && KeptTimes(log, window) == Times(log)[k..]
    ensures forall i :: 0 <= i < k ==> log[|log| - 1].ts - log[i].ts > window
    decreases |log|
  {
    k := 0;
    if log != [] {
      var n := |log| - 1;
      var j := KeptIsSuffix(log[..n], window);
      assert Times(log[..n])[j..] + [log[n].ts] == Times(log)[j..];
      var d := DropOldIsSuffix(Times(log)[j..], log[n].ts, window);
      k := j + d;
      assert Times(log)[j..][d..] == Times(log)[k..];
      forall i | 0 <= i < k ensures log[n].ts - log[i].ts > window {
        if i < j {
          assert log[n - 1].ts <= log[n].ts;
        } else {
          assert Times(log)[j..][i - j] == log[i].ts;
        }
      }
    }
  }

  /** The reads counted into the rate are those of the whole history. */
  lemma PruningHarmless(log: seq<Read>, now: real, window: real)
    requires Monotone(log) && (log != [] ==> log[|log| - 1].ts <= now)
    ensures Within(KeptTimes(log, window), now, window) == Within(Times(log), now, window)
  {
    var k := KeptIsSuffix(log, window);
    WithinDropsOld(Times(log), k, now, window);
  }

  /** How each summary of the history moves when one more read arrives. */
  lemma LogGrows(log: seq<Read>, r: Read, recentMax: nat, window: real, cap: nat)
    ensures var all := log + [r];
            && Tally(cap, Blocks(all)) == Bump(cap, Tally(cap, Blocks(log)), (r.fc, r.address, r.count))
            && LastN(recentMax, all) == Append(recentMax, LastN(recentMax, log), r)
            && KeptTimes(all, window) == DropOld(KeptTimes(log, window) + [r.ts], r.ts, window)
  {
    var all, key := log + [r], (r.fc, r.address, r.count);
    assert all[..|log|] == log;
    assert Blocks(all) == Blocks(log) + [key];
    BumpsAppend(cap, map[], Blocks(log), [key]);
    AppendLastN(recentMax, log, r);
  }

  lemma CoverGrows(log: seq<Read>, r: Read, fc: nat, a: nat)
    ensures LastCover(log + [r], fc, a) == if Covers(r, fc, a) then Some(r.ts) else LastCover(log, fc, a)
  {
    assert (log + [r])[..|log|] == log;
  }

  datatype Report = Report(total: nat, lastSeenAge: Option<real>, rate: real, blocks: map<Block, nat>,
                           recent: seq<Read>)

  class RtuActivity {
    const recentMax: nat
    const rateWindow: real
    const maxBlocks: nat
    var total: nat
    var lastTs: Option<real>
    var blocks: map<Block, nat>
    var recent: seq<Read>
    var times: seq<real>
    var addrLastSeen: map<(nat, nat), real>
    /** Every read since the start. */
    ghost var log: seq<Read>

    ghost predicate Valid()
      reads this
    {
      && total == |log|
      && lastTs == (if log == [] then None else Some(log[|log| - 1].ts))
      && blocks == Tally(maxBlocks, Blocks(log))
      && recent == LastN(recentMax, log)
      && times == KeptTimes(log, rateWindow)
      && forall fc: nat, a: nat :: Get(addrLastSeen, (fc, a)) == LastCover(log, fc, a)
    }

    constructor (recentMax: nat, rateWindow: real, maxBlocks: nat)
      ensures this.recentMax == recentMax && this.rateWindow == rateWindow && this.maxBlocks == maxBlocks
      ensures Valid() && log == []
    {
      this.recentMax, this.rateWindow, this.maxBlocks := recentMax, rateWindow, maxBlocks;
      total, lastTs, blocks, recent, times, addrLastSeen, log := 0, None, map[], [], [], map[], [];
    }

    method Prune(ts: real)
      modifies `times
      ensures times == DropOld(old(times), ts, rateWindow)
    {
      while times != [] && ts - times[0] > rateWindow
        invariant DropOld(times, ts, rateWindow) == DropOld(old(times), ts, rateWindow)
        decreases |times|
      {
        times := times[1..];
      }
    }

    method Touch(fc: nat, address: nat, count: nat, ts: real)
      modifies `addrLastSeen
      ensures forall f: nat, a: nat :: Get(addrLastSeen, (f, a)) ==
                if Covers(Read(fc, address, count, ts), f, a) then Some(ts) else Get(old(addrLastSeen), (f, a))
    {
      for i := address to address + count
        invariant forall f: nat, a: nat :: Get(addrLastSeen, (f, a)) ==
                    if Covers(Read(fc, address, i - address, ts), f, a) then Some(ts)
                    else Get(old(addrLastSeen), (f, a))
      {
        addrLastSeen := addrLastSeen[(fc, i) := ts];
      }
    }

    method Count(key: Block)
      modifies `blocks
      ensures blocks == Bump(maxBlocks, old(blocks), key)
    {
      if key in blocks {
        blocks := blocks[key := blocks[key] + 1];
      } else if |blocks| < maxBlocks {
        blocks := blocks[key := 1];
      }
    }

    method Record(fc: nat, address: nat, count: nat, ts: real)
      requires Valid()
      modifies this
      ensures Valid() && log == old(log) + [Read(fc, address, count, ts)]
    {
      var read := Read(fc, address, count, ts);
      total := total + 1;
      lastTs := Some(ts);
      Count((fc, address, count));
      recent := Append(recentMax, recent, read);
      times := times + [ts];
      Prune(ts);
      Touch(fc, address, count, ts);
      LogGrows(log, read, recentMax, rateWindow, maxBlocks);
      forall f: nat, a: nat ensures Get(addrLastSeen, (f, a)) == LastCover(log + [read], f, a) {
        CoverGrows(log, read, f, a);
      }
      log := log + [read];
    }

    method LastSeen(fc: nat, address: nat) returns (ts: Option<real>)
      requires Valid()
      ensures ts == LastCover(log, fc, address)
    {
      ts := Get(addrLastSeen, (fc, address));
    }

    /** The read rate is the one the complete history gives, pruned or not. */
    method Rate(now: real) returns (rate: real)
      requires Valid() && rateWindow != 0.0
      requires Monotone(log) && (log != [] ==> log[|log| - 1].ts <= now)
      ensures rate == |RecentReads(log, now, rateWindow)| as real / rateWindow
    {
      var recentTimes: seq<real> := [];
      for i := 0 to |times|
        invariant recentTimes + Within(times[i..], now, rateWindow) == Within(times, now, rateWindow)
      {
        assert times[i..][1..] == times[i + 1..];
        if now - times[i] <= rateWindow {
          recentTimes := recentTimes + [times[i]];
        }
      }
      PruningHarmless(log, now, rateWindow);
      WithinCounts(log, now, rateWindow);
      rate := |recentTimes| as real / rateWindow;
    }

    /** Everything reported, against the complete history. The block counts come unordered here. */
    method Summary(now: real) returns (s: Report)
      requires Valid() && rateWindow != 0.0
      requires Monotone(log) && (log != [] ==> log[|log| - 1].ts <= now)
      ensures s.total == |log|
      ensures s.lastSeenAge == if log == [] then None else Some(now - log[|log| - 1].ts)
      ensures s.rate == |RecentReads(log, now, rateWindow)| as real / rateWindow
      ensures s.blocks == Tally(maxBlocks, Blocks(log))
      ensures s.recent == LastN(recentMax, log)
    {
      var rate := Rate(now);
      s := Report(total, if lastTs == None then None else Some(now - lastTs.value), rate, blocks, recent);
    }

    /** A tracked block's count is its number of occurrences in the whole history, and the
        tracked blocks are the first maxBlocks distinct ones. */
    lemma BlockCountsExact(b: Block)
      requires Valid()
      ensures b in blocks ==> blocks[b] == multiset(Blocks(log))[b]
      ensures b in blocks <==> Early(maxBlocks, Blocks(log), b)
    {
      TallyCounts(maxBlocks, Blocks(log));
    }
  }

  /** The answer of `LastSeen` is the time of a covering read after which no read covers the address. */
  lemma {:induction false} LastCoverIsLatest(log: seq<Read>, fc: nat, a: nat)
    ensures match LastCover(log, fc, a)
            case None => forall i :: 0 <= i < |log| ==> !Covers(log[i], fc, a)
            case Some(ts) =>
              exists i :: 0 <= i < |log| && Covers(log[i], fc, a) && log[i].ts == ts &&
                          forall j :: i < j < |log| ==> !Covers(log[j], fc, a)
    decreases |log|
  {
    if log != [] {
      var n := |log| - 1;
      if !Covers(log[n], fc, a) {
        LastCoverIsLatest(log[..n], fc, a);
        if LastCover(log[..n], fc, a).Some? {
          var i :| 0 <= i < n && Covers(log[..n][i], fc, a) && log[..n][i].ts == LastCover(log, fc, a).value &&
                   forall j :: i < j < n ==> !Covers(log[..n][j], fc, a);
          assert log[i] == log[..n][i];
          forall j | i < j < |log| ensures !Covers(log[j], fc, a) {
            if j < n { assert log[j] == log[..n][j]; }
          }
        } else {
          forall i | 0 <= i < |log| ensures !Covers(log[i], fc, a) {
            if i < n { assert log[i] == log[..n][i]; }
          }
        }
      }
    }
  }
}
