/** Scanning a stream for fixed-length frames that arrives in pieces: a scanner that keeps the
    last n - 1 items between pieces sees every window exactly once, however the pieces fall. */
module SlidingWindow {
  import opened CappedTally
  import opened Common

  function FoundAt<A, R>(f: seq<A> -> Option<R>, n: nat, s: seq<A>, i: nat): seq<R>
    requires i + n <= |s|
  {
    match f(s[i..i + n])
    case None => []
    case Some(r) => [r]
  }

  /** What f finds in the windows of length n starting at i or later, in order. */
  function FoundFrom<A, R>(f: seq<A> -> Option<R>, n: nat, s: seq<A>, i: nat): seq<R>
    decreases |s| - i
  {
    if i + n > |s| then [] else FoundAt(f, n, s, i) + FoundFrom(f, n, s, i + 1)
  }

  function Found<A, R>(f: seq<A> -> Option<R>, n: nat, s: seq<A>): seq<R> {
    FoundFrom(f, n, s, 0)
  }

  lemma FoundNext<A, R>(f: seq<A> -> Option<R>, n: nat, s: seq<A>, i: nat, before: seq<R>)
    requires i + n <= |s|
    ensures (before + FoundAt(f, n, s, i)) + FoundFrom(f, n, s, i + 1) == before + FoundFrom(f, n, s, i)
  {
  }

  /** The longest ending of s too short to hold a window. */
  function Tail<A>(n: nat, s: seq<A>): (r: seq<A>)
    requires n > 0
    ensures |r| == Smaller(|s|, n - 1)
  {
    if |s| < n then s else s[|s| - (n - 1)..]
  }

  lemma {:induction false} FoundDrop<A, R>(f: seq<A> -> Option<R>, n: nat, s: seq<A>, k: nat, i: nat)
    requires k <= |s|
    ensures FoundFrom(f, n, s, k + i) == FoundFrom(f, n, s[k..], i)
    decreases |s| - i
  {
    if k + i + n <= |s| {
      assert s[k..][i..i + n] == s[k + i..k + i + n];
      FoundDrop(f, n, s, k, i + 1);
    }
  }

  lemma {:induction false} FoundExtend<A, R>(f: seq<A> -> Option<R>, n: nat, s: seq<A>, d: seq<A>, i: nat)
    requires n > 0 && i <= |s| - |Tail(n, s)|
    ensures FoundFrom(f, n, s + d, i) == FoundFrom(f, n, s, i) + FoundFrom(f, n, s + d, |s| - |Tail(n, s)|)
    decreases |s| - i
  {
    if i + n <= |s| {
      assert (s + d)[i..i + n] == s[i..i + n];
      FoundExtend(f, n, s, d, i + 1);
    }
  }

  lemma TailOfTail<A>(n: nat, s: seq<A>, d: seq<A>)
    requires n > 0
    ensures Tail(n, Tail(n, s) + d) == Tail(n, s + d)
  {
  }

  lemma TailIsEnding<A>(n: nat, s: seq<A>, d: seq<A>)
    requires n > 0
    ensures (s + d)[|s| - |Tail(n, s)|..] == Tail(n, s) + d
  {
  }

  /** No window is lost or seen twice at a boundary. */
  lemma FoundAcrossBoundary<A, R>(f: seq<A> -> Option<R>, n: nat, s: seq<A>, d: seq<A>)
    requires n > 0
    ensures Found(f, n, s + d) == Found(f, n, s) + Found(f, n, Tail(n, s) + d)
  {
    var k := |s| - |Tail(n, s)|;
    FoundExtend(f, n, s, d, 0);
    FoundDrop(f, n, s + d, k, 0);
    TailIsEnding(n, s, d);
  }

  function Keys<R, K>(key: R -> K, rs: seq<R>): (ks: seq<K>)
    ensures |ks| == |rs|
  {
    seq(|rs|, i requires 0 <= i < |rs| => key(rs[i]))
  }

  predicate HitAt<A, R, K(==)>(f: seq<A> -> Option<R>, key: R -> K, n: nat, s: seq<A>, k: K, i: nat)
  {
    i + n <= |s| && f(s[i..i + n]).Some? && key(f(s[i..i + n]).value) == k
  }

  /** Where in the stream a window with key k starts. */
  function Positions<A, R, K(==)>(f: seq<A> -> Option<R>, key: R -> K, n: nat, s: seq<A>, k: K, from: nat): set<nat>
  {
    set i: nat | from <= i <= |s| && HitAt(f, key, n, s, k, i)
  }

  lemma KeysAppend<R, K>(key: R -> K, x: seq<R>, y: seq<R>)
    ensures Keys(key, x + y) == Keys(key, x) + Keys(key, y)
  {
  }

  lemma KeysFoundAt<A, R, K>(f: seq<A> -> Option<R>, key: R -> K, n: nat, s: seq<A>, k: K, i: nat)
    requires i + n <= |s|
    ensures multiset(Keys(key, FoundAt(f, n, s, i)))[k] == if HitAt(f, key, n, s, k, i) then 1 else 0
  {
    match f(s[i..i + n])
    case None =>
    case Some(r) => assert Keys(key, [r]) == [key(r)];
  }

  lemma {:induction false} FoundCountsPositions<A, R, K>(
      f: seq<A> -> Option<R>, key: R -> K, n: nat, s: seq<A>, k: K, i: nat)
    requires n > 0
    ensures multiset(Keys(key, FoundFrom(f, n, s, i)))[k] == |Positions(f, key, n, s, k, i)|
    decreases |s| - i
  {
    if i + n > |s| {
      assert Positions(f, key, n, s, k, i) == {};
    } else {
      FoundCountsPositions(f, key, n, s, k, i + 1);
      KeysFoundAt(f, key, n, s, k, i);
      KeysAppend(key, FoundAt(f, n, s, i), FoundFrom(f, n, s, i + 1));
      PositionsStep(f, key, n, s, k, i);
    }
  }

  lemma PositionsStep<A, R, K>(f: seq<A> -> Option<R>, key: R -> K, n: nat, s: seq<A>, k: K, i: nat)
    requires i <= |s|
    ensures |Positions(f, key, n, s, k, i)| ==
            |Positions(f, key, n, s, k, i + 1)| + (if HitAt(f, key, n, s, k, i) then 1 else 0)
  {
    var here, later := Positions(f, key, n, s, k, i), Positions(f, key, n, s, k, i + 1);
    assert forall j :: j in here <==> j in later || (j == i && HitAt(f, key, n, s, k, i));
    assert here == if HitAt(f, key, n, s, k, i) then later + {i} else later;
  }

  // ----- A recorder fed piece by piece

  /** What the recorder keeps between pieces. */
  datatype Recorder<A, K> = Recorder(length: nat, counts: map<K, nat>, tail: seq<A>)

  function Fed<A, R, K>(f: seq<A> -> Option<R>, key: R -> K, n: nat, cap: nat,
                        w: Recorder<A, K>, piece: seq<A>): Recorder<A, K>
    requires n > 0
  {
    Recorder(w.length + |piece|, Bumps(cap, w.counts, Keys(key, Found(f, n, w.tail + piece))), Tail(n, w.tail + piece))
  }

  /** What one scan of the whole stream says. */
  function Whole<A, R, K>(f: seq<A> -> Option<R>, key: R -> K, n: nat, cap: nat, s: seq<A>): Recorder<A, K>
    requires n > 0
  {
    Recorder(|s|, Tally(cap, Keys(key, Found(f, n, s))), Tail(n, s))
  }

  lemma FedWhole<A, R, K>(f: seq<A> -> Option<R>, key: R -> K, n: nat, cap: nat, s: seq<A>, piece: seq<A>)
    requires n > 0
    ensures Fed(f, key, n, cap, Whole(f, key, n, cap, s), piece) == Whole(f, key, n, cap, s + piece)
  {
    FoundAcrossBoundary(f, n, s, piece);
    TailOfTail(n, s, piece);
    var seen, fresh_ := Found(f, n, s), Found(f, n, Tail(n, s) + piece);
    assert Keys(key, seen + fresh_) == Keys(key, seen) + Keys(key, fresh_);
    BumpsAppend(cap, map[], Keys(key, seen), Keys(key, fresh_));
  }

  /** Each tracked key carries exactly its number of windows in the stream, and the tracked
      keys are the first `cap` distinct ones. */
  lemma WholeIsExact<A, R, K(!new)>(f: seq<A> -> Option<R>, key: R -> K, n: nat, cap: nat, s: seq<A>, k: K)
    requires n > 0
    ensures var counts := Whole(f, key, n, cap, s).counts;
            && (k in counts ==> counts[k] == |Positions(f, key, n, s, k, 0)| > 0)
            && (k in counts <==> Early(cap, Keys(key, Found(f, n, s)), k))
  {
    TallyCounts(cap, Keys(key, Found(f, n, s)));
    FoundCountsPositions(f, key, n, s, k, 0);
  }
}
