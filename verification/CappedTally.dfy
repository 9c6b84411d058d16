/** A counter over at most `cap` distinct keys: keys seen first are kept, later ones are
    ignored once the counter is full. Both traffic recorders of the output side use it. */
module CappedTally {

  function Bump<K>(cap: nat, m: map<K, nat>, k: K): map<K, nat> {
    if k in m then m[k := m[k] + 1] else if |m| < cap then m[k := 1] else m
  }

  function Bumps<K>(cap: nat, m: map<K, nat>, keys: seq<K>): map<K, nat>
    decreases |keys|
  {
    if keys == [] then m else Bumps(cap, Bump(cap, m, keys[0]), keys[1..])
  }

  function Tally<K>(cap: nat, keys: seq<K>): map<K, nat> {
    Bumps(cap, map[], keys)
  }

  lemma {:induction false} BumpsAppend<K>(cap: nat, m: map<K, nat>, xs: seq<K>, ys: seq<K>)
    ensures Bumps(cap, m, xs + ys) == Bumps(cap, Bumps(cap, m, xs), ys)
    decreases |xs|
  {
    if xs == [] {
      assert xs + ys == ys;
    } else {
      assert (xs + ys)[1..] == xs[1..] + ys;
      BumpsAppend(cap, Bump(cap, m, xs[0]), xs[1..], ys);
    }
  }

  function Distinct<K>(keys: seq<K>): set<K> {
    set k | k in keys
  }

  function Smaller(a: nat, b: nat): nat { if a < b then a else b }

  /** What the counter means: which keys it holds and what it says about each. */
  ghost predicate Counts<K(!new)>(cap: nat, keys: seq<K>, m: map<K, nat>) {
    && |m| == Smaller(cap, |Distinct(keys)|)
    && (forall k :: k in m ==> m[k] == multiset(keys)[k] > 0)
    && (forall k :: k in m <==> Early(cap, keys, k))
  }

  /** Fewer than cap other keys occur before the first occurrence of k. */
  ghost predicate Early<K>(cap: nat, keys: seq<K>, k: K) {
    exists i :: 0 <= i < |keys| && keys[i] == k && k !in keys[..i] && |Distinct(keys[..i])| < cap
  }

  lemma DistinctGrows<K>(keys: seq<K>, k: K)
    ensures Distinct(keys + [k]) == Distinct(keys) + {k}
  {
  }

  lemma {:induction false} DistinctPrefix<K>(keys: seq<K>, i: nat)
    requires i <= |keys|
    ensures |Distinct(keys[..i])| <= |Distinct(keys)|
  {
    SubsetSize(Distinct(keys[..i]), Distinct(keys));
  }

  lemma {:induction false} SubsetSize<K>(a: set<K>, b: set<K>)
    requires a <= b
    ensures |a| <= |b|
  {
    assert b == a + (b - a);
  }

  lemma EarlyExtends<K>(cap: nat, keys: seq<K>, last: K, k: K)
    ensures Early(cap, keys + [last], k) <==>
            Early(cap, keys, k) || (k == last && k !in keys && |Distinct(keys)| < cap)
  {
    var all := keys + [last];
    if Early(cap, keys, k) {
      var i :| 0 <= i < |keys| && keys[i] == k && k !in keys[..i] && |Distinct(keys[..i])| < cap;
      assert all[..i] == keys[..i] && all[i] == k;
    }
    if k == last && k !in keys && |Distinct(keys)| < cap {
      assert all[..|keys|] == keys && all[|keys|] == k;
    }
    if Early(cap, all, k) {
      var i :| 0 <= i < |all| && all[i] == k && k !in all[..i] && |Distinct(all[..i])| < cap;
      assert all[..i] == keys[..i];
      if i < |keys| {
        assert keys[i] == k;
      } else {
        assert keys[..i] == keys;
      }
    }
  }

  lemma EarlyIffRoom<K>(cap: nat, keys: seq<K>, k: K)
    requires k in keys && |Distinct(keys)| <= cap
    ensures Early(cap, keys, k)
    decreases |keys|
  {
    var n := |keys| - 1;
    var init, last := keys[..n], keys[n];
    assert keys == init + [last];
    DistinctPrefix(keys, n);
    EarlyExtends(cap, init, last, k);
    if k in init {
      EarlyIffRoom(cap, init, k);
    } else {
      DistinctGrows(init, last);
      assert |Distinct(init) + {last}| == |Distinct(init)| + 1;
    }
  }

  /** The counter is exact for every key it holds, it holds the first `cap` distinct keys of
      the whole history, and nothing else. */
  lemma {:induction false} TallyCounts<K(!new)>(cap: nat, keys: seq<K>)
    ensures Counts(cap, keys, Tally(cap, keys))
    decreases |keys|
  {
    if keys != [] {
      var n := |keys| - 1;
      var init, last := keys[..n], keys[n];
      assert keys == init + [last];
      TallyCounts(cap, init);
      BumpsAppend(cap, map[], init, [last]);
      BumpCounts(cap, init, last, Tally(cap, init));
    }
  }

  lemma BumpCounts<K(!new)>(cap: nat, init: seq<K>, last: K, m: map<K, nat>)
    requires Counts(cap, init, m)
    ensures Counts(cap, init + [last], Bump(cap, m, last))
  {
    var keys, r := init + [last], Bump(cap, m, last);
    DistinctGrows(init, last);
    if last in init {
      assert Distinct(init) + {last} == Distinct(init);
    } else {
      assert |Distinct(init) + {last}| == |Distinct(init)| + 1;
    }
    if last in init && last !in m {
      if |m| < cap { EarlyIffRoom(cap, init, last); }
    }
    forall k ensures k in r <==> Early(cap, keys, k) {
      EarlyExtends(cap, init, last, k);
    }
    assert multiset(keys) == multiset(init) + multiset{last};
  }
}
