/** Spread of recent samples, per point: a bounded history that is a plain function of
    everything recorded, and a zero-crossing count that means what it says. */
module SampleStats {
  import opened Common

  type Sample = map<Name, Num>

  function Finite(values: Sample, name: Name): seq<real> {
    if name in values && values[name].Fin? then [values[name].r] else []
  }

  /** What one sample adds to the history of a point: its value once per listing of the name. */
  function Added(points: seq<Name>, name: Name, values: Sample): seq<real>
    decreases |points|
  {
    if points == [] then []
    else
      var n := |points| - 1;
      Added(points[..n], name, values) + if points[n] == name then Finite(values, name) else []
  }

  /** Every finite value ever recorded for a point, oldest first. */
  function Fed(points: seq<Name>, name: Name, log: seq<Sample>): seq<real>
    decreases |log|
  {
    if log == [] then []
    else
      var n := |log| - 1;
      Fed(points, name, log[..n]) + Added(points, name, log[n])
  }

  function NonZero(s: seq<real>): (r: seq<real>)
    ensures forall x :: x in r ==> x != 0.0
    decreases |s|
  {
    if s == [] then []
    else NonZero(s[..|s| - 1]) + if s[|s| - 1] == 0.0 then [] else [s[|s| - 1]]
  }

  predicate Opposite(x: real, y: real) { (x < 0.0 && y > 0.0) || (x > 0.0 && y < 0.0) }

  predicate FlipAt(s: seq<real>, i: nat) { i + 1 < |s| && Opposite(s[i], s[i + 1]) }

  /** Adjacent pairs of opposite sign. */
  function Flips(s: seq<real>): set<nat> {
    set i: nat | i < |s| && FlipAt(s, i)
  }

  datatype Stat = Stat(n: nat, min: real, max: real, last: real, signChanges: nat)

  ghost predicate Describes(stat: Stat, history: seq<real>)
  {
    && stat.n == |history| > 0
    && stat.min in history && (forall x :: x in history ==> stat.min <= x)
    && stat.max in history && (forall x :: x in history ==> x <= stat.max)
    && stat.last == history[|history| - 1]
    && stat.signChanges == |Changes(history)|
  }

  /** Since the i-th value of the opposite sign there were only zeros. */
  predicate ChangesSince(s: seq<real>, i: nat, j: nat) {
    i < j < |s| && Opposite(s[i], s[j]) && forall k :: i < k < j ==> s[k] == 0.0
  }

  ghost predicate ChangesAt(s: seq<real>, j: nat) { exists i: nat :: ChangesSince(s, i, j) }

  /** The values at which a history changes sign. */
  ghost function Changes(s: seq<real>): set<nat> {
    set j: nat | j < |s| && ChangesAt(s, j)
  }

  lemma {:induction false} LastNonZero(s: seq<real>) returns (i: nat)
    ensures NonZero(s) == [] ==> forall k :: 0 <= k < |s| ==> s[k] == 0.0
    ensures NonZero(s) != [] ==> i < |s| && s[i] == NonZero(s)[|NonZero(s)| - 1] &&
                                 forall k :: i < k < |s| ==> s[k] == 0.0
    ensures NonZero(s) != [] ==> s[i] != 0.0
    decreases |s|
  {
    i := 0;
    if s != [] {
      var n := |s| - 1;
      if s[n] != 0.0 {
        i := n;
      } else {
        i := LastNonZero(s[..n]);
        assert forall k :: 0 <= k < n ==> s[..n][k] == s[k];
      }
    }
  }

  lemma ChangesAtEnd(s: seq<real>, x: real)
    ensures ChangesAt(s + [x], |s|) <==>
            NonZero(s) != [] && Opposite(NonZero(s)[|NonZero(s)| - 1], x)
  {
    var all, n := s + [x], |s|;
    var i := LastNonZero(s);
    if NonZero(s) != [] && Opposite(s[i], x) {
      assert ChangesSince(all, i, n);
    }
    if ChangesAt(all, n) {
      var j: nat :| ChangesSince(all, j, n);
      assert all[j] == s[j] && all[i] == s[i];
      assert i <= j;
    }
  }

  lemma ChangesBefore(s: seq<real>, x: real, j: nat)
    requires j < |s|
    ensures ChangesAt(s + [x], j) <==> ChangesAt(s, j)
  {
    if ChangesAt(s, j) {
      var i: nat :| ChangesSince(s, i, j);
      assert ChangesSince(s + [x], i, j);
    }
    if ChangesAt(s + [x], j) {
      var i: nat :| ChangesSince(s + [x], i, j);
      assert forall k :: i < k < j ==> s[k] == (s + [x])[k];
      assert ChangesSince(s, i, j);
    }
  }

  lemma ChangesAppend(s: seq<real>, x: real)
    ensures |Changes(s + [x])| ==
            |Changes(s)| + if NonZero(s) != [] && Opposite(NonZero(s)[|NonZero(s)| - 1], x) then 1 else 0
  {
    ChangesAtEnd(s, x);
    forall j: nat | j < |s| ensures ChangesAt(s + [x], j) <==> ChangesAt(s, j) {
      ChangesBefore(s, x, j);
    }
    var more: set<nat> := if ChangesAt(s + [x], |s|) then {|s|} else {};
    assert Changes(s + [x]) == Changes(s) + more;
  }

  /** Dropping the zeros and counting opposite neighbours counts exactly these. */
  lemma {:induction false} SignChangesMean(s: seq<real>)
    ensures |Flips(NonZero(s))| == |Changes(s)|
    decreases |s|
  {
    if s != [] {
      var init, x := s[..|s| - 1], s[|s| - 1];
      assert s == init + [x];
      SignChangesMean(init);
      ChangesAppend(init, x);
      if x != 0.0 {
        FlipsAppend(NonZero(init), x);
        assert NonZero(s) == NonZero(init) + [x];
      } else {
        assert NonZero(s) == NonZero(init);
      }
    }
  }

  lemma FlipsAppend(s: seq<real>, x: real)
    ensures |Flips(s + [x])| == |Flips(s)| + if s != [] && Opposite(s[|s| - 1], x) then 1 else 0
  {
    var n := |s|;
    if s != [] && Opposite(s[n - 1], x) {
      assert FlipAt(s + [x], n - 1);
      assert Flips(s + [x]) == Flips(s) + {n - 1};
    } else {
      assert Flips(s + [x]) == Flips(s);
    }
  }

  lemma ProductSign(x: real, y: real)
    requires x > 0.0
    ensures x * y < 0.0 <==> y < 0.0
  {
  }

  lemma OppositeIffNegativeProduct(x: real, y: real)
    ensures x * y < 0.0 <==> Opposite(x, y)
  {
    if x > 0.0 {
      ProductSign(x, y);
    } else if x < 0.0 {
      ProductSign(-x, y);
      assert -x * y == -(x * y);
    }
  }

  /** The loop of `summary`: one pass remembering the last signed value. */
  method CountSignChanges(history: seq<real>) returns (crossings: nat)
    ensures crossings == |Changes(history)|
  {
    crossings := 0;
    var lastSigned: Option<real> := None;
    for i := 0 to |history|
      invariant crossings == |Flips(NonZero(history[..i]))|
      invariant var z := NonZero(history[..i]);
                lastSigned == if z == [] then None else Some(z[|z| - 1])
    {
      var value := history[i];
      ghost var z := NonZero(history[..i]);
      assert history[..i + 1][..i] == history[..i];
      if lastSigned.Some? {
        OppositeIffNegativeProduct(value, lastSigned.value);
      }
      assert NonZero(history[..i + 1]) == if value == 0.0 then z else z + [value];
      if value != 0.0 { FlipsAppend(z, value); }
      if lastSigned.Some? && value * lastSigned.value < 0.0 {
        crossings := crossings + 1;
      }
      if value != 0.0 {
        lastSigned := Some(value);
      }
    }
    assert history[..|history|] == history;
    SignChangesMean(history);
  }

  method Extremes(history: seq<real>) returns (lo: real, hi: real)
    requires history != []
    ensures lo in history && forall x :: x in history ==> lo <= x
    ensures hi in history && forall x :: x in history ==> x <= hi
  {
    lo, hi := history[0], history[0];
    for i := 0 to |history|
      invariant lo in history && forall k :: 0 <= k < i ==> lo <= history[k]
      invariant hi in history && forall k :: 0 <= k < i ==> history[k] <= hi
    {
      if history[i] < lo { lo := history[i]; }
      if history[i] > hi { hi := history[i]; }
    }
  }

  function Pushed(window: nat, held: seq<real>, more: seq<real>): seq<real> {
    if more == [] then held else Append(window, held, more[0])
  }

  /** A history while the sample is being recorded, the first i listed points done. */
  function Held(window: nat, points: seq<Name>, name: Name, log: seq<Sample>, values: Sample, i: nat): seq<real>
    requires i <= |points|
  {
    LastN(window, Fed(points, name, log) + Added(points[..i], name, values))
  }

  lemma HeldNext(window: nat, points: seq<Name>, name: Name, log: seq<Sample>, values: Sample, i: nat)
    requires i < |points|
    ensures Held(window, points, name, log, values, i + 1) ==
            Pushed(window, Held(window, points, name, log, values, i),
                   if points[i] == name then Finite(values, name) else [])
  {
    var before := Fed(points, name, log) + Added(points[..i], name, values);
    assert points[..i + 1][..i] == points[..i];
    if points[i] == name && Finite(values, name) != [] {
      AppendLastN(window, before, values[name].r);
      assert Fed(points, name, log) + Added(points[..i + 1], name, values) == before + [values[name].r];
    } else {
      assert Fed(points, name, log) + Added(points[..i + 1], name, values) == before;
    }
  }

  lemma HeldEnds(window: nat, points: seq<Name>, name: Name, log: seq<Sample>, values: Sample)
    ensures Held(window, points, name, log, values, 0) == LastN(window, Fed(points, name, log))
    ensures Held(window, points, name, log, values, |points|) == LastN(window, Fed(points, name, log + [values]))
  {
    assert points[..|points|] == points;
    assert (log + [values])[..|log|] == log;
    assert Fed(points, name, log) + [] == Fed(points, name, log);
  }

  class SampleStats {
    const points: seq<Name>
    const window: nat
    var history: map<Name, seq<real>>
    var samples: nat
    /** Every sample since the start. */
    ghost var log: seq<Sample>

    ghost predicate Valid()
      reads this
    {
      && samples == |log|
      && history.Keys == (set p | p in points)
      && forall name :: name in history ==> history[name] == LastN(window, Fed(points, name, log))
    }

    constructor (points: seq<Name>, window: nat)
      ensures Valid() && log == [] && this.points == points && this.window == window
    {
      this.points, this.window := points, window;
      history := map p | p in points :: [];
      samples, log := 0, [];
    }

    method RecordPoint(name: Name, values: Sample)
      requires name in history
      modifies `history
      ensures history.Keys == old(history).Keys
      ensures forall p :: p in history ==>
                history[p] == Pushed(window, old(history)[p], if name == p then Finite(values, p) else [])
    {
      if name in values && values[name].Fin? {
        history := history[name := Append(window, history[name], values[name].r)];
      }
    }

    method RecordPoints(values: Sample)
      requires history.Keys == (set p | p in points)
      requires forall p :: p in history ==> history[p] == Held(window, points, p, log, values, 0)
      modifies `history
      ensures history.Keys == old(history).Keys
      ensures forall p :: p in history ==> history[p] == Held(window, points, p, log, values, |points|)
    {
      for i := 0 to |points|
        invariant history.Keys == old(history).Keys
        invariant forall p :: p in history ==> history[p] == Held(window, points, p, log, values, i)
      {
        RecordPoint(points[i], values);
        forall p | p in history ensures history[p] == Held(window, points, p, log, values, i + 1) {
          HeldNext(window, points, p, log, values, i);
        }
      }
    }

    method Record(values: Sample)
      requires Valid()
      modifies this
      ensures Valid() && log == old(log) + [values]
    {
      samples := samples + 1;
      forall p ensures Held(window, points, p, log, values, 0) == LastN(window, Fed(points, p, log))
               ensures Held(window, points, p, log, values, |points|) == LastN(window, Fed(points, p, log + [values]))
      {
        HeldEnds(window, points, p, log, values);
      }
      RecordPoints(values);
      log := log + [values];
    }

    /** None when the point never arrived; otherwise exactly the spread of the last `window`
        finite samples. */
    method Summary(name: Name) returns (stat: Option<Stat>)
      requires Valid()
      ensures var recent := LastN(window, Fed(points, name, log));
              match stat
              case None => name !in points || recent == []
              case Some(st) => name in points && Describes(st, recent)
    {
      if name !in history || history[name] == [] {
        return None;
      }
      var h := history[name];
      var crossings := CountSignChanges(h);
      var lo, hi := Extremes(h);
      return Some(Stat(|h|, lo, hi, h[|h| - 1], crossings));
    }
  }

  /** Listed once, a point gets each finite sample once. */
  lemma {:induction false} AddedOnce(points: seq<Name>, name: Name, values: Sample)
    requires forall i, j :: 0 <= i < j < |points| ==> points[i] != points[j]
    ensures Added(points, name, values) == if name in points then Finite(values, name) else []
    decreases |points|
  {
    if points != [] {
      var n := |points| - 1;
      AddedOnce(points[..n], name, values);
      assert name in points <==> name in points[..n] || name == points[n];
    }
  }
}
