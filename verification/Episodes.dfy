/** Muting of repeated warnings: a channel that stays bad is reported once per episode. */
module Episodes {
  import opened Common

  /** One channel as one poll found it. */
  datatype Observation = Observation(name: Name, bad: bool)

  /** What is muted now and what was warned about; without `muting` the caller passed no set to keep. */
  datatype Log = Log(muting: bool, seen: set<Name>, warnings: seq<Name>)

  function Observed(l: Log, o: Observation): Log {
    if !l.muting then l.(warnings := if o.bad then l.warnings + [o.name] else l.warnings)
    else if o.bad then
      l.(seen := l.seen + {o.name}, warnings := if o.name in l.seen then l.warnings else l.warnings + [o.name])
    else l.(seen := l.seen - {o.name})
  }

  function Polled(l: Log, poll: seq<Observation>): (r: Log)
    ensures r.muting == l.muting
    decreases |poll|
  {
    if poll == [] then l else Observed(Polled(l, poll[..|poll| - 1]), poll[|poll| - 1])
  }

  /** The set owned by the poll loop and the warnings that went to the journal. */
  class EpisodeLog {
    const muting: bool
    var seen: set<Name>
    var warnings: seq<Name>

    function Now(): Log
      reads this
    {
      Log(muting, seen, warnings)
    }

    constructor (muting: bool)
      ensures Now() == Log(muting, {}, [])
    {
      this.muting := muting;
      seen, warnings := {}, [];
    }

    method Observe(name: Name, bad: bool)
      modifies this
      ensures Now() == Observed(old(Now()), Observation(name, bad))
    {
      if bad {
        if !muting || name !in seen {
          warnings := warnings + [name];
          if muting {
            seen := seen + {name};
          }
        }
      } else if muting && name in seen {
        seen := seen - {name};
      }
    }
  }

  // ----- A whole run of polls

  function Run(muting: bool, polls: seq<seq<Observation>>): (r: Log)
    ensures r.muting == muting
    decreases |polls|
  {
    if polls == [] then Log(muting, {}, []) else Polled(Run(muting, polls[..|polls| - 1]), polls[|polls| - 1])
  }

  predicate Bad(poll: seq<Observation>, name: Name) {
    Observation(name, true) in poll
  }

  /** A poll looks at each of these channels once. */
  predicate Covers(poll: seq<Observation>, names: seq<Name>) {
    && |poll| == |names|
    && (forall i :: 0 <= i < |poll| ==> poll[i].name == names[i])
    && (forall i, j :: 0 <= i < j < |names| ==> names[i] != names[j])
  }

  /** How often the channel went from good (or not yet looked at) to bad. */
  function Rises(polls: seq<seq<Observation>>, name: Name): nat
    decreases |polls|
  {
    if polls == [] then 0
    else
      var n := |polls| - 1;
      Rises(polls[..n], name) +
      if Bad(polls[n], name) && (n == 0 || !Bad(polls[n - 1], name)) then 1 else 0
  }

  lemma BadAppend(poll: seq<Observation>, o: Observation, c: Name)
    ensures Bad(poll + [o], c) <==> Bad(poll, c) || o == Observation(c, true)
  {
  }

  lemma WarnedAppend(w: seq<Name>, name: Name, c: Name)
    ensures multiset(w + [name])[c] == multiset(w)[c] + if name == c then 1 else 0
  {
    assert multiset(w + [name]) == multiset(w) + multiset{name};
  }

  lemma PollSplits(poll: seq<Observation>, names: seq<Name>)
    requires Covers(poll, names) && poll != []
    ensures var n := |poll| - 1;
            Covers(poll[..n], names[..n]) && poll == poll[..n] + [poll[n]] && poll[n].name !in names[..n]
    ensures forall c :: c in names <==> c in names[..|poll| - 1] || c == poll[|poll| - 1].name
  {
    var n := |poll| - 1;
    assert names == names[..n] + [names[n]];
  }

  lemma {:induction false} PolledSeen(l: Log, poll: seq<Observation>, names: seq<Name>, c: Name)
    requires Covers(poll, names)
    ensures c in Polled(l, poll).seen <==> if l.muting && c in names then Bad(poll, c) else c in l.seen
    ensures c !in names ==> !Bad(poll, c)
    decreases |poll|
  {
    if poll != [] {
      var n := |poll| - 1;
      PollSplits(poll, names);
      PolledSeen(l, poll[..n], names[..n], c);
      BadAppend(poll[..n], poll[n], c);
    }
  }

  lemma {:induction false} PolledMeaning(l: Log, poll: seq<Observation>, names: seq<Name>, c: Name)
    requires Covers(poll, names)
    ensures c in Polled(l, poll).seen <==> if l.muting && c in names then Bad(poll, c) else c in l.seen
    ensures multiset(Polled(l, poll).warnings)[c] ==
            multiset(l.warnings)[c] + (if Bad(poll, c) && !(l.muting && c in l.seen) then 1 else 0)
    decreases |poll|
  {
    PolledSeen(l, poll, names, c);
    if poll != [] {
      var n := |poll| - 1;
      var before, o := Polled(l, poll[..n]), poll[n];
      PollSplits(poll, names);
      PolledMeaning(l, poll[..n], names[..n], c);
      PolledSeen(l, poll[..n], names[..n], c);
      BadAppend(poll[..n], o, c);
      WarnedAppend(before.warnings, o.name, c);
      assert Polled(l, poll) == Observed(before, o);
    }
  }

  lemma BadIsCovered(poll: seq<Observation>, names: seq<Name>, c: Name)
    requires Covers(poll, names) && Bad(poll, c)
    ensures c in names
  {
    var i :| 0 <= i < |poll| && poll[i] == Observation(c, true);
    assert names[i] == c;
  }

  /** Over any run of polls of the same channels, the warnings of a channel are its good-to-bad
      transitions, and the muted set is exactly what was bad in the last poll. */
  lemma {:induction false} WarningsAreEpisodes(polls: seq<seq<Observation>>, names: seq<Name>, c: Name)
    requires forall i :: 0 <= i < |polls| ==> Covers(polls[i], names)
    ensures multiset(Run(true, polls).warnings)[c] == Rises(polls, c)
    ensures c in Run(true, polls).seen <==> polls != [] && Bad(polls[|polls| - 1], c)
    decreases |polls|
  {
    if polls != [] {
      var n := |polls| - 1;
      WarningsAreEpisodes(polls[..n], names, c);
      PolledMeaning(Run(true, polls[..n]), polls[n], names, c);
      if n > 0 && Bad(polls[n - 1], c) { BadIsCovered(polls[n - 1], names, c); }
    }
  }

  function BadPolls(polls: seq<seq<Observation>>, name: Name): nat
    decreases |polls|
  {
    if polls == [] then 0
    else BadPolls(polls[..|polls| - 1], name) + if Bad(polls[|polls| - 1], name) then 1 else 0
  }

  /** Without a muted set a channel is reported by every poll that finds it bad. */
  lemma {:induction false} UnmutedWarnsEveryPoll(polls: seq<seq<Observation>>, names: seq<Name>, c: Name)
    requires forall i :: 0 <= i < |polls| ==> Covers(polls[i], names)
    ensures multiset(Run(false, polls).warnings)[c] == BadPolls(polls, c)
    decreases |polls|
  {
    if polls != [] {
      var n := |polls| - 1;
      UnmutedWarnsEveryPoll(polls[..n], names, c);
      PolledMeaning(Run(false, polls[..n]), polls[n], names, c);
    }
  }
}
