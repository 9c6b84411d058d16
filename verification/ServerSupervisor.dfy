/** The fail-safe supervisor of the output server: start while data is fresh, stop while it is
    stale, replace dead servers, never flap. One tick of its loop is one atomic step. */
module ServerSupervisor {
  import opened Common

  datatype Conf = Conf(maxAge: real, minRestart: real, grace: real)

  datatype Action = Start | Wait | Stop | Nothing

  /** None is the infinite age of a store that was never stamped. */
  predicate ShouldServe(maxAge: real, age: Option<real>) {
    age.Some? && age.value <= maxAge
  }

  function ServerAction(fresh_: bool, running: bool, now: real, lastStart: Option<real>, minRestart: real): Action {
    if fresh_ && !running then
      if lastStart == None || now - lastStart.value >= minRestart then Start else Wait
    else if !fresh_ && running then Stop
    else Nothing
  }

  datatype Counters = Counters(running: bool, starts: nat, stops: nat, lastStartTs: Option<real>) {
    function Started(ts: real): Counters { Counters(true, starts + 1, stops, Some(ts)) }
    function Stopped(): Counters { Counters(false, starts, if running then stops + 1 else stops, lastStartTs) }
  }

  class ServerStatus {
    var running: bool
    var starts: nat
    var stops: nat
    var lastStartTs: Option<real>

    function Counts(): Counters
      reads this
    {
      Counters(running, starts, stops, lastStartTs)
    }

    constructor ()
      ensures Counts() == Counters(false, 0, 0, None)
    {
      running, starts, stops, lastStartTs := false, 0, 0, None;
    }

    method Started(ts: real)
      modifies this
      ensures Counts() == old(Counts()).Started(ts)
    {
      running := true;
      starts := starts + 1;
      lastStartTs := Some(ts);
    }

    method Stopped()
      modifies this
      ensures Counts() == old(Counts()).Stopped()
    {
      if running {
        stops := stops + 1;
      }
      running := false;
    }
  }

  /** What the supervisor has done to the outside: servers are numbered as they are created, and
      live as long as nobody has asked them to shut down. */
  datatype World = World(created: nat, live: set<nat>, shutdowns: seq<nat>, startTimes: seq<real>) {
    function Create(t: real): World {
      World(created + 1, live + {created}, shutdowns, startTimes + [t])
    }
    function Shutdown(id: nat): World {
      World(created, live - {id}, shutdowns + [id], startTimes)
    }
  }

  datatype State = State(server: Option<nat>, lastStart: Option<real>, status: Counters, world: World)

  const INITIAL := State(None, None, Counters(false, 0, 0, None), World(0, {}, [], []))

  /** What one tick finds: the clock, the age of the data, whether the serve task has ended or
      was cancelled by somebody else, whether the transport never opened, and whether building a
      server would raise. */
  datatype Env = Env(now: real, age: Option<real>, taskDone: bool, taskCancelled: bool, neverOpened: bool,
                     factoryRaises: bool)

  datatype Outcome = Looping(state: State) | Exited(state: State)

  predicate Dead(c: Conf, s: State, e: Env) {
    s.server.Some? &&
    (e.taskDone || (e.neverOpened && s.lastStart.Some? && e.now - s.lastStart.value >= c.grace))
  }

  function Drop(s: State): State
    requires s.server.Some?
  {
    State(None, s.lastStart, s.status.Stopped(), s.world.Shutdown(s.server.value))
  }

  function Reap(c: Conf, s: State, e: Env): State {
    if Dead(c, s, e) then Drop(s) else s
  }

  /** Asking a cancelled task for its exception raises, which ends the loop. */
  predicate Raises(s: State, e: Env) {
    s.server.Some? && e.taskCancelled
  }

  function Acted(c: Conf, r: State, e: Env): Outcome {
    match ServerAction(ShouldServe(c.maxAge, e.age), r.server.Some?, e.now, r.lastStart, c.minRestart)
    case Start =>
      if e.factoryRaises then Exited(Finished(r))
      else Looping(State(Some(r.world.created), Some(e.now), r.status.Started(e.now), r.world.Create(e.now)))
    case Stop => Looping(if r.server.Some? then Drop(r) else r)
    case _ => Looping(r)
  }

  function Ticked(c: Conf, s: State, e: Env): Outcome {
    if Raises(s, e) then Exited(Finished(s)) else Acted(c, Reap(c, s, e), e)
  }

  /** The `finally` block. */
  function Finished(s: State): State {
    State(None, s.lastStart, s.status.Stopped(),
          if s.server.Some? then s.world.Shutdown(s.server.value) else s.world)
  }

  /** The supervisor is cancelled while its loop waits for a shutdown: the `finally` block, which
      still sees the server, shuts it down again. */
  function CancelledInLoop(s: State): State
    requires s.server.Some?
  {
    s.(world := s.world.Shutdown(s.server.value))
  }

  /** It is cancelled while the `finally` block waits for a shutdown: nothing after that runs, so
      the stop is never counted. */
  function CancelledInFinally(s: State): State
    requires s.server.Some?
  {
    State(None, s.lastStart, s.status, s.world.Shutdown(s.server.value))
  }

  /** How a supervisor with a server up ends: cancelled or not while its loop, and while its
      `finally` block, waits for a shutdown. */
  function Ending(s: State, inLoop: bool, inFinally: bool): State
    requires s.server.Some?
  {
    var t := if inLoop then CancelledInLoop(s) else s;
    if inFinally then CancelledInFinally(t) else Finished(t)
  }

  class Supervisor {
    const conf: Conf
    const status: ServerStatus
    var server: Option<nat>
    var lastStart: Option<real>
    var world: World

    function Now(): State
      reads this, status
    {
      State(server, lastStart, status.Counts(), world)
    }

    constructor (conf: Conf)
      ensures this.conf == conf && Now() == INITIAL && fresh(status)
    {
      this.conf := conf;
      status := new ServerStatus();
      server, lastStart, world := None, None, World(0, {}, [], []);
    }

    /** Best-effort close: whether or not it raises, the server is let go of. */
    method ShutdownQuietly()
      requires server.Some?
      modifies `world
      ensures world == old(world).Shutdown(server.value)
    {
      world := world.Shutdown(server.value);
    }

    method Tick(e: Env) returns (alive: bool)
      modifies this, status
      ensures (if alive then Looping(Now()) else Exited(Now())) == Ticked(conf, old(Now()), e)
    {
      if server.Some? && e.taskCancelled {
        Finally();
        return false;
      }
      if server.Some? && e.taskDone {
        ShutdownQuietly();
        server := None;
        status.Stopped();
      } else if server.Some? && e.neverOpened && lastStart.Some? && e.now - lastStart.value >= conf.grace {
        ShutdownQuietly();
        server := None;
        status.Stopped();
      }
      var action := ServerAction(ShouldServe(conf.maxAge, e.age), server.Some?, e.now, lastStart, conf.minRestart);
      if action == Start {
        if e.factoryRaises {
          Finally();
          return false;
        }
        server := Some(world.created);
        world := world.Create(e.now);
        lastStart := Some(e.now);
        status.Started(e.now);
      } else if action == Stop {
        ShutdownQuietly();
        server := None;
        status.Stopped();
      }
      return true;
    }

    /** The end of a supervisor with a server up, whichever of its waits a cancellation cuts off. */
    method End(inLoop: bool, inFinally: bool)
      requires server.Some?
      modifies this, status
      ensures old(server).Some? && Now() == Ending(old(Now()), inLoop, inFinally)
    {
      if inLoop {
        ShutdownQuietly();
      }
      if inFinally {
        ShutdownQuietly();
        server := None;
      } else {
        Finally();
      }
    }

    method Finally()
      modifies this, status
      ensures Now() == Finished(old(Now()))
    {
      if server.Some? {
        ShutdownQuietly();
      }
      server := None;
      status.Stopped();
    }
  }

  // ----- Every run

  predicate NoRepeat(s: seq<nat>) {
    forall i, j :: 0 <= i < j < |s| ==> s[i] != s[j]
  }

  predicate Spaced(times: seq<real>, gap: real) {
    forall i :: 0 <= i < |times| - 1 ==> times[i + 1] - times[i] >= gap
  }

  /** Every server ever created is either the live one or has been shut down exactly once. */
  ghost predicate Conserved(s: State) {
    && s.world.live == (if s.server.Some? then {s.server.value} else {})
    && NoRepeat(s.world.shutdowns)
    && forall id: nat :: id in s.world.shutdowns <==> id < s.world.created && s.server != Some(id)
  }

  predicate Counted(s: State) {
    && (s.status.running <==> s.server.Some?)
    && s.status.starts == s.status.stops + (if s.server.Some? then 1 else 0)
    && s.status.starts == s.world.created == |s.world.startTimes|
    && s.status.stops == |s.world.shutdowns|
    && (s.server.Some? ==> s.server.value < s.world.created)
    && (s.server.Some? ==> s.lastStart.Some?)
  }

  predicate Throttled(c: Conf, s: State) {
    && Spaced(s.world.startTimes, c.minRestart)
    && s.lastStart == (if s.world.startTimes == [] then None else Some(s.world.startTimes[|s.world.startTimes| - 1]))
  }

  ghost predicate Invariant(c: Conf, s: State) {
    Conserved(s) && Counted(s) && Throttled(c, s)
  }

  lemma DropKeeps(c: Conf, s: State)
    requires Invariant(c, s) && s.server.Some?
    ensures Invariant(c, Drop(s)) && Finished(s) == Drop(s)
  {
    var d := Drop(s);
    assert s.world.live - {s.server.value} == {};
    forall id: nat ensures id in d.world.shutdowns <==> id < d.world.created && d.server != Some(id) {
    }
  }

  lemma StartKeeps(c: Conf, s: State, t: real)
    requires Invariant(c, s) && s.server == None
    requires s.lastStart == None || t - s.lastStart.value >= c.minRestart
    ensures Invariant(c, State(Some(s.world.created), Some(t), s.status.Started(t), s.world.Create(t)))
  {
    assert s.world.live + {s.world.created} == {s.world.created};
  }

  lemma FinishedKeeps(c: Conf, s: State)
    requires Invariant(c, s)
    ensures Invariant(c, Finished(s)) && Finished(s).server == None
  {
    if s.server.Some? { DropKeeps(c, s); }
  }

  lemma ActedKeeps(c: Conf, r: State, e: Env)
    requires Invariant(c, r)
    ensures Invariant(c, Acted(c, r, e).state)
    ensures Acted(c, r, e).Exited? ==> Acted(c, r, e).state.server == None
  {
    match ServerAction(ShouldServe(c.maxAge, e.age), r.server.Some?, e.now, r.lastStart, c.minRestart)
    case Start =>
      if e.factoryRaises { FinishedKeeps(c, r); } else { StartKeeps(c, r, e.now); }
    case Stop => DropKeeps(c, r);
    case _ =>
  }

  lemma TickKeeps(c: Conf, s: State, e: Env)
    requires Invariant(c, s)
    ensures Invariant(c, Ticked(c, s, e).state)
    ensures Ticked(c, s, e).Exited? ==> Ticked(c, s, e).state.server == None
  {
    if Raises(s, e) {
      FinishedKeeps(c, s);
    } else {
      if Dead(c, s, e) { DropKeeps(c, s); }
      ActedKeeps(c, Reap(c, s, e), e);
    }
  }

  /** The state after these ticks, or after the one that ended the loop. */
  function Run(c: Conf, ticks: seq<Env>): Outcome
    decreases |ticks|
  {
    if ticks == [] then Looping(INITIAL)
    else
      var n := |ticks| - 1;
      match Run(c, ticks[..n])
      case Exited(s) => Exited(s)
      case Looping(s) => Ticked(c, s, ticks[n])
  }

  /** After every tick of every run at most one server is live, every other one ever created
      has been shut down exactly once, starts are at least minRestart apart, and the counters
      agree with what happened. */
  lemma {:induction false} EveryRunKeepsInvariant(c: Conf, ticks: seq<Env>)
    ensures Invariant(c, Run(c, ticks).state)
    ensures Run(c, ticks).Exited? ==> Run(c, ticks).state.server == None
    decreases |ticks|
  {
    if ticks != [] {
      var n := |ticks| - 1;
      EveryRunKeepsInvariant(c, ticks[..n]);
      if Run(c, ticks[..n]).Looping? { TickKeeps(c, Run(c, ticks[..n]).state, ticks[n]); }
    }
  }

  /** A run that ends by itself, by an exception or by a cancellation outside any shutdown leaves no
      server, each was shut down exactly once, and starts equal stops. */
  lemma NothingLeaks(c: Conf, ticks: seq<Env>)
    ensures var end := match Run(c, ticks) case Looping(s) => Finished(s) case Exited(s) => s;
            && end.world.live == {} && !end.status.running && end.status.starts == end.status.stops
            && forall id: nat :: multiset(end.world.shutdowns)[id] == if id < end.world.created then 1 else 0
  {
    EveryRunKeepsInvariant(c, ticks);
    var s := Run(c, ticks).state;
    FinishedKeeps(c, s);
    var end := if Run(c, ticks).Looping? then Finished(s) else s;
    forall id: nat ensures multiset(end.world.shutdowns)[id] == if id < end.world.created then 1 else 0 {
      OnceInNoRepeat(end.world.shutdowns, id);
    }
  }

  /** Every ending of a run with a server up. No server is left that nobody shut down. A
      cancellation in the loop's shutdown, and nothing else, repeats the shutdown of that one
      server; a cancellation in the final shutdown, and nothing else, leaves it counted as running,
      with one start more than stops. */
  lemma EveryEnding(c: Conf, ticks: seq<Env>, inLoop: bool, inFinally: bool)
    requires Run(c, ticks).state.server.Some?
    ensures var s := Run(c, ticks).state;
            var end := Ending(s, inLoop, inFinally);
            && end.server == None && end.world.live == {}
            && (forall id: nat :: multiset(end.world.shutdowns)[id] ==
                  if s.server == Some(id) && inLoop then 2 else if id < end.world.created then 1 else 0)
            && (end.status.running <==> inFinally)
            && end.status.starts == end.status.stops + if inFinally then 1 else 0
  {
    EveryRunKeepsInvariant(c, ticks);
    var s := Run(c, ticks).state;
    var up := s.server.value;
    var end := Ending(s, inLoop, inFinally);
    assert s.world.live == {up};
    forall id: nat
      ensures multiset(end.world.shutdowns)[id] ==
              if s.server == Some(id) && inLoop then 2 else if id < end.world.created then 1 else 0
    {
      EndingShutdowns(s, inLoop, inFinally, id);
      OnceInNoRepeat(s.world.shutdowns, id);
    }
  }

  lemma EndingShutdowns(s: State, inLoop: bool, inFinally: bool, id: nat)
    requires s.server.Some?
    ensures var end := Ending(s, inLoop, inFinally);
            && end.world.created == s.world.created
            && multiset(end.world.shutdowns)[id] == multiset(s.world.shutdowns)[id] +
                 if s.server != Some(id) then 0 else if inLoop then 2 else 1
  {
    var up, end := s.server.value, Ending(s, inLoop, inFinally);
    if inLoop {
      assert end.world.shutdowns == s.world.shutdowns + [up] + [up];
      assert multiset(end.world.shutdowns) == multiset(s.world.shutdowns) + multiset{up, up};
    } else {
      assert end.world.shutdowns == s.world.shutdowns + [up];
      assert multiset(end.world.shutdowns) == multiset(s.world.shutdowns) + multiset{up};
    }
  }

  /** Both can happen, even at once: one tick on fresh data, then two cancellations. */
  lemma EndingsDiffer(c: Conf, now: real) returns (ticks: seq<Env>)
    requires c.maxAge >= 0.0
    ensures Run(c, ticks).state.server == Some(0)
    ensures var end := Ending(Run(c, ticks).state, true, true);
            multiset(end.world.shutdowns)[0] == 2 && end.status.running && end.status.starts == 1 &&
              end.status.stops == 0
  {
    ticks := [Env(now, Some(0.0), false, false, false, false)];
    assert ticks[..0] == [];
    EveryEnding(c, ticks, true, true);
  }

  lemma {:induction false} OnceInNoRepeat(s: seq<nat>, x: nat)
    requires NoRepeat(s)
    ensures multiset(s)[x] == if x in s then 1 else 0
    decreases |s|
  {
    if s != [] {
      var n := |s| - 1;
      OnceInNoRepeat(s[..n], x);
      assert s == s[..n] + [s[n]];
      assert x in s[..n] ==> exists i :: 0 <= i < n && s[i] == x;
    }
  }

  /** The fail-safe itself: a tick that does not raise leaves a server up exactly when the store was
      stamped no longer ago than the threshold and either the old server was still good or the
      throttle allowed a new one; one that raises leaves none. */
  lemma UpExactlyWhenFresh(c: Conf, s: State, e: Env)
    ensures var o := Ticked(c, s, e);
            var fresh_ := e.age.Some? && e.age.value <= c.maxAge;
            var mayStart := s.lastStart == None || e.now - s.lastStart.value >= c.minRestart;
            var neverOpened := e.neverOpened && s.lastStart.Some? && e.now - s.lastStart.value >= c.grace;
            var good := s.server.Some? && !e.taskDone && !neverOpened;
            && (o.Exited? <==>
                  (s.server.Some? && e.taskCancelled) || (fresh_ && !good && mayStart && e.factoryRaises))
            && (o.state.server.Some? <==> o.Looping? && fresh_ && (good || mayStart))
            && (good && o.state.server.Some? ==> o.state.server == s.server)
            && (!good && o.state.server.Some? ==> o.state.lastStart == Some(e.now))
  {
  }
}
