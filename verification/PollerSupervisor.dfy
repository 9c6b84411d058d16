/** Supervision of one bridge's poll loop: a hung loop is torn down and rebuilt within a bounded
    time of its last progress, a healthy one is left alone. Time is explicit; the only writer of
    the heartbeat besides the poll loop is the supervisor's own reconnect. */
module PollerSupervisor {
  import opened Common

  /** `stall` is stall_timeout_s, `poll` poll_interval_s, `safetyCheck` check_interval_s. */
  datatype Conf = Conf(stall: real, poll: real, safetyCheck: real) {
    function CheckInterval(): real { if safetyCheck < stall / 2.0 then safetyCheck else stall / 2.0 }

    /** How long a hung loop can go unnoticed. */
    function Bound(): real { stall + CheckInterval() }

    /** The load-time rule, a stall timeout above twice the poll interval, and a positive check interval. */
    predicate Accepted() { 0.0 < poll && 0.0 < safetyCheck && stall > poll * 2.0 }
  }

  datatype Phase = Watching | Reconnecting | Stopped

  datatype Loop = Polling(since: real) | Sleeping(since: real) | Ended

  /** Tasks and clients are numbered as they are created; `ended` counts tasks awaited to their end. */
  datatype State = State(now: real, phase: Phase, loop: Loop, task: Option<nat>, created: nat, ended: nat,
                         client: nat, restarts: nat, heartbeat: real, lastCheck: real)

  datatype Event =
    | Advance(dt: real)
    | PollReturned
    | PollStarts
    | LoopDied
    | Check
    | ConnectAttempt
    | Connected
    | Stop

  function Starting(s: State): State {
    s.(phase := Watching, loop := Polling(s.now), task := Some(s.created), created := s.created + 1,
       heartbeat := s.now, lastCheck := s.now)
  }

  function Initial(t: real): State {
    Starting(State(t, Watching, Ended, None, 0, 0, 0, 0, t, t))
  }

  function Ending(s: State): State
    requires s.task.Some?
  {
    s.(task := None, ended := s.ended + 1, loop := Ended)
  }

  function Rebuilding(s: State): State
    requires s.task.Some?
  {
    Ending(s).(phase := Reconnecting, restarts := s.restarts + 1, client := s.client + 1)
  }

  /** Which events can happen, given that the supervisor wakes on time. */
  predicate Enabled(c: Conf, s: State, e: Event) {
    match e
    case Advance(dt) => dt >= 0.0 && (s.phase == Watching ==> s.now + dt <= s.lastCheck + c.CheckInterval())
    case PollReturned => s.loop.Polling?
    case PollStarts => s.loop.Sleeping?
    case LoopDied => s.task.Some?
    case Check => s.phase == Watching && s.task.Some?
    case ConnectAttempt => s.phase == Reconnecting
    case Connected => s.phase == Reconnecting
    case Stop => s.phase != Stopped
  }

  function Step(c: Conf, s: State, e: Event): State
    requires Enabled(c, s, e)
  {
    match e
    case Advance(dt) => s.(now := s.now + dt)
    case PollReturned => s.(loop := Sleeping(s.now), heartbeat := s.now)
    case PollStarts => s.(loop := Polling(s.now))
    case LoopDied => s.(loop := Ended)
    case Check =>
      if s.loop == Ended || s.now - s.heartbeat > c.stall then Rebuilding(s) else s.(lastCheck := s.now)
    case ConnectAttempt => s.(heartbeat := s.now)
    case Connected => Starting(s)
    case Stop =>
      var t := if s.phase == Reconnecting then Starting(s) else s;
      (if t.task.Some? then Ending(t) else t).(phase := Stopped)
  }

  /** The supervisor coroutine itself. The environment calls one method per wake-up. */
  class Supervisor {
    const conf: Conf
    var phase: Phase
    var task: Option<nat>
    var created: nat
    var ended: nat
    var client: nat
    var restarts: nat
    var heartbeat: real
    var lastCheck: real
    ghost var loop: Loop

    ghost function Now(t: real): State
      reads this
    {
      State(t, phase, loop, task, created, ended, client, restarts, heartbeat, lastCheck)
    }

    constructor (conf: Conf, t: real)
      ensures this.conf == conf && Now(t) == Initial(t)
    {
      this.conf := conf;
      phase, loop, task, created, ended := Watching, Polling(t), Some(0), 1, 0;
      client, restarts, heartbeat, lastCheck := 0, 0, t, t;
    }

    method StartTask(t: real)
      modifies this
      ensures Now(t) == Starting(old(Now(t)))
    {
      heartbeat, lastCheck := t, t;
      task, created := Some(created), created + 1;
      phase, loop := Watching, Polling(t);
    }

    method Cancel(t: real)
      requires task.Some?
      modifies this
      ensures Now(t) == Ending(old(Now(t)))
    {
      task, ended, loop := None, ended + 1, Ended;
    }

    /** One pass of the watch loop after its timed wait. */
    method OnCheck(t: real, taskDone: bool)
      requires phase == Watching && task.Some? && (taskDone <==> loop == Ended)
      modifies this
      ensures Enabled(conf, old(Now(t)), Check) && Now(t) == Step(conf, old(Now(t)), Check)
    {
      if !taskDone {
        var age := t - heartbeat;
        if age <= conf.stall {
          lastCheck := t;
          return;
        }
      }
      Cancel(t);
      restarts := restarts + 1;
      client := client + 1;
      phase := Reconnecting;
    }

    method OnConnected(t: real)
      requires phase == Reconnecting
      modifies this
      ensures Enabled(conf, old(Now(t)), Connected) && Now(t) == Step(conf, old(Now(t)), Connected)
    {
      StartTask(t);
    }

    /** The stop event, whichever wait it interrupts: a reconnect still starts its task, and the
        `finally` block cancels whatever task there is. */
    method OnStop(t: real)
      requires phase != Stopped
      modifies this
      ensures Enabled(conf, old(Now(t)), Stop) && Now(t) == Step(conf, old(Now(t)), Stop)
    {
      if phase == Reconnecting {
        StartTask(t);
      }
      if task.Some? {
        Cancel(t);
      }
      phase := Stopped;
    }
  }

  // ----- Every run

  ghost predicate IsRun(c: Conf, states: seq<State>, events: seq<Event>) {
    && |states| == |events| + 1
    && (exists t :: states[0] == Initial(t))
    && forall i :: 0 <= i < |events| ==>
      Enabled(c, states[i], events[i]) && states[i + 1] == Step(c, states[i], events[i])
  }

  predicate Invariant(c: Conf, s: State) {
    && s.created == s.ended + (if s.task.Some? then 1 else 0)
    && (s.task.Some? <==> s.phase == Watching)
    && (s.task == None ==> s.loop == Ended)
    && s.restarts == s.client
    && s.heartbeat <= s.now
    && (s.loop.Polling? ==> s.heartbeat <= s.loop.since <= s.now)
    && (s.phase == Watching ==> s.lastCheck <= s.now <= s.lastCheck + c.CheckInterval())
    && (s.phase == Watching ==> s.heartbeat >= s.lastCheck - c.stall)
  }

  lemma StepKeeps(c: Conf, s: State, e: Event)
    requires c.Accepted() && Invariant(c, s) && Enabled(c, s, e)
    ensures Invariant(c, Step(c, s, e))
  {
  }

  /** A watched loop made progress, and a poll in flight was started, within the bound. */
  lemma WithinBound(c: Conf, s: State)
    requires c.Accepted() && Invariant(c, s)
    ensures c.Bound() <= 1.5 * c.stall && c.Bound() <= c.stall + c.safetyCheck
    ensures s.phase == Watching ==> s.now - s.heartbeat <= c.Bound()
    ensures s.loop.Polling? ==> s.phase == Watching && s.now - s.loop.since <= c.Bound()
  {
  }

  /** At every instant of every run: at most one poll task exists and every other one was awaited
      to its end, each restart replaced the client, and a task that is being watched made
      progress at most stall_timeout + check_interval ago, hence at most 1.5 stall timeouts. */
  lemma {:induction false} HungLoopIsRebuiltInTime(c: Conf, states: seq<State>, events: seq<Event>, i: nat)
    requires c.Accepted() && IsRun(c, states, events) && i < |states|
    ensures var s := states[i];
            && Invariant(c, s)
            && (s.phase == Watching ==> s.now - s.heartbeat <= c.stall + c.safetyCheck)
            && (s.phase == Watching ==> s.now - s.heartbeat <= 1.5 * c.stall)
            && (s.loop.Polling? ==> s.now - s.loop.since <= c.stall + c.safetyCheck)
            && (s.loop.Polling? ==> s.now - s.loop.since <= 1.5 * c.stall)
            && (s.phase == Stopped ==> s.created == s.ended)
  {
    if i > 0 {
      HungLoopIsRebuiltInTime(c, states, events, i - 1);
      StepKeeps(c, states[i - 1], events[i - 1]);
    }
    WithinBound(c, states[i]);
  }

  /** Polls return within stall_timeout - poll_interval, sleeps take at most poll_interval. */
  predicate Responsive(c: Conf, s: State, e: Event) {
    match e
    case Advance(dt) =>
      (match s.loop
       case Polling(since) => s.now + dt <= since + (c.stall - c.poll)
       case Sleeping(since) => s.now + dt <= since + c.poll
       case Ended => true)
    case LoopDied => false
    case _ => true
  }

  predicate Healthy(c: Conf, s: State) {
    && s.restarts == 0 && s.phase != Reconnecting
    && match s.loop
       case Polling(since) => s.heartbeat >= since - c.poll && since <= s.now <= since + (c.stall - c.poll)
       case Sleeping(since) => s.heartbeat >= since && since <= s.now <= since + c.poll
       case Ended => s.phase == Stopped
  }

  /** A loop whose every poll returns in time is never rebuilt. */
  lemma {:induction false} HealthyLoopIsLeftAlone(c: Conf, states: seq<State>, events: seq<Event>, i: nat)
    requires c.Accepted() && IsRun(c, states, events) && i < |states|
    requires forall k :: 0 <= k < |events| ==> Responsive(c, states[k], events[k])
    ensures Healthy(c, states[i])
  {
    if i > 0 {
      HealthyLoopIsLeftAlone(c, states, events, i - 1);
      HungLoopIsRebuiltInTime(c, states, events, i - 1);
      assert Responsive(c, states[i - 1], events[i - 1]);
    }
  }
}
