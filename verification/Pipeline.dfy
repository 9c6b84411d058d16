/** One bridge as a whole: hub messages, the steps of a poll, deliveries, the poll supervisor
    that replaces a hung client and the ticks of the server supervisor, interleaved in any order
    on one monotone clock. What a live server serves is always one complete sample, and never
    too old. */
module Pipeline {
  import opened Bridge
  import opened Common
  import opened Datastore
  import opened Derive
  import opened HubCache
  import opened ImageCoherence
  import Polling = PollerSupervisor
  import opened Pollers
  import opened RegisterMap
  import opened Sources
  import Supervision = ServerSupervisor

  /** `tick` bounds the time between ticks of the server supervisor. With `viaHub` reads are
      answered from the hub cache, otherwise by the device itself. */
  datatype Conf = Conf(source: Source, sides: seq<TargetSide>, ct: Num, viaHub: bool, maxStale: real, tick: real,
                       poller: Polling.Conf, server: Supervision.Conf, hypot: Hypotenuse, pack: Rounding,
                       initial: Image)
  {
    ghost predicate Accepted() {
      Decodable(source) && Sized(initial, sides) && poller.Accepted() && tick >= 0.0 && maxStale >= 0.0
    }
  }

  /** One answered read and when it was answered. */
  datatype Taken = Taken(response: Response, at: real)

  /** `log` is what the present hub client received and `past` what those before it did; `taken`
      the reads of the poll in flight; `basis` the reads the sample in the store was made of. */
  datatype State = State(poller: Polling.State, past: seq<Update>, log: seq<Update>, streamError: Option<string>,
                         taken: seq<Taken>, served: Served, basis: seq<Taken>, server: Supervision.Outcome,
                         lastTick: real)
  {
    function Now(): real { poller.now }

    predicate InFlight() { poller.loop.Polling? }

    /** Everything ever received. */
    function Received(): seq<Update> { past + log }
  }

  datatype Event =
    | Advance(dt: real)
    | HubMessage(key: BlockKey, registers: seq<Word>, error: string)
    | StreamFailure(error: string)
    | PollBegins
    | PollReads(direct: Response)
    | PollDelivers
    | PollAborts
    | LoopDies
    | Watch
    | ConnectAttempt
    | Connected
    | StopPolling
    | Tick(taskDone: bool, taskCancelled: bool, neverOpened: bool, factoryRaises: bool)
    | StopServing

  function Responses(taken: seq<Taken>): (r: seq<Response>)
    ensures |r| == |taken|
  {
    seq(|taken|, i requires 0 <= i < |taken| => taken[i].response)
  }

  /** The stream error of a hub client that was just made. */
  const NOT_CONNECTED: Option<string> := Some("not connected yet")

  function Initial(c: Conf, t: real): State {
    State(Polling.Initial(t), [], [], NOT_CONNECTED, [], Served(c.initial, None), [],
          Supervision.Looping(Supervision.INITIAL), t)
  }

  ghost predicate Enabled(c: Conf, s: State, e: Event) {
    match e
    case Advance(dt) =>
      && Polling.Enabled(c.poller, s.poller, Polling.Advance(dt))
      && (s.server.Looping? ==> s.Now() + dt <= s.lastTick + c.tick)
    case HubMessage(_, _, _) => true
    case StreamFailure(_) => true
    case PollBegins => Polling.Enabled(c.poller, s.poller, Polling.PollStarts)
    case PollReads(_) => s.InFlight() && |s.taken| < |PollRequests(c.source)|
    case PollDelivers => s.InFlight() && |s.taken| == |PollRequests(c.source)| && Sized(s.served.image, c.sides)
    case PollAborts => s.InFlight()
    case LoopDies => Polling.Enabled(c.poller, s.poller, Polling.LoopDied)
    case Watch => Polling.Enabled(c.poller, s.poller, Polling.Check)
    case ConnectAttempt => Polling.Enabled(c.poller, s.poller, Polling.ConnectAttempt)
    case Connected => Polling.Enabled(c.poller, s.poller, Polling.Connected)
    case StopPolling => Polling.Enabled(c.poller, s.poller, Polling.Stop)
    case Tick(_, _, _, _) => s.server.Looping?
    case StopServing => s.server.Looping?
  }

  function ReadAnswer(c: Conf, s: State, direct: Response): Response
    requires |s.taken| < |PollRequests(c.source)|
  {
    if c.viaHub then
      AppliedValid(s.log);
      Answer(HubCache.Applied(s.log), s.streamError, c.maxStale, PollRequests(c.source)[|s.taken|], s.Now())
    else direct
  }

  function TickEnv(s: State, e: Event): Supervision.Env
    requires e.Tick?
  {
    Supervision.Env(s.Now(), AgeOf(s.served.latest, s.Now()),
                    e.taskDone, e.taskCancelled, e.neverOpened, e.factoryRaises)
  }

  ghost function Step(c: Conf, s: State, e: Event): State
    requires c.Accepted() && Enabled(c, s, e)
  {
    match e
    case Advance(dt) => s.(poller := Polling.Step(c.poller, s.poller, Polling.Advance(dt)))
    case HubMessage(key, registers, error) =>
      s.(log := s.log + [Update(key, registers, error, s.Now())], streamError := None)
    case StreamFailure(error) => s.(streamError := Some(error))
    case PollBegins => Loop(c, s, Polling.PollStarts)
    case PollReads(direct) => AfterRead(c, s, ReadAnswer(c, s, direct))
    case PollDelivers => Delivering(c, s)
    case PollAborts => Loop(c, s, Polling.PollReturned)
    case LoopDies => Loop(c, s, Polling.LoopDied)
    case Watch => Watching(c, s)
    case ConnectAttempt => s.(poller := Polling.Step(c.poller, s.poller, Polling.ConnectAttempt))
    case Connected => Loop(c, s, Polling.Connected)
    case StopPolling => Loop(c, s, Polling.Stop)
    case Tick(_, _, _, _) =>
      s.(server := Supervision.Ticked(c.server, s.server.state, TickEnv(s, e)), lastTick := s.Now())
    case StopServing => s.(server := Supervision.Exited(Supervision.Finished(s.server.state)))
  }

  /** The poll loop or its supervisor moves; whatever poll was in flight is over. */
  function Loop(c: Conf, s: State, e: Polling.Event): State
    requires Polling.Enabled(c.poller, s.poller, e)
  {
    s.(poller := Polling.Step(c.poller, s.poller, e), taken := [])
  }

  /** One look of the poll supervisor. A dead or hung loop is torn down and its client replaced,
      whose cache starts empty. */
  function Watching(c: Conf, s: State): State
    requires Polling.Enabled(c.poller, s.poller, Polling.Check)
  {
    var p := Polling.Step(c.poller, s.poller, Polling.Check);
    if p.phase.Reconnecting? then
      s.(poller := p, taken := [], past := s.Received(), log := [], streamError := NOT_CONNECTED)
    else s.(poller := p)
  }

  /** An error response or a short read ends the poll. */
  function AfterRead(c: Conf, s: State, response: Response): State
    requires s.InFlight() && |s.taken| < |PollRequests(c.source)|
  {
    if GoodRead(response, PollRequests(c.source)[|s.taken|].count) then
      s.(taken := s.taken + [Taken(response, s.Now())])
    else Loop(c, s, Polling.PollReturned)
  }

  ghost function Delivering(c: Conf, s: State): State
    requires c.Accepted() && s.InFlight() && |s.taken| == |PollRequests(c.source)| && Sized(s.served.image, c.sides)
  {
    match PollOutcome(c.hypot, c.source, Responses(s.taken))
    case Rejected => Loop(c, s, Polling.PollReturned)
    case Broken => Loop(c, s, Polling.PollReturned)
    case Good(values) =>
      var after := Delivered(c.pack, c.sides, c.ct, s.served, values, s.Now());
      var basis := if EncodeAll(c.pack, values, c.sides, c.ct).Ready? then s.taken else s.basis;
      Loop(c, s.(served := after, basis := basis), Polling.PollReturned)
  }

  // ----- What every reachable state satisfies

  predicate InTime(taken: seq<Taken>, from: real, to: real) {
    forall i :: 0 <= i < |taken| ==> from <= taken[i].at <= to
  }

  /** The read was answered by this received hub message: good, covering, not stale then. */
  predicate AnsweredBy(u: Update, r: Request, t: Taken, maxStale: real) {
    && Covers(u.key, r) && u.error == "" && t.at - maxStale <= u.at <= t.at
    && t.response == Ok(Slice(u.registers, r.addr - u.key.base, r.count))
  }

  /** Some received message answered this read. */
  ghost predicate FromHub(log: seq<Update>, r: Request, t: Taken, maxStale: real) {
    exists k :: 0 <= k < |log| && AnsweredBy(log[k], r, t, maxStale)
  }

  /** A complete read, over the hub one that a received message answered. */
  ghost predicate Answered(c: Conf, log: seq<Update>, r: Request, t: Taken) {
    GoodRead(t.response, r.count) && (c.viaHub ==> FromHub(log, r, t, c.maxStale))
  }

  ghost predicate Traceable(c: Conf, log: seq<Update>, taken: seq<Taken>) {
    && |taken| <= |PollRequests(c.source)|
    && forall i :: 0 <= i < |taken| ==> Answered(c, log, PollRequests(c.source)[i], taken[i])
  }

  /** The served image is the initial one with the store's one sample written into it. */
  ghost predicate Coherent(c: Conf, served: Served) {
    match served.latest
    case None => served.image == c.initial
    case Some(stamp) =>
      var r := EncodeAll(c.pack, stamp.values, c.sides, c.ct);
      r.Ready? && AllFit(c.initial, r.writes) && served.image == PutAll(c.initial, r.writes)
  }

  ghost predicate SourcedFrom(c: Conf, log: seq<Update>, basis: seq<Taken>, stamp: Stamp)
    requires c.Accepted()
  {
    && |basis| == |PollRequests(c.source)|
    && Traceable(c, log, basis)
    && InTime(basis, stamp.ts - c.poller.Bound(), stamp.ts)
    && PollOutcome(c.hypot, c.source, Responses(basis)) == Good(stamp.values)
  }

  ghost predicate Sourced(c: Conf, s: State)
    requires c.Accepted()
  {
    s.served.latest.Some? ==>
      && SourcedFrom(c, s.Received(), s.basis, s.served.latest.value)
      && s.served.latest.value.ts <= s.Now()
  }

  ghost predicate Flying(c: Conf, s: State) {
    if s.InFlight() then Traceable(c, s.Received(), s.taken) && InTime(s.taken, s.poller.loop.since, s.Now())
    else s.taken == []
  }

  ghost predicate Watched(c: Conf, s: State) {
    && Supervision.Invariant(c.server, s.server.state)
    && (s.server.Exited? ==> s.server.state.server == None)
    && s.lastTick <= s.Now() && (s.server.Looping? ==> s.Now() <= s.lastTick + c.tick)
    && (s.server.state.server.Some? ==>
          s.served.latest.Some? && s.served.latest.value.ts >= s.lastTick - c.server.maxAge)
  }

  ghost predicate Invariant(c: Conf, s: State)
    requires c.Accepted()
  {
    && Monotone(s.Received(), s.Now()) && Polling.Invariant(c.poller, s.poller)
    && Coherent(c, s.served) && Sourced(c, s) && Flying(c, s) && Watched(c, s)
  }

  // ----- Writing a sample over an older one leaves no trace of the older one

  lemma OverwriteAt(img: Image, old_: seq<Write>, new_: seq<Write>, fc: int, a: int)
    requires AllFit(img, old_) && AllFit(img, new_) && SpansOf(old_) == SpansOf(new_) && 0 <= a < |img.Bank(fc)|
    ensures AllFit(PutAll(img, old_), new_)
    ensures |PutAll(PutAll(img, old_), new_).Bank(fc)| == |PutAll(img, new_).Bank(fc)| == |img.Bank(fc)|
    ensures PutAll(PutAll(img, old_), new_).Bank(fc)[a] == PutAll(img, new_).Bank(fc)[a]
  {
    var mid := PutAll(img, old_);
    if i :| 0 <= i < |new_| && Touches(new_[i].span, fc, a) {
      var k := LastTouching(new_, i, fc, a);
      LastWriteWins(img, new_, k, fc, a);
      LastWriteWins(mid, new_, k, fc, a);
    } else {
      forall i | 0 <= i < |old_| ensures !Touches(old_[i].span, fc, a) {
        assert old_[i].span == SpansOf(old_)[i] == SpansOf(new_)[i] == new_[i].span;
      }
      UntouchedKeeps(img, old_, fc, a);
      UntouchedKeeps(img, new_, fc, a);
      UntouchedKeeps(mid, new_, fc, a);
    }
  }

  lemma OverwriteForgets(img: Image, old_: seq<Write>, new_: seq<Write>)
    requires AllFit(img, old_) && AllFit(img, new_) && SpansOf(old_) == SpansOf(new_)
    ensures AllFit(PutAll(img, old_), new_)
    ensures PutAll(PutAll(img, old_), new_) == PutAll(img, new_)
  {
    var x, y := PutAll(PutAll(img, old_), new_), PutAll(img, new_);
    forall a | 0 <= a < |img.holding| ensures x.holding[a] == y.holding[a] {
      OverwriteAt(img, old_, new_, 3, a);
    }
    forall a | 0 <= a < |img.inputs| ensures x.inputs[a] == y.inputs[a] {
      OverwriteAt(img, old_, new_, 4, a);
    }
  }

  lemma CoherentSized(c: Conf, served: Served)
    requires c.Accepted() && Coherent(c, served)
    ensures Sized(served.image, c.sides)
  {
  }

  lemma DeliveredCoherent(c: Conf, served: Served, values: Values, ts: real)
    requires c.Accepted() && Coherent(c, served)
    ensures Sized(served.image, c.sides) && Coherent(c, Delivered(c.pack, c.sides, c.ct, served, values, ts))
  {
    CoherentSized(c, served);
    var r := EncodeAll(c.pack, values, c.sides, c.ct);
    EncodedFits(c.pack, values, c.sides, c.ct, c.initial);
    EncodeAllLayout(c.pack, values, c.sides, c.ct);
    if r.Ready? && served.latest.Some? {
      var before := EncodeAll(c.pack, served.latest.value.values, c.sides, c.ct);
      EncodeAllLayout(c.pack, served.latest.value.values, c.sides, c.ct);
      OverwriteForgets(c.initial, before.writes, r.writes);
    }
  }

  // ----- One lemma per kind of step

  lemma FromHubGrows(log: seq<Update>, u: Update, r: Request, t: Taken, maxStale: real)
    requires FromHub(log, r, t, maxStale)
    ensures FromHub(log + [u], r, t, maxStale)
  {
    var k :| 0 <= k < |log| && AnsweredBy(log[k], r, t, maxStale);
    assert (log + [u])[k] == log[k];
  }

  lemma TraceableGrows(c: Conf, log: seq<Update>, u: Update, taken: seq<Taken>)
    requires Traceable(c, log, taken)
    ensures Traceable(c, log + [u], taken)
  {
    forall i | 0 <= i < |taken| ensures Answered(c, log + [u], PollRequests(c.source)[i], taken[i]) {
      assert Answered(c, log, PollRequests(c.source)[i], taken[i]);
      if c.viaHub { FromHubGrows(log, u, PollRequests(c.source)[i], taken[i], c.maxStale); }
    }
  }

  lemma MessageKeeps(c: Conf, s: State, e: Event)
    requires c.Accepted() && Invariant(c, s) && e.HubMessage?
    ensures Invariant(c, Step(c, s, e))
  {
    var u := Update(e.key, e.registers, e.error, s.Now());
    assert Step(c, s, e).Received() == s.Received() + [u];
    if s.served.latest.Some? { TraceableGrows(c, s.Received(), u, s.basis); }
    if s.InFlight() { TraceableGrows(c, s.Received(), u, s.taken); }
  }

  /** What a read took is justified by a message in the log, whose age the cache checked. */
  lemma AnswerIsFromHub(log: seq<Update>, streamError: Option<string>, maxStale: real, r: Request, now: real)
    requires Monotone(log, now)
    ensures HubCache.Applied(log).Valid()
    ensures var answer := Answer(HubCache.Applied(log), streamError, maxStale, r, now);
            answer.Ok? ==> FromHub(log, r, Taken(answer, now), maxStale)
  {
    AnswerRefinesHistory(log, streamError, maxStale, r, now);
    var answer := Answer(HubCache.Applied(log), streamError, maxStale, r, now);
    if answer.Ok? {
      var k :| Justified(log, r, now, maxStale, answer.registers, k);
      assert AnsweredBy(log[k], r, Taken(answer, now), maxStale);
    }
  }

  lemma MonotoneSuffix(past: seq<Update>, log: seq<Update>, now: real)
    requires Monotone(past + log, now)
    ensures Monotone(log, now)
  {
    forall i, j | 0 <= i <= j < |log| ensures log[i].at <= log[j].at {
      assert (past + log)[|past| + i] == log[i] && (past + log)[|past| + j] == log[j];
    }
    forall i | 0 <= i < |log| ensures log[i].at <= now {
      assert (past + log)[|past| + i] == log[i];
    }
  }

  lemma FromHubInAll(past: seq<Update>, log: seq<Update>, r: Request, t: Taken, maxStale: real)
    requires FromHub(log, r, t, maxStale)
    ensures FromHub(past + log, r, t, maxStale)
  {
    var k :| 0 <= k < |log| && AnsweredBy(log[k], r, t, maxStale);
    assert (past + log)[|past| + k] == log[k];
  }

  lemma ReadIsAnswered(c: Conf, s: State, direct: Response)
    requires c.Accepted() && Invariant(c, s) && Enabled(c, s, PollReads(direct))
    requires GoodRead(ReadAnswer(c, s, direct), PollRequests(c.source)[|s.taken|].count)
    ensures Answered(c, s.Received(), PollRequests(c.source)[|s.taken|], Taken(ReadAnswer(c, s, direct), s.Now()))
  {
    if c.viaHub {
      var r := PollRequests(c.source)[|s.taken|];
      MonotoneSuffix(s.past, s.log, s.Now());
      AnswerIsFromHub(s.log, s.streamError, c.maxStale, r, s.Now());
      FromHubInAll(s.past, s.log, r, Taken(ReadAnswer(c, s, direct), s.Now()), c.maxStale);
    }
  }

  lemma TraceableNext(c: Conf, log: seq<Update>, taken: seq<Taken>, t: Taken)
    requires Traceable(c, log, taken) && |taken| < |PollRequests(c.source)|
    requires Answered(c, log, PollRequests(c.source)[|taken|], t)
    ensures Traceable(c, log, taken + [t])
  {
  }

  lemma TookOne(c: Conf, s: State, taken: seq<Taken>)
    requires c.Accepted() && Invariant(c, s) && s.InFlight() && Traceable(c, s.Received(), taken)
    requires InTime(taken, s.poller.loop.since, s.Now())
    ensures Invariant(c, s.(taken := taken))
  {
    assert s.(taken := taken).Received() == s.Received();
  }

  /** Ending whatever poll was in flight disturbs nothing else. */
  lemma LoopKeeps(c: Conf, s: State, e: Polling.Event)
    requires c.Accepted() && Invariant(c, s) && Polling.Enabled(c.poller, s.poller, e) && !e.Advance?
    ensures Invariant(c, Loop(c, s, e))
  {
    Polling.StepKeeps(c.poller, s.poller, e);
    assert Loop(c, s, e).Received() == s.Received() && Loop(c, s, e).Now() == s.Now();
    assert Traceable(c, s.Received(), []);
  }

  lemma ReadKeeps(c: Conf, s: State, direct: Response)
    requires c.Accepted() && Invariant(c, s) && Enabled(c, s, PollReads(direct))
    ensures Invariant(c, AfterRead(c, s, ReadAnswer(c, s, direct)))
  {
    var response := ReadAnswer(c, s, direct);
    if GoodRead(response, PollRequests(c.source)[|s.taken|].count) {
      ReadIsAnswered(c, s, direct);
      TraceableNext(c, s.Received(), s.taken, Taken(response, s.Now()));
      TookOne(c, s, s.taken + [Taken(response, s.Now())]);
    } else {
      LoopKeeps(c, s, Polling.PollReturned);
    }
  }

  /** A poll that returns a sample made all its reads within the bound before its stamp. */
  lemma FlightIsSource(c: Conf, s: State, values: Values)
    requires c.Accepted() && Invariant(c, s) && s.InFlight() && |s.taken| == |PollRequests(c.source)|
    requires PollOutcome(c.hypot, c.source, Responses(s.taken)) == Good(values)
    ensures SourcedFrom(c, s.Received(), s.taken, Stamp(values, s.Now()))
  {
    Polling.WithinBound(c.poller, s.poller);
  }

  lemma ServedReplaced(c: Conf, s: State, served: Served, basis: seq<Taken>)
    requires c.Accepted() && Invariant(c, s) && Coherent(c, served) && served.latest.Some?
    requires served.latest.value.ts == s.Now() && SourcedFrom(c, s.Received(), basis, served.latest.value)
    ensures Invariant(c, s.(served := served, basis := basis))
  {
    assert s.(served := served, basis := basis).Received() == s.Received();
  }

  lemma SuccessKeeps(c: Conf, s: State, values: Values, after: Served)
    requires c.Accepted() && Invariant(c, s) && s.InFlight() && |s.taken| == |PollRequests(c.source)|
    requires PollOutcome(c.hypot, c.source, Responses(s.taken)) == Good(values)
    requires Coherent(c, after) && after.latest == Some(Stamp(values, s.Now()))
    ensures Invariant(c, Loop(c, s.(served := after, basis := s.taken), Polling.PollReturned))
  {
    FlightIsSource(c, s, values);
    ServedReplaced(c, s, after, s.taken);
    LoopKeeps(c, s.(served := after, basis := s.taken), Polling.PollReturned);
  }

  lemma DeliverKeeps(c: Conf, s: State)
    requires c.Accepted() && Invariant(c, s) && Enabled(c, s, PollDelivers)
    ensures Invariant(c, Delivering(c, s))
  {
    var outcome := PollOutcome(c.hypot, c.source, Responses(s.taken));
    if outcome.Good? && EncodeAll(c.pack, outcome.values, c.sides, c.ct).Ready? {
      DeliveredCoherent(c, s.served, outcome.values, s.Now());
      SuccessKeeps(c, s, outcome.values, Delivered(c.pack, c.sides, c.ct, s.served, outcome.values, s.Now()));
    } else {
      LoopKeeps(c, s, Polling.PollReturned);
    }
  }

  lemma WatchKeeps(c: Conf, s: State)
    requires c.Accepted() && Invariant(c, s) && Enabled(c, s, Watch)
    ensures Invariant(c, Watching(c, s))
  {
    Polling.StepKeeps(c.poller, s.poller, Polling.Check);
    var t := Watching(c, s);
    assert t.Received() == s.Received() && t.Now() == s.Now();
  }

  lemma AttemptKeeps(c: Conf, s: State)
    requires c.Accepted() && Invariant(c, s) && Enabled(c, s, ConnectAttempt)
    ensures Invariant(c, Step(c, s, ConnectAttempt))
  {
    Polling.StepKeeps(c.poller, s.poller, Polling.ConnectAttempt);
    assert Step(c, s, ConnectAttempt).Received() == s.Received();
  }

  lemma TickServesFresh(c: Conf, s: State, e: Event)
    requires c.Accepted() && Invariant(c, s) && e.Tick? && Enabled(c, s, e)
    ensures var t := Step(c, s, e);
            t.server.state.server.Some? ==>
              && t.server.Looping? && s.served.latest.Some?
              && s.Now() - s.served.latest.value.ts <= c.server.maxAge
  {
    Supervision.TickKeeps(c.server, s.server.state, TickEnv(s, e));
    Supervision.UpExactlyWhenFresh(c.server, s.server.state, TickEnv(s, e));
  }

  /** The other side of the gate: a tick that does not raise keeps a good server up, or starts one
      when the throttle allows it, exactly while the sample in the store is young enough. */
  lemma TickServesWhenFresh(c: Conf, s: State, e: Event)
    requires c.Accepted() && Invariant(c, s) && e.Tick? && Enabled(c, s, e) && Step(c, s, e).server.Looping?
    requires var before := s.server.state;
             || (before.server.Some? && !e.taskDone && !e.neverOpened)
             || before.lastStart == None || s.Now() - before.lastStart.value >= c.server.minRestart
    ensures Step(c, s, e).server.state.server.Some? <==>
            s.served.latest.Some? && s.Now() - s.served.latest.value.ts <= c.server.maxAge
  {
    Supervision.UpExactlyWhenFresh(c.server, s.server.state, TickEnv(s, e));
  }

  lemma TickKeeps(c: Conf, s: State, e: Event)
    requires c.Accepted() && Invariant(c, s) && e.Tick? && Enabled(c, s, e)
    ensures Invariant(c, Step(c, s, e))
  {
    TickServesFresh(c, s, e);
    Supervision.TickKeeps(c.server, s.server.state, TickEnv(s, e));
    assert Step(c, s, e).Received() == s.Received();
  }

  lemma StopServingKeeps(c: Conf, s: State)
    requires c.Accepted() && Invariant(c, s) && Enabled(c, s, StopServing)
    ensures Invariant(c, Step(c, s, StopServing))
  {
    Supervision.FinishedKeeps(c.server, s.server.state);
    assert Step(c, s, StopServing).Received() == s.Received();
  }

  lemma AdvanceKeeps(c: Conf, s: State, dt: real)
    requires c.Accepted() && Invariant(c, s) && Enabled(c, s, Advance(dt))
    ensures Invariant(c, Step(c, s, Advance(dt)))
  {
    Polling.StepKeeps(c.poller, s.poller, Polling.Advance(dt));
    assert Step(c, s, Advance(dt)).Received() == s.Received();
  }

  lemma StreamFailureKeeps(c: Conf, s: State, e: Event)
    requires c.Accepted() && Invariant(c, s) && e.StreamFailure?
    ensures Invariant(c, Step(c, s, e))
  {
    assert Step(c, s, e).Received() == s.Received();
  }

  /** The poll loop starting, failing, dying or being started and stopped by its supervisor. */
  function LoopEvent(e: Event): Option<Polling.Event> {
    match e
    case PollBegins => Some(Polling.PollStarts)
    case PollAborts => Some(Polling.PollReturned)
    case LoopDies => Some(Polling.LoopDied)
    case Connected => Some(Polling.Connected)
    case StopPolling => Some(Polling.Stop)
    case _ => None
  }

  lemma LoopStepKeeps(c: Conf, s: State, e: Event)
    requires c.Accepted() && Invariant(c, s) && Enabled(c, s, e) && LoopEvent(e).Some?
    ensures Invariant(c, Step(c, s, e))
  {
    LoopKeeps(c, s, LoopEvent(e).value);
  }

  lemma PollStepKeeps(c: Conf, s: State, e: Event)
    requires c.Accepted() && Invariant(c, s) && Enabled(c, s, e)
    requires e.PollReads? || e.PollDelivers? || LoopEvent(e).Some?
    ensures Invariant(c, Step(c, s, e))
  {
    if e.PollReads? {
      ReadKeeps(c, s, e.direct);
    } else if e.PollDelivers? {
      DeliverKeeps(c, s);
    } else {
      LoopStepKeeps(c, s, e);
    }
  }

  lemma StepKeeps(c: Conf, s: State, e: Event)
    requires c.Accepted() && Invariant(c, s) && Enabled(c, s, e)
    ensures Invariant(c, Step(c, s, e))
  {
    if e.PollReads? || e.PollDelivers? || LoopEvent(e).Some? {
      PollStepKeeps(c, s, e);
    } else if e.HubMessage? {
      MessageKeeps(c, s, e);
    } else if e.StreamFailure? {
      StreamFailureKeeps(c, s, e);
    } else if e.Watch? {
      WatchKeeps(c, s);
    } else if e.ConnectAttempt? {
      AttemptKeeps(c, s);
    } else if e.Tick? {
      TickKeeps(c, s, e);
    } else if e.StopServing? {
      StopServingKeeps(c, s);
    } else {
      AdvanceKeeps(c, s, e.dt);
    }
  }

  // ----- Every run

  ghost predicate IsRun(c: Conf, states: seq<State>, events: seq<Event>)
    requires c.Accepted()
  {
    && |states| == |events| + 1
    && (exists t :: states[0] == Initial(c, t))
    && forall i :: 0 <= i < |events| ==>
      Enabled(c, states[i], events[i]) && states[i + 1] == Step(c, states[i], events[i])
  }

  lemma InitialInvariant(c: Conf, t: real)
    requires c.Accepted()
    ensures Invariant(c, Initial(c, t))
  {
    var s := Initial(c, t);
    assert s.Received() == [] && Monotone([], t);
    assert Supervision.Invariant(c.server, Supervision.INITIAL);
    assert Polling.Invariant(c.poller, s.poller);
  }

  lemma {:induction false} EveryStateInvariant(c: Conf, states: seq<State>, events: seq<Event>, i: nat)
    requires c.Accepted() && IsRun(c, states, events) && i < |states|
    ensures Invariant(c, states[i])
  {
    if i > 0 {
      EveryStateInvariant(c, states, events, i - 1);
      StepKeeps(c, states[i - 1], events[i - 1]);
    } else {
      var t :| states[0] == Initial(c, t);
      InitialInvariant(c, t);
    }
  }

  /** In a reachable state nothing but unfinished reads can hold up a delivery: the size of the
      image, which its guard mentions, never does. */
  lemma DeliveryIsNeverBlocked(c: Conf, states: seq<State>, events: seq<Event>, i: nat)
    requires c.Accepted() && IsRun(c, states, events) && i < |states|
    ensures Enabled(c, states[i], PollDelivers) <==>
            states[i].InFlight() && |states[i].taken| == |PollRequests(c.source)|
  {
    EveryStateInvariant(c, states, events, i);
    CoherentSized(c, states[i].served);
  }

  /** The encodings of this sample agree wherever target points share registers. */
  ghost predicate SampleAgrees(c: Conf, values: Values)
    requires EncodeAll(c.pack, values, c.sides, c.ct).Ready?
  {
    EncodeAllLayout(c.pack, values, c.sides, c.ct);
    Agree(EncodeAll(c.pack, values, c.sides, c.ct).writes)
  }

  lemma CoherentServes(c: Conf, s: Served)
    requires c.Accepted() && Coherent(c, s) && s.latest.Some?
    ensures var values := s.latest.value.values;
            && (ServesAll(s.image, c.pack, values, c.sides, c.ct) <==> SampleAgrees(c, values))
            && (Disjoint(Layout(c.sides)) ==> SampleAgrees(c, values))
  {
    var values := s.latest.value.values;
    EncodeAllLayout(c.pack, values, c.sides, c.ct);
    ServesAllIffAgree(c.initial, c.pack, values, c.sides, c.ct);
    if Disjoint(Layout(c.sides)) { DisjointAgrees(EncodeAll(c.pack, values, c.sides, c.ct).writes); }
  }

  lemma CoherentUntouched(c: Conf, s: Served, fc: int, a: int)
    requires c.Accepted() && Coherent(c, s) && 0 <= a < |c.initial.Bank(fc)|
    requires forall x :: x in Layout(c.sides) ==> !Touches(x, fc, a)
    ensures |s.image.Bank(fc)| == |c.initial.Bank(fc)| && s.image.Bank(fc)[a] == c.initial.Bank(fc)[a]
  {
    if s.latest.Some? {
      var ws := EncodeAll(c.pack, s.latest.value.values, c.sides, c.ct).writes;
      EncodeAllLayout(c.pack, s.latest.value.values, c.sides, c.ct);
      forall j | 0 <= j < |ws| ensures !Touches(ws[j].span, fc, a) {
        assert ws[j].span == SpansOf(ws)[j];
      }
      UntouchedKeeps(c.initial, ws, fc, a);
    }
  }

  /** In every state of every run the image is exactly one complete sample, the one in the store,
      written into the initial image: registers outside the target spans keep their initial value,
      and every target register pair is the encoding of its point's value in that one sample exactly
      when points that share registers agree on them, so always when spans are disjoint. */
  lemma ImageIsOneSample(c: Conf, states: seq<State>, events: seq<Event>, i: nat, fc: int, a: int)
    requires c.Accepted() && IsRun(c, states, events) && i < |states|
    ensures var s := states[i].served;
            && Coherent(c, s)
            && (0 <= a < |c.initial.Bank(fc)| && (forall y :: y in Layout(c.sides) ==> !Touches(y, fc, a)) ==>
                  |s.image.Bank(fc)| == |c.initial.Bank(fc)| && s.image.Bank(fc)[a] == c.initial.Bank(fc)[a])
            && (s.latest.Some? ==>
                  var values := s.latest.value.values;
                  && (ServesAll(s.image, c.pack, values, c.sides, c.ct) <==> SampleAgrees(c, values))
                  && (Disjoint(Layout(c.sides)) ==> ServesAll(s.image, c.pack, values, c.sides, c.ct)))
  {
    EveryStateInvariant(c, states, events, i);
    var s := states[i].served;
    if 0 <= a < |c.initial.Bank(fc)| && forall y :: y in Layout(c.sides) ==> !Touches(y, fc, a) {
      CoherentUntouched(c, s, fc, a);
    }
    if s.latest.Some? { CoherentServes(c, s); }
  }

  /** Only a delivery that succeeds completely moves the image or the store, and then both. */
  lemma NothingElseMovesTheImage(c: Conf, s: State, e: Event)
    requires c.Accepted() && Invariant(c, s) && Enabled(c, s, e) && Step(c, s, e).served != s.served
    ensures e == PollDelivers && Step(c, s, e).served.latest.Some? && Step(c, s, e).served.latest.value.ts == s.Now()
  {
  }

  /** The request was answered by a good covering message received at most `age` ago. */
  ghost predicate RecentlyFromHub(log: seq<Update>, r: Request, t: Taken, maxStale: real, now: real, age: real) {
    exists k :: 0 <= k < |log| && AnsweredBy(log[k], r, t, maxStale) && now - log[k].at <= age
  }

  lemma FromHubIsRecent(log: seq<Update>, r: Request, t: Taken, maxStale: real, now: real, age: real)
    requires FromHub(log, r, t, maxStale) && now - t.at <= age
    ensures RecentlyFromHub(log, r, t, maxStale, now, maxStale + age)
  {
    var k :| 0 <= k < |log| && AnsweredBy(log[k], r, t, maxStale);
    assert now - log[k].at <= maxStale + age;
  }

  /** How old a read behind the served sample can be while a server is up: a whole hung poll, the
      age the freshness gate admits, and one tick of the supervisor. */
  function ServedAge(c: Conf): real {
    c.poller.stall + c.poller.CheckInterval() + c.server.maxAge + c.tick
  }

  /** The fail-safe, end to end: at every instant a server is up, the data stamp is at most
      maxAge + tick old, the sample was decoded from complete reads made at most `ServedAge` ago,
      and over the hub every one of those reads was answered by a good covering message received
      no longer ago than maxStale more, by whichever client was in use then. */
  lemma ServedDataIsRecent(c: Conf, states: seq<State>, events: seq<Event>, i: nat)
    requires c.Accepted() && IsRun(c, states, events) && i < |states|
    requires states[i].server.state.server.Some?
    ensures var s := states[i];
            var requests := PollRequests(c.source);
            && ServedAge(c) <= c.poller.stall + c.poller.safetyCheck + c.server.maxAge + c.tick
            && ServedAge(c) <= 1.5 * c.poller.stall + c.server.maxAge + c.tick
            && s.served.latest.Some? && |s.basis| == |requests|
            && s.Now() - s.served.latest.value.ts <= c.server.maxAge + c.tick
            && PollOutcome(c.hypot, c.source, Responses(s.basis)) == Good(s.served.latest.value.values)
            && (forall j :: 0 <= j < |requests| ==> s.Now() - s.basis[j].at <= ServedAge(c))
            && (c.viaHub ==> forall j :: 0 <= j < |requests| ==>
                  RecentlyFromHub(s.Received(), requests[j], s.basis[j], c.maxStale, s.Now(),
                                  c.maxStale + ServedAge(c)))
  {
    EveryStateInvariant(c, states, events, i);
    RecentState(c, states[i]);
  }

  lemma RecentState(c: Conf, s: State)
    requires c.Accepted() && Invariant(c, s) && s.server.state.server.Some?
    ensures var requests := PollRequests(c.source);
            && s.served.latest.Some? && |s.basis| == |requests|
            && s.Now() - s.served.latest.value.ts <= c.server.maxAge + c.tick
            && (forall j :: 0 <= j < |requests| ==> s.Now() - s.basis[j].at <= ServedAge(c))
            && (c.viaHub ==> forall j :: 0 <= j < |requests| ==>
                  RecentlyFromHub(s.Received(), requests[j], s.basis[j], c.maxStale, s.Now(),
                                  c.maxStale + ServedAge(c)))
  {
    forall j | c.viaHub && 0 <= j < |s.basis|
      ensures RecentlyFromHub(s.Received(), PollRequests(c.source)[j], s.basis[j], c.maxStale, s.Now(),
                              c.maxStale + ServedAge(c))
    {
      assert Answered(c, s.Received(), PollRequests(c.source)[j], s.basis[j]);
      FromHubIsRecent(s.Received(), PollRequests(c.source)[j], s.basis[j], c.maxStale, s.Now(), ServedAge(c));
    }
  }
}
