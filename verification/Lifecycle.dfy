/**
Every interleaving of one App's run, its deferred start and any number of
Shutdown calls, one critical section or one visible action per step.
*/
module Lifecycle {
  import opened AppState

  /** How far a teardown has got. */
  datatype Stage = Draining | Detached(cancel: bool, host: bool) | HostStopped

  /** The run: boot, the host, and the ways out. */
  datatype Engine =
    | NotRun
    | Booting
    | Aborting                 // abortRun entered, its section not yet
    | HostStarting             // boot over, host.Run not yet entered
    | Serving                  // in host.Run
    | HostEnded                // host.Run returned nil
    | InStop                   // in a stop call of its own
    | Finishing(stage: Stage)  // in finishHandoff
    | Returned

  datatype Deferred = Waiting | Running | Finishing(stage: Stage) | Over

  /** The callers of `stop`. */
  datatype Who = Caller(n: nat) | ByEngine | ByDeferred

  datatype StopCall =
    | Called
    | WaitingDone              // another call recorded the stop
    | HandedOff(cancelled: bool)
    | Tearing(stage: Stage)
    | StopReturned

  /** `app` and the program counters; the rest counts what happened. */
  datatype State = State(
    app: Shared, interactive: bool, engine: Engine, deferred: Deferred, calls: map<Who, StopCall>,
    doneClosed: bool, teardowns: nat, hostRuns: nat, hostStops: nat, readyCloses: nat, cleanBoot: bool, stopSawServer: bool)

  const FRESH := Shared(false, false, false, false, false, false, false, false, false, false, false, false)

  predicate Initial(s: State) {
    s.app == FRESH && s.engine == NotRun && s.deferred == Waiting && s.calls == map[] && !s.doneClosed
    && s.teardowns == s.hostRuns == s.hostStops == s.readyCloses == 0 && !s.cleanBoot && !s.stopSawServer
  }

  datatype Actor = StopActor(who: Who) | EngineActor | DeferredActor

  datatype Event =
    | EnsureContext
    | Admit
    | BootStops                          // a phase failed, panicked or saw the stop
    | BootEnds
    | HostEnters
    | AdoptServer
    | HostReturns(failed: bool)
    | AfterHost
    | EndBoot
    | EngineStopReturns
    | StartDeferred
    | EndDeferred(err: bool, failed: bool)
    | CallStop(n: nat)
    | BeginStop(who: Who)
    | CancelBoot(who: Who)
    | Wake(who: Who)                     // the teardown is done
    | GiveUp(who: Who)                   // the caller's context ended
    | TeardownStep(actor: Actor)

  /** The stage of the actor's teardown, if it is in one. */
  predicate TearingDown(s: State, a: Actor) {
    match a
    case StopActor(w) => w in s.calls && s.calls[w].Tearing?
    case EngineActor => s.engine.Finishing?
    case DeferredActor => s.deferred.Finishing?
  }

  function StageOf(s: State, a: Actor): Stage
    requires TearingDown(s, a)
  {
    match a
    case StopActor(w) => s.calls[w].stage
    case EngineActor => s.engine.stage
    case DeferredActor => s.deferred.stage
  }

  function WithStage(s: State, a: Actor, stage: Stage): State {
    match a
    case StopActor(w) => s.(calls := s.calls[w := Tearing(stage)])
    case EngineActor => s.(engine := Engine.Finishing(stage))
    case DeferredActor => s.(deferred := Deferred.Finishing(stage))
  }

  function TeardownEnds(s: State, a: Actor): State {
    match a
    case StopActor(w) => s.(calls := s.calls[w := StopReturned], doneClosed := true)
    case EngineActor => s.(engine := Returned, doneClosed := true)
    case DeferredActor => s.(deferred := Over, doneClosed := true)
  }

  predicate Enabled(s: State, ev: Event) {
    match ev
    case EnsureContext => true
    case Admit => s.engine.NotRun?
    case BootStops => s.engine.Booting?
    case BootEnds => s.engine.Booting?
    case HostEnters => s.engine.HostStarting?
    case AdoptServer => s.engine.Serving? && !s.app.hostServer
    case HostReturns(_) => s.engine.Serving?
    case AfterHost => s.engine.HostEnded?
    case EndBoot => s.engine.Aborting?
    case EngineStopReturns => s.engine.InStop? && ByEngine in s.calls && s.calls[ByEngine].StopReturned?
    case StartDeferred => s.interactive && s.hostRuns > 0 && s.deferred.Waiting?
    case EndDeferred(err, failed) => s.deferred.Running? && (failed ==> err) && (err && !s.app.StopRequested() ==> failed)
    case CallStop(n) => Caller(n) !in s.calls
    case BeginStop(w) => w in s.calls && s.calls[w].Called?
    case CancelBoot(w) => w in s.calls && s.calls[w] == HandedOff(false)
    case Wake(w) => w in s.calls && (s.calls[w].WaitingDone? || s.calls[w] == HandedOff(true)) && s.doneClosed
    case GiveUp(w) => w in s.calls && (s.calls[w].WaitingDone? || s.calls[w] == HandedOff(true))
    case TeardownStep(a) => TearingDown(s, a)
  }

  function CallsStop(s: State, w: Who): State {
    s.(calls := s.calls[w := Called])
  }

  function Apply(s: State, ev: Event): State
    requires Enabled(s, ev)
  {
    match ev
    case EnsureContext => s.(app := s.app.EnsuringContext())
    case Admit =>
      if s.app.runHost || s.app.StopRequested() then s else s.(app := s.app.Admitting(), engine := Booting)
    case BootStops => s.(engine := Aborting)
    case BootEnds =>
      if s.app.StopRequested() then s.(engine := Aborting)
      else s.(app := s.app.EndingBoot(s.interactive), engine := HostStarting, cleanBoot := true,
              readyCloses := s.readyCloses + if !s.interactive && !s.app.readyClosed then 1 else 0)
    case HostEnters => s.(engine := Serving, hostRuns := s.hostRuns + 1)
    case AdoptServer => if s.app.StopRequested() then s.(engine := HostEnded) else s.(app := s.app.Adopting())
    case HostReturns(failed) => s.(engine := if failed then Aborting else HostEnded)
    case AfterHost =>
      if s.app.StopRequested() then s.(engine := Returned) else CallsStop(s.(engine := InStop), ByEngine)
    case EndBoot =>
      var over := s.app.(booting := false);
      if over.TakesHandoff() then s.(app := over.TakingHandoff(), engine := Engine.Finishing(Draining), teardowns := s.teardowns + 1)
      else CallsStop(s.(app := over.TakingHandoff(), engine := InStop), ByEngine)
    case EngineStopReturns => s.(engine := Returned)
    case StartDeferred =>
      if s.app.StopRequested() then s.(deferred := Over) else s.(app := s.app.StartingDeferred(), deferred := Running)
    case EndDeferred(err, failed) =>
      var over := s.app.DeferredOver(err);
      var closes := if over.readyClosed && !s.app.readyClosed then 1 else 0;
      var next := s.(app := over.TakingHandoff(), readyCloses := s.readyCloses + closes);
      if over.TakesHandoff() then next.(deferred := Deferred.Finishing(Draining), teardowns := s.teardowns + 1)
      else if failed then CallsStop(next.(deferred := Over), ByDeferred)
      else next.(deferred := Over)
    case CallStop(n) => CallsStop(s, Caller(n))
    case BeginStop(w) =>
      if s.app.shutdownDone then s.(calls := s.calls[w := WaitingDone])
      else if s.app.booting || s.app.deferredStarting then s.(app := s.app.Stopping(), calls := s.calls[w := HandedOff(false)])
      else s.(app := s.app.Stopping(), calls := s.calls[w := Tearing(Draining)], teardowns := s.teardowns + 1)
    case CancelBoot(w) => s.(app := s.app.(ctxEnded := s.app.ctxEnded || s.app.appCancel), calls := s.calls[w := HandedOff(true)])
    case Wake(w) => s.(calls := s.calls[w := StopReturned])
    case GiveUp(w) => s.(calls := s.calls[w := StopReturned])
    case TeardownStep(a) => Advance(s, a)
  }

  /** What the teardown does at each stage: detach, then cancel and stop the host, then everything after. */
  function Effect(s: State, stage: Stage): State {
    match stage
    case Draining => s.(app := s.app.Detaching())
    case Detached(cancel, host) =>
      s.(app := s.app.(ctxEnded := s.app.ctxEnded || cancel),
         hostStops := s.hostStops + (if host then 1 else 0),
         stopSawServer := if host then s.app.hostServer else s.stopSawServer)
    case HostStopped => s
  }

  /** The actor's program counter after the stage. */
  function Moved(s: State, a: Actor, stage: Stage, app: Shared): State {
    match stage
    case Draining => WithStage(s, a, Detached(app.appCancel, app.runHost))
    case Detached(_, _) => WithStage(s, a, HostStopped)
    case HostStopped => TeardownEnds(s, a)
  }

  /** `shutdown`, one step. */
  function Advance(s: State, a: Actor): State
    requires TearingDown(s, a)
  {
    Moved(Effect(s, StageOf(s, a)), a, StageOf(s, a), s.app)
  }

  // ---- The invariant -------------------------------------------------------

  /** Nobody has asked for a stop: the context is live and no call is past its first section. */
  predicate Unstopped(s: State) {
    && !s.app.stopRequested && !s.app.shutdownDone && !s.app.teardownToEngine && !s.doneClosed
    && s.app.appCancel == s.app.appCtx && !s.app.ctxEnded
    && s.teardowns == 0 && s.hostStops == 0
    && (forall w :: w in s.calls ==> s.calls[w].Called?)
    && !s.engine.Finishing? && !s.deferred.Finishing? && !s.engine.Returned?
  }

  /** The phase whose end will take a handed-off teardown. */
  predicate PhaseRuns(s: State) {
    s.app.booting || s.app.deferredStarting
  }

  /** A stop was requested: its teardown is handed to a running phase, runs under exactly one actor, or is done. */
  ghost predicate Stopped(s: State) {
    && s.app.stopRequested && s.app.shutdownDone
    && (s.app.teardownToEngine ==> PhaseRuns(s) && s.teardowns == 0)
    && (!s.app.teardownToEngine ==> s.teardowns == 1 && !PhaseRuns(s))
    && (s.doneClosed ==> s.teardowns == 1 && forall a :: !TearingDown(s, a))
    && (s.teardowns == 1 && !s.doneClosed ==> exists a :: TearingDown(s, a))
    && (s.teardowns == 0 ==> s.hostStops == 0 && forall a :: !TearingDown(s, a))
  }

  ghost predicate OneTeardown(s: State) {
    && (forall a, b :: TearingDown(s, a) && TearingDown(s, b) ==> a == b)
    && (forall a :: TearingDown(s, a) && !StageOf(s, a).HostStopped? ==> s.hostStops == 0)
    && (forall a :: TearingDown(s, a) && StageOf(s, a).Detached? ==> StageOf(s, a).host == s.app.runHost)
    && (forall a :: TearingDown(s, a) && StageOf(s, a).HostStopped? ==> s.hostStops == if s.app.runHost then 1 else 0)
    && s.hostStops <= 1
    && (s.doneClosed ==> s.hostStops == if s.app.runHost then 1 else 0)
  }

  /** The flags say where the phases are. */
  predicate Phases(s: State) {
    && (s.app.runHost <==> !s.engine.NotRun?)
    && (s.engine.Booting? ==> s.app.booting)
    && (s.app.booting ==> (s.engine.Booting? || s.engine.Aborting?) && s.hostRuns == 0)
    && (s.app.deferredStarting <==> s.deferred.Running?)
    && (s.engine.NotRun? || s.engine.Booting? || s.engine.HostStarting? ==> s.hostRuns == 0)
    && (s.engine.Serving? || s.engine.HostEnded? ==> s.hostRuns == 1)
    && s.hostRuns <= 1
    && (s.engine.NotRun? || s.engine.Booting? ==> !s.cleanBoot)
    && (s.engine.HostStarting? || s.hostRuns == 1 ==> s.cleanBoot)
    && (s.hostRuns == 0 ==> s.deferred.Waiting? && !s.app.hostServer)
    && (s.deferred.Running? || s.deferred.Finishing? || s.deferred.Over? ==> s.interactive)
    && (ByEngine in s.calls ==> s.engine.InStop? || s.engine.Returned?)
    && (s.engine.InStop? ==> ByEngine in s.calls)
    && (ByDeferred in s.calls ==> s.deferred.Over?)
    && (s.engine.Returned? ==> s.app.stopRequested)
  }

  predicate Counts(s: State) {
    && s.readyCloses == (if s.app.readyClosed then 1 else 0)
    && (s.app.readyClosed ==> s.cleanBoot)
    && (s.app.readyClosed && s.interactive ==> s.deferred.Over? || s.deferred.Finishing?)
    && (s.hostStops == 1 ==> s.stopSawServer == s.app.hostServer)
    && (s.app.shutdownDone <==> s.app.stopRequested)
    && (s.app.StopRequested() <==> s.app.stopRequested)
  }

  /** A stop call past its first section waits on a stop that was recorded. */
  predicate Called_(s: State) {
    forall w :: w in s.calls && !s.calls[w].Called? ==> s.app.stopRequested
  }

  ghost predicate Inv(s: State) {
    Phases(s) && Counts(s) && Called_(s) && OneTeardown(s) && (if s.app.stopRequested then Stopped(s) else Unstopped(s))
  }

  lemma InitialInv(s: State)
    requires Initial(s)
    ensures Inv(s)
  {
  }

  /** The same teardowns are at the same stage. */
  ghost predicate SameTearing(s: State, s': State) {
    forall a :: (TearingDown(s, a) <==> TearingDown(s', a)) && (TearingDown(s, a) ==> StageOf(s, a) == StageOf(s', a))
  }

  lemma SameTearingKeeps(s: State, s': State)
    requires OneTeardown(s) && SameTearing(s, s') && s.hostStops == s'.hostStops && s.doneClosed == s'.doneClosed
    requires s.app.runHost == s'.app.runHost || (s.hostStops == 0 && !s.doneClosed && forall a :: !TearingDown(s, a))
    ensures OneTeardown(s')
  {
  }

  /** An event that neither begins, advances nor ends a teardown. */
  predicate Quiet(s: State, ev: Event) {
    match ev
    case EndBoot => !s.app.(booting := false).TakesHandoff()
    case EndDeferred(err, _) => !s.app.DeferredOver(err).TakesHandoff()
    case BeginStop(w) => s.app.shutdownDone || PhaseRuns(s)
    case TeardownStep(_) => false
    case _ => true
  }

  lemma QuietSameTearing(s: State, ev: Event)
    requires Inv(s) && Enabled(s, ev) && Quiet(s, ev)
    ensures SameTearing(s, Apply(s, ev)) && OneTeardown(Apply(s, ev))
  {
    var s' := Apply(s, ev);
    assert Phases(s) && Called_(s);
    hide OneTeardown, Stopped, Counts;
    forall a ensures (TearingDown(s, a) <==> TearingDown(s', a)) && (TearingDown(s, a) ==> StageOf(s, a) == StageOf(s', a)) {
      match a
      case StopActor(w) =>
      case EngineActor =>
      case DeferredActor =>
    }
    QuietFrame(s, ev);
    SameTearingKeeps(s, s');
  }

  lemma QuietFrame(s: State, ev: Event)
    requires Inv(s) && Enabled(s, ev) && Quiet(s, ev)
    ensures var s' := Apply(s, ev);
            && OneTeardown(s) && s.hostStops == s'.hostStops && s.doneClosed == s'.doneClosed
            && (s.app.runHost == s'.app.runHost || (s.hostStops == 0 && !s.doneClosed && forall a :: !TearingDown(s, a)))
  {
  }

  /** A teardown begins: there was none before. */
  lemma BeginningIsFirst(s: State, ev: Event)
    requires Inv(s) && Enabled(s, ev) && !Quiet(s, ev) && !ev.TeardownStep?
    ensures s.teardowns == 0 && forall a :: !TearingDown(s, a)
    ensures OneTeardown(Apply(s, ev)) && exists a :: TearingDown(Apply(s, ev), a)
  {
    var s' := Apply(s, ev);
    var first := match ev case EndBoot => EngineActor case EndDeferred(_, _) => DeferredActor case BeginStop(w) => StopActor(w) case _ => EngineActor;
    assert TearingDown(s', first);
    forall a | TearingDown(s', a) ensures a == first {
      assert !TearingDown(s, a);
    }
  }

  lemma AdvancingAlone(s: State, a: Actor)
    requires Inv(s) && TearingDown(s, a)
    ensures s.teardowns == 1 && s.app.stopRequested && !s.app.teardownToEngine && !s.doneClosed && !PhaseRuns(s)
    ensures forall b :: TearingDown(s, b) ==> b == a
    ensures StageOf(s, a).HostStopped? || s.hostStops == 0
    ensures StageOf(s, a).Detached? ==> StageOf(s, a).host == s.app.runHost
    ensures StageOf(s, a).HostStopped? ==> s.hostStops == if s.app.runHost then 1 else 0
  {
  }

  /** What one teardown step does to its actor, and that it touches no other. */
  lemma AdvancingStage(s: State, a: Actor)
    requires TearingDown(s, a) && !s.doneClosed && forall b :: TearingDown(s, b) ==> b == a
    ensures var s' := Advance(s, a);
            && (StageOf(s, a).HostStopped? <==> s'.doneClosed)
            && (forall b :: TearingDown(s', b) ==> b == a)
            && (TearingDown(s', a) <==> !StageOf(s, a).HostStopped?)
            && (StageOf(s, a).Draining? ==> StageOf(s', a) == Detached(s.app.appCancel, s.app.runHost))
            && (StageOf(s, a).Detached? ==> StageOf(s', a) == HostStopped)
  {
    OthersUntouched(s, a);
    ActorAdvances(s, a);
    hide *;
  }

  lemma ActorAdvances(s: State, a: Actor)
    requires TearingDown(s, a) && !s.doneClosed
    ensures var s' := Advance(s, a);
            && (StageOf(s, a).HostStopped? <==> s'.doneClosed)
            && (TearingDown(s', a) <==> !StageOf(s, a).HostStopped?)
            && (StageOf(s, a).Draining? ==> StageOf(s', a) == Detached(s.app.appCancel, s.app.runHost))
            && (StageOf(s, a).Detached? ==> StageOf(s', a) == HostStopped)
  {
  }

  lemma OthersUntouched(s: State, a: Actor)
    requires TearingDown(s, a) && forall b :: TearingDown(s, b) ==> b == a
    ensures forall b :: TearingDown(Advance(s, a), b) ==> b == a
  {
    forall b | TearingDown(Advance(s, a), b) ensures b == a {
      OtherUntouched(s, a, b);
    }
  }

  lemma OtherUntouched(s: State, a: Actor, b: Actor)
    requires TearingDown(s, a) && TearingDown(Advance(s, a), b)
    ensures b == a || TearingDown(s, b)
  {
  }

  lemma AdvancingKeeps(s: State, a: Actor)
    requires Inv(s) && TearingDown(s, a)
    ensures Inv(Advance(s, a))
  {
    AdvancingFlags(s, a);
    AdvancingOne(s, a);
    AdvancingStopped(s, a);
    hide Phases, Counts, Called_, OneTeardown, Stopped, Unstopped;
  }

  /** A stage touches the App and the host's counters, never a program counter. */
  lemma EffectFrame(s: State, stage: Stage)
    ensures var t := Effect(s, stage);
            && t == s.(app := t.app, hostStops := t.hostStops, stopSawServer := t.stopSawServer)
            && t.app == s.app.(appCancel := t.app.appCancel, server := t.app.server, ctxEnded := t.app.ctxEnded)
            && t.hostStops == s.hostStops + (if stage.Detached? && stage.host then 1 else 0)
            && (t.hostStops != s.hostStops ==> t.stopSawServer == s.app.hostServer)
            && (t.hostStops == s.hostStops ==> t.stopSawServer == s.stopSawServer)
  {
  }

  /** The move touches only its own actor's program counter, and closes `done` at the end. */
  lemma MovedFrame(s: State, a: Actor, stage: Stage, app: Shared)
    ensures var t := Moved(s, a, stage, app);
            && t == s.(engine := t.engine, deferred := t.deferred, calls := t.calls, doneClosed := t.doneClosed)
            && t.doneClosed == (s.doneClosed || stage.HostStopped?)
            && (t.engine != s.engine ==> a == EngineActor && (t.engine.Finishing? || t.engine.Returned?))
            && (t.deferred != s.deferred ==> a == DeferredActor && (t.deferred.Finishing? || t.deferred.Over?))
            && (t.calls != s.calls ==> a.StopActor? && t.calls.Keys == s.calls.Keys + {a.who})
            && (forall w :: w in t.calls && !t.calls[w].Called? ==> (a == StopActor(w) || (w in s.calls && !s.calls[w].Called?)))
  {
  }

  lemma AdvancingFlags(s: State, a: Actor)
    requires Inv(s) && TearingDown(s, a)
    ensures Phases(Advance(s, a)) && Counts(Advance(s, a)) && Called_(Advance(s, a))
  {
    Facts(s);
    AdvancingAlone(s, a);
    hide Inv, OneTeardown, Stopped, Unstopped;
    AdvancingPhases(s, a);
    AdvancingCounts(s, a);
  }

  lemma AdvancingPhases(s: State, a: Actor)
    requires Phases(s) && TearingDown(s, a) && s.app.stopRequested && !PhaseRuns(s)
    ensures Phases(Advance(s, a))
  {
    EffectFrame(s, StageOf(s, a));
    MovedFrame(Effect(s, StageOf(s, a)), a, StageOf(s, a), s.app);
    hide Effect, Moved;
  }

  lemma AdvancingCounts(s: State, a: Actor)
    requires Counts(s) && Called_(s) && TearingDown(s, a) && s.app.stopRequested
    requires StageOf(s, a).HostStopped? || s.hostStops == 0
    ensures Counts(Advance(s, a)) && Called_(Advance(s, a))
  {
    EffectFrame(s, StageOf(s, a));
    MovedFrame(Effect(s, StageOf(s, a)), a, StageOf(s, a), s.app);
    hide Effect, Moved;
  }

  lemma AdvancingStopped(s: State, a: Actor)
    requires Inv(s) && TearingDown(s, a)
    ensures Stopped(Advance(s, a))
  {
    Facts(s);
    AdvancingAlone(s, a);
    AdvancingStage(s, a);
    hide Inv, OneTeardown, Phases, Counts, Called_;
    if !StageOf(s, a).HostStopped? {
      assert TearingDown(Advance(s, a), a);
    }
  }

  lemma AdvancingOne(s: State, a: Actor)
    requires Inv(s) && TearingDown(s, a)
    ensures OneTeardown(Advance(s, a))
  {
    AdvancingAlone(s, a);
    AdvancingStage(s, a);
    AdvancingHost(s, a);
    Facts(s);
    var s' := Advance(s, a);
    hide Inv, Apply, TearingDown, StageOf, Phases, Counts, Called_, Stopped, Unstopped;
  }

  lemma AdvancingHost(s: State, a: Actor)
    requires TearingDown(s, a)
    ensures var s' := Advance(s, a);
            && s'.app.runHost == s.app.runHost
            && s'.hostStops == s.hostStops + if StageOf(s, a).Detached? && StageOf(s, a).host then 1 else 0
  {
    EffectFrame(s, StageOf(s, a));
    MovedFrame(Effect(s, StageOf(s, a)), a, StageOf(s, a), s.app);
    hide Effect, Moved;
  }

  lemma StepInv(s: State, ev: Event)
    requires Inv(s) && Enabled(s, ev)
    ensures Inv(Apply(s, ev))
  {
    if Quiet(s, ev) {
      QuietSameTearing(s, ev);
      QuietInv(s, ev);
    } else if ev.TeardownStep? {
      AdvancingKeeps(s, ev.actor);
    } else {
      BeginningIsFirst(s, ev);
      BeginningInv(s, ev);
    }
  }

  lemma QuietInv(s: State, ev: Event)
    requires Inv(s) && Enabled(s, ev) && Quiet(s, ev) && SameTearing(s, Apply(s, ev)) && OneTeardown(Apply(s, ev))
    ensures Inv(Apply(s, ev))
  {
    QuietPhases(s, ev);
    QuietCounts(s, ev);
    QuietTeardown(s, ev);
    hide Phases, Counts, Called_, OneTeardown, Stopped, Unstopped;
  }

  lemma QuietPhases(s: State, ev: Event)
    requires Inv(s) && Enabled(s, ev) && Quiet(s, ev)
    ensures Phases(Apply(s, ev))
  {
    Facts(s);
    hide Inv, OneTeardown, Called_, Stopped;
    match ev
    case EnsureContext =>
    case Admit =>
    case BootStops =>
    case BootEnds =>
    case HostEnters =>
    case AdoptServer =>
    case HostReturns(_) =>
    case AfterHost =>
    case EndBoot =>
    case EngineStopReturns =>
    case StartDeferred =>
    case EndDeferred(err, failed) =>
    case CallStop(n) =>
    case BeginStop(w) =>
    case CancelBoot(w) =>
    case Wake(w) =>
    case GiveUp(w) =>
    case TeardownStep(a) =>
  }

  lemma QuietCounts(s: State, ev: Event)
    requires Inv(s) && Enabled(s, ev) && Quiet(s, ev)
    ensures Counts(Apply(s, ev)) && Called_(Apply(s, ev))
  {
    Facts(s);
    hide Inv, OneTeardown, Stopped;
    match ev
    case EnsureContext =>
    case Admit =>
    case BootStops =>
    case BootEnds =>
    case HostEnters =>
    case AdoptServer =>
    case HostReturns(_) =>
    case AfterHost =>
    case EndBoot =>
    case EngineStopReturns =>
    case StartDeferred =>
    case EndDeferred(err, failed) =>
    case CallStop(n) =>
    case BeginStop(w) =>
    case CancelBoot(w) =>
    case Wake(w) =>
    case GiveUp(w) =>
    case TeardownStep(a) =>
  }

  /** What most steps need of the invariant. */
  lemma Facts(s: State)
    requires Inv(s)
    ensures Phases(s) && Counts(s) && Called_(s) && OneTeardown(s)
    ensures s.app.stopRequested || Unstopped(s)
    ensures s.app.stopRequested ==> Stopped(s)
  {
    hide Phases, Counts, Called_, OneTeardown, Stopped, Unstopped;
  }

  lemma QuietTeardown(s: State, ev: Event)
    requires Inv(s) && Enabled(s, ev) && Quiet(s, ev) && SameTearing(s, Apply(s, ev))
    ensures var s' := Apply(s, ev); if s'.app.stopRequested then Stopped(s') else Unstopped(s')
  {
    Facts(s);
    if s.app.stopRequested {
      QuietStopped(s, ev);
    } else {
      QuietUnstopped(s, ev);
    }
  }

  lemma QuietStopped(s: State, ev: Event)
    requires Phases(s) && Counts(s) && Stopped(s) && Enabled(s, ev) && Quiet(s, ev) && SameTearing(s, Apply(s, ev))
    ensures Stopped(Apply(s, ev))
  {
    if s.teardowns == 1 && !s.doneClosed {
      var a :| TearingDown(s, a);
      assert TearingDown(Apply(s, ev), a);
    }
    match ev
    case EnsureContext =>
    case Admit =>
    case BootStops =>
    case BootEnds =>
    case HostEnters =>
    case AdoptServer =>
    case HostReturns(_) =>
    case AfterHost =>
    case EndBoot =>
    case EngineStopReturns =>
    case StartDeferred =>
    case EndDeferred(err, failed) =>
    case CallStop(n) =>
    case BeginStop(w) =>
    case CancelBoot(w) =>
    case Wake(w) =>
    case GiveUp(w) =>
    case TeardownStep(a) =>
  }

  lemma QuietUnstopped(s: State, ev: Event)
    requires Phases(s) && Unstopped(s) && Enabled(s, ev) && Quiet(s, ev) && SameTearing(s, Apply(s, ev))
    ensures var s' := Apply(s, ev); if s'.app.stopRequested then Stopped(s') else Unstopped(s')
  {
    assert forall a :: !TearingDown(s, a);
    assert !s.app.StopRequested();
    match ev
    case EnsureContext =>
    case Admit =>
    case BootStops =>
    case BootEnds =>
    case HostEnters =>
    case AdoptServer =>
    case HostReturns(_) =>
    case AfterHost =>
    case EndBoot =>
    case EngineStopReturns =>
    case StartDeferred =>
    case EndDeferred(err, failed) =>
    case CallStop(n) =>
    case BeginStop(w) =>
    case CancelBoot(w) =>
    case Wake(w) =>
    case GiveUp(w) =>
    case TeardownStep(a) =>
  }

  lemma BeginningInv(s: State, ev: Event)
    requires Inv(s) && Enabled(s, ev) && !Quiet(s, ev) && !ev.TeardownStep?
    requires s.teardowns == 0 && OneTeardown(Apply(s, ev)) && exists a :: TearingDown(Apply(s, ev), a)
    ensures Inv(Apply(s, ev))
  {
    hide OneTeardown;
  }

  // ---- Runs ----------------------------------------------------------------

  /** A run: each event enabled where it happens. */
  ghost predicate Run(s: State, events: seq<Event>)
    decreases |events|
  {
    events == [] || (Enabled(s, events[0]) && Run(Apply(s, events[0]), events[1..]))
  }

  ghost function After(s: State, events: seq<Event>): State
    requires Run(s, events)
    decreases |events|
  {
    if events == [] then s else After(Apply(s, events[0]), events[1..])
  }

  lemma {:induction false} RunInv(s: State, events: seq<Event>)
    requires Inv(s) && Run(s, events)
    ensures Inv(After(s, events))
    decreases |events|
  {
    if events != [] {
      StepInv(s, events[0]);
      RunInv(Apply(s, events[0]), events[1..]);
    }
  }

  /**
  The teardown runs at most once, under one actor, and never while boot or the
  deferred start does; a handed-off teardown always has a running phase to take
  it; and a run that has returned left a teardown begun or in such hands.
  */
  lemma TeardownOnce(s: State, events: seq<Event>)
    requires Initial(s) && Run(s, events)
    ensures var t := After(s, events);
            && t.teardowns <= 1
            && (forall a, b :: TearingDown(t, a) && TearingDown(t, b) ==> a == b)
            && (forall a :: TearingDown(t, a) ==> t.teardowns == 1 && !t.app.booting && !t.app.deferredStarting && !t.app.teardownToEngine)
            && (t.app.teardownToEngine ==> t.teardowns == 0)
            && (t.app.teardownToEngine ==> (t.app.booting && (t.engine.Booting? || t.engine.Aborting?)) || (t.app.deferredStarting && t.deferred.Running?))
            && (t.engine.Returned? ==> t.teardowns == 1 || (t.app.teardownToEngine && t.deferred.Running?))
            && (t.doneClosed ==> t.teardowns == 1)
  {
    InitialInv(s);
    RunInv(s, events);
    var t := After(s, events);
    Facts(t);
    forall a | TearingDown(t, a) ensures t.teardowns == 1 && !t.app.teardownToEngine && !PhaseRuns(t) {
      AdvancingAlone(t, a);
    }
  }

  /**
  ServicesReady closes at most once; the host is entered at most once, and only
  after boot ended with no stop pending; its Stop is called at most once, by a
  finished teardown exactly once per admitted run, and it sees the server Run adopted.
  */
  lemma HostOnce(s: State, events: seq<Event>)
    requires Initial(s) && Run(s, events)
    ensures var t := After(s, events);
            && t.readyCloses <= 1 && t.hostRuns <= 1 && t.hostStops <= 1
            && (t.hostRuns == 1 ==> t.cleanBoot)
            && (t.hostStops == 1 ==> t.stopSawServer == t.app.hostServer)
            && (t.doneClosed ==> t.hostStops == if t.app.runHost then 1 else 0)
  {
    InitialInv(s);
    RunInv(s, events);
  }

  /** The stop stays requested, and nothing that was not running by then starts. */
  predicate NothingStarts(s: State, t: State) {
    && t.app.stopRequested
    && t.readyCloses == s.readyCloses && t.cleanBoot == s.cleanBoot
    && t.app.hostServer == s.app.hostServer && t.app.runHost == s.app.runHost
    && (t.app.deferredStarting ==> s.app.deferredStarting) && (t.app.booting ==> s.app.booting)
    && t.teardowns >= s.teardowns && (s.doneClosed ==> t.doneClosed)
  }

  /**
  No step after a stop was requested closes ServicesReady, ends boot cleanly,
  adopts a server, admits a run or starts the deferred phase.
  */
  lemma NothingStartsAfterStop(s: State, ev: Event)
    requires Inv(s) && Enabled(s, ev) && s.app.stopRequested
    ensures NothingStarts(s, Apply(s, ev))
  {
    Facts(s);
    assert s.app.StopRequested() && s.app.shutdownDone;
    hide Inv, OneTeardown, Stopped, Called_, Phases, Counts;
    match ev
    case TeardownStep(a) => AdvanceStartsNothing(s, a);
    case EndDeferred(err, failed) => assert s.app.DeferredOver(err).readyClosed == s.app.readyClosed;
    case _ =>
  }

  lemma AdvanceStartsNothing(s: State, a: Actor)
    requires TearingDown(s, a) && s.app.stopRequested
    ensures NothingStarts(s, Advance(s, a))
  {
    EffectFrame(s, StageOf(s, a));
    MovedFrame(Effect(s, StageOf(s, a)), a, StageOf(s, a), s.app);
    hide Effect, Moved;
  }

  // ---- Progress ------------------------------------------------------------

  /** The steps that carry one actor's teardown from its stage to the end. */
  ghost function StepsLeft(stage: Stage): nat {
    match stage case Draining => 3 case Detached(_, _) => 2 case HostStopped => 1
  }

  lemma {:induction false} ActorFinishes(s: State, a: Actor) returns (events: seq<Event>)
    requires Inv(s) && TearingDown(s, a)
    ensures Run(s, events) && After(s, events).doneClosed
    decreases StepsLeft(StageOf(s, a))
  {
    AdvancingAlone(s, a);
    AdvancingStage(s, a);
    AdvancingKeeps(s, a);
    var next := Advance(s, a);
    if StageOf(s, a).HostStopped? {
      events := [TeardownStep(a)];
      assert Run(next, events[1..]) && After(next, events[1..]) == next;
    } else {
      var rest := ActorFinishes(next, a);
      events := [TeardownStep(a)] + rest;
      assert events[1..] == rest;
    }
  }

  /**
  No stop is ever stuck: from every reachable state with a stop requested, the
  phases that still run only have to end for the teardown to be taken and finish.
  */
  lemma StopCanFinish(s: State) returns (events: seq<Event>)
    requires Inv(s) && s.app.stopRequested
    ensures Run(s, events) && After(s, events).doneClosed
  {
    Facts(s);
    if s.doneClosed {
      events := [];
    } else if s.teardowns == 1 {
      var a :| TearingDown(s, a);
      events := ActorFinishes(s, a);
    } else if s.app.deferredStarting {
      events := DeferredTakesOver(s);
    } else {
      events := BootTakesOver(s);
    }
  }

  lemma DeferredTakesOver(s: State) returns (events: seq<Event>)
    requires Inv(s) && s.app.stopRequested && s.teardowns == 0 && s.app.deferredStarting
    ensures Run(s, events) && After(s, events).doneClosed
  {
    Facts(s);
    var end := EndDeferred(false, false);
    assert Enabled(s, end) && !s.app.booting;
    StepInv(s, end);
    var t := Apply(s, end);
    assert TearingDown(t, DeferredActor);
    var rest := ActorFinishes(t, DeferredActor);
    events := [end] + rest;
    assert events[1..] == rest;
  }

  lemma BootTakesOver(s: State) returns (events: seq<Event>)
    requires Inv(s) && s.app.stopRequested && s.teardowns == 0 && !s.app.deferredStarting
    ensures Run(s, events) && After(s, events).doneClosed
  {
    Facts(s);
    assert s.app.booting && s.app.teardownToEngine;
    if s.engine.Booting? {
      StepInv(s, BootStops);
      var t := Apply(s, BootStops);
      var rest := AbortTakesOver(t);
      events := [BootStops] + rest;
      assert events[1..] == rest;
    } else {
      events := AbortTakesOver(s);
    }
  }

  lemma AbortTakesOver(s: State) returns (events: seq<Event>)
    requires Inv(s) && s.engine.Aborting? && s.app.teardownToEngine && !s.app.deferredStarting
    ensures Run(s, events) && After(s, events).doneClosed
  {
    StepInv(s, EndBoot);
    var t := Apply(s, EndBoot);
    assert TearingDown(t, EngineActor);
    hide Inv;
    var rest := ActorFinishes(t, EngineActor);
    events := [EndBoot] + rest;
    assert events[1..] == rest;
  }
}
