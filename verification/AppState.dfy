/**
The App fields the lifecycle engine shares with Shutdown, and the critical
sections over them. Each method runs under `serverMu` (StopBegin under
`shutdownMu` and `serverMu`), so each is one indivisible step.
*/
module AppState {

  /** The fields, as one value. A channel or function field is modelled by whether it is set. */
  datatype Shared = Shared(
    runHost: bool, booting: bool, deferredStarting: bool, stopRequested: bool, teardownToEngine: bool,
    shutdownDone: bool, appCtx: bool, appCancel: bool, ctxEnded: bool,
    readyClosed: bool, server: bool, hostServer: bool)
  {
    /** stopRequestedLocked: the latch, or the record a Shutdown leaves on the lifecycle context. */
    predicate StopRequested() {
      stopRequested || (appCtx && (!appCancel || ctxEnded))
    }

    function EnsuringContext(): Shared {
      if appCtx then this else this.(appCtx := true, appCancel := true)
    }

    function Admitting(): Shared {
      if runHost || StopRequested() then this
      else this.(runHost := true, booting := true).EnsuringContext()
    }

    function MarkingReady(): Shared {
      this.(readyClosed := true)
    }

    /** The end of a boot that succeeded: it gives way to a stop already requested. */
    function EndingBoot(interactive: bool): Shared {
      if StopRequested() then this
      else if interactive then this.(booting := false)
      else this.(booting := false).MarkingReady()
    }

    /** takeHandoffLocked: claims the teardown unless a phase still runs. */
    predicate TakesHandoff() {
      !booting && !deferredStarting && teardownToEngine
    }

    function TakingHandoff(): Shared {
      if booting || deferredStarting then this else this.(teardownToEngine := false)
    }

    function StartingDeferred(): Shared {
      if StopRequested() then this else this.(deferredStarting := true)
    }

    /** The first section of endDeferred, up to the handoff it may take. */
    function DeferredOver(err: bool): Shared {
      var over := this.(deferredStarting := false);
      if !err && !StopRequested() then over.MarkingReady() else over
    }

    /** stop's first section. */
    function Stopping(): Shared {
      if shutdownDone then this
      else this.(shutdownDone := true, stopRequested := true, teardownToEngine := booting || deferredStarting)
    }

    /** The teardown's section: cancel and server are detached. */
    function Detaching(): Shared {
      this.(appCancel := false, server := false)
    }

    function Adopting(): Shared {
      if StopRequested() then this else this.(server := true, hostServer := true)
    }
  }

  class App {
    var runHost: bool
    var booting: bool
    var deferredStarting: bool
    var stopRequested: bool
    var teardownToEngine: bool
    var shutdownDone: bool
    var appCtx: bool
    var appCancel: bool
    var ctxEnded: bool
    var readyClosed: bool
    var server: bool
    var hostServer: bool

    constructor ()
      ensures View() == Shared(false, false, false, false, false, false, false, false, false, false, false, false)
    {
      runHost, booting, deferredStarting, stopRequested := false, false, false, false;
      teardownToEngine, shutdownDone, appCtx, appCancel := false, false, false, false;
      ctxEnded, readyClosed, server, hostServer := false, false, false, false;
    }

    function View(): Shared
      reads this
    {
      Shared(runHost, booting, deferredStarting, stopRequested, teardownToEngine,
             shutdownDone, appCtx, appCancel, ctxEnded, readyClosed, server, hostServer)
    }

    predicate StopRequestedLocked()
      reads this
      ensures StopRequestedLocked() == View().StopRequested()
    {
      stopRequested || (appCtx && (!appCancel || ctxEnded))
    }

    method EnsureLifecycleContext()
      modifies this
      ensures View() == old(View()).EnsuringContext()
    {
      if !appCtx {
        appCtx, appCancel := true, true;
      }
    }

    /** admit: `admitted` says whether this run is the one. */
    method Admit() returns (admitted: bool)
      modifies this
      ensures View() == old(View()).Admitting()
      ensures admitted <==> !old(runHost) && !old(View()).StopRequested()
    {
      if runHost || StopRequestedLocked() {
        return false;
      }
      runHost := true;
      booting := true;
      EnsureLifecycleContext();
      admitted := true;
    }

    method MarkServicesReadyLocked()
      modifies this
      ensures View() == old(View()).MarkingReady()
    {
      if !readyClosed {
        readyClosed := true;
      }
    }

    /** The section of `run` that ends boot; `stopped` sends the run to abortRun instead of the host. */
    method FinishBoot(interactive: bool) returns (stopped: bool)
      modifies this
      ensures View() == old(View()).EndingBoot(interactive)
      ensures stopped <==> old(View()).StopRequested()
    {
      if StopRequestedLocked() {
        return true;
      }
      booting := false;
      if !interactive {
        MarkServicesReadyLocked();
      }
      stopped := false;
    }

    method TakeHandoffLocked() returns (handoff: bool)
      modifies this
      ensures View() == old(View()).TakingHandoff()
      ensures handoff <==> old(View()).TakesHandoff()
    {
      if booting || deferredStarting {
        return false;
      }
      handoff := teardownToEngine;
      teardownToEngine := false;
    }

    /** endBoot, abortRun's section. */
    method EndBoot() returns (handoff: bool)
      modifies this
      ensures View() == old(View()).(booting := false).TakingHandoff()
      ensures handoff <==> old(View()).(booting := false).TakesHandoff()
    {
      booting := false;
      handoff := TakeHandoffLocked();
    }

    method StartDeferred() returns (started: bool)
      modifies this
      ensures View() == old(View()).StartingDeferred()
      ensures started <==> !old(View()).StopRequested()
    {
      if StopRequestedLocked() {
        return false;
      }
      deferredStarting := true;
      started := true;
    }

    /** endDeferred's section. */
    method EndDeferred(err: bool) returns (handoff: bool)
      modifies this
      ensures View() == old(View()).DeferredOver(err).TakingHandoff()
      ensures handoff <==> old(View()).DeferredOver(err).TakesHandoff()
    {
      deferredStarting := false;
      var stopping := StopRequestedLocked();
      if !err && !stopping {
        MarkServicesReadyLocked();
      }
      handoff := TakeHandoffLocked();
    }

    /** stop's sections under shutdownMu and serverMu. `first` says this call records the stop. */
    method StopBegin() returns (first: bool, handoff: bool)
      modifies this
      ensures View() == old(View()).Stopping()
      ensures first <==> !old(shutdownDone)
      ensures handoff <==> first && (old(booting) || old(deferredStarting))
    {
      if shutdownDone {
        return false, false;
      }
      shutdownDone := true;
      stopRequested := true;
      handoff := booting || deferredStarting;
      teardownToEngine := handoff;
      first := true;
    }

    /** shutdown's section: what the teardown then cancels and stops. */
    method Detach() returns (cancel: bool, host: bool)
      modifies this
      ensures View() == old(View()).Detaching()
      ensures cancel == old(appCancel) && host == old(runHost)
    {
      cancel := appCancel;
      appCancel := false;
      server := false;
      host := runHost;
    }

    /** httpHost.Run's section: a server is adopted only while no stop was requested. */
    method Adopt() returns (adopted: bool)
      modifies this
      ensures View() == old(View()).Adopting()
      ensures adopted <==> !old(View()).StopRequested()
    {
      if StopRequestedLocked() {
        return false;
      }
      server := true;
      hostServer := true;
      adopted := true;
    }
  }
}
