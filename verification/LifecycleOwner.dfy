/** The main-actor object that owns the lifecycle. Every method is a segment that runs without suspension; where the
    source awaits, the segment ends and a second method carries on. */
module LifecycleOwner {
  import opened Wrappers
  import opened LifecycleState
  import opened LifecycleRuns

  class IOSApplicationLifecycleOwner {
    const state: IOSLifecycleState
    var starting: bool
    var modelIsReady: bool
    var observedScenePhase: Phase
    var pendingInput: Option<Input>
    var backgroundAssertion: Option<nat>
    var continuedRequest: bool
    var continuedTaskLease: Option<nat>
    var monitorRunning: bool

    ghost var startsAwaiting: nat
    ghost var shutdownsAwaiting: nat
    ghost var begun: seq<nat>
    ghost var ended: seq<nat>
    ghost var offered: seq<nat>
    ghost var completed: seq<nat>
    ghost var staged: seq<Input>
    ghost var delivered: seq<Input>

    ghost function View(): World
      reads this, state
    {
      World(state.View(),
            Calls(starting, modelIsReady, observedScenePhase, continuedRequest, monitorRunning,
                  startsAwaiting, shutdownsAwaiting),
            Leases(backgroundAssertion, continuedTaskLease, begun, ended, offered, completed),
            Inputs(pendingInput, staged, delivered))
    }

    constructor ()
      ensures View() == LifecycleRuns.Start() && fresh(state)
    {
      state := new IOSLifecycleState();
      starting, modelIsReady, observedScenePhase := false, false, Foreground;
      pendingInput, backgroundAssertion, continuedRequest := None, None, false;
      continuedTaskLease, monitorRunning := None, false;
      startsAwaiting, shutdownsAwaiting := 0, 0;
      begun, ended, offered, completed, staged, delivered := [], [], [], [], [], [];
    }

    /** `start`, up to the engine's own start; `awaiting` says that it is suspended there. */
    method Start() returns (awaiting: bool)
      modifies this, state
      ensures View() == Step(old(View()), StartCalled)
      ensures awaiting <==> View().calls.startsAwaiting > old(View()).calls.startsAwaiting
    {
      if starting {
        return false;
      }
      if modelIsReady {
        DrainPendingInput();
        return false;
      }
      awaiting := state.BeginGeneration();
      if awaiting {
        starting := true;
        startsAwaiting := startsAwaiting + 1;
      }
    }

    /** The rest of `start`, once the engine's start has returned. */
    method StartReturned(ready: bool)
      requires startsAwaiting > 0
      modifies this, state
      ensures View() == Step(old(View()), StartResumed(ready))
    {
      modelIsReady := ready;
      startsAwaiting := startsAwaiting - 1;
      starting := false;
      if modelIsReady {
        state.EngineReady(observedScenePhase);
        DrainPendingInput();
      } else {
        state.EngineStopped();
      }
    }

    method SceneDidBecomeActive()
      modifies this, state
      ensures View() == Step(old(View()), SceneActive)
    {
      observedScenePhase := Foreground;
      state.Scene(Foreground);
      assert View() == SceneMoved(old(View()), Foreground);
      FinishFiniteOpportunity();
    }

    method SceneDidBecomeInactive()
      modifies this, state
      ensures View() == Step(old(View()), SceneInactive)
    {
      observedScenePhase := Inactive;
      state.Scene(Inactive);
    }

    /** `granted` is what the system answers to a request for background time: a fresh identifier, or none. */
    method SceneDidEnterBackground(working: bool, granted: Option<nat>)
      requires Enabled(View(), SceneBackground(working, granted))
      modifies this, state
      ensures View() == Step(old(View()), SceneBackground(working, granted))
    {
      observedScenePhase := Background;
      state.Scene(Background);
      assert View() == SceneMoved(old(View()), Background);
      if !working {
        return;
      }
      BeginUIKitBackgroundAssertion(granted);
      StartMonitor();
    }

    /** The decision is `None` for a URL that is reported as invalid or unsupported. */
    method Receive(url: Incoming) returns (decision: Option<Decision>)
      modifies this, state
      ensures View() == Step(old(View()), Received(url))
      ensures decision == (if Accepted(url).None? then None
                           else Some(StagingDecision(old(View()).life, Key(Accepted(url).value))))
    {
      var input := Accepted(url);
      if input.None? {
        return None;
      }
      var staging := state.StageInput(Key(input.value));
      if staging == Staged {
        pendingInput := input;
        staged := staged + [input.value];
      }
      decision := Some(staging);
    }

    /** Hand the pending input to the engine; the call into the engine is where the source suspends. */
    method DrainPendingInput()
      modifies this, state
      ensures View() == Drained(old(View()))
    {
      if !modelIsReady || pendingInput.None? {
        return;
      }
      state.FinishPendingInput();
      delivered := delivered + [pendingInput.value];
      pendingInput := None;
    }

    method Accept(task: nat)
      requires Enabled(View(), TaskOffered(task))
      modifies this, state
      ensures View() == Step(old(View()), TaskOffered(task))
    {
      offered := offered + [task];
      if continuedTaskLease.Some? {
        completed := completed + [task];
        return;
      }
      continuedTaskLease := Some(task);
      continuedRequest := true;
      var _ := state.BeginContinuedProcessing();
      assert View() == Requested(LeaseTaken(old(View()), task), true);
      EndUIKitBackgroundAssertion();
      StartMonitor();
    }

    /** `submitted`: the system supports continued processing and accepts the request. */
    method UserStartedWork(submitted: bool)
      modifies this, state
      ensures View() == Step(old(View()), WorkStarted(submitted))
    {
      if continuedRequest || !submitted {
        return;
      }
      continuedRequest := true;
      StartMonitor();
    }

    /** One turn of the monitor loop. */
    method Monitor(working: bool)
      requires monitorRunning
      modifies this, state
      ensures View() == Step(old(View()), MonitorTick(working))
    {
      if !working {
        FinishFiniteOpportunity();
      }
    }

    method BackgroundAssertionExpired()
      modifies this, state
      ensures View() == Step(old(View()), AssertionExpired)
    {
      ExpireFiniteOpportunity();
    }

    /** The expiration handler of a task acts only for the task that is still held. */
    method ContinuedTaskExpired(task: nat)
      modifies this, state
      ensures View() == Step(old(View()), TaskExpired(task))
    {
      if continuedTaskLease == Some(task) {
        ExpireFiniteOpportunity();
      }
    }

    /** The rest of an expiration, once the engine has shut down, whether or not that failed. */
    method ShutdownReturned(ready: bool)
      requires shutdownsAwaiting > 0
      modifies this, state
      ensures View() == Step(old(View()), ShutdownResumed(ready))
    {
      modelIsReady := ready;
      shutdownsAwaiting := shutdownsAwaiting - 1;
      assert View() == LifecycleRuns.ShutdownReturned(old(View()), ready);
      FinishFiniteOpportunity();
      state.EngineStopped();
    }

    method StartMonitor()
      modifies this`monitorRunning
      ensures View() == Monitoring(old(View()), true)
    {
      if monitorRunning {
        return;
      }
      monitorRunning := true;
    }

    method BeginUIKitBackgroundAssertion(granted: Option<nat>)
      modifies this, state
      ensures View() == AssertionTaken(old(View()), granted)
    {
      if backgroundAssertion.Some? {
        return;
      }
      var began := state.BeginUIKitBackgroundAssertion();
      if !began {
        return;
      }
      backgroundAssertion := granted;
      if backgroundAssertion.None? {
        state.EndUIKitBackgroundAssertion();
      } else {
        begun := begun + [backgroundAssertion.value];
      }
    }

    method EndUIKitBackgroundAssertion()
      modifies this, state
      ensures View() == AssertionReleased(old(View()))
    {
      if backgroundAssertion.None? {
        return;
      }
      ended := ended + [backgroundAssertion.value];
      backgroundAssertion := None;
      state.EndUIKitBackgroundAssertion();
    }

    method FinishFiniteOpportunity()
      modifies this, state
      ensures View() == OpportunityFinished(old(View()))
    {
      monitorRunning := false;
      assert View() == Monitoring(old(View()), false);
      EndUIKitBackgroundAssertion();
      EndContinuedTask();
      continuedRequest := false;
    }

    method EndContinuedTask()
      modifies this, state
      ensures View() == LeaseReleased(old(View()))
    {
      if continuedTaskLease.Some? {
        completed := completed + [continuedTaskLease.value];
        continuedTaskLease := None;
        state.EndContinuedProcessing();
      }
    }

    /** An expiration, up to the engine's shutdown. */
    method ExpireFiniteOpportunity()
      modifies this, state
      ensures View() == Expired(old(View()))
    {
      if !modelIsReady {
        FinishFiniteOpportunity();
        return;
      }
      state.BeginStopping();
      shutdownsAwaiting := shutdownsAwaiting + 1;
    }
  }
}
