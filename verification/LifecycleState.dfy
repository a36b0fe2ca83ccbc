/** The bounded lifecycle state of the iOS application: its meaning on values, and the object that is updated. */
module LifecycleState {
  import opened Wrappers

  datatype Phase = Cold | Starting | Foreground | Inactive | Background | Stopping | Stopped

  datatype Decision = Staged | Duplicate | Occupied

  const MAX_HISTORY := 64
  const MAX_HANDLED := 64
  const MAX_GENERATION := 0xFFFF_FFFF_FFFF_FFFF

  datatype Lifecycle = Lifecycle(
    generation: nat,
    phase: Phase,
    pendingKey: Option<string>,
    handledKeys: seq<string>,
    hasAssertion: bool,
    hasContinuedTask: bool,
    history: seq<Entry>)

  /** The lines of the history. */
  datatype Entry =
    | GenerationStarted | EngineWasReady | SceneEntered(phase: Phase)
    | AssertionBegan | AssertionWasEnded | ContinuedBegan | ContinuedWasEnded
    | InputWasStaged | InputWasFinished | EngineStopping | EngineWasStopped

  /** The newest `n` elements. */
  function Newest<T>(s: seq<T>, n: nat): (r: seq<T>)
    ensures |r| == if |s| <= n then |s| else n
  {
    if |s| <= n then s else s[|s| - n..]
  }

  function Initial(): Lifecycle {
    Lifecycle(0, Cold, None, [], false, false, [])
  }

  function Recorded(s: Lifecycle, event: Entry): Lifecycle {
    s.(history := Newest(s.history + [event], MAX_HISTORY))
  }

  predicate MayBegin(s: Lifecycle) {
    s.phase != Starting && s.phase != Stopping && s.generation < MAX_GENERATION
  }

  function GenerationBegun(s: Lifecycle): Lifecycle {
    if MayBegin(s) then
      Recorded(s.(generation := s.generation + 1, phase := Starting), GenerationStarted)
    else s
  }

  function EngineIsReady(s: Lifecycle, scene: Phase): Lifecycle {
    Recorded(s.(phase := scene), EngineWasReady)
  }

  function SceneChanged(s: Lifecycle, scene: Phase): Lifecycle {
    Recorded(s.(phase := scene), SceneEntered(scene))
  }

  function AssertionBegun(s: Lifecycle): Lifecycle {
    if s.hasAssertion then s else Recorded(s.(hasAssertion := true), AssertionBegan)
  }

  function AssertionEnded(s: Lifecycle): Lifecycle {
    if s.hasAssertion then Recorded(s.(hasAssertion := false), AssertionWasEnded) else s
  }

  function ContinuedBegun(s: Lifecycle): Lifecycle {
    if s.hasContinuedTask then s else Recorded(s.(hasContinuedTask := true), ContinuedBegan)
  }

  function ContinuedEnded(s: Lifecycle): Lifecycle {
    if s.hasContinuedTask then Recorded(s.(hasContinuedTask := false), ContinuedWasEnded) else s
  }

  function StagingDecision(s: Lifecycle, key: string): Decision {
    if s.pendingKey == Some(key) || key in s.handledKeys then Duplicate
    else if s.pendingKey.Some? then Occupied
    else Staged
  }

  function InputStaged(s: Lifecycle, key: string): Lifecycle {
    if StagingDecision(s, key).Staged? then Recorded(s.(pendingKey := Some(key)), InputWasStaged) else s
  }

  function InputFinished(s: Lifecycle): Lifecycle {
    if s.pendingKey.None? then s
    else
      Recorded(s.(pendingKey := None, handledKeys := Newest(s.handledKeys + [s.pendingKey.value], MAX_HANDLED)),
               InputWasFinished)
  }

  function StoppingBegun(s: Lifecycle): Lifecycle {
    Recorded(s.(phase := Stopping), EngineStopping)
  }

  function EngineIsStopped(s: Lifecycle): Lifecycle {
    Recorded(s.(phase := Stopped, hasAssertion := false, hasContinuedTask := false), EngineWasStopped)
  }

  /** What each change writes into the history, which keeps the newest 64 lines: one line if it changes something. */
  lemma HistoryLines(s: Lifecycle, scene: Phase, key: string)
    ensures GenerationBegun(s).history == Line(s, MayBegin(s), GenerationStarted)
    ensures EngineIsReady(s, scene).history == Line(s, true, EngineWasReady)
    ensures SceneChanged(s, scene).history == Line(s, true, SceneEntered(scene))
    ensures AssertionBegun(s).history == Line(s, !s.hasAssertion, AssertionBegan)
    ensures AssertionEnded(s).history == Line(s, s.hasAssertion, AssertionWasEnded)
    ensures ContinuedBegun(s).history == Line(s, !s.hasContinuedTask, ContinuedBegan)
    ensures ContinuedEnded(s).history == Line(s, s.hasContinuedTask, ContinuedWasEnded)
    ensures InputStaged(s, key).history == Line(s, StagingDecision(s, key).Staged?, InputWasStaged)
    ensures InputFinished(s).history == Line(s, s.pendingKey.Some?, InputWasFinished)
    ensures StoppingBegun(s).history == Line(s, true, EngineStopping)
    ensures EngineIsStopped(s).history == Line(s, true, EngineWasStopped)
  {}

  function Line(s: Lifecycle, changes: bool, event: Entry): seq<Entry> {
    if changes then Newest(s.history + [event], 64) else s.history
  }

  class IOSLifecycleState {
    var generation: nat
    var phase: Phase
    var pendingInputKey: Option<string>
    var handledInputKeys: seq<string>
    var hasUIKitBackgroundAssertion: bool
    var hasContinuedProcessingTask: bool
    var history: seq<Entry>

    function View(): Lifecycle
      reads this
    {
      Lifecycle(generation, phase, pendingInputKey, handledInputKeys, hasUIKitBackgroundAssertion,
                hasContinuedProcessingTask, history)
    }

    constructor ()
      ensures View() == Initial()
    {
      generation, phase, pendingInputKey, handledInputKeys := 0, Cold, None, [];
      hasUIKitBackgroundAssertion, hasContinuedProcessingTask, history := false, false, [];
    }

    method BeginGeneration() returns (begun: bool)
      modifies this
      ensures begun == MayBegin(old(View()))
      ensures View() == GenerationBegun(old(View()))
    {
      if phase == Starting || phase == Stopping {
        return false;
      }
      if generation >= MAX_GENERATION {
        return false;
      }
      generation := generation + 1;
      phase := Starting;
      Record(GenerationStarted);
      begun := true;
    }

    method EngineReady(scenePhase: Phase)
      modifies this
      ensures View() == EngineIsReady(old(View()), scenePhase)
    {
      phase := scenePhase;
      Record(EngineWasReady);
    }

    method Scene(scenePhase: Phase)
      modifies this
      ensures View() == SceneChanged(old(View()), scenePhase)
    {
      phase := scenePhase;
      Record(SceneEntered(scenePhase));
    }

    method BeginUIKitBackgroundAssertion() returns (begun: bool)
      modifies this
      ensures begun == !old(hasUIKitBackgroundAssertion)
      ensures View() == AssertionBegun(old(View()))
    {
      if hasUIKitBackgroundAssertion {
        return false;
      }
      hasUIKitBackgroundAssertion := true;
      Record(AssertionBegan);
      begun := true;
    }

    method EndUIKitBackgroundAssertion()
      modifies this
      ensures View() == AssertionEnded(old(View()))
    {
      if !hasUIKitBackgroundAssertion {
        return;
      }
      hasUIKitBackgroundAssertion := false;
      Record(AssertionWasEnded);
    }

    method BeginContinuedProcessing() returns (begun: bool)
      modifies this
      ensures begun == !old(hasContinuedProcessingTask)
      ensures View() == ContinuedBegun(old(View()))
    {
      if hasContinuedProcessingTask {
        return false;
      }
      hasContinuedProcessingTask := true;
      Record(ContinuedBegan);
      begun := true;
    }

    method EndContinuedProcessing()
      modifies this
      ensures View() == ContinuedEnded(old(View()))
    {
      if !hasContinuedProcessingTask {
        return;
      }
      hasContinuedProcessingTask := false;
      Record(ContinuedWasEnded);
    }

    method StageInput(key: string) returns (decision: Decision)
      modifies this
      ensures decision == StagingDecision(old(View()), key)
      ensures View() == InputStaged(old(View()), key)
    {
      if pendingInputKey == Some(key) || key in handledInputKeys {
        return Duplicate;
      }
      if pendingInputKey.Some? {
        return Occupied;
      }
      pendingInputKey := Some(key);
      Record(InputWasStaged);
      decision := Staged;
    }

    method FinishPendingInput()
      modifies this
      ensures View() == InputFinished(old(View()))
    {
      if pendingInputKey.None? {
        return;
      }
      var key := pendingInputKey.value;
      pendingInputKey := None;
      handledInputKeys := handledInputKeys + [key];
      if |handledInputKeys| > MAX_HANDLED {
        handledInputKeys := handledInputKeys[|handledInputKeys| - MAX_HANDLED..];
      }
      Record(InputWasFinished);
    }

    method BeginStopping()
      modifies this
      ensures View() == StoppingBegun(old(View()))
    {
      phase := Stopping;
      Record(EngineStopping);
    }

    method EngineStopped()
      modifies this
      ensures View() == EngineIsStopped(old(View()))
    {
      phase := Stopped;
      hasUIKitBackgroundAssertion := false;
      hasContinuedProcessingTask := false;
      Record(EngineWasStopped);
    }

    method Record(event: Entry)
      modifies this`history
      ensures history == Newest(old(history) + [event], MAX_HISTORY)
    {
      history := history + [event];
      if |history| > MAX_HISTORY {
        history := history[|history| - MAX_HISTORY..];
      }
    }
  }

  /** Retaining step by step is retaining from the complete log. */
  lemma NewestOfNewest<T>(log: seq<T>, x: T, n: nat)
    requires n > 0
    ensures Newest(Newest(log, n) + [x], n) == Newest(log + [x], n)
  {
    if |log| > n {
      assert (log[|log| - n..] + [x])[1..] == (log + [x])[|log| + 1 - n..];
    }
  }
}
