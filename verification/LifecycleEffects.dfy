/** What every step of the lifecycle does to every part of it: when leases are taken and given back, which phase
    follows, which input is staged or delivered, and that nothing is held without a monitor that will give it back. */
module LifecycleEffects {
  import opened Wrappers
  import opened LifecycleState
  import opened LifecycleRuns

  /** The event gives back all background time: the application is active again, the work is done, an expiration finds
      no engine to stop, or the engine has been stopped. */
  predicate GivesBack(w: World, e: Event) {
    match e
    case SceneActive => true
    case MonitorTick(working) => !working
    case AssertionExpired => !w.calls.ready
    case TaskExpired(task) => w.leases.lease == Some(task) && !w.calls.ready
    case ShutdownResumed(_) => true
    case _ => false
  }

  /** The event finds an engine that has to be stopped before its time runs out. */
  predicate Expires(w: World, e: Event) {
    w.calls.ready && (e.AssertionExpired? || (e.TaskExpired? && w.leases.lease == Some(e.task)))
  }

  /** The assertion is taken when work goes on in the background and the system grants time, it gives way to a task, and
      it is given back with all background time; nothing else touches it. */
  lemma AssertionAfter(w: World, e: Event)
    requires Enabled(w, e) && FlagsBacked(w.life, w.leases)
    ensures Step(w, e).leases.assertion
         == if GivesBack(w, e) || (e.TaskOffered? && w.leases.lease.None?) then None
            else if e.SceneBackground? && e.working && w.leases.assertion.None? then e.granted
            else w.leases.assertion
  {}

  /** A task is kept when none is held, and given back with all background time; a second one is completed at once. */
  lemma LeaseAfter(w: World, e: Event)
    requires Enabled(w, e)
    ensures Step(w, e).leases.lease
         == if GivesBack(w, e) then None
            else if e.TaskOffered? && w.leases.lease.None? then Some(e.task)
            else w.leases.lease
    ensures e.TaskOffered? && w.leases.lease.Some? ==>
              Step(w, e).leases.completed == w.leases.completed + [e.task]
  {}

  /** The start of a generation: nothing is starting, stopping or running. */
  predicate Begins(w: World, e: Event) {
    && e.StartCalled? && !w.calls.starting && !w.calls.ready
    && w.life.phase != Starting && w.life.phase != Stopping && w.life.generation < 0xFFFF_FFFF_FFFF_FFFF
  }

  /** The phase follows the newest event; a start that succeeds takes up the scene that was observed meanwhile. */
  lemma PhaseAfter(w: World, e: Event)
    requires Enabled(w, e)
    ensures Step(w, e).life.phase
         == match e
            case SceneActive => Foreground
            case SceneInactive => Inactive
            case SceneBackground(_, _) => Background
            case StartResumed(ready) => if ready then w.calls.scene else Stopped
            case ShutdownResumed(_) => Stopped
            case _ => if Begins(w, e) then Starting else if Expires(w, e) then Stopping else w.life.phase
  {
    match e
    case StartCalled =>
    case TaskOffered(_) =>
    case MonitorTick(_) =>
    case ShutdownResumed(_) =>
    case _ =>
  }

  /** Every start that begins is a new generation. */
  lemma GenerationAfter(w: World, e: Event)
    requires Enabled(w, e)
    ensures Step(w, e).life.generation == w.life.generation + if Begins(w, e) then 1 else 0
  {}

  /** Whether the engine runs is what the model said last. */
  lemma ReadyAfter(w: World, e: Event)
    requires Enabled(w, e)
    ensures Step(w, e).calls.ready
         == match e
            case StartResumed(ready) => ready
            case ShutdownResumed(ready) => ready
            case ModelChanged(ready) => ready
            case _ => w.calls.ready
  {}

  /** A start is under way from its begin to its return, and an expiration that found the engine running until it has
      been stopped. */
  lemma SuspendedAfter(w: World, e: Event)
    requires Enabled(w, e)
    ensures Step(w, e).calls.starting == (Begins(w, e) || (w.calls.starting && !e.StartResumed?))
    ensures Step(w, e).calls.shutdownsAwaiting
         == w.calls.shutdownsAwaiting + (if Expires(w, e) then 1 else 0) - (if e.ShutdownResumed? then 1 else 0)
  {}

  /** A request for continued processing stands until all background time is given back. */
  lemma RequestedAfter(w: World, e: Event)
    requires Enabled(w, e)
    ensures Step(w, e).calls.requested
         == (!GivesBack(w, e)
             && (w.calls.requested || (e.WorkStarted? && e.submitted) || (e.TaskOffered? && w.leases.lease.None?)))
  {}

  /** The scene that the last scene event entered. */
  function LastScene(start: Phase, events: seq<Event>): Phase
    decreases |events|
  {
    if events == [] then start
    else
      match events[|events| - 1]
      case SceneActive => Foreground
      case SceneInactive => Inactive
      case SceneBackground(_, _) => Background
      case _ => LastScene(start, events[..|events| - 1])
  }

  lemma SceneAfter(w: World, e: Event)
    requires Enabled(w, e)
    ensures Step(w, e).calls.scene == LastScene(w.calls.scene, [e])
  {
    assert [e][..0] == [];
  }

  lemma {:induction false} LastSceneOfMore(start: Phase, e: Event, events: seq<Event>)
    ensures LastScene(start, [e] + events) == LastScene(LastScene(start, [e]), events)
    decreases |events|
  {
    if events == [] {
      assert [e] + events == [e];
    } else {
      assert ([e] + events)[..|events|] == [e] + events[..|events| - 1];
      LastSceneOfMore(start, e, events[..|events| - 1]);
    }
  }

  /** In every run the observed scene is that of the last scene event, whatever suspends in between. */
  lemma {:induction false} ObservedSceneIsLast(w: World, events: seq<Event>)
    requires Possible(w, events)
    ensures Run(w, events).calls.scene == LastScene(w.calls.scene, events)
    decreases |events|
  {
    if events != [] {
      SceneAfter(w, events[0]);
      ObservedSceneIsLast(Step(w, events[0]), events[1..]);
      assert [events[0]] + events[1..] == events;
      LastSceneOfMore(w.calls.scene, events[0], events[1..]);
    }
  }

  /** A URL is accepted if it is a magnet link of 1 byte to 16 KiB or a torrent file. */
  lemma AcceptedIff(u: Incoming)
    ensures Accepted(u)
         == match u
            case MagnetLink(text) => if 1 <= |text| <= 16384 then Some(Magnet(text)) else None
            case FileLink(url, torrent) => if torrent then Some(TorrentFile(url)) else None
            case Other => None
  {}

  /** The newest 64 inputs that were delivered. */
  function Recent(delivered: seq<Input>): seq<Input> {
    if |delivered| <= 64 then delivered else delivered[|delivered| - 64..]
  }

  predicate Stageable(w: World, u: Incoming) {
    && Accepted(u).Some? && w.inputs.pending.None?
    && forall i <- Recent(w.inputs.delivered) :: Key(i) != Key(Accepted(u).value)
  }

  lemma StagedIff(w: World, u: Incoming)
    requires Inv(w) && Accepted(u).Some?
    ensures StagingDecision(w.life, Key(Accepted(u).value)).Staged? <==> Stageable(w, u)
  {
    HandledKeys(w, Key(Accepted(u).value));
  }

  lemma KeyAmong(inputs: seq<Input>, key: string)
    ensures key in Keys(inputs) <==> exists i <- inputs :: Key(i) == key
  {
    if key in Keys(inputs) {
      var j :| 0 <= j < |inputs| && Keys(inputs)[j] == key;
      assert inputs[j] in inputs;
    }
    if i :| i in inputs && Key(i) == key {
      var j :| 0 <= j < |inputs| && inputs[j] == i;
      assert Keys(inputs)[j] == key;
    }
  }

  /** What a caller is told about an accepted URL: a duplicate if its key is pending or among the 64 delivered last,
      occupied if another one is pending, and staged otherwise. */
  lemma DecisionOf(w: World, u: Incoming)
    requires Inv(w) && Accepted(u).Some?
    ensures var key := Key(Accepted(u).value);
            var known := (w.inputs.pending.Some? && Key(w.inputs.pending.value) == key)
                         || exists i <- Recent(w.inputs.delivered) :: Key(i) == key;
            StagingDecision(w.life, key)
            == if known then Duplicate else if w.inputs.pending.Some? then Occupied else Staged
  {
    StagedIff(w, u);
    HandledKeys(w, Key(Accepted(u).value));
  }

  lemma HandledKeys(w: World, key: string)
    requires Inv(w)
    ensures key in w.life.handledKeys <==> exists i <- Recent(w.inputs.delivered) :: Key(i) == key
  {
    var recent := Recent(w.inputs.delivered);
    KeysOfSlice(w.inputs.delivered, |w.inputs.delivered| - |recent|, |w.inputs.delivered|);
    assert w.inputs.delivered[|w.inputs.delivered| - |recent|..] == recent;
    KeyAmong(recent, key);
  }

  /** The event hands the pending input to a running engine. */
  predicate Delivers(w: World, e: Event) {
    match e
    case DrainCalled => w.calls.ready
    case StartCalled => w.calls.ready && !w.calls.starting
    case StartResumed(ready) => ready
    case _ => false
  }

  /** An accepted URL is staged exactly if nothing is pending and its key is none of the 64 delivered last; a pending
      input is delivered exactly when an event finds the engine running. */
  lemma InputsAfter(w: World, e: Event)
    requires Inv(w) && Enabled(w, e)
    ensures Step(w, e).inputs.pending
         == if e.Received? && Stageable(w, e.incoming) then Accepted(e.incoming)
            else if Delivers(w, e) then None
            else w.inputs.pending
    ensures Step(w, e).inputs.delivered
         == if Delivers(w, e) && w.inputs.pending.Some? then w.inputs.delivered + [w.inputs.pending.value]
            else w.inputs.delivered
  {
    if e.Received? && Accepted(e.incoming).Some? {
      StagedIff(w, e.incoming);
    }
  }

  /** Whoever holds background time, or waits for it, is being monitored. */
  predicate Watched(w: World) {
    w.leases.assertion.Some? || w.leases.lease.Some? || w.calls.requested ==> w.calls.monitoring
  }

  lemma WatchedKeeps(w: World, e: Event)
    requires Watched(w) && Enabled(w, e)
    ensures Watched(Step(w, e))
  {}

  /** In every run background time is held only under a running monitor, whose next turn gives everything back once the
      work is done. */
  lemma {:induction false} HeldIsWatched(w: World, events: seq<Event>)
    requires Watched(w) && Possible(w, events)
    ensures Watched(Run(w, events))
    decreases |events|
  {
    if events != [] {
      WatchedKeeps(w, events[0]);
      HeldIsWatched(Step(w, events[0]), events[1..]);
    }
  }

  lemma MonitorGivesBack(events: seq<Event>)
    requires Possible(Start(), events)
    requires var leases := Run(Start(), events).leases; leases.assertion.Some? || leases.lease.Some?
    ensures var w := Run(Start(), events);
            && Enabled(w, MonitorTick(false)) && Enabled(w, MonitorTick(true))
            && Step(w, MonitorTick(false)).leases.assertion.None? && Step(w, MonitorTick(false)).leases.lease.None?
            && Step(w, MonitorTick(true)) == w
  {
    HeldIsWatched(Start(), events);
    RunKeeps(Start(), events);
    AssertionAfter(Run(Start(), events), MonitorTick(false));
    LeaseAfter(Run(Start(), events), MonitorTick(false));
  }
}
