/** The lifecycle owner as a state machine: every segment between two suspension points is one atomic step, and steps
    of different calls interleave freely. */
module LifecycleRuns {
  import opened Wrappers
  import opened Sequences
  import opened LifecycleState

  datatype Input = Magnet(text: string) | TorrentFile(url: string)

  /** What a delivered URL looks like. */
  datatype Incoming = MagnetLink(text: string) | FileLink(url: string, torrent: bool) | Other

  const MAX_MAGNET_BYTES := 16 * 1024

  function Key(i: Input): string {
    match i
    case Magnet(text) => "magnet:" + text
    case TorrentFile(url) => "file:" + url
  }

  function Keys(inputs: seq<Input>): (keys: seq<string>)
    ensures |keys| == |inputs|
    ensures forall i :: 0 <= i < |inputs| ==> keys[i] == Key(inputs[i])
  {
    seq(|inputs|, i requires 0 <= i < |inputs| => Key(inputs[i]))
  }

  /** The input that a URL stands for; `None` where it is reported as invalid or unsupported. */
  function Accepted(incoming: Incoming): Option<Input> {
    match incoming
    case MagnetLink(text) => if text != "" && |text| <= MAX_MAGNET_BYTES then Some(Magnet(text)) else None
    case FileLink(url, torrent) => if torrent then Some(TorrentFile(url)) else None
    case Other => None
  }

  /** The finite background time that the owner holds, and what the system has seen of it. */
  datatype Leases = Leases(
    assertion: Option<nat>, lease: Option<nat>,
    begun: seq<nat>, ended: seq<nat>, offered: seq<nat>, completed: seq<nat>)

  /** The input that waits for the engine, and all that were ever staged and delivered. */
  datatype Inputs = Inputs(pending: Option<Input>, staged: seq<Input>, delivered: seq<Input>)

  /** The remaining fields of the owner, and how many calls are suspended in the model. */
  datatype Calls = Calls(
    starting: bool, ready: bool, scene: Phase, requested: bool, monitoring: bool,
    startsAwaiting: nat, shutdownsAwaiting: nat)

  datatype World = World(life: Lifecycle, calls: Calls, leases: Leases, inputs: Inputs)

  datatype Event =
    | StartCalled
    | StartResumed(ready: bool)
    | SceneActive
    | SceneInactive
    | SceneBackground(working: bool, granted: Option<nat>)
    | Received(incoming: Incoming)
    | DrainCalled
    | TaskOffered(task: nat)
    | WorkStarted(submitted: bool)
    | MonitorTick(working: bool)
    | AssertionExpired
    | TaskExpired(task: nat)
    | ShutdownResumed(ready: bool)
    | ModelChanged(ready: bool)

  function Start(): World {
    World(Initial(), Calls(false, false, Foreground, false, false, 0, 0),
          Leases(None, None, [], [], [], []), Inputs(None, [], []))
  }

  /** A step can happen: the call it continues is suspended, and the system hands out fresh identities. */
  predicate Enabled(w: World, e: Event) {
    match e
    case StartResumed(_) => w.calls.startsAwaiting > 0
    case SceneBackground(_, granted) => granted.Some? ==> granted.value !in w.leases.begun
    case TaskOffered(task) => task !in w.leases.offered
    case MonitorTick(_) => w.calls.monitoring
    case ShutdownResumed(_) => w.calls.shutdownsAwaiting > 0
    case _ => true
  }

  function Monitoring(w: World, monitoring: bool): World {
    w.(calls := w.calls.(monitoring := monitoring))
  }

  function Requested(w: World, requested: bool): World {
    w.(calls := w.calls.(requested := requested))
  }

  function Drained(w: World): World {
    if w.calls.ready && w.inputs.pending.Some? then
      w.(life := InputFinished(w.life),
         inputs := w.inputs.(pending := None, delivered := w.inputs.delivered + [w.inputs.pending.value]))
    else w
  }

  function AssertionTaken(w: World, granted: Option<nat>): World {
    if w.leases.assertion.Some? || w.life.hasAssertion then w
    else match granted
      case Some(id) =>
        w.(life := AssertionBegun(w.life), leases := w.leases.(assertion := granted, begun := w.leases.begun + [id]))
      case None => w.(life := AssertionEnded(AssertionBegun(w.life)))
  }

  function AssertionReleased(w: World): World {
    if w.leases.assertion.None? then w
    else
      w.(life := AssertionEnded(w.life),
         leases := w.leases.(assertion := None, ended := w.leases.ended + [w.leases.assertion.value]))
  }

  function LeaseReleased(w: World): World {
    if w.leases.lease.None? then w
    else
      w.(life := ContinuedEnded(w.life),
         leases := w.leases.(lease := None, completed := w.leases.completed + [w.leases.lease.value]))
  }

  function OpportunityFinished(w: World): World {
    Requested(LeaseReleased(AssertionReleased(Monitoring(w, false))), false)
  }

  function Expired(w: World): World {
    if w.calls.ready then
      w.(life := StoppingBegun(w.life), calls := w.calls.(shutdownsAwaiting := w.calls.shutdownsAwaiting + 1))
    else OpportunityFinished(w)
  }

  function LeaseTaken(w: World, task: nat): World
    requires w.leases.lease.None?
  {
    w.(life := ContinuedBegun(w.life),
       leases := w.leases.(lease := Some(task), offered := w.leases.offered + [task]))
  }

  function TaskRefused(w: World, task: nat): World {
    w.(leases := w.leases.(offered := w.leases.offered + [task], completed := w.leases.completed + [task]))
  }

  function TaskTaken(w: World, task: nat): World {
    if w.leases.lease.Some? then TaskRefused(w, task)
    else Monitoring(AssertionReleased(Requested(LeaseTaken(w, task), true)), true)
  }

  function InputReceived(w: World, incoming: Incoming): World {
    var input := Accepted(incoming);
    if input.Some? && StagingDecision(w.life, Key(input.value)).Staged? then
      w.(life := InputStaged(w.life, Key(input.value)),
         inputs := w.inputs.(pending := input, staged := w.inputs.staged + [input.value]))
    else w
  }

  function StartRequested(w: World): World {
    if w.calls.starting then w
    else if w.calls.ready then Drained(w)
    else if MayBegin(w.life) then
      w.(life := GenerationBegun(w.life),
         calls := w.calls.(starting := true, startsAwaiting := w.calls.startsAwaiting + 1))
    else w
  }

  function StartReturned(w: World, ready: bool): World
    requires w.calls.startsAwaiting > 0
  {
    w.(calls := w.calls.(starting := false, ready := ready, startsAwaiting := w.calls.startsAwaiting - 1))
  }

  function LifeChanged(w: World, life: Lifecycle): World {
    w.(life := life)
  }

  function StartSettled(w: World, ready: bool): World
    requires w.calls.startsAwaiting > 0
  {
    var resumed := StartReturned(w, ready);
    if ready then Drained(LifeChanged(resumed, EngineIsReady(w.life, w.calls.scene)))
    else LifeChanged(resumed, EngineIsStopped(w.life))
  }

  function SceneMoved(w: World, scene: Phase): World {
    w.(calls := w.calls.(scene := scene), life := SceneChanged(w.life, scene))
  }

  function Backgrounded(w: World, working: bool, granted: Option<nat>): World {
    var moved := SceneMoved(w, Background);
    if working then Monitoring(AssertionTaken(moved, granted), true) else moved
  }

  function WorkBegun(w: World, submitted: bool): World {
    if !w.calls.requested && submitted then Monitoring(Requested(w, true), true) else w
  }

  function ShutdownReturned(w: World, ready: bool): World
    requires w.calls.shutdownsAwaiting > 0
  {
    w.(calls := w.calls.(ready := ready, shutdownsAwaiting := w.calls.shutdownsAwaiting - 1))
  }

  function ShutdownSettled(w: World, ready: bool): World
    requires w.calls.shutdownsAwaiting > 0
  {
    var finished := OpportunityFinished(ShutdownReturned(w, ready));
    LifeChanged(finished, EngineIsStopped(finished.life))
  }

  function Step(w: World, e: Event): World
    requires Enabled(w, e)
  {
    match e
    case StartCalled => StartRequested(w)
    case StartResumed(ready) => StartSettled(w, ready)
    case SceneActive => OpportunityFinished(SceneMoved(w, Foreground))
    case SceneInactive => SceneMoved(w, Inactive)
    case SceneBackground(working, granted) => Backgrounded(w, working, granted)
    case Received(incoming) => InputReceived(w, incoming)
    case DrainCalled => Drained(w)
    case TaskOffered(task) => TaskTaken(w, task)
    case WorkStarted(submitted) => WorkBegun(w, submitted)
    case MonitorTick(working) => if working then w else OpportunityFinished(w)
    case AssertionExpired => Expired(w)
    case TaskExpired(task) => if w.leases.lease == Some(task) then Expired(w) else w
    case ShutdownResumed(ready) => ShutdownSettled(w, ready)
    case ModelChanged(ready) => w.(calls := w.calls.(ready := ready))
  }

  /** The events can happen one after the other. */
  ghost predicate Possible(w: World, events: seq<Event>)
    decreases |events|
  {
    events != [] ==> Enabled(w, events[0]) && Possible(Step(w, events[0]), events[1..])
  }

  function Run(w: World, events: seq<Event>): World
    requires Possible(w, events)
    decreases |events|
  {
    if events == [] then w else Run(Step(w, events[0]), events[1..])
  }

  function Held(o: Option<nat>): seq<nat> {
    if o.Some? then [o.value] else []
  }

  /** A lifecycle flag is raised only while the matching lease is held. */
  predicate FlagsBacked(life: Lifecycle, leases: Leases) {
    (life.hasAssertion ==> leases.assertion.Some?) && (life.hasContinuedTask ==> leases.lease.Some?)
  }

  /** Flags and leases say the same. */
  predicate FlagsAgree(w: World) {
    w.life.hasAssertion == w.leases.assertion.Some? && w.life.hasContinuedTask == w.leases.lease.Some?
  }

  /** Assertions are begun and ended in the same order, one at a time; the held one is the last that was begun. */
  ghost predicate AssertionsBalanced(begun: seq<nat>, ended: seq<nat>, assertion: Option<nat>) {
    Distinct(begun) && begun == ended + Held(assertion)
  }

  /** Every offered task is completed exactly once or is the one that is held. */
  ghost predicate TasksBalanced(offered: seq<nat>, completed: seq<nat>, lease: Option<nat>) {
    Distinct(offered) && multiset(offered) == multiset(completed + Held(lease))
  }

  ghost predicate LeasesBalanced(l: Leases) {
    AssertionsBalanced(l.begun, l.ended, l.assertion) && TasksBalanced(l.offered, l.completed, l.lease)
  }

  /** Any 65 consecutive keys are distinct. */
  ghost predicate Spaced(keys: seq<string>) {
    forall i, j :: 0 <= i < j < |keys| && j - i <= MAX_HANDLED ==> keys[i] != keys[j]
  }

  /** The owner's pending input is the one whose key the state holds, every staging but that one is delivered, and the
      state remembers the keys of the newest deliveries. */
  ghost predicate InputsAgree(pendingKey: Option<string>, handledKeys: seq<string>, inputs: Inputs) {
    && pendingKey == (if inputs.pending.Some? then Some(Key(inputs.pending.value)) else None)
    && inputs.staged == Waiting(inputs.delivered, inputs.pending)
    && handledKeys == Newest(Keys(inputs.delivered), MAX_HANDLED)
    && Spaced(Keys(inputs.staged))
  }

  function Waiting(delivered: seq<Input>, pending: Option<Input>): seq<Input> {
    if pending.Some? then delivered + [pending.value] else delivered
  }

  /** At most one start is suspended, and exactly while `starting` says so. */
  predicate StartsSingle(calls: Calls) {
    calls.startsAwaiting == if calls.starting then 1 else 0
  }

  predicate Bounded(life: Lifecycle) {
    |life.history| <= MAX_HISTORY && life.generation <= MAX_GENERATION
  }

  ghost predicate Inv(w: World) {
    && FlagsBacked(w.life, w.leases)
    && LeasesBalanced(w.leases)
    && InputsAgree(w.life.pendingKey, w.life.handledKeys, w.inputs)
    && StartsSingle(w.calls)
    && Bounded(w.life)
  }

  /** A lease is never replaced: it is kept, or exactly that one is ended and none is left. */
  predicate LeasesKept(before: Leases, after: Leases) {
    && (before.assertion.Some? && after.assertion != before.assertion ==>
         after.assertion.None? && after.ended == before.ended + [before.assertion.value])
    && (before.lease.Some? && after.lease != before.lease ==>
         after.lease.None? && after.completed == before.completed + [before.lease.value])
  }

  /** What every atomic segment keeps. */
  ghost predicate Keeps(w: World, next: World) {
    Inv(next) && LeasesKept(w.leases, next.leases)
  }

  lemma KeysOfMore(inputs: seq<Input>, i: Input)
    ensures Keys(inputs + [i]) == Keys(inputs) + [Key(i)]
  {}

  lemma DrainKeeps(w: World)
    requires Inv(w)
    ensures Keeps(w, Drained(w))
    ensures FlagsAgree(w) ==> FlagsAgree(Drained(w))
  {
    if w.calls.ready && w.inputs.pending.Some? {
      var delivered, input := w.inputs.delivered, w.inputs.pending.value;
      KeysOfMore(delivered, input);
      NewestOfNewest(Keys(delivered), Key(input), MAX_HANDLED);
    }
  }

  lemma StartKeeps(w: World)
    requires Inv(w)
    ensures Keeps(w, StartRequested(w))
    ensures FlagsAgree(w) ==> FlagsAgree(StartRequested(w))
  {
    if !w.calls.starting && w.calls.ready {
      DrainKeeps(w);
    }
  }

  lemma StartSettledKeeps(w: World, ready: bool)
    requires Inv(w) && w.calls.startsAwaiting > 0
    ensures Keeps(w, StartSettled(w, ready))
    ensures FlagsAgree(w) ==>
              (FlagsAgree(StartSettled(w, ready)) <==> ready || (w.leases.assertion.None? && w.leases.lease.None?))
  {
    if ready {
      DrainKeeps(LifeChanged(StartReturned(w, ready), EngineIsReady(w.life, w.calls.scene)));
    }
  }

  lemma SceneKeeps(w: World, scene: Phase)
    requires Inv(w)
    ensures Keeps(w, SceneMoved(w, scene)) && SceneMoved(w, scene).leases == w.leases
    ensures FlagsAgree(w) ==> FlagsAgree(SceneMoved(w, scene))
  {}

  lemma AssertionReleaseKeeps(w: World)
    requires Inv(w)
    ensures Keeps(w, AssertionReleased(w)) && AssertionReleased(w).leases.assertion.None?
    ensures AssertionReleased(w).leases == w.leases.(assertion := None, ended := AssertionReleased(w).leases.ended)
    ensures FlagsAgree(w) ==> FlagsAgree(AssertionReleased(w))
  {
    var ended := w.leases.ended;
    if w.leases.assertion.Some? {
      assert (ended + [w.leases.assertion.value]) + [] == ended + [w.leases.assertion.value];
    }
  }

  lemma LeaseReleaseKeeps(w: World)
    requires Inv(w)
    ensures Keeps(w, LeaseReleased(w)) && LeaseReleased(w).leases.lease.None?
    ensures LeaseReleased(w).leases == w.leases.(lease := None, completed := LeaseReleased(w).leases.completed)
    ensures FlagsAgree(w) ==> FlagsAgree(LeaseReleased(w))
  {
    var completed := w.leases.completed;
    if w.leases.lease.Some? {
      assert (completed + [w.leases.lease.value]) + [] == completed + [w.leases.lease.value];
    }
  }

  lemma FinishKeeps(w: World)
    requires Inv(w)
    ensures Keeps(w, OpportunityFinished(w))
    ensures OpportunityFinished(w).leases.assertion.None? && OpportunityFinished(w).leases.lease.None?
    ensures FlagsAgree(w) ==> FlagsAgree(OpportunityFinished(w))
  {
    var idle := Monitoring(w, false);
    assert Inv(idle);
    AssertionReleaseKeeps(idle);
    LeaseReleaseKeeps(AssertionReleased(idle));
  }

  lemma ExpireKeeps(w: World)
    requires Inv(w)
    ensures Keeps(w, Expired(w))
    ensures FlagsAgree(w) ==> FlagsAgree(Expired(w))
  {
    if !w.calls.ready {
      FinishKeeps(w);
    }
  }

  lemma ShutdownKeeps(w: World, ready: bool)
    requires Inv(w) && w.calls.shutdownsAwaiting > 0
    ensures Keeps(w, ShutdownSettled(w, ready)) && FlagsAgree(ShutdownSettled(w, ready))
  {
    assert Inv(ShutdownReturned(w, ready));
    FinishKeeps(ShutdownReturned(w, ready));
  }

  /** A further task is completed at once, or becomes the one that is held. */
  lemma OfferBalances(offered: seq<nat>, completed: seq<nat>, lease: Option<nat>, task: nat)
    requires TasksBalanced(offered, completed, lease) && task !in offered
    ensures lease.Some? ==> TasksBalanced(offered + [task], completed + [task], lease)
    ensures lease.None? ==> TasksBalanced(offered + [task], completed, Some(task))
  {
    assert completed + [] == completed;
  }

  lemma TaskKeeps(w: World, task: nat)
    requires Inv(w) && task !in w.leases.offered
    ensures Keeps(w, TaskTaken(w, task))
    ensures FlagsAgree(w) ==> FlagsAgree(TaskTaken(w, task))
  {
    OfferBalances(w.leases.offered, w.leases.completed, w.leases.lease, task);
    if w.leases.lease.None? {
      var taken := Requested(LeaseTaken(w, task), true);
      assert Inv(taken);
      AssertionReleaseKeeps(taken);
    }
  }

  /** A key that may be staged is none of the 64 staged last. */
  lemma StagingSpaced(w: World, input: Input)
    requires Inv(w) && StagingDecision(w.life, Key(input)).Staged?
    ensures w.inputs.staged == w.inputs.delivered
    ensures Spaced(Keys(w.inputs.staged + [input]))
  {
    KeysOfMore(w.inputs.staged, input);
    SpacedWithOneMore(Keys(w.inputs.delivered), Key(input));
  }

  lemma SpacedWithOneMore(keys: seq<string>, key: string)
    requires Spaced(keys) && key !in Newest(keys, MAX_HANDLED)
    ensures Spaced(keys + [key])
  {
    forall i | 0 <= i < |keys| && |keys| - i <= MAX_HANDLED
      ensures keys[i] != key
    {
      var newest := Newest(keys, MAX_HANDLED);
      assert newest[i - (|keys| - |newest|)] == keys[i];
    }
  }

  lemma ReceiveKeeps(w: World, incoming: Incoming)
    requires Inv(w)
    ensures Keeps(w, InputReceived(w, incoming))
    ensures FlagsAgree(w) ==> FlagsAgree(InputReceived(w, incoming))
  {
    var input := Accepted(incoming);
    if input.Some? && StagingDecision(w.life, Key(input.value)).Staged? {
      StagingSpaced(w, input.value);
    }
  }

  lemma AssertionKeeps(w: World, granted: Option<nat>)
    requires Inv(w) && (granted.Some? ==> granted.value !in w.leases.begun)
    ensures Keeps(w, AssertionTaken(w, granted))
    ensures FlagsAgree(w) ==> FlagsAgree(AssertionTaken(w, granted))
  {
    if w.leases.assertion.None? && granted.Some? {
      assert w.leases.ended + [] == w.leases.ended;
    }
  }

  lemma BackgroundKeeps(w: World, working: bool, granted: Option<nat>)
    requires Inv(w) && (granted.Some? ==> granted.value !in w.leases.begun)
    ensures Keeps(w, Backgrounded(w, working, granted))
    ensures FlagsAgree(w) ==> FlagsAgree(Backgrounded(w, working, granted))
  {
    SceneKeeps(w, Background);
    AssertionKeeps(SceneMoved(w, Background), granted);
  }

  /** The one step that makes flags and leases disagree: a start that fails while a lease is held. */
  predicate FailsWhileHolding(w: World, e: Event) {
    e.StartResumed? && !e.ready && (w.leases.assertion.Some? || w.leases.lease.Some?)
  }

  /** Every step keeps the invariant and replaces no lease. Flags and leases keep agreeing except after a start that
      fails while a lease is held, and there they certainly do not. */
  lemma StepKeeps(w: World, e: Event)
    requires Inv(w) && Enabled(w, e)
    ensures Keeps(w, Step(w, e))
    ensures FlagsAgree(w) ==> (FlagsAgree(Step(w, e)) <==> !FailsWhileHolding(w, e))
  {
    match e
    case StartCalled | StartResumed(_) | ShutdownResumed(_) | ModelChanged(_) => EngineStepKeeps(w, e);
    case Received(incoming) => ReceiveKeeps(w, incoming);
    case DrainCalled => DrainKeeps(w);
    case TaskOffered(_) | AssertionExpired | TaskExpired(_) => TaskStepKeeps(w, e);
    case _ => SceneStepKeeps(w, e);
  }

  lemma EngineStepKeeps(w: World, e: Event)
    requires Inv(w) && Enabled(w, e)
    requires e.StartCalled? || e.StartResumed? || e.ShutdownResumed? || e.ModelChanged?
    ensures Keeps(w, Step(w, e))
    ensures FlagsAgree(w) ==> (FlagsAgree(Step(w, e)) <==> !FailsWhileHolding(w, e))
  {
    match e
    case StartCalled => StartKeeps(w);
    case StartResumed(ready) => StartSettledKeeps(w, ready);
    case ShutdownResumed(ready) => ShutdownKeeps(w, ready);
    case ModelChanged(_) =>
  }

  lemma TaskStepKeeps(w: World, e: Event)
    requires Inv(w) && Enabled(w, e)
    requires e.TaskOffered? || e.AssertionExpired? || e.TaskExpired?
    ensures Keeps(w, Step(w, e))
    ensures FlagsAgree(w) ==> FlagsAgree(Step(w, e))
  {
    match e
    case TaskOffered(task) => TaskKeeps(w, task);
    case AssertionExpired => ExpireKeeps(w);
    case TaskExpired(task) =>
      if w.leases.lease == Some(task) {
        ExpireKeeps(w);
      }
  }

  lemma SceneStepKeeps(w: World, e: Event)
    requires Inv(w) && Enabled(w, e)
    requires e.SceneActive? || e.SceneInactive? || e.SceneBackground? || e.WorkStarted? || e.MonitorTick?
    ensures Keeps(w, Step(w, e))
    ensures FlagsAgree(w) ==> FlagsAgree(Step(w, e))
  {
    match e
    case SceneActive => SceneKeeps(w, Foreground); FinishKeeps(SceneMoved(w, Foreground));
    case SceneInactive => SceneKeeps(w, Inactive);
    case SceneBackground(working, granted) => BackgroundKeeps(w, working, granted);
    case MonitorTick(_) => FinishKeeps(w);
    case _ =>
  }

  lemma StartInv()
    ensures Inv(Start())
  {}

  /** The invariant holds after every run, whatever interleaves. */
  lemma {:induction false} RunKeeps(w: World, events: seq<Event>)
    requires Inv(w) && Possible(w, events)
    ensures Inv(Run(w, events))
    decreases |events|
  {
    if events != [] {
      StepKeeps(w, events[0]);
      RunKeeps(Step(w, events[0]), events[1..]);
    }
  }

  /** In every run each assertion and each task is ended at most once, and never while it is still held. */
  lemma EndedAtMostOnce(events: seq<Event>)
    requires Possible(Start(), events)
    ensures var w := Run(Start(), events);
            && Distinct(w.leases.ended) && Distinct(w.leases.completed)
            && (w.leases.assertion.Some? ==> w.leases.assertion.value !in w.leases.ended)
            && (w.leases.lease.Some? ==> w.leases.lease.value !in w.leases.completed)
  {
    StartInv();
    RunKeeps(Start(), events);
    EndedOnce(Run(Start(), events).leases);
  }

  lemma EndedOnce(leases: Leases)
    requires LeasesBalanced(leases)
    ensures Distinct(leases.ended) && Distinct(leases.completed)
    ensures leases.assertion.Some? ==> leases.assertion.value !in leases.ended
    ensures leases.lease.Some? ==> leases.lease.value !in leases.completed
  {
    forall i, j | 0 <= i < j < |leases.ended|
      ensures leases.ended[i] != leases.ended[j]
    {
      assert leases.begun[i] == leases.ended[i] && leases.begun[j] == leases.ended[j];
    }
    if leases.assertion.Some? {
      assert leases.begun[|leases.ended|] == leases.assertion.value;
      assert forall i :: 0 <= i < |leases.ended| ==> leases.begun[i] == leases.ended[i];
    }
    DistinctByMultiset(leases.offered, leases.completed + Held(leases.lease));
    if leases.lease.Some? {
      assert (leases.completed + Held(leases.lease))[|leases.completed|] == leases.lease.value;
      assert forall i :: 0 <= i < |leases.completed| ==>
        (leases.completed + Held(leases.lease))[i] == leases.completed[i];
    }
    assert forall i :: 0 <= i < |leases.completed| ==>
      leases.completed[i] == (leases.completed + Held(leases.lease))[i];
  }

  lemma {:induction false} DistinctCount<T>(s: seq<T>, x: T)
    requires Distinct(s)
    ensures multiset(s)[x] <= 1
  {
    if s != [] {
      var rest, last := s[..|s| - 1], s[|s| - 1];
      assert s == rest + [last];
      DistinctCount(rest, x);
      assert last !in rest;
    }
  }

  lemma DistinctByMultiset<T>(s: seq<T>, t: seq<T>)
    requires Distinct(s) && multiset(s) == multiset(t)
    ensures Distinct(t)
  {
    if i, j :| 0 <= i < j < |t| && t[i] == t[j] {
      DistinctCount(s, t[i]);
      TwiceCounted(t, i, j);
    }
  }

  lemma TwiceCounted<T>(t: seq<T>, i: nat, j: nat)
    requires i < j < |t| && t[i] == t[j]
    ensures multiset(t)[t[i]] >= 2
  {
    assert t == t[..j] + t[j..];
    assert t[..j][i] == t[i] && t[j..][0] == t[i];
  }

  /** The exceptional step is reachable: the application goes to the background while the engine is still starting. */
  lemma StartCanFailInBackground()
    ensures var events := [StartCalled, SceneBackground(true, Some(1)), StartResumed(false)];
            && Possible(Start(), events)
            && var w := Run(Start(), events);
               w.leases.assertion == Some(1) && !w.life.hasAssertion
  {
    var e0, e1, e2 := StartCalled, SceneBackground(true, Some(1)), StartResumed(false);
    var a := Step(Start(), e0);
    var b := Step(a, e1);
    var c := Step(b, e2);
    RunOne(b, e2, []);
    RunOne(a, e1, [e2]);
    RunOne(Start(), e0, [e1, e2]);
    assert Possible(c, []) && Run(c, []) == c;
  }

  lemma RunOne(w: World, e: Event, rest: seq<Event>)
    ensures Possible(w, [e] + rest) <==> Enabled(w, e) && Possible(Step(w, e), rest)
    ensures Possible(w, [e] + rest) ==> Run(w, [e] + rest) == Run(Step(w, e), rest)
  {
    assert ([e] + rest)[1..] == rest;
  }

  lemma SpacedWindow(keys: seq<string>, i: nat, j: nat)
    requires Spaced(keys) && i < j < |keys| && keys[i] == keys[j]
    ensures j - i > MAX_HANDLED
    ensures Distinct(keys[j - MAX_HANDLED..j]) && keys[j] !in keys[j - MAX_HANDLED..j]
  {
    var window := keys[j - MAX_HANDLED..j];
    assert forall a :: 0 <= a < |window| ==> window[a] == keys[j - MAX_HANDLED + a];
  }

  lemma SpacedPrefix(keys: seq<string>, n: nat)
    requires Spaced(keys) && n <= |keys|
    ensures Distinct(Newest(keys[..n], MAX_HANDLED))
  {
    var newest := Newest(keys[..n], MAX_HANDLED);
    assert forall a :: 0 <= a < |newest| ==> newest[a] == keys[n - |newest| + a];
  }

  lemma KeysOfSlice(inputs: seq<Input>, a: nat, b: nat)
    requires a <= b <= |inputs|
    ensures Keys(inputs[a..b]) == Keys(inputs)[a..b]
  {}

  /** Between two stagings of one key at least 64 other stagings are delivered, and those have pairwise different
      keys. */
  lemma RestagedAfter64(events: seq<Event>, i: nat, j: nat)
    requires Possible(Start(), events)
    requires var staged := Run(Start(), events).inputs.staged;
             i < j < |staged| && Key(staged[i]) == Key(staged[j])
    ensures var inputs := Run(Start(), events).inputs;
            && j - i > 64 && j <= |inputs.delivered|
            && var between := inputs.delivered[j - 64..j];
               && between == inputs.staged[j - 64..j]
               && Distinct(Keys(between)) && Key(inputs.staged[j]) !in Keys(between)
  {
    StartInv();
    RunKeeps(Start(), events);
    var inputs := Run(Start(), events).inputs;
    SpacedWindow(Keys(inputs.staged), i, j);
    KeysOfSlice(inputs.staged, j - MAX_HANDLED, j);
  }

  /** Each staging is delivered at most once, in the order of staging; all but a pending one have been delivered. */
  lemma DeliveredOnceInOrder(events: seq<Event>)
    requires Possible(Start(), events)
    ensures var w := Run(Start(), events);
            && w.inputs.staged == Waiting(w.inputs.delivered, w.inputs.pending)
            && w.life.pendingKey == (if w.inputs.pending.Some? then Some(Key(w.inputs.pending.value)) else None)
            && |w.life.handledKeys| <= 64 && Distinct(w.life.handledKeys)
  {
    StartInv();
    RunKeeps(Start(), events);
    var inputs := Run(Start(), events).inputs;
    KeysOfSlice(inputs.staged, 0, |inputs.delivered|);
    assert inputs.staged[0..|inputs.delivered|] == inputs.delivered;
    SpacedPrefix(Keys(inputs.staged), |inputs.delivered|);
    assert Keys(inputs.staged)[..|inputs.delivered|] == Keys(inputs.delivered);
  }
}
