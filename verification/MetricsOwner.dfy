/** The promise chain that lets metrics operations take effect one at a time, although each suspends at every storage
    access and any number of callers interleave. */
module MetricsOwner {
  import opened Wrappers
  import opened MetricsState
  import opened UninstallUrl

  /** Where a call stands: behind its predecessor, at one of its suspension points, or settled. */
  datatype Stage =
    | Queued
    | Getting
    | WritingLoaded(loaded: Loaded)
    | WritingRetry(loaded: Loaded)
    | Storing(next: State)
    | Registering(outcome: Outcome)
    | Settled(outcome: Outcome)

  datatype Call = Call(request: Request, stage: Stage)

  datatype Machine = Machine(stored: Option<Json>, calls: seq<Call>)

  /** What a call does once its state has been read and any repair has been written. */
  function Proceed(r: Request, loaded: Loaded, owner: Owner): Stage {
    match r.op
    case Snapshot => Settled(Fulfilled(loaded.state))
    case Refresh =>
      if loaded.malformed || UrlFits(owner.version) then Registering(Fulfilled(loaded.state)) else Settled(Rejected)
    case _ =>
      if loaded.readOnly then Settled(Rejected)
      else
        var next := Next(r, loaded.state, owner.version);
        if next.Some? then Storing(next.value) else Settled(Rejected)
  }

  /** The storage and the stage after the pending access of a running call has been answered. */
  function Resume(stored: Option<Json>, c: Call, owner: Owner): (Option<Json>, Stage)
    requires !c.stage.Queued? && !c.stage.Settled?
  {
    var r := c.request;
    match c.stage
    case Getting =>
      if r.getFails then (stored, Settled(Rejected))
      else
        var loaded := Load(stored, owner.version, r.loading);
        (stored, if loaded.write.Some? then WritingLoaded(loaded) else Proceed(r, loaded, owner))
    case WritingLoaded(loaded) =>
      if !r.loadSetFails then (loaded.write, Proceed(r, loaded, owner))
      else
        var retry := Retry(stored, owner.version, r.loading);
        (stored, if retry.Some? then WritingRetry(retry.value) else Settled(Rejected))
    case WritingRetry(loaded) =>
      if r.retrySetFails then (stored, Settled(Rejected)) else (loaded.write, Proceed(r, loaded, owner))
    case Storing(next) =>
      if r.setFails then (stored, Settled(Rejected))
      else (Some(Encode(next)), if UrlFits(owner.version) then Registering(Fulfilled(next)) else Settled(Rejected))
    case Registering(outcome) => (stored, Settled(outcome))
  }

  /** A new caller, or progress of call number `i`. */
  datatype Event = Invoked(request: Request) | Progressed(i: nat)

  predicate Enabled(m: Machine, e: Event) {
    match e
    case Invoked(r) => IsRequest(r)
    case Progressed(i) =>
      && i < |m.calls|
      && !m.calls[i].stage.Settled?
      // The operation hangs on the promise of the call before it, and runs whether that is fulfilled or rejected.
      && (m.calls[i].stage.Queued? ==> i == 0 || m.calls[i - 1].stage.Settled?)
  }

  function Step(m: Machine, e: Event, owner: Owner): Machine
    requires Enabled(m, e)
  {
    match e
    case Invoked(r) => m.(calls := m.calls + [Call(r, Queued)])
    case Progressed(i) =>
      var c := m.calls[i];
      if c.stage.Queued? then m.(calls := m.calls[i := c.(stage := Getting)])
      else
        var (stored, stage) := Resume(m.stored, c, owner);
        Machine(stored, m.calls[i := c.(stage := stage)])
  }

  function Requests(calls: seq<Call>): (rs: seq<Request>)
    ensures |rs| == |calls|
    ensures forall i :: 0 <= i < |calls| ==> rs[i] == calls[i].request
  {
    seq(|calls|, i requires 0 <= i < |calls| => calls[i].request)
  }

  /** The storage before call number `i`, had the calls run one after the other. */
  function Before(m: Machine, initial: Option<Json>, owner: Owner, i: nat): Option<Json>
    requires i <= |m.calls|
  {
    PerformAll(initial, Requests(m.calls)[..i], owner)
  }

  /** The outcome of call number `i`, had the calls run one after the other. */
  function OutcomeInOrder(m: Machine, initial: Option<Json>, owner: Owner, i: nat): Outcome
    requires i < |m.calls|
  {
    Perform(Before(m, initial, owner, i), m.calls[i].request, owner).outcome
  }

  /** What a running call has done so far agrees with performing it as a whole, from the storage before it. */
  ghost predicate Agrees(base: Option<Json>, c: Call, stored: Option<Json>, owner: Owner) {
    var r := c.request;
    var loaded := Load(base, owner.version, r.loading);
    var reading := Reading(base, r, owner.version);
    var whole := Perform(base, r, owner);
    match c.stage
    case Queued => stored == base
    case Getting => stored == base
    case WritingLoaded(l) => !r.getFails && l == loaded && l.write.Some? && stored == base
    case WritingRetry(l) =>
      !r.getFails && loaded.write.Some? && r.loadSetFails && Retry(base, owner.version, r.loading) == Some(l)
      && stored == base
    case Storing(next) =>
      && reading.Some? && !reading.value.readOnly && Mutates(r.op)
      && Next(r, reading.value.state, owner.version) == Some(next)
      && stored == AfterLoad(base, reading.value)
    case Registering(outcome) => stored == whole.stored && outcome == whole.outcome
    case Settled(outcome) => stored == whole.stored && outcome == whole.outcome
  }

  /** The first `k` calls have settled as in the sequential run. */
  predicate SettledInOrder(m: Machine, initial: Option<Json>, owner: Owner, k: nat)
    requires k <= |m.calls|
  {
    forall i :: 0 <= i < k ==> m.calls[i].stage == Settled(OutcomeInOrder(m, initial, owner, i))
  }

  /** The calls split into settled ones with the outcome of the sequential run, one that may be running, and queued
      ones; the storage is that of the sequential run up to what the running one has done. */
  ghost predicate Linear(m: Machine, initial: Option<Json>, owner: Owner, k: nat) {
    && k <= |m.calls|
    && SettledInOrder(m, initial, owner, k)
    && (forall i :: k < i < |m.calls| ==> m.calls[i].stage.Queued?)
    && (if k < |m.calls| then
          !m.calls[k].stage.Settled? && Agrees(Before(m, initial, owner, k), m.calls[k], m.stored, owner)
        else m.stored == Before(m, initial, owner, k))
  }

  /** A machine that some interleaving of calls can reach from an idle one. */
  ghost predicate Reachable(m: Machine, initial: Option<Json>, owner: Owner) {
    exists events: seq<Event> :: RunsTo(Machine(initial, []), events, m, owner)
  }

  ghost predicate RunsTo(m: Machine, events: seq<Event>, final: Machine, owner: Owner)
    decreases |events|
  {
    if events == [] then m == final
    else Enabled(m, events[0]) && RunsTo(Step(m, events[0], owner), events[1..], final, owner)
  }

  /** Answering an access keeps the agreement with the sequential run. */
  lemma ResumeAgrees(base: Option<Json>, c: Call, stored: Option<Json>, owner: Owner)
    requires !c.stage.Queued? && !c.stage.Settled?
    requires Agrees(base, c, stored, owner)
    ensures var (next, stage) := Resume(stored, c, owner);
            Agrees(base, c.(stage := stage), next, owner) && !stage.Queued?
  {
    match c.stage
    case Getting => GettingAgrees(base, c, owner);
    case WritingLoaded(loaded) =>
      if !c.request.loadSetFails {
        ProceedAgrees(base, c.request, loaded, owner);
      }
    case WritingRetry(loaded) =>
      RetryDropsTheSummary(base, owner.version, c.request.loading);
      if !c.request.retrySetFails {
        ProceedAgrees(base, c.request, loaded, owner);
      }
    case Storing(_) => StoringAgrees(base, c, stored, owner);
    case Registering(_) =>
  }

  lemma GettingAgrees(base: Option<Json>, c: Call, owner: Owner)
    requires c.stage.Getting?
    ensures var (next, stage) := Resume(base, c, owner);
            Agrees(base, c.(stage := stage), next, owner) && !stage.Queued?
  {
    var loaded := Load(base, owner.version, c.request.loading);
    if !c.request.getFails && loaded.write.None? {
      ProceedAgrees(base, c.request, loaded, owner);
    }
  }

  lemma StoringAgrees(base: Option<Json>, c: Call, stored: Option<Json>, owner: Owner)
    requires c.stage.Storing? && Agrees(base, c, stored, owner)
    ensures var (next, stage) := Resume(stored, c, owner);
            Agrees(base, c.(stage := stage), next, owner) && !stage.Queued?
  {}

  lemma ProceedAgrees(base: Option<Json>, r: Request, loaded: Loaded, owner: Owner)
    requires Reading(base, r, owner.version) == Some(loaded)
    ensures Agrees(base, Call(r, Proceed(r, loaded, owner)), AfterLoad(base, loaded), owner)
    ensures !Proceed(r, loaded, owner).Queued?
  {
    match r.op
    case Snapshot =>
    case Refresh =>
    case _ => assert Mutates(r.op);
  }

  lemma SameRequests(a: Machine, b: Machine, i: nat)
    requires |a.calls| <= |b.calls| && i <= |a.calls|
    requires forall j :: 0 <= j < |a.calls| ==> a.calls[j].request == b.calls[j].request
    ensures Requests(a.calls)[..i] == Requests(b.calls)[..i]
  {}

  /** The storage before a call does not depend on stages or on later calls. */
  lemma BeforeUnchanged(a: Machine, b: Machine, initial: Option<Json>, owner: Owner)
    requires |a.calls| <= |b.calls|
    requires forall j :: 0 <= j < |a.calls| ==> a.calls[j].request == b.calls[j].request
    ensures forall i: nat :: i <= |a.calls| ==> Before(a, initial, owner, i) == Before(b, initial, owner, i)
  {
    forall i: nat | i <= |a.calls|
      ensures Before(a, initial, owner, i) == Before(b, initial, owner, i)
    {
      SameRequests(a, b, i);
    }
  }

  lemma BeforeNext(m: Machine, initial: Option<Json>, owner: Owner, i: nat)
    requires i < |m.calls|
    ensures Before(m, initial, owner, i + 1)
         == Perform(Before(m, initial, owner, i), m.calls[i].request, owner).stored
  {
    var rs := Requests(m.calls);
    assert rs[..i + 1][..i] == rs[..i];
  }

  lemma InvokeKeepsLinear(m: Machine, initial: Option<Json>, owner: Owner, k: nat, r: Request)
    requires Linear(m, initial, owner, k)
    ensures Linear(m.(calls := m.calls + [Call(r, Queued)]), initial, owner, k)
  {
    BeforeUnchanged(m, m.(calls := m.calls + [Call(r, Queued)]), initial, owner);
    SettledInOrderKept(m, m.(calls := m.calls + [Call(r, Queued)]), initial, owner, k);
  }

  /** Only the first unsettled call can make progress. */
  lemma OnlyFirstProgresses(m: Machine, initial: Option<Json>, owner: Owner, k: nat, i: nat)
    requires Linear(m, initial, owner, k) && Enabled(m, Progressed(i))
    ensures i == k
  {}

  lemma SettledInOrderKept(m: Machine, next: Machine, initial: Option<Json>, owner: Owner, k: nat)
    requires k <= |m.calls| <= |next.calls| && SettledInOrder(m, initial, owner, k)
    requires forall j :: 0 <= j < |m.calls| ==> m.calls[j].request == next.calls[j].request
    requires forall j :: 0 <= j < k ==> m.calls[j] == next.calls[j]
    ensures SettledInOrder(next, initial, owner, k)
  {
    BeforeUnchanged(m, next, initial, owner);
  }

  lemma ProgressKeepsLinear(m: Machine, initial: Option<Json>, owner: Owner, k: nat)
    requires Linear(m, initial, owner, k) && Enabled(m, Progressed(k))
    ensures var next := Step(m, Progressed(k), owner);
            Linear(next, initial, owner, if next.calls[k].stage.Settled? then k + 1 else k)
  {
    var next := Step(m, Progressed(k), owner);
    BeforeUnchanged(m, next, initial, owner);
    SettledInOrderKept(m, next, initial, owner, k);
    if !m.calls[k].stage.Queued? {
      ResumeAgrees(Before(m, initial, owner, k), m.calls[k], m.stored, owner);
    }
    if next.calls[k].stage.Settled? {
      BeforeNext(next, initial, owner, k);
    }
  }

  lemma {:induction false} RunKeepsLinear(m: Machine, events: seq<Event>, final: Machine, initial: Option<Json>,
                                          owner: Owner, k: nat)
    requires Linear(m, initial, owner, k) && RunsTo(m, events, final, owner)
    ensures exists l: nat :: Linear(final, initial, owner, l)
    decreases |events|
  {
    if events != [] {
      var next := Step(m, events[0], owner);
      match events[0]
      case Invoked(r) =>
        InvokeKeepsLinear(m, initial, owner, k, r);
        RunKeepsLinear(next, events[1..], final, initial, owner, k);
      case Progressed(i) =>
        OnlyFirstProgresses(m, initial, owner, k, i);
        ProgressKeepsLinear(m, initial, owner, k);
        RunKeepsLinear(next, events[1..], final, initial, owner, if next.calls[k].stage.Settled? then k + 1 else k);
    }
  }

  /** Every reachable machine is linear: the operations take effect one at a time, in call order. */
  lemma ReachableIsLinear(m: Machine, initial: Option<Json>, owner: Owner)
    requires Reachable(m, initial, owner)
    ensures exists k: nat :: Linear(m, initial, owner, k)
  {
    var events: seq<Event> :| RunsTo(Machine(initial, []), events, m, owner);
    assert Linear(Machine(initial, []), initial, owner, 0);
    RunKeepsLinear(Machine(initial, []), events, m, initial, owner, 0);
  }

  /** Once every call has settled, storage and outcomes are those of the sequential run. */
  lemma SettledIsSequential(m: Machine, initial: Option<Json>, owner: Owner)
    requires Reachable(m, initial, owner) && forall i :: 0 <= i < |m.calls| ==> m.calls[i].stage.Settled?
    ensures m.stored == PerformAll(initial, Requests(m.calls), owner)
    ensures forall i :: 0 <= i < |m.calls| ==> m.calls[i].stage == Settled(OutcomeInOrder(m, initial, owner, i))
  {
    ReachableIsLinear(m, initial, owner);
    var k: nat :| Linear(m, initial, owner, k);
    assert Requests(m.calls)[..|m.calls|] == Requests(m.calls);
  }

  /** How many more answers a call needs, at most. */
  function Remaining(s: Stage): nat {
    match s
    case Queued => 6
    case Getting => 5
    case WritingLoaded(_) => 4
    case WritingRetry(_) => 3
    case Storing(_) => 2
    case Registering(_) => 1
    case Settled(_) => 0
  }

  function TotalRemaining(calls: seq<Call>): nat {
    if calls == [] then 0 else TotalRemaining(calls[..|calls| - 1]) + Remaining(calls[|calls| - 1].stage)
  }

  lemma {:induction false} TotalRemainingUpdate(calls: seq<Call>, i: nat, c: Call)
    requires i < |calls|
    ensures TotalRemaining(calls[i := c])
         == TotalRemaining(calls) - Remaining(calls[i].stage) + Remaining(c.stage)
  {
    var last := |calls| - 1;
    if i == last {
      assert calls[i := c][..last] == calls[..last];
    } else {
      assert calls[i := c][..last] == calls[..last][i := c];
      TotalRemainingUpdate(calls[..last], i, c);
    }
  }

  lemma ResumeBringsCloser(stored: Option<Json>, c: Call, owner: Owner)
    requires !c.stage.Queued? && !c.stage.Settled?
    ensures Remaining(Resume(stored, c, owner).1) < Remaining(c.stage)
  {}

  /** No failure blocks a later call: while any call is unsettled, the first such call can make progress, and every
      progress brings all of them closer to being settled. */
  lemma NeverBlocked(m: Machine, initial: Option<Json>, owner: Owner, k: nat)
    requires Linear(m, initial, owner, k) && k < |m.calls|
    ensures Enabled(m, Progressed(k))
    ensures TotalRemaining(Step(m, Progressed(k), owner).calls) < TotalRemaining(m.calls)
  {
    var next := Step(m, Progressed(k), owner);
    if !m.calls[k].stage.Queued? {
      ResumeBringsCloser(m.stored, m.calls[k], owner);
    }
    TotalRemainingUpdate(m.calls, k, next.calls[k]);
  }

  /** The first unsettled call is the one that runs, and its progress keeps everything that draining relies on. */
  lemma Advance(m: Machine, initial: Option<Json>, owner: Owner, k: nat, i: nat)
    requires Linear(m, initial, owner, k) && i <= k && i < |m.calls| && !m.calls[i].stage.Settled?
    ensures i == k && Enabled(m, Progressed(i))
    ensures var next := Step(m, Progressed(i), owner);
            && Linear(next, initial, owner, if next.calls[i].stage.Settled? then k + 1 else k)
            && Requests(next.calls) == Requests(m.calls)
            && TotalRemaining(next.calls) < TotalRemaining(m.calls)
  {
    NeverBlocked(m, initial, owner, k);
    ProgressKeepsLinear(m, initial, owner, k);
  }

  lemma SettledIsBehind(m: Machine, initial: Option<Json>, owner: Owner, k: nat, i: nat)
    requires Linear(m, initial, owner, k) && i <= k && i < |m.calls| && m.calls[i].stage.Settled?
    ensures i < k
  {}

  lemma IdleIsSequential(m: Machine, initial: Option<Json>, owner: Owner, k: nat)
    requires Linear(m, initial, owner, k) && |m.calls| <= k
    ensures k == |m.calls| && m.stored == PerformAll(initial, Requests(m.calls), owner)
  {
    assert Requests(m.calls)[..k] == Requests(m.calls);
  }

  /** The owner of the stored metrics: `calls` is the promise chain, with every call that was ever made. */
  class ProductMetricsOwner {
    const owner: Owner
    var stored: Option<Json>
    var calls: seq<Call>

    function View(): Machine
      reads this
    {
      Machine(stored, calls)
    }

    constructor (properties: Owner, initial: Option<Json>)
      ensures owner == properties && View() == Machine(initial, [])
    {
      owner, stored, calls := properties, initial, [];
    }

    /** Append an operation to the chain. */
    method Serialize(r: Request)
      requires IsRequest(r)
      modifies this
      ensures View() == Step(old(View()), Invoked(r), owner)
    {
      calls := calls + [Call(r, Queued)];
    }

    /** The answer to what call `i` waits for: its predecessor's settlement, or its own storage access. */
    method Answer(i: nat)
      requires Enabled(View(), Progressed(i))
      modifies this
      ensures View() == Step(old(View()), Progressed(i), owner)
    {
      var c := calls[i];
      if c.stage.Queued? {
        calls := calls[i := c.(stage := Getting)];
      } else {
        var (value, stage) := Resume(stored, c, owner);
        stored := value;
        calls := calls[i := c.(stage := stage)];
      }
    }

    /** Answer everything that is waited for until the chain is idle. */
    method Drain(ghost initial: Option<Json>, ghost done: nat)
      requires Linear(View(), initial, owner, done)
      modifies this
      ensures Requests(calls) == old(Requests(calls))
      ensures Linear(View(), initial, owner, |calls|)
      ensures stored == PerformAll(initial, Requests(calls), owner)
    {
      ghost var k := done;
      var i := 0;
      while i < |calls|
        invariant i <= |calls| && i <= k
        invariant Linear(View(), initial, owner, k)
        invariant Requests(calls) == old(Requests(calls))
        decreases |calls| - i, TotalRemaining(calls)
      {
        if calls[i].stage.Settled? {
          SettledIsBehind(View(), initial, owner, k, i);
          i := i + 1;
        } else {
          Advance(View(), initial, owner, k, i);
          Answer(i);
          k := if calls[i].stage.Settled? then k + 1 else k;
        }
      }
      IdleIsSequential(View(), initial, owner, k);
    }
  }
}
