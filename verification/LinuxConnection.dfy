/** The extension page that connects to the Linux service: a bounded health reader, and runs that suspend twice while
    the visitor cancels, leaves and comes back. */
module LinuxConnection {
  import opened Wrappers
  import opened Bytes

  const MAX_HEALTH_BYTES: nat := 4096

  /** The health reader's loop: `chunks` is what the body's reader will yield, `declared` the numeric content length. It
      rejects an oversized body and otherwise reassembles it. */
  method ReadHealthBody(declared: Option<nat>, chunks: seq<seq<byte>>) returns (body: Option<seq<byte>>, taken: nat)
    ensures body.Some? <==>
            !(declared.Some? && declared.value > 4096) && |Flatten(chunks)| <= 4096
    ensures body.Some? ==> body.value == Flatten(chunks)
    ensures taken <= |chunks|
    ensures taken > 0 ==> |Flatten(chunks[..taken - 1])| <= MAX_HEALTH_BYTES
  {
    taken := 0;
    if declared.Some? && declared.value > MAX_HEALTH_BYTES {
      return None, taken;
    }
    var kept: seq<seq<byte>>, length := [], 0;
    while taken < |chunks|
      invariant taken <= |chunks| && kept == chunks[..taken]
      invariant length == |Flatten(kept)| <= MAX_HEALTH_BYTES
    {
      TakeOne(chunks, taken);
      length := length + |chunks[taken]|;
      taken := taken + 1;
      if length > MAX_HEALTH_BYTES {
        FlattenPrefix(chunks, taken);
        assert chunks[..taken - 1] == kept;
        return None, taken;
      }
      kept := kept + [chunks[taken - 1]];
    }
    assert kept == chunks;
    if taken > 0 {
      FlattenPrefix(chunks, taken - 1);
    }
    var bytes := Reassemble(kept, length);
    body := Some(bytes);
  }

  /** Copies the kept chunks one behind the other into one buffer. */
  method Reassemble(chunks: seq<seq<byte>>, length: nat) returns (bytes: seq<byte>)
    requires length == |Flatten(chunks)|
    ensures bytes == Flatten(chunks)
  {
    var buffer := new byte[length](_ => 0);
    var offset: nat := 0;
    for next: nat := 0 to |chunks|
      invariant offset == |Flatten(chunks[..next])| <= length
      invariant buffer[..offset] == Flatten(chunks[..next])
    {
      TakeOne(chunks, next);
      FlattenPrefix(chunks, next + 1);
      ghost var before := buffer[..offset];
      var chunk := chunks[next];
      for i: nat := 0 to |chunk|
        invariant buffer[..offset] == before
        invariant buffer[offset..offset + i] == chunk[..i]
      {
        buffer[offset + i] := chunk[i];
      }
      assert buffer[..offset + |chunk|] == buffer[..offset] + buffer[offset..offset + |chunk|];
      offset := offset + |chunk|;
    }
    assert chunks[..|chunks|] == chunks;
    bytes := buffer[..];
  }

  lemma TakeOne<T>(pieces: seq<seq<T>>, k: nat)
    requires k < |pieces|
    ensures pieces[..k + 1] == pieces[..k] + [pieces[k]]
    ensures Flatten(pieces[..k + 1]) == Flatten(pieces[..k]) + pieces[k]
  {
    assert pieces[..k + 1][..k] == pieces[..k];
  }

  /** The texts of the status line. */
  datatype Status =
    | CheckingAccess | CheckingService | Ready
    | PermissionDenied | Unreachable | TimeoutText | Canceled
    | ServiceError | WrongService | Incompatible | InvalidResponse

  datatype Caption = Cancel | Retry

  /** Where a run is suspended. */
  datatype Stage = AwaitingGrant | AwaitingHealth

  /** One run with its own abort controller, deadline and flags. */
  datatype Flight = Flight(stage: Stage, aborted: bool, timedOut: bool, timer: bool)

  datatype Page = Page(active: bool, visible: bool, generation: nat, status: Status, caption: Caption, enabled: bool)

  /** What an observer of the connection sees; `Finished` closes a run. */
  datatype Mark =
    | Started(run: nat)
    | Cancelled(run: nat)
    | Left
    | Expired(run: nat)
    | Navigated(run: nat)
    | Finished(run: nat)

  /** `flights` holds every run that has not finished; `task` and `controller` are the closure's two variables;
      `restorers` are the generations of restorations that wait, each with the task it waits for. */
  datatype World = World(
    page: Page, flights: map<nat, Flight>, task: Option<nat>, controller: Option<nat>, count: nat,
    restorers: set<Restorer>, history: seq<Mark>)

  datatype Restorer = Restorer(generation: nat, awaited: Option<nat>)

  datatype Grant = Allowed | Refused | GrantFails

  /** A health check's result; `Throws` covers network failure and the abort error. */
  datatype Health = Service(text: Status) | Throws

  datatype Event =
    | Clicked
    | Granted(run: nat, grant: Grant)
    | Checked(run: nat, health: Health)
    | Deadline(run: nat)
    | Hidden
    | Shown(persisted: bool)
    | Resumed(restorer: Restorer)

  predicate IsHealth(h: Health) {
    h.Service? ==>
      h.text in {Ready, ServiceError, WrongService, Incompatible, InvalidResponse}
  }

  predicate Enabled(w: World, e: Event) {
    match e
    case Clicked => true
    case Granted(r, _) => r in w.flights && w.flights[r].stage == AwaitingGrant
    case Checked(r, h) => r in w.flights && w.flights[r].stage == AwaitingHealth && IsHealth(h)
    case Deadline(r) => r in w.flights && w.flights[r].timer
    case Hidden => w.page.visible
    case Shown(persisted) => persisted ==> !w.page.visible
    case Resumed(x) => x in w.restorers && (x.awaited.Some? ==> x.awaited.value !in w.flights)
  }

  /** A new run, up to its first suspension. */
  function Connected(w: World): World {
    if w.task.Some? then w
    else
      World(w.page.(caption := Cancel, enabled := false, status := CheckingAccess),
            w.flights[w.count := Flight(AwaitingGrant, false, false, false)], Some(w.count), Some(w.count), w.count + 1,
            w.restorers, w.history + [Started(w.count)])
  }

  /** Aborts the current controller's run, if it has one that has not finished. */
  function Abort(w: World, mark: Mark): World {
    if w.controller.Some? && w.controller.value in w.flights then
      var r := w.controller.value;
      w.(flights := w.flights[r := w.flights[r].(aborted := true)], history := w.history + [mark])
    else w.(history := w.history + [mark])
  }

  function Closing(history: seq<Mark>, run: nat, navigates: bool): seq<Mark> {
    if navigates then (history + [Navigated(run)]) + [Finished(run)] else history + [Finished(run)]
  }

  /** The end of a run: its status if it writes one, the button if the page is active, and the freed task. */
  function End(w: World, run: nat, text: Option<Status>, navigates: bool): World {
    var p := if text.Some? then w.page.(status := text.value) else w.page;
    World(if p.active then p.(caption := Retry, enabled := true) else p,
          w.flights - {run}, if w.task == Some(run) then None else w.task, w.controller, w.count,
          w.restorers, Closing(w.history, run, navigates))
  }

  /** The status that an exception leaves. */
  function Failure(w: World, f: Flight): Option<Status> {
    if !w.page.active then None
    else if !f.aborted then Some(Unreachable)
    else if f.timedOut then Some(TimeoutText)
    else Some(Canceled)
  }

  function Or(text: Option<Status>, otherwise: Status): Status {
    if text.Some? then text.value else otherwise
  }

  function AfterGrant(w: World, run: nat, grant: Grant): World
    requires run in w.flights
  {
    var f := w.flights[run];
    match grant
    case GrantFails => End(w, run, Failure(w, f), false)
    case Refused => End(w, run, Some(PermissionDenied), false)
    case Allowed =>
      if f.aborted || !w.page.active then End(w, run, None, false)
      else
        w.(page := w.page.(enabled := true, status := CheckingService),
           flights := w.flights[run := f.(stage := AwaitingHealth, timer := true)])
  }

  function AfterHealth(w: World, run: nat, health: Health): World
    requires run in w.flights
  {
    var f := w.flights[run];
    match health
    case Throws => End(w, run, Failure(w, f), false)
    case Service(text) =>
      if f.aborted || !w.page.active then End(w, run, None, false)
      else End(w, run, Some(text), text == Ready)
  }

  function Click(w: World): World {
    if !w.page.active || !w.page.enabled then w
    else if w.task.Some? then
      Abort(w.(page := w.page.(status := Canceled, enabled := false)), Cancelled(w.task.value))
    else Connected(w)
  }

  function Step(w: World, e: Event): World
    requires Enabled(w, e)
  {
    match e
    case Clicked => Click(w)
    case Granted(r, grant) => AfterGrant(w, r, grant)
    case Checked(r, health) => AfterHealth(w, r, health)
    case Deadline(r) =>
      w.(flights := w.flights[r := w.flights[r].(aborted := true, timedOut := true, timer := false)],
         history := w.history + [Expired(r)])
    case Hidden =>
      Abort(w.(page := w.page.(generation := w.page.generation + 1, active := false, visible := false)), Left)
    case Shown(persisted) =>
      if !persisted then w
      else
        var g := w.page.generation + 1;
        w.(page := w.page.(generation := g, visible := true), restorers := w.restorers + {Restorer(g, w.task)})
    case Resumed(x) =>
      var v := w.(restorers := w.restorers - {x});
      if x.generation != w.page.generation then v
      else v.(page := w.page.(active := true, status := Canceled, caption := Retry, enabled := true))
  }

  const BLANK: World := World(Page(true, true, 0, CheckingAccess, Retry, true), map[], None, None, 0, {}, [])

  /** The page opens with a run that asks for nothing new. */
  const START: World :=
    Connected(BLANK)

  predicate Possible(w: World, events: seq<Event>)
    decreases |events|
  {
    events == [] || (Enabled(w, events[0]) && Possible(Step(w, events[0]), events[1..]))
  }

  function Run(w: World, events: seq<Event>): World
    requires Possible(w, events)
    decreases |events|
  {
    if events == [] then w else Run(Step(w, events[0]), events[1..])
  }

  /** The run that a history leaves open. */
  function Current(history: seq<Mark>): Option<nat>
    decreases |history|
  {
    if history == [] then None
    else
      var last := history[|history| - 1];
      if last.Started? then Some(last.run)
      else if last.Finished? then None
      else Current(history[..|history| - 1])
  }

  /** Mark `m` may follow `front`: runs open and close one at a time, and a navigation directly follows the start of its
      own run, so nobody left, cancelled or timed out in between. */
  predicate MayFollow(front: seq<Mark>, m: Mark) {
    match m
    case Started(_) => Current(front).None?
    case Finished(r) => Current(front) == Some(r)
    case Navigated(r) => front != [] && front[|front| - 1] == Started(r)
    case Cancelled(r) => Current(front) == Some(r)
    case Expired(r) => Current(front) == Some(r)
    case Left => true
  }

  predicate Orderly(history: seq<Mark>) {
    forall k: nat :: k < |history| ==> MayFollow(history[..k], history[k])
  }

  /** The last thing that happened is the start of run `r`. */
  predicate JustStarted(history: seq<Mark>, r: nat) {
    history != [] && history[|history| - 1] == Started(r)
  }

  /** At most one run is in flight, and the closure's variables name it. */
  ghost predicate TaskInv(w: World) {
    && w.task == Current(w.history)
    && w.flights.Keys == (if w.task.Some? then {w.task.value} else {})
    && (w.task.Some? ==> w.controller == w.task && w.task.value < w.count)
    && StoppedBelow(w.history, w.count)
  }

  /** Only runs that have been numbered have been cancelled or have run out of time. */
  ghost predicate StoppedBelow(history: seq<Mark>, count: nat) {
    forall r: nat :: Expired(r) in history || Cancelled(r) in history ==> r < count
  }

  /** What the page shows while run `f` is in flight. */
  predicate FlightInv(p: Page, f: Flight) {
    && (!p.active ==> f.aborted)
    && (f.timer ==> f.stage == AwaitingHealth)
    && (f.timedOut ==> f.aborted)
    && (f.stage == AwaitingHealth ==> f.timer || f.timedOut)
    && (p.active ==> p.caption == Cancel)
    && (p.active && f.stage == AwaitingGrant ==> !f.aborted && !p.enabled && p.status == CheckingAccess)
    && (p.active && f.stage == AwaitingHealth ==>
        && (if p.enabled then p.status == CheckingService else p.status == Canceled && f.aborted)
        && (p.enabled && f.aborted ==> f.timedOut))
  }

  predicate PageInv(w: World) {
    && (w.page.active ==> w.page.visible)
    && match w.task
       case None => w.page.active ==> w.page.enabled && w.page.caption == Retry && w.page.status != CheckingAccess
       case Some(r) =>
         && r in w.flights && FlightInv(w.page, w.flights[r])
         && (JustStarted(w.history, r) <==> w.page.active && !w.flights[r].aborted)
         && (w.flights[r].timedOut <==> Expired(r) in w.history)
         && (Cancelled(r) in w.history ==> w.flights[r].stage == AwaitingHealth)
         && (w.page.active && w.flights[r].stage == AwaitingHealth ==>
              (w.page.enabled <==> Cancelled(r) !in w.history))
  }

  /** A page that was shown again and is not yet active has one restoration under way, which waits for the run in flight
      and for no other. */
  predicate RestoreInv(p: Page, task: Option<nat>, restorers: set<Restorer>) {
    && (p.visible && !p.active <==> exists x: Restorer :: x in restorers && x.generation == p.generation)
    && (forall x: Restorer :: x in restorers ==> x.generation <= p.generation)
    && (forall x: Restorer :: x in restorers && x.generation == p.generation && task.Some? ==> x.awaited == task)
    && (forall x: Restorer, y: Restorer ::
          x in restorers && y in restorers && x.generation == y.generation ==> x == y)
  }

  ghost predicate Inv(w: World) {
    TaskInv(w) && PageInv(w) && RestoreInv(w.page, w.task, w.restorers) && Orderly(w.history)
  }

  lemma Push(history: seq<Mark>, m: Mark)
    requires Orderly(history) && MayFollow(history, m)
    ensures Orderly(history + [m])
    ensures Current(history + [m]) ==
            if m.Started? then Some(m.run) else if m.Finished? then None else Current(history)
    ensures forall r: nat :: JustStarted(history + [m], r) <==> m == Started(r)
    ensures forall r: nat :: Expired(r) in history + [m] <==> Expired(r) in history || m == Expired(r)
    ensures forall r: nat :: Cancelled(r) in history + [m] <==> Cancelled(r) in history || m == Cancelled(r)
  {
    var after := history + [m];
    assert after[..|history|] == history;
    forall k: nat | k < |after|
      ensures MayFollow(after[..k], after[k])
    {
      if k < |history| {
        assert after[..k] == history[..k];
      }
    }
  }

  lemma ConnectKeeps(w: World)
    requires Inv(w) && w.page.active && w.task.None?
    ensures Inv(Connected(w))
  {
    Push(w.history, Started(w.count));
  }

  lemma ClickKeeps(w: World)
    requires Inv(w)
    ensures Inv(Click(w))
  {
    if w.page.active && w.page.enabled {
      if w.task.Some? {
        CancelKeeps(w, w.task.value);
      } else {
        ConnectKeeps(w);
      }
    }
  }

  lemma CancelKeeps(w: World, run: nat)
    requires Inv(w) && w.page.active && w.page.enabled && w.task == Some(run)
    ensures Inv(Click(w))
  {
    var page, flight := w.page.(status := Canceled, enabled := false), w.flights[run].(aborted := true);
    var v := w.(page := page, flights := w.flights[run := flight], history := w.history + [Cancelled(run)]);
    assert Click(w) == v;
    Push(w.history, Cancelled(run));
    CancelledFlight(w.page, w.flights[run]);
    CancelTask(w, v, run);
    CancelPage(w, v, run);
  }

  lemma CancelledFlight(p: Page, f: Flight)
    requires FlightInv(p, f) && p.active && p.enabled
    ensures f.stage == AwaitingHealth
    ensures FlightInv(p.(status := Canceled, enabled := false), f.(aborted := true))
  {}

  lemma CancelTask(w: World, v: World, run: nat)
    requires TaskInv(w) && w.task == v.task == Some(run) && v.controller == w.controller && v.count == w.count
    requires v.flights.Keys == w.flights.Keys && v.history == w.history + [Cancelled(run)]
    ensures TaskInv(v)
  {
    assert v.history[..|w.history|] == w.history;
  }

  lemma CancelPage(w: World, v: World, run: nat)
    requires PageInv(w) && w.task == v.task == Some(run) && w.page.active && w.page.enabled
    requires v.page == w.page.(status := Canceled, enabled := false) && run in w.flights && run in v.flights
    requires v.flights[run] == w.flights[run].(aborted := true) && v.history == w.history + [Cancelled(run)]
    ensures PageInv(v)
  {
    CancelledFlight(w.page, w.flights[run]);
    assert v.history[|w.history|] == Cancelled(run);
    assert Expired(run) in v.history <==> Expired(run) in w.history;
  }

  lemma ClosingKeeps(history: seq<Mark>, run: nat, navigates: bool)
    requires Orderly(history) && Current(history) == Some(run)
    requires navigates ==> JustStarted(history, run)
    ensures Orderly(Closing(history, run, navigates)) && Current(Closing(history, run, navigates)).None?
    ensures forall r: nat :: Expired(r) in Closing(history, run, navigates) <==> Expired(r) in history
    ensures forall r: nat :: Cancelled(r) in Closing(history, run, navigates) <==> Cancelled(r) in history
  {
    if navigates {
      Push(history, Navigated(run));
      Push(history + [Navigated(run)], Finished(run));
    } else {
      Push(history, Finished(run));
    }
  }

  lemma EndKeeps(w: World, run: nat, text: Option<Status>, navigates: bool)
    requires Inv(w) && run in w.flights
    requires navigates ==> JustStarted(w.history, run)
    requires text != Some(CheckingAccess)
    requires text.None? && w.page.active ==> w.flights[run].stage == AwaitingHealth
    ensures Inv(End(w, run, text, navigates))
  {
    ClosingKeeps(w.history, run, navigates);
  }

  lemma GrantKeeps(w: World, run: nat, grant: Grant)
    requires Inv(w) && Enabled(w, Granted(run, grant))
    ensures Inv(AfterGrant(w, run, grant))
  {
    var f := w.flights[run];
    match grant
    case GrantFails => EndKeeps(w, run, Failure(w, f), false);
    case Refused => EndKeeps(w, run, Some(PermissionDenied), false);
    case Allowed =>
      if f.aborted || !w.page.active {
        EndKeeps(w, run, None, false);
      }
  }

  lemma HealthKeeps(w: World, run: nat, health: Health)
    requires Inv(w) && Enabled(w, Checked(run, health))
    ensures Inv(AfterHealth(w, run, health))
  {
    var f := w.flights[run];
    match health
    case Throws => EndKeeps(w, run, Failure(w, f), false);
    case Service(text) =>
      if f.aborted || !w.page.active {
        EndKeeps(w, run, None, false);
      } else {
        EndKeeps(w, run, Some(text), text == Ready);
      }
  }

  lemma DeadlineKeeps(w: World, run: nat)
    requires Inv(w) && Enabled(w, Deadline(run))
    ensures Inv(Step(w, Deadline(run)))
  {
    var v := Step(w, Deadline(run));
    Push(w.history, Expired(run));
    assert w.task == Some(run) && v.flights.Keys == w.flights.Keys;
    assert FlightInv(v.page, v.flights[run]);
    assert PageInv(v) && TaskInv(v);
  }

  lemma HiddenKeeps(w: World)
    requires Inv(w) && Enabled(w, Hidden)
    ensures Inv(Step(w, Hidden))
  {
    Push(w.history, Left);
  }

  lemma ShownKeeps(w: World)
    requires Inv(w) && !w.page.visible
    ensures Inv(Step(w, Shown(true)))
  {
    var x := Restorer(w.page.generation + 1, w.task);
    assert x in Step(w, Shown(true)).restorers;
  }

  lemma ResumedKeeps(w: World, x: Restorer)
    requires Inv(w) && Enabled(w, Resumed(x))
    ensures Inv(Step(w, Resumed(x)))
  {
    if x.generation != w.page.generation && w.page.visible && !w.page.active {
      var y :| y in w.restorers && y.generation == w.page.generation;
      assert y in w.restorers - {x};
    }
  }

  lemma StepKeeps(w: World, e: Event)
    requires Inv(w) && Enabled(w, e)
    ensures Inv(Step(w, e))
  {
    match e
    case Clicked => ClickKeeps(w);
    case Granted(r, grant) => GrantKeeps(w, r, grant);
    case Checked(r, health) => HealthKeeps(w, r, health);
    case Deadline(r) => DeadlineKeeps(w, r);
    case Hidden => HiddenKeeps(w);
    case Shown(persisted) => if persisted { ShownKeeps(w); }
    case Resumed(x) => ResumedKeeps(w, x);
  }

  lemma {:induction false} RunKeeps(w: World, events: seq<Event>)
    requires Inv(w) && Possible(w, events)
    ensures Inv(Run(w, events))
    decreases |events|
  {
    if events != [] {
      StepKeeps(w, events[0]);
      RunKeeps(Step(w, events[0]), events[1..]);
    }
  }

  lemma Reachable(events: seq<Event>)
    requires Possible(START, events)
    ensures Inv(Run(START, events))
  {
    Push([], Started(0));
    RunKeeps(START, events);
  }

  /** In every ordering of events at most one run is in flight, the closure's `task` is that run, and runs open and
      close one at a time. */
  lemma OneRunInFlight(events: seq<Event>)
    requires Possible(START, events)
    ensures var w := Run(START, events);
            && |w.flights| <= 1
            && (w.task.Some? <==> |w.flights| == 1)
            && (forall r: nat :: r in w.flights ==> w.task == Some(r) && w.controller == Some(r))
            && Orderly(w.history)
  {
    Reachable(events);
    var w := Run(START, events);
    assert |w.flights| == |w.flights.Keys|;
  }

  /** Event `e` makes run `run` navigate. */
  predicate Navigates(w: World, e: Event, run: nat)
    requires Enabled(w, e)
  {
    var before, after := w.history, Step(w, e).history;
    |before| < |after| && after[|before|] == Navigated(run)
  }

  lemma CheckNavigatesIff(w: World, r: nat, health: Health, run: nat)
    requires Inv(w) && Enabled(w, Checked(r, health))
    ensures Navigates(w, Checked(r, health), run) <==>
            r == run && health == Service(Ready) && JustStarted(w.history, run)
  {
    assert w.task == Some(r);
  }

  lemma GrantNeverNavigates(w: World, r: nat, grant: Grant, run: nat)
    requires Inv(w) && Enabled(w, Granted(r, grant))
    ensures !Navigates(w, Granted(r, grant), run)
  {}

  lemma OthersNeverNavigate(w: World, e: Event, run: nat)
    requires Enabled(w, e) && !e.Granted? && !e.Checked?
    ensures !Navigates(w, e, run)
  {}

  /** A run navigates exactly when its check says ready and nothing has happened since its start: nobody cancelled, left
      or ran out of time, and no other run has started. */
  lemma NavigatesIff(events: seq<Event>, e: Event, run: nat)
    requires Possible(START, events) && Enabled(Run(START, events), e)
    ensures var w := Run(START, events);
            Navigates(w, e, run) <==> e == Checked(run, Service(Ready)) && JustStarted(w.history, run)
  {
    Reachable(events);
    NavigatesStep(Run(START, events), e, run);
  }

  lemma NavigatesStep(w: World, e: Event, run: nat)
    requires Inv(w) && Enabled(w, e)
    ensures Navigates(w, e, run) <==> e == Checked(run, Service(Ready)) && JustStarted(w.history, run)
  {
    match e
    case Checked(r, health) => CheckNavigatesIff(w, r, health, run);
    case Granted(r, grant) => GrantNeverNavigates(w, r, grant, run);
    case _ => OthersNeverNavigate(w, e, run);
  }

  /** The page is hidden, or shown from the browser's cache. */
  predicate Turns(e: Event) {
    e.Hidden? || e == Shown(true)
  }

  lemma {:induction false} TurnsAreCounted(w: World, events: seq<Event>)
    requires Possible(w, events)
    ensures w.page.generation <= Run(w, events).page.generation
    ensures w.page.generation == Run(w, events).page.generation <==> forall e <- events :: !Turns(e)
    decreases |events|
  {
    if events != [] {
      TurnIsCounted(w, events[0]);
      TurnsAreCounted(Step(w, events[0]), events[1..]);
      FirstAndRest(events);
    }
  }

  lemma TurnIsCounted(w: World, e: Event)
    requires Enabled(w, e)
    ensures Step(w, e).page.generation == w.page.generation + if Turns(e) then 1 else 0
  {}

  lemma FirstAndRest(events: seq<Event>)
    requires events != []
    ensures (forall e <- events :: !Turns(e)) <==> !Turns(events[0]) && forall e <- events[1..] :: !Turns(e)
  {
    assert events == [events[0]] + events[1..] && events[0] in events;
  }

  /** The restoration that showing the page starts finishes by reactivating it exactly when the page has neither been
      hidden nor shown since; then it is visible and inactive, and no run is in flight. */
  lemma ReactivatesIff(before: seq<Event>, after: seq<Event>)
    requires Possible(START, before) && Enabled(Run(START, before), Shown(true))
    requires Possible(Step(Run(START, before), Shown(true)), after)
    requires var shown := Step(Run(START, before), Shown(true));
             Enabled(Run(shown, after), Resumed(Restorer(shown.page.generation, shown.task)))
    ensures var shown := Step(Run(START, before), Shown(true));
            var w := Run(shown, after);
            var next := Step(w, Resumed(Restorer(shown.page.generation, shown.task)));
            && (next.page.active && !w.page.active <==> forall e <- after :: !Turns(e))
            && (next.page.active && !w.page.active ==>
                 && w.page.visible && w.flights == map[]
                 && next.page.status == Canceled && next.page.caption == Retry && next.page.enabled)
            && (!(forall e <- after :: !Turns(e)) ==> next.page == w.page)
  {
    Reachable(before);
    var shown := Step(Run(START, before), Shown(true));
    StepKeeps(Run(START, before), Shown(true));
    RunKeeps(shown, after);
    TurnsAreCounted(shown, after);
    if Run(shown, after).page.generation == shown.page.generation {
      CurrentRestorer(Run(shown, after), Restorer(shown.page.generation, shown.task));
    }
  }

  lemma CurrentRestorer(w: World, x: Restorer)
    requires Inv(w) && Enabled(w, Resumed(x)) && x.generation == w.page.generation
    ensures !w.page.active && w.page.visible && w.flights == map[]
  {}

  /** The page opens with one run that waits for its permission. */
  lemma Opening()
    ensures START.flights == map[0 := Flight(AwaitingGrant, false, false, false)] && START.task == Some(0)
    ensures START.page == Page(true, true, 0, CheckingAccess, Cancel, false) && START.history == [Started(0)]
  {}

  /** A click on a live button starts a run if none is in flight, and cancels the one that is; on a dead button, or a
      page that was left, it does nothing. */
  lemma ClickShown(events: seq<Event>)
    requires Possible(START, events)
    ensures var w := Run(START, events);
            var next := Step(w, Clicked);
            if !w.page.active || !w.page.enabled then next == w
            else if w.flights == map[] then
              && next.task.Some? && next.history == w.history + [Started(next.task.value)]
              && next.flights == map[next.task.value := Flight(AwaitingGrant, false, false, false)]
              && next.page.status == CheckingAccess && next.page.caption == Cancel && !next.page.enabled
            else
              && w.task.Some? && next.task == w.task && next.history == w.history + [Cancelled(w.task.value)]
              && next.flights.Keys == w.flights.Keys == {w.task.value} && next.flights[w.task.value].aborted
              && next.page.status == Canceled && next.page.caption == Cancel && !next.page.enabled
  {
    Reachable(events);
    ClickLeaves(Run(START, events));
  }

  lemma ClickLeaves(w: World)
    requires Inv(w)
    ensures w.flights == map[] <==> w.task.None?
    ensures w.task.Some? ==> w.controller == w.task && w.flights.Keys == {w.task.value}
    ensures w.page.active && w.task.Some? ==> w.page.caption == Cancel
  {
    if w.task.None? {
      assert w.flights.Keys == {};
    }
  }

  /** Leaving the page aborts the run in flight, without a timeout. */
  lemma LeavingAborts(events: seq<Event>, run: nat)
    requires Possible(START, events) && run in Run(START, events).flights && Run(START, events).page.visible
    ensures var w := Run(START, events);
            var next := Step(w, Hidden);
            && !next.page.active && !next.page.visible && run in next.flights && next.flights[run].aborted
            && next.flights[run].timedOut == w.flights[run].timedOut
  {
    Reachable(events);
    ClickLeaves(Run(START, events));
  }

  /** Every check that is under way has its deadline before it or behind it. */
  lemma CheckHasDeadline(events: seq<Event>, run: nat)
    requires Possible(START, events) && run in Run(START, events).flights
    requires Run(START, events).flights[run].stage == AwaitingHealth
    ensures var w := Run(START, events); Enabled(w, Deadline(run)) || Expired(run) in w.history
  {
    Reachable(events);
  }

  /** The deadline aborts its run and marks it as timed out. */
  lemma DeadlineAborts(w: World, run: nat)
    requires Enabled(w, Deadline(run))
    ensures var next := Step(w, Deadline(run));
            && run in next.flights
            && next.flights[run].aborted && next.flights[run].timedOut && !next.flights[run].timer
            && next.page == w.page
  {}

  /** What a run leaves that ends at the grant: on an active page the refusal or the failure, and a freed button; on a
      page that was left nothing but the refusal. A grant on an active page leads on to the check. */
  lemma GrantShown(events: seq<Event>, run: nat, grant: Grant)
    requires Possible(START, events) && Enabled(Run(START, events), Granted(run, grant))
    ensures var w := Run(START, events);
            var next := Step(w, Granted(run, grant));
            var ends := !grant.Allowed? || !w.page.active;
            && (run !in next.flights <==> ends)
            && next.page.status == (if grant.Refused? then PermissionDenied
                                    else if !w.page.active then w.page.status
                                    else if grant.GrantFails? then Unreachable
                                    else CheckingService)
            && (w.page.active ==> next.page.enabled && next.page.caption == if ends then Retry else Cancel)
            && (!w.page.active ==> next.page.enabled == w.page.enabled && next.page.caption == w.page.caption)
  {
    Reachable(events);
    GrantLeaves(Run(START, events), run, grant);
  }

  lemma GrantLeaves(w: World, run: nat, grant: Grant)
    requires Inv(w) && Enabled(w, Granted(run, grant))
    ensures FlightInv(w.page, w.flights[run]) && w.task == Some(run)
    ensures w.page.active ==> !w.flights[run].aborted
  {}

  /** What the failure of run `run` leaves on an active page follows from what happened to it: that it timed out, that
      the visitor cancelled it, or nothing at all. */
  function FailureText(history: seq<Mark>, run: nat): Status {
    if Expired(run) in history then TimeoutText else if JustStarted(history, run) then Unreachable else Canceled
  }

  /** What a check leaves on an active page: its own text, unless the visitor cancelled it or its deadline passed; a
      result behind the deadline leaves the text that says the check is under way. */
  function CheckText(history: seq<Mark>, run: nat, health: Health): Status {
    match health
    case Throws => FailureText(history, run)
    case Service(text) =>
      if Cancelled(run) in history then Canceled else if Expired(run) in history then CheckingService else text
  }

  lemma FailureByHistory(w: World, run: nat)
    requires Inv(w) && w.page.active && run in w.flights
    ensures Failure(w, w.flights[run]) == Some(FailureText(w.history, run))
  {
    assert w.task == Some(run);
  }

  lemma CheckByHistory(w: World, run: nat, health: Health)
    requires Inv(w) && w.page.active && Enabled(w, Checked(run, health))
    ensures var p := Step(w, Checked(run, health)).page;
            p.status == CheckText(w.history, run, health) && p.caption == Retry && p.enabled
  {
    assert w.task == Some(run);
    FailureByHistory(w, run);
  }

  /** In every ordering the text that the end of a check leaves on an active page, and the freed button. */
  lemma CheckShown(events: seq<Event>, run: nat, health: Health)
    requires Possible(START, events) && Enabled(Run(START, events), Checked(run, health))
    requires Run(START, events).page.active
    ensures var w := Run(START, events);
            var p := Step(w, Checked(run, health)).page;
            p.status == CheckText(w.history, run, health) && p.caption == Retry && p.enabled
  {
    Reachable(events);
    CheckByHistory(Run(START, events), run, health);
  }

  /** The page goes on saying that it is checking exactly when a check returned a result although its deadline had
      passed and the visitor had not cancelled. */
  lemma StaleTextIff(events: seq<Event>, run: nat, health: Health)
    requires Possible(START, events) && Enabled(Run(START, events), Checked(run, health))
    requires Run(START, events).page.active
    ensures var w := Run(START, events);
            Step(w, Checked(run, health)).page.status == CheckingService <==>
            health.Service? && Expired(run) in w.history && Cancelled(run) !in w.history
  {
    CheckShown(events, run, health);
  }

  /** That can happen: the deadline passes while the reader of an error answer is being cancelled. */
  lemma StaleTextReachable()
    ensures var events := [Granted(0, Allowed), Deadline(0), Checked(0, Service(ServiceError))];
            && Possible(START, events)
            && var p := Run(START, events).page;
               p.active && p.caption == Retry && p.status == CheckingService
  {
    var third := [Checked(0, Service(ServiceError))];
    var second := [Deadline(0)] + third;
    var granted := Step(START, Granted(0, Allowed));
    var expired := Step(granted, Deadline(0));
    assert ([Granted(0, Allowed)] + second)[1..] == second && second[1..] == third && third[1..] == [];
    assert Possible(expired, third) && Possible(granted, second);
    assert [Granted(0, Allowed)] + second == [Granted(0, Allowed), Deadline(0), Checked(0, Service(ServiceError))];
  }

  /** A visible page without a run accepts a click, or its restoration can finish at once. */
  lemma NeverStuck(events: seq<Event>)
    requires Possible(START, events)
    ensures var w := Run(START, events);
            w.page.visible && w.task.None? ==>
            (w.page.active && w.page.enabled && w.page.caption == Retry)
            || exists x: Restorer :: x in w.restorers && x.generation == w.page.generation && Enabled(w, Resumed(x))
  {
    Reachable(events);
  }

  /** The page object; the frames of the suspended runs are its map `flights`. */
  class Connection {
    var active: bool
    var generation: nat
    var controller: Option<nat>
    var task: Option<nat>
    var status: Status
    var caption: Caption
    var buttonEnabled: bool
    var flights: map<nat, Flight>
    var restorers: set<Restorer>
    var count: nat
    ghost var visible: bool
    ghost var history: seq<Mark>

    ghost function View(): World
      reads this
    {
      World(Page(active, visible, generation, status, caption, buttonEnabled), flights, task, controller, count,
            restorers, history)
    }

    constructor ()
      ensures View() == START
    {
      active, generation, controller, task := true, 0, None, None;
      status, caption, buttonEnabled := CheckingAccess, Retry, true;
      flights, restorers, count := map[], {}, 0;
      visible, history := true, [];
      new;
      Connect();
    }

    /** A run up to its first suspension, unless one is in flight. */
    method Connect()
      modifies this
      ensures View() == Connected(old(View()))
    {
      if task.Some? {
        return;
      }
      var run := count;
      count := count + 1;
      controller := Some(run);
      caption, buttonEnabled, status := Cancel, false, CheckingAccess;
      flights := flights[run := Flight(AwaitingGrant, false, false, false)];
      task := Some(run);
      history := history + [Started(run)];
    }

    method AbortController(ghost mark: Mark)
      modifies this`flights, this`history
      ensures View() == Abort(old(View()), mark)
    {
      if controller.Some? && controller.value in flights {
        flights := flights[controller.value := flights[controller.value].(aborted := true)];
      }
      history := history + [mark];
    }

    /** The `finally` clauses of a run. */
    method Finally(run: nat)
      requires run in flights
      modifies this`flights, this`task, this`caption, this`buttonEnabled, this`history
      ensures View() == End(old(View()), run, None, false)
    {
      flights := flights - {run};
      if active {
        caption, buttonEnabled := Retry, true;
      }
      if task == Some(run) {
        task := None;
      }
      history := history + [Finished(run)];
    }

    method Catch(run: nat)
      requires run in flights
      modifies this`status
      ensures status == Or(Failure(old(View()), flights[run]), old(status))
    {
      if active {
        status :=
          if flights[run].aborted then if flights[run].timedOut then TimeoutText else Canceled else Unreachable;
      }
    }

    method ResumeWithGrant(run: nat, grant: Grant)
      requires Enabled(View(), Granted(run, grant))
      modifies this
      ensures View() == Step(old(View()), Granted(run, grant))
    {
      if grant.GrantFails? {
        Catch(run);
        Finally(run);
      } else if grant.Refused? {
        status := PermissionDenied;
        Finally(run);
      } else if flights[run].aborted || !active {
        Finally(run);
      } else {
        buttonEnabled := true;
        status := CheckingService;
        flights := flights[run := flights[run].(stage := AwaitingHealth, timer := true)];
      }
    }

    method ResumeWithHealth(run: nat, health: Health)
      requires Enabled(View(), Checked(run, health))
      modifies this
      ensures View() == Step(old(View()), Checked(run, health))
    {
      if health.Throws? {
        Catch(run);
      } else if !flights[run].aborted && active {
        status := health.text;
        if health.text == Ready {
          history := history + [Navigated(run)];
        }
      }
      Finally(run);
    }

    method OnDeadline(run: nat)
      requires Enabled(View(), Deadline(run))
      modifies this
      ensures View() == Step(old(View()), Deadline(run))
    {
      flights := flights[run := flights[run].(aborted := true, timedOut := true, timer := false)];
      history := history + [Expired(run)];
    }

    method OnClick()
      modifies this
      ensures View() == Step(old(View()), Clicked)
    {
      if !active || !buttonEnabled {
        return;
      }
      if task.Some? {
        status, buttonEnabled := Canceled, false;
        AbortController(Cancelled(task.value));
      } else {
        Connect();
      }
    }

    method OnPageHide()
      requires Enabled(View(), Hidden)
      modifies this
      ensures View() == Step(old(View()), Hidden)
    {
      generation := generation + 1;
      active, visible := false, false;
      AbortController(Left);
    }

    method OnPageShow(persisted: bool)
      requires Enabled(View(), Shown(persisted))
      modifies this
      ensures View() == Step(old(View()), Shown(persisted))
    {
      if !persisted {
        return;
      }
      generation := generation + 1;
      visible := true;
      restorers := restorers + {Restorer(generation, task)};
    }

    /** The rest of a restoration, once the task it found has ended. */
    method ResumeRestoration(x: Restorer)
      requires Enabled(View(), Resumed(x))
      modifies this
      ensures View() == Step(old(View()), Resumed(x))
    {
      restorers := restorers - {x};
      if x.generation != generation {
        return;
      }
      active := true;
      status, caption, buttonEnabled := Canceled, Retry, true;
    }
  }
}
