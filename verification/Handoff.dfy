/** The web page that hands a visitor over to the installed browser extension, with at most one attempt at a time. */
module Handoff {
  import opened Wrappers

  /** The texts of the status line. */
  datatype Status = Blank | OpenDirectly | NoApi | Opening | NoResponse | Opened | NotOpened | ChooseAgain

  /** The closure's variables and the page state they drive; `clicks`, `hides` and `shows` say which listeners are
      attached, and `timer` is the attempt whose deadline is armed. */
  datatype Page = Page(
    active: bool, pending: bool, generation: nat, timer: Option<nat>, status: Status, enabled: bool,
    clicks: bool, hides: bool, shows: bool)

  /** What an observer of the page sees. */
  datatype Mark = Started(attempt: nat) | Wrote(attempt: nat, text: Status) | Left

  datatype World = World(page: Page, history: seq<Mark>)

  /** The page's address and frame are the expected ones; the API exists; calling it throws at once. */
  datatype Surroundings = Surroundings(expected: bool, api: bool, throws: bool)

  /** A reply or a deadline names the attempt whose closure it runs; either may come at any time, in any order and more
      than once, also after the deadline was cleared. */
  datatype Event =
    | Clicked(around: Surroundings)
    | Replied(attempt: nat, accepted: bool)
    | TimedOut(attempt: nat)
    | Hidden(persisted: bool)
    | Shown(persisted: bool)

  const LOADED: Page := Page(true, false, 0, None, Blank, true, true, true, true)

  function Finish(w: World, attempt: nat, text: Status): World {
    var p := w.page;
    if !p.active || !p.pending then w
    else World(p.(timer := None, pending := false, status := text, enabled := true), w.history + [Wrote(attempt, text)])
  }

  function Complete(w: World, attempt: nat, text: Status): World {
    if attempt == w.page.generation then Finish(w, attempt, text) else w
  }

  function Begun(w: World): World {
    var p := w.page;
    var attempt := p.generation + 1;
    World(p.(pending := true, generation := attempt, enabled := false, status := Opening, timer := Some(attempt)),
          w.history + [Started(attempt)])
  }

  function Open(w: World, around: Surroundings): World {
    var p := w.page;
    if !p.active || p.pending then w
    else if !around.expected then w.(page := p.(status := OpenDirectly))
    else if !around.api then w.(page := p.(status := NoApi))
    else if around.throws then Complete(Begun(w), p.generation + 1, NotOpened)
    else Begun(w)
  }

  function Depart(w: World, persisted: bool): World {
    var p := w.page;
    World(p.(active := false, pending := false, generation := p.generation + 1, timer := None, clicks := false,
             hides := p.hides && persisted, shows := p.shows && persisted),
          w.history + [Left])
  }

  function Restore(w: World, persisted: bool): World {
    if !persisted || w.page.active then w
    else w.(page := w.page.(active := true, enabled := true, status := ChooseAgain, clicks := true))
  }

  predicate Enabled(w: World, e: Event) {
    match e
    case Clicked(_) => w.page.clicks && w.page.enabled
    case Replied(a, _) => Started(a) in w.history
    case TimedOut(a) => Started(a) in w.history
    case Hidden(_) => w.page.hides
    case Shown(_) => w.page.shows
  }

  function Step(w: World, e: Event): World {
    match e
    case Clicked(around) => Open(w, around)
    case Replied(a, accepted) => Complete(w, a, if accepted then Opened else NotOpened)
    case TimedOut(a) => Complete(w, a, NoResponse)
    case Hidden(persisted) => Depart(w, persisted)
    case Shown(persisted) => Restore(w, persisted)
  }

  /** The page opens with an attempt of its own. */
  function Start(around: Surroundings): World {
    Open(World(LOADED, []), around)
  }

  /** Any sequence of events, whether or not a browser could produce it. */
  function Run(w: World, events: seq<Event>): World
    decreases |events|
  {
    if events == [] then w else Run(Step(w, events[0]), events[1..])
  }

  /** Entry `k` answers the start of the very attempt that is the entry before it. */
  predicate Answers(history: seq<Mark>, k: nat)
    requires k < |history|
  {
    history[k].Wrote? ==> k > 0 && history[k - 1] == Started(history[k].attempt)
  }

  predicate AllAnswer(history: seq<Mark>) {
    forall k: nat :: k < |history| ==> Answers(history, k)
  }

  /** Attempts are numbered upwards. */
  predicate Rising(history: seq<Mark>) {
    forall j: nat, k: nat ::
      j < k < |history| && history[j].Started? && history[k].Started? ==> history[j].attempt < history[k].attempt
  }

  predicate Bounded(history: seq<Mark>, generation: nat) {
    forall k: nat :: k < |history| && history[k].Started? ==> history[k].attempt <= generation
  }

  predicate PageInv(p: Page) {
    && (p.pending ==> p.active && !p.enabled && p.timer == Some(p.generation) && p.status == Opening)
    && (!p.pending ==> p.timer.None?)
    && (p.active && !p.pending ==> p.enabled && p.status != Opening)
    && p.clicks == p.active
  }

  predicate Inv(w: World) {
    && PageInv(w.page)
    && (w.page.pending <==> w.history != [] && w.history[|w.history| - 1].Started?)
    && (w.page.pending ==> w.history[|w.history| - 1].attempt == w.page.generation)
    && AllAnswer(w.history) && Rising(w.history) && Bounded(w.history, w.page.generation)
  }

  lemma AppendKeeps(history: seq<Mark>, m: Mark, generation: nat)
    requires AllAnswer(history) && Rising(history) && Bounded(history, generation)
    requires m.Started? ==> m.attempt == generation + 1
    requires m.Wrote? ==> history != [] && history[|history| - 1] == Started(m.attempt)
    ensures AllAnswer(history + [m]) && Rising(history + [m])
    ensures Bounded(history + [m], generation + 1) && (!m.Started? ==> Bounded(history + [m], generation))
  {
    var after := history + [m];
    forall k: nat | k < |after|
      ensures Answers(after, k)
    {
      if k < |history| {
        assert Answers(history, k);
      }
    }
  }

  lemma CompleteKeeps(w: World, attempt: nat, text: Status)
    requires Inv(w) && text != Opening
    ensures Inv(Complete(w, attempt, text))
  {
    if w.page.pending && attempt == w.page.generation {
      AppendKeeps(w.history, Wrote(attempt, text), w.page.generation);
    }
  }

  lemma BegunKeeps(w: World)
    requires Inv(w) && w.page.active && !w.page.pending
    ensures Inv(Begun(w))
  {
    AppendKeeps(w.history, Started(w.page.generation + 1), w.page.generation);
  }

  lemma OpenKeeps(w: World, around: Surroundings)
    requires Inv(w)
    ensures Inv(Open(w, around))
  {
    if w.page.active && !w.page.pending && around.expected && around.api {
      BegunKeeps(w);
      CompleteKeeps(Begun(w), w.page.generation + 1, NotOpened);
    }
  }

  lemma StepKeeps(w: World, e: Event)
    requires Inv(w)
    ensures Inv(Step(w, e))
  {
    match e
    case Clicked(around) => OpenKeeps(w, around);
    case Replied(a, accepted) => CompleteKeeps(w, a, if accepted then Opened else NotOpened);
    case TimedOut(a) => CompleteKeeps(w, a, NoResponse);
    case Hidden(_) => AppendKeeps(w.history, Left, w.page.generation);
    case Shown(_) =>
  }

  lemma {:induction false} RunKeeps(w: World, events: seq<Event>)
    requires Inv(w)
    ensures Inv(Run(w, events))
    decreases |events|
  {
    if events != [] {
      StepKeeps(w, events[0]);
      RunKeeps(Step(w, events[0]), events[1..]);
    }
  }

  /** In every ordering of events an outcome comes directly after the start of its own attempt: no departure, no later
      attempt and no other outcome lies between. */
  lemma OutcomeAnswersItsStart(around: Surroundings, events: seq<Event>, k: nat)
    requires var h := Run(Start(around), events).history; k < |h| && h[k].Wrote?
    ensures var h := Run(Start(around), events).history; k > 0 && h[k - 1] == Started(h[k].attempt)
  {
    OpenKeeps(World(LOADED, []), around);
    RunKeeps(Start(around), events);
    assert Answers(Run(Start(around), events).history, k);
  }

  /** Each attempt writes at most one outcome. */
  lemma OneOutcomePerAttempt(around: Surroundings, events: seq<Event>, j: nat, k: nat)
    requires var h := Run(Start(around), events).history;
             j < k < |h| && h[j].Wrote? && h[k].Wrote?
    ensures var h := Run(Start(around), events).history; h[j].attempt < h[k].attempt
  {
    OpenKeeps(World(LOADED, []), around);
    RunKeeps(Start(around), events);
    OutcomeAnswersItsStart(around, events, j);
    OutcomeAnswersItsStart(around, events, k);
  }

  /** A reply or deadline is shown exactly when its attempt is the last thing that happened, and then it settles that
      attempt and frees the button; otherwise it changes nothing at all. */
  lemma SettledIff(around: Surroundings, events: seq<Event>, attempt: nat, e: Event)
    requires e == TimedOut(attempt) || e == Replied(attempt, true) || e == Replied(attempt, false)
    requires Enabled(Run(Start(around), events), e)
    ensures var w := Run(Start(around), events);
            var text := if e.TimedOut? then NoResponse else if e.accepted then Opened else NotOpened;
            if w.history[|w.history| - 1] == Started(attempt)
            then Step(w, e).page.status == text && Step(w, e).page.enabled
                 && Step(w, e).history == w.history + [Wrote(attempt, text)]
            else Step(w, e) == w
  {
    OpenKeeps(World(LOADED, []), around);
    RunKeeps(Start(around), events);
    StartedNotLast(Run(Start(around), events), attempt);
  }

  lemma StartedNotLast(w: World, attempt: nat)
    requires Inv(w) && Started(attempt) in w.history
    ensures w.page.pending && attempt == w.page.generation <==> w.history[|w.history| - 1] == Started(attempt)
  {}

  /** A click starts an attempt exactly where the page stands at its own address and top frame and the extension can be
      called; elsewhere it says why not. A call that throws at once answers its attempt. */
  lemma ClickStartsIff(around: Surroundings, events: seq<Event>, place: Surroundings)
    requires Enabled(Run(Start(around), events), Clicked(place))
    ensures var w := Run(Start(around), events);
            var next := Step(w, Clicked(place));
            var attempt := next.page.generation;
            if !place.expected then next == w.(page := w.page.(status := OpenDirectly))
            else if !place.api then next == w.(page := w.page.(status := NoApi))
            else
              && attempt > w.page.generation
              && next.history
                 == w.history + [Started(attempt)] + (if place.throws then [Wrote(attempt, NotOpened)] else [])
              && next.page.pending == !place.throws && next.page.enabled == place.throws
              && next.page.status == (if place.throws then NotOpened else Opening)
              && next.page.timer == (if place.throws then None else Some(attempt))
  {
    OpenKeeps(World(LOADED, []), around);
    RunKeeps(Start(around), events);
    ClickIsFree(Run(Start(around), events), place);
  }

  lemma ClickIsFree(w: World, place: Surroundings)
    requires Inv(w) && Enabled(w, Clicked(place))
    ensures w.page.active && !w.page.pending && w.page.timer.None?
  {}

  /** Leaving the page ends the attempt and its deadline without an outcome; only a page that the browser keeps can be
      shown again, and it then waits for a click. */
  lemma LeftAndShown(around: Surroundings, events: seq<Event>, persisted: bool)
    requires Enabled(Run(Start(around), events), Hidden(persisted))
    ensures var w := Run(Start(around), events);
            var left := Step(w, Hidden(persisted));
            var back := Step(left, Shown(true));
            && left.history == w.history + [Left] && left.page.status == w.page.status
            && !left.page.active && !left.page.pending && left.page.timer.None? && !left.page.clicks
            && (!persisted ==> !Enabled(left, Hidden(true)) && !Enabled(left, Shown(true)))
            && (persisted && w.page.shows ==> Enabled(left, Shown(true)))
            && back.history == left.history && back.page.active && back.page.enabled && back.page.clicks
            && back.page.status == ChooseAgain && !back.page.pending
            && Step(left, Shown(false)) == left
  {
    OpenKeeps(World(LOADED, []), around);
    RunKeeps(Start(around), events);
  }

  /** The page never waits without a deadline, and never leaves a visible visitor with a dead button. */
  lemma NeverStuck(around: Surroundings, events: seq<Event>)
    ensures var p := Run(Start(around), events).page;
            && (p.pending ==> p.timer == Some(p.generation) && p.active)
            && (p.active && !p.pending ==> p.enabled && p.clicks)
            && (!p.active ==> !p.pending && !p.clicks && p.timer.None?)
  {
    OpenKeeps(World(LOADED, []), around);
    RunKeeps(Start(around), events);
  }

  /** The listeners and timers of the page, as the closures of the source share them. */
  class ChromeExtensionHandoff {
    var active: bool
    var pending: bool
    var generation: nat
    var timeout: Option<nat>
    var status: Status
    var buttonEnabled: bool
    var clickListener: bool
    var hideListener: bool
    var showListener: bool
    ghost var history: seq<Mark>

    ghost function View(): World
      reads this
    {
      World(Page(active, pending, generation, timeout, status, buttonEnabled, clickListener, hideListener,
                 showListener), history)
    }

    constructor (around: Surroundings)
      ensures View() == Start(around)
    {
      active, pending, generation, timeout := true, false, 0, None;
      status, buttonEnabled := Blank, true;
      clickListener, hideListener, showListener := true, true, true;
      history := [];
      new;
      OpenExtension(around);
    }

    method FinishAttempt(ghost attempt: nat, text: Status)
      modifies this
      ensures View() == Finish(old(View()), attempt, text)
    {
      if !active || !pending {
        return;
      }
      timeout := None;
      pending := false;
      status := text;
      buttonEnabled := true;
      history := history + [Wrote(attempt, text)];
    }

    /** The callback that an attempt leaves with the timer and with the extension. */
    method CompleteAttempt(attempt: nat, text: Status)
      modifies this
      ensures View() == Complete(old(View()), attempt, text)
    {
      if attempt == generation {
        FinishAttempt(attempt, text);
      }
    }

    method OpenExtension(around: Surroundings)
      modifies this
      ensures View() == Open(old(View()), around)
    {
      if !active || pending {
        return;
      }
      if !around.expected {
        status := OpenDirectly;
        return;
      }
      if !around.api {
        status := NoApi;
        return;
      }
      pending := true;
      generation := generation + 1;
      var attempt := generation;
      history := history + [Started(attempt)];
      buttonEnabled := false;
      status := Opening;
      timeout := Some(attempt);
      if around.throws {
        CompleteAttempt(attempt, NotOpened);
      }
    }

    method DepartPage(persisted: bool)
      modifies this
      ensures View() == Depart(old(View()), persisted)
    {
      active := false;
      pending := false;
      generation := generation + 1;
      timeout := None;
      clickListener := false;
      if !persisted {
        hideListener := false;
        showListener := false;
      }
      history := history + [Left];
    }

    method RestorePage(persisted: bool)
      modifies this
      ensures View() == Restore(old(View()), persisted)
    {
      if !persisted || active {
        return;
      }
      active := true;
      buttonEnabled := true;
      status := ChooseAgain;
      clickListener := true;
    }
  }
}
