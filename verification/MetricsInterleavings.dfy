/** What the promises about sequential runs of metrics operations mean for every interleaving of callers: at every
    moment, and not only when all calls have settled. */
module MetricsInterleavings {
  import opened Wrappers
  import opened Decimal
  import opened UninstallUrl
  import opened MetricsState
  import opened MetricsReadBack
  import opened MetricsOwner

  /** The call has stored its change and succeeds: it is fulfilled, or waits only for the address to be registered. */
  predicate Succeeds(c: Call) {
    && Mutates(c.request.op)
    && ((c.stage.Settled? && c.stage.outcome.Fulfilled?) || (c.stage.Registering? && c.stage.outcome.Fulfilled?))
  }

  /** The operations of the successful calls, in call order. */
  function SuccessfulOps(calls: seq<Call>): seq<Op> {
    if calls == [] then []
    else
      var earlier, last := SuccessfulOps(calls[..|calls| - 1]), calls[|calls| - 1];
      if Succeeds(last) then earlier + [last.request.op] else earlier
  }

  /** How many calls have been performed, as far as their change of the storage goes. */
  function Performed(m: Machine, k: nat): (n: nat)
    requires k <= |m.calls|
    ensures k <= n <= |m.calls|
  {
    if k < |m.calls| && m.calls[k].stage.Registering? then k + 1 else k
  }

  /** The storage is that of the first `n` calls performed in order, or what the next one has left by reading it. */
  ghost predicate StorageAfter(m: Machine, initial: Option<Json>, owner: Owner, n: nat) {
    && n <= |m.calls|
    && (m.stored == Before(m, initial, owner, n)
        || (n < |m.calls| && StoredByReading(Before(m, initial, owner, n), m.calls[n].request, owner, m.stored)))
  }

  ghost predicate StoredByReading(base: Option<Json>, r: Request, owner: Owner, stored: Option<Json>) {
    var reading := Reading(base, r, owner.version);
    reading.Some? && stored == AfterLoad(base, reading.value)
  }

  ghost predicate AllRequests(calls: seq<Call>) {
    forall c <- calls :: IsRequest(c.request)
  }

  lemma {:induction false} RunKeepsRequests(m: Machine, events: seq<Event>, final: Machine, owner: Owner)
    requires AllRequests(m.calls) && RunsTo(m, events, final, owner)
    ensures AllRequests(final.calls)
    decreases |events|
  {
    if events != [] {
      StepKeepsRequests(m, events[0], owner);
      RunKeepsRequests(Step(m, events[0], owner), events[1..], final, owner);
    }
  }

  lemma StepKeepsRequests(m: Machine, e: Event, owner: Owner)
    requires AllRequests(m.calls) && Enabled(m, e)
    ensures AllRequests(Step(m, e, owner).calls)
  {
    var next := Step(m, e, owner);
    forall c | c in next.calls
      ensures IsRequest(c.request)
    {
      var i :| 0 <= i < |next.calls| && next.calls[i] == c;
      assert i < |m.calls| ==> m.calls[i] in m.calls && m.calls[i].request == c.request;
    }
  }

  lemma ReachableRequests(m: Machine, initial: Option<Json>, owner: Owner, n: nat)
    requires Reachable(m, initial, owner) && n <= |m.calls|
    ensures forall r <- Requests(m.calls)[..n] :: IsRequest(r)
  {
    var events: seq<Event> :| RunsTo(Machine(initial, []), events, m, owner);
    RunKeepsRequests(Machine(initial, []), events, m, owner);
    var rs := Requests(m.calls)[..n];
    forall r | r in rs
      ensures IsRequest(r)
    {
      var i :| 0 <= i < |rs| && rs[i] == r;
      assert m.calls[i] in m.calls;
    }
  }

  lemma LinearStorage(m: Machine, initial: Option<Json>, owner: Owner, k: nat)
    requires Linear(m, initial, owner, k)
    ensures StorageAfter(m, initial, owner, Performed(m, k))
  {
    if k < |m.calls| && m.calls[k].stage.Registering? {
      BeforeNext(m, initial, owner, k);
    }
  }

  /** An accepted version whose address fits: every ASCII one, for example, and every one of at most 109 units. */
  predicate IsFitting(version: string) {
    IsVersionText(version) && UrlFits(version)
  }

  lemma StoredOpsNext(m: Machine, initial: Option<Json>, owner: Owner, i: nat)
    requires i < |m.calls|
    ensures StoredOps(initial, Requests(m.calls)[..i + 1], owner)
         == var earlier := StoredOps(initial, Requests(m.calls)[..i], owner);
            if Stores(Before(m, initial, owner, i), m.calls[i].request, owner) then earlier + [m.calls[i].request.op]
            else earlier
  {
    var rs := Requests(m.calls);
    assert rs[..i + 1][..i] == rs[..i];
  }

  lemma SuccessfulNext(calls: seq<Call>, i: nat)
    requires i < |calls|
    ensures SuccessfulOps(calls[..i + 1])
         == if Succeeds(calls[i]) then SuccessfulOps(calls[..i]) + [calls[i].request.op] else SuccessfulOps(calls[..i])
  {
    assert calls[..i + 1][..i] == calls[..i];
  }

  lemma SucceedsIffStores(m: Machine, initial: Option<Json>, owner: Owner, k: nat, i: nat)
    requires Linear(m, initial, owner, k) && i < Performed(m, k) && IsFitting(owner.version)
    ensures Succeeds(m.calls[i]) <==> Stores(Before(m, initial, owner, i), m.calls[i].request, owner)
  {
    var base, r := Before(m, initial, owner, i), m.calls[i].request;
    if Mutates(r.op) {
      FulfilledIffStored(base, r, owner);
    }
    if i < k {
      assert m.calls[i].stage == Settled(OutcomeInOrder(m, initial, owner, i));
    }
  }

  lemma {:induction false} SuccessfulAreStored(m: Machine, initial: Option<Json>, owner: Owner, k: nat, n: nat)
    requires Linear(m, initial, owner, k) && n <= Performed(m, k) && IsFitting(owner.version)
    ensures SuccessfulOps(m.calls[..n]) == StoredOps(initial, Requests(m.calls)[..n], owner)
  {
    if n > 0 {
      SuccessfulAreStored(m, initial, owner, k, n - 1);
      SucceedsIffStores(m, initial, owner, k, n - 1);
      StoredOpsNext(m, initial, owner, n - 1);
      SuccessfulNext(m.calls, n - 1);
    }
  }

  /** No call behind those that have been performed is successful yet. */
  lemma NotYet(m: Machine, initial: Option<Json>, owner: Owner, k: nat, i: nat)
    requires Linear(m, initial, owner, k) && Performed(m, k) <= i < |m.calls|
    ensures !Succeeds(m.calls[i])
  {}

  lemma {:induction false} NoneBehind(calls: seq<Call>, start: nat, n: nat)
    requires start <= n <= |calls| && forall i :: start <= i < n ==> !Succeeds(calls[i])
    ensures SuccessfulOps(calls[..n]) == SuccessfulOps(calls[..start])
  {
    if n > start {
      NoneBehind(calls, start, n - 1);
      SuccessfulNext(calls, n - 1);
    }
  }

  lemma SuccessfulOfAll(m: Machine, initial: Option<Json>, owner: Owner, k: nat)
    requires Linear(m, initial, owner, k) && IsFitting(owner.version)
    ensures SuccessfulOps(m.calls) == StoredOps(initial, Requests(m.calls)[..Performed(m, k)], owner)
  {
    var n := Performed(m, k);
    forall i | n <= i < |m.calls|
      ensures !Succeeds(m.calls[i])
    {
      NotYet(m, initial, owner, k, i);
    }
    NoneBehind(m.calls, n, |m.calls|);
    assert m.calls[..|m.calls|] == m.calls;
    SuccessfulAreStored(m, initial, owner, k, n);
  }

  /** Reading moves neither the session count nor consent nor a valid identity. */
  lemma ReadingKeeps(base: Option<Json>, r: Request, owner: Owner, stored: Option<Json>)
    requires StoredByReading(base, r, owner, stored) && IsRequest(r) && IsVersionText(owner.version)
    ensures StoredCount(stored, owner) == StoredCount(base, owner)
    ensures Consents(stored) <==> Consents(base)
    ensures Connected(stored) <==> Connected(base)
    ensures Identity(base).Some? ==> Identity(stored) == Identity(base)
  {
    var loaded := Reading(base, r, owner.version).value;
    LoadKeepsCount(base, r.loading, owner, loaded);
    LoadPreservesConsent(base, owner.version, r.loading, loaded);
    LoadKeepsConnected(base, owner.version, r.loading, loaded);
    if Identity(base).Some? {
      LoadKeepsIdentity(base, owner.version, r.loading, loaded);
    }
  }

  lemma StorageKeeps(m: Machine, initial: Option<Json>, owner: Owner, n: nat)
    requires Reachable(m, initial, owner) && StorageAfter(m, initial, owner, n) && IsVersionText(owner.version)
    ensures var base := Before(m, initial, owner, n);
            && StoredCount(m.stored, owner) == StoredCount(base, owner)
            && (Consents(m.stored) <==> Consents(base))
            && (Connected(m.stored) <==> Connected(base))
            && (Identity(base).Some? ==> Identity(m.stored) == Identity(base))
  {
    if m.stored != Before(m, initial, owner, n) {
      var rs := Requests(m.calls)[..n + 1];
      ReachableRequests(m, initial, owner, n + 1);
      assert rs[n] == m.calls[n].request && rs[n] in rs;
      ReadingKeeps(Before(m, initial, owner, n), m.calls[n].request, owner, m.stored);
    }
  }

  /** The session count that the changes stored by the first `n` calls come to. */
  function CountAfter(m: Machine, initial: Option<Json>, owner: Owner, n: nat): nat
    requires n <= |m.calls|
  {
    Saturated(SessionsSinceReset(StoredCount(initial, owner), StoredOps(initial, Requests(m.calls)[..n], owner)))
  }

  lemma CountOfPerformed(m: Machine, initial: Option<Json>, owner: Owner, k: nat)
    requires Reachable(m, initial, owner) && Linear(m, initial, owner, k) && IsVersionText(owner.version)
    ensures StoredCount(m.stored, owner) == CountAfter(m, initial, owner, Performed(m, k))
  {
    var n := Performed(m, k);
    LinearStorage(m, initial, owner, k);
    StorageKeeps(m, initial, owner, n);
    ReachableRequests(m, initial, owner, n);
    SessionsCounted(initial, Requests(m.calls)[..n], owner);
  }

  /** At every moment of every interleaving the session count is the successful recordings since the last successful
      reset, added to the start value and saturating. */
  lemma SessionsOfSuccessfulCalls(m: Machine, initial: Option<Json>, owner: Owner)
    requires Reachable(m, initial, owner) && IsFitting(owner.version)
    ensures StoredCount(m.stored, owner)
         == Saturated(SessionsSinceReset(StoredCount(initial, owner), SuccessfulOps(m.calls)))
  {
    ReachableIsLinear(m, initial, owner);
    var k: nat :| Linear(m, initial, owner, k);
    CountOfPerformed(m, initial, owner, k);
    SuccessfulOfAll(m, initial, owner, k);
  }

  lemma SettledArePerformed(m: Machine, initial: Option<Json>, owner: Owner, k: nat)
    requires Linear(m, initial, owner, k)
    ensures forall i :: Performed(m, k) <= i < |m.calls| ==> !m.calls[i].stage.Settled?
  {}

  /** Under any version, at every moment of every interleaving, the session count is that of the changes stored by a
      number of first calls; these include all calls that have settled. */
  lemma SessionsOfStoredCalls(m: Machine, initial: Option<Json>, owner: Owner) returns (n: nat)
    requires Reachable(m, initial, owner) && IsVersionText(owner.version)
    ensures n <= |m.calls| && forall i :: n <= i < |m.calls| ==> !m.calls[i].stage.Settled?
    ensures StoredCount(m.stored, owner) == CountAfter(m, initial, owner, n)
  {
    ReachableIsLinear(m, initial, owner);
    var k: nat :| Linear(m, initial, owner, k);
    n := Performed(m, k);
    CountOfPerformed(m, initial, owner, k);
    SettledArePerformed(m, initial, owner, k);
  }

  /** At every moment of every interleaving consent is the user's last successful decision, or the start value. */
  lemma ConsentOfSuccessfulCalls(m: Machine, initial: Option<Json>, owner: Owner)
    requires Reachable(m, initial, owner) && IsFitting(owner.version)
    ensures Consents(m.stored) <==> LastDecision(Consents(initial), SuccessfulOps(m.calls))
  {
    ReachableIsLinear(m, initial, owner);
    var k: nat :| Linear(m, initial, owner, k);
    var n := Performed(m, k);
    LinearStorage(m, initial, owner, k);
    StorageKeeps(m, initial, owner, n);
    ReachableRequests(m, initial, owner, n);
    ConsentIsLastDecision(initial, Requests(m.calls)[..n], owner);
    SuccessfulOfAll(m, initial, owner, k);
  }

  /** At every moment of every interleaving a connection is on record exactly if a successful call recorded it, or it
      was there from the start, and no successful reset came after. */
  lemma ConnectionOfSuccessfulCalls(m: Machine, initial: Option<Json>, owner: Owner)
    requires Reachable(m, initial, owner) && IsFitting(owner.version)
    ensures Connected(m.stored) <==> ConnectedSinceReset(Connected(initial), SuccessfulOps(m.calls))
  {
    ReachableIsLinear(m, initial, owner);
    var k: nat :| Linear(m, initial, owner, k);
    var n := Performed(m, k);
    LinearStorage(m, initial, owner, k);
    StorageKeeps(m, initial, owner, n);
    ReachableRequests(m, initial, owner, n);
    ConnectionsRecorded(initial, Requests(m.calls)[..n], owner);
    SuccessfulOfAll(m, initial, owner, k);
  }

  /** Under any version, long ones included: while nobody turns statistics on, consent never appears. */
  lemma ConsentNeedsACall(m: Machine, initial: Option<Json>, owner: Owner)
    requires Reachable(m, initial, owner) && IsVersionText(owner.version)
    requires !Consents(initial) && forall c <- m.calls :: !TurnsOn(c.request.op)
    ensures !Consents(m.stored)
  {
    ReachableIsLinear(m, initial, owner);
    var k: nat :| Linear(m, initial, owner, k);
    var n := Performed(m, k);
    LinearStorage(m, initial, owner, k);
    StorageKeeps(m, initial, owner, n);
    ReachableRequests(m, initial, owner, n);
    RequestsOfCalls(m.calls, n);
    ConsentNeverAppears(initial, Requests(m.calls)[..n], owner);
  }

  lemma RequestsOfCalls(calls: seq<Call>, n: nat)
    requires n <= |calls|
    ensures forall r <- Requests(calls)[..n] :: exists c <- calls :: c.request == r
  {
    var rs := Requests(calls)[..n];
    forall r | r in rs
      ensures exists c <- calls :: c.request == r
    {
      var i :| 0 <= i < |rs| && rs[i] == r;
      assert calls[i] in calls && calls[i].request == r;
    }
  }

  /** Under any version: a valid identity never disappears, and while nobody resets it stays the same. */
  lemma IdentityNeedsAReset(m: Machine, initial: Option<Json>, owner: Owner)
    requires Reachable(m, initial, owner) && IsVersionText(owner.version) && Identity(initial).Some?
    ensures Identity(m.stored).Some?
    ensures (forall c <- m.calls :: !c.request.op.Reset?) ==> Identity(m.stored) == Identity(initial)
  {
    ReachableIsLinear(m, initial, owner);
    var k: nat :| Linear(m, initial, owner, k);
    var n := Performed(m, k);
    LinearStorage(m, initial, owner, k);
    StorageKeeps(m, initial, owner, n);
    ReachableRequests(m, initial, owner, n);
    RequestsOfCalls(m.calls, n);
    IdentityOnlyReset(initial, Requests(m.calls)[..n], owner);
  }
}
