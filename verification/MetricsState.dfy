/** The product metrics that the extension stores: reading any stored value, and one whole operation on it. */
module MetricsState {
  import opened Wrappers
  import opened Decimal
  import opened UninstallUrl

  /** The keys of the objects that are looked at; every other key is `Other`. */
  datatype Field =
    | BackendSummary | CreatedAtMillis | CurrentVersion | DisclosureVersion | EverConnected
    | FirstVersion | InstallationId | SchemaVersion | Sessions | StatisticsEnabled
    | Added | Completed | Other(name: string)

  /** A value that storage can hold. */
  datatype Json =
    | Null
    | Bool(b: bool)
    | Number(value: real)
    | Text(text: string)
    | Array(items: seq<Json>)
    | Object(fields: map<Field, Json>)

  const STATE_KEYS: set<Field> :=
    {BackendSummary, CreatedAtMillis, CurrentVersion, DisclosureVersion, EverConnected,
     FirstVersion, InstallationId, SchemaVersion, Sessions, StatisticsEnabled}

  const SUMMARY_KEYS: set<Field> := {Added, Completed}

  datatype Summary = Summary(added: string, completed: string)

  /** A schema-1 state. The identity is kept as it was stored. */
  datatype State = State(
    installationId: Json,
    createdAtMillis: string,
    firstVersion: string,
    currentVersion: string,
    sessions: string,
    everConnected: bool,
    disclosureVersion: nat,
    statisticsEnabled: bool,
    summary: Option<Summary>)

  /** A fresh identifier and the clock. */
  datatype Fresh = Fresh(id: string, now: nat)

  predicate IsLowerHex(c: char) {
    '0' <= c <= '9' || 'a' <= c <= 'f'
  }

  /** A lower-case version 4 identifier. */
  predicate IsUuid(s: string) {
    && |s| == 36
    && s[8] == '-' && s[13] == '-' && s[18] == '-' && s[23] == '-'
    && s[14] == '4' && (s[19] == '8' || s[19] == '9' || s[19] == 'a' || s[19] == 'b')
    && forall i :: 0 <= i < 36 && i != 8 && i != 13 && i != 18 && i != 23 ==> IsLowerHex(s[i])
  }

  /** A pattern test turns its argument into text: a string stays, an array of one element is that element. No other
      value has a text that an identifier pattern matches. */
  predicate MatchesUuid(j: Json) {
    match j
    case Text(s) => IsUuid(s)
    case Array(items) => |items| == 1 && MatchesUuid(items[0])
    case _ => false
  }

  predicate IsVersionText(s: string) {
    1 <= Units(s) <= 128 && forall i :: 0 <= i < |s| ==> !(s[i] as int <= 0x1f || s[i] as int == 0x7f)
  }

  predicate IsVersion(j: Json) {
    j.Text? && IsVersionText(j.text)
  }

  predicate IsCounter(j: Json) {
    j.Text? && ValidateU64(j.text).Some?
  }

  predicate IsDisclosure(j: Json) {
    j == Number(0.0) || j == Number(1.0)
  }

  predicate IsFresh(f: Fresh) {
    IsUuid(f.id) && f.now <= MAX_U64
  }

  function DisclosureOf(j: Json): nat {
    if j == Number(1.0) then 1 else 0
  }

  /** The counter as validation returns it. */
  function CounterOf(j: Json): string
    requires IsCounter(j)
  {
    ValidateU64(j.text).value
  }

  function EncodeSummary(s: Option<Summary>): Json {
    match s
    case None => Null
    case Some(Summary(added, completed)) => Object(map[Added := Text(added), Completed := Text(completed)])
  }

  /** The stored form of a state. */
  function Encode(s: State): Json {
    Object(map[
      SchemaVersion := Number(1.0),
      InstallationId := s.installationId,
      CreatedAtMillis := Text(s.createdAtMillis),
      FirstVersion := Text(s.firstVersion),
      CurrentVersion := Text(s.currentVersion),
      Sessions := Text(s.sessions),
      EverConnected := Bool(s.everConnected),
      DisclosureVersion := Number(s.disclosureVersion as real),
      StatisticsEnabled := Bool(s.statisticsEnabled),
      BackendSummary := EncodeSummary(s.summary)])
  }

  function FreshState(version: string, drawn: Fresh): State {
    State(Text(drawn.id), Print(drawn.now), version, version, "0", false, 0, true, None)
  }

  predicate IsSummary(j: Json) {
    j.Object? && j.fields.Keys == SUMMARY_KEYS && IsCounter(j.fields[Added]) && IsCounter(j.fields[Completed])
  }

  function SummaryOf(j: Json): Summary
    requires IsSummary(j)
  {
    Summary(CounterOf(j.fields[Added]), CounterOf(j.fields[Completed]))
  }

  /** Every check of the normalisation, in one place. */
  predicate IsState(j: Json) {
    && j.Object? && j.fields.Keys == STATE_KEYS
    && j.fields[SchemaVersion] == Number(1.0)
    && MatchesUuid(j.fields[InstallationId])
    && IsCounter(j.fields[CreatedAtMillis])
    && IsVersion(j.fields[FirstVersion])
    && IsVersion(j.fields[CurrentVersion])
    && IsCounter(j.fields[Sessions])
    && j.fields[EverConnected].Bool? && j.fields[StatisticsEnabled].Bool?
    && IsDisclosure(j.fields[DisclosureVersion])
    && (j.fields[BackendSummary] == Null || IsSummary(j.fields[BackendSummary]))
  }

  /** The state of a well-formed value under the running version; `None` where the source throws. */
  function Normalize(j: Json, version: string): Option<State> {
    if !IsState(j) then None
    else
      var f := j.fields;
      var summary := if f[BackendSummary] == Null then None else Some(SummaryOf(f[BackendSummary]));
      Some(State(
        f[InstallationId], CounterOf(f[CreatedAtMillis]), f[FirstVersion].text, version, CounterOf(f[Sessions]),
        f[EverConnected].b, DisclosureOf(f[DisclosureVersion]), f[StatisticsEnabled].b,
        if f[StatisticsEnabled].b then summary else None))
  }

  function FieldsOf(j: Json): map<Field, Json> {
    if j.Object? then j.fields else map[]
  }

  predicate IsNewer(j: Json) {
    && j.Object? && SchemaVersion in j.fields
    && j.fields[SchemaVersion].Number?
    && var v := j.fields[SchemaVersion].value;
       v == v.Floor as real && v > 1.0
  }

  /** Each valid known field of a damaged or newer value, and defaults for the rest. */
  function Recover(j: Json, version: string, drawn: Fresh): State {
    var f, base := FieldsOf(j), FreshState(version, drawn);
    State(
      if InstallationId in f && MatchesUuid(f[InstallationId]) then f[InstallationId] else base.installationId,
      if CreatedAtMillis in f && IsCounter(f[CreatedAtMillis]) then f[CreatedAtMillis].text else base.createdAtMillis,
      if FirstVersion in f && IsVersion(f[FirstVersion]) then f[FirstVersion].text else base.firstVersion,
      base.currentVersion,
      if Sessions in f && IsCounter(f[Sessions]) then f[Sessions].text else base.sessions,
      if EverConnected in f && f[EverConnected].Bool? then f[EverConnected].b else base.everConnected,
      if DisclosureVersion in f && IsDisclosure(f[DisclosureVersion]) then DisclosureOf(f[DisclosureVersion])
      else base.disclosureVersion,
      StatisticsEnabled in f && f[StatisticsEnabled].Bool? && f[StatisticsEnabled].b,
      None)
  }

  /** What reading gives, and what it writes back, if anything. */
  datatype Loaded = Loaded(state: State, malformed: bool, readOnly: bool, write: Option<Json>)

  function Load(stored: Option<Json>, version: string, drawn: Fresh): Loaded {
    match stored
    case None =>
      var state := FreshState(version, drawn);
      Loaded(state, false, false, Some(Encode(state)))
    case Some(value) =>
      match Normalize(value, version)
      case Some(state) => Loaded(state, false, false, if Encode(state) != value then Some(Encode(state)) else None)
      case None =>
        var state := Recover(value, version, drawn);
        Loaded(state, true, IsNewer(value), if IsNewer(value) then None else Some(Encode(state)))
  }

  /** The second attempt, when the write of a normalised state is rejected: the rejection is caught like a damaged
      value, which is then recovered and written. */
  function Retry(stored: Option<Json>, version: string, drawn: Fresh): Option<Loaded> {
    match stored
    case None => None
    case Some(value) =>
      if !IsState(value) then None
      else
        var state := Recover(value, version, drawn);
        Some(Loaded(state, true, IsNewer(value), if IsNewer(value) then None else Some(Encode(state))))
  }

  datatype Op =
    | Snapshot
    | Refresh
    | Acknowledge(on: bool)
    | SetStatistics(on: bool)
    | Reset
    | RecordSession
    | RecordConnected
    | CacheSummary(summary: Json, permits: bool)

  /** One call: the operation, the values it draws, and which of its storage accesses are rejected. */
  datatype Request = Request(
    op: Op, loading: Fresh, resetting: Fresh, getFails: bool, loadSetFails: bool, retrySetFails: bool, setFails: bool)

  predicate IsRequest(r: Request) {
    IsFresh(r.loading) && IsFresh(r.resetting)
  }

  /** The change that a mutating operation makes; `None` where it throws. */
  function Change(r: Request, s: State): Option<State> {
    match r.op
    case Acknowledge(on) =>
      Some(s.(disclosureVersion := 1, statisticsEnabled := on, summary := if on then s.summary else None))
    case SetStatistics(on) =>
      if s.disclosureVersion != 1 then None
      else Some(s.(statisticsEnabled := on, summary := if on then s.summary else None))
    case Reset =>
      Some(s.(installationId := Text(r.resetting.id), createdAtMillis := Print(r.resetting.now), sessions := "0",
              everConnected := false, summary := None))
    case RecordSession =>
      var next := Increment(s.sessions);
      if next.None? then None else Some(s.(sessions := next.value))
    case RecordConnected => Some(s.(everConnected := true))
    case CacheSummary(summary, permits) =>
      if !(s.statisticsEnabled && permits) then Some(s.(summary := None))
      else if IsSummary(summary) then Some(s.(summary := Some(SummaryOf(summary))))
      else None
    case _ => Some(s)
  }

  /** The changed state, normalised. */
  function Next(r: Request, s: State, version: string): Option<State> {
    var changed := Change(r, s);
    if changed.Some? then Normalize(Encode(changed.value), version) else None
  }

  datatype Outcome = Fulfilled(state: State) | Rejected

  datatype Effect = Effect(stored: Option<Json>, outcome: Outcome)

  /** An owner runs as one validated version. */
  datatype Owner = Owner(version: string)

  /** What the reading of a call ends with; `None` where it is rejected. */
  function Reading(stored: Option<Json>, r: Request, version: string): Option<Loaded> {
    var loaded := Load(stored, version, r.loading);
    if r.getFails then None
    else if loaded.write.None? || !r.loadSetFails then Some(loaded)
    else if r.retrySetFails then None
    else Retry(stored, version, r.loading)
  }

  /** What reading leaves in storage. */
  function AfterLoad(stored: Option<Json>, loaded: Loaded): Option<Json> {
    if loaded.write.Some? then loaded.write else stored
  }

  /** The part of an operation that follows a successful load. */
  function AfterLoaded(stored: Option<Json>, loaded: Loaded, r: Request, owner: Owner): Effect {
    match r.op
    case Snapshot => Effect(stored, Fulfilled(loaded.state))
    case Refresh =>
      Effect(stored, if loaded.malformed || UrlFits(owner.version) then Fulfilled(loaded.state) else Rejected)
    case _ =>
      if loaded.readOnly then Effect(stored, Rejected)
      else
        var next := Next(r, loaded.state, owner.version);
        if next.None? || r.setFails then Effect(stored, Rejected)
        else Effect(Some(Encode(next.value)), if UrlFits(owner.version) then Fulfilled(next.value) else Rejected)
  }

  /** One whole operation, undisturbed by others. */
  function Perform(stored: Option<Json>, r: Request, owner: Owner): Effect {
    match Reading(stored, r, owner.version)
    case None => Effect(stored, Rejected)
    case Some(loaded) => AfterLoaded(AfterLoad(stored, loaded), loaded, r, owner)
  }

  /** The storage after the operations, one after the other. */
  function PerformAll(stored: Option<Json>, rs: seq<Request>, owner: Owner): Option<Json> {
    if rs == [] then stored else Perform(PerformAll(stored, rs[..|rs| - 1], owner), rs[|rs| - 1], owner).stored
  }

  /** What every state that the owner writes satisfies. */
  predicate WellFormed(s: State) {
    && MatchesUuid(s.installationId)
    && IsU64Text(s.createdAtMillis)
    && IsVersionText(s.firstVersion)
    && IsVersionText(s.currentVersion)
    && IsU64Text(s.sessions)
    && s.disclosureVersion <= 1
    && (s.summary.Some? ==> IsU64Text(s.summary.value.added) && IsU64Text(s.summary.value.completed))
  }

  /** A cached summary exists only while statistics are on. */
  predicate SummaryPermitted(s: State) {
    s.summary.Some? ==> s.statisticsEnabled
  }

  predicate Normal(s: State, version: string) {
    WellFormed(s) && SummaryPermitted(s) && s.currentVersion == version
  }

  lemma NormalizeIsNormal(j: Json, version: string)
    requires IsVersionText(version) && IsState(j)
    ensures Normal(Normalize(j, version).value, version)
  {
    var f := j.fields;
    ValidateUnchanged(f[CreatedAtMillis].text);
    ValidateUnchanged(f[Sessions].text);
    if f[BackendSummary] != Null {
      ValidateUnchanged(f[BackendSummary].fields[Added].text);
      ValidateUnchanged(f[BackendSummary].fields[Completed].text);
    }
  }

  lemma RecoverIsNormal(j: Json, version: string, drawn: Fresh)
    requires IsVersionText(version) && IsFresh(drawn)
    ensures Normal(Recover(j, version, drawn), version) && Recover(j, version, drawn).summary.None?
  {
    var f := FieldsOf(j);
    PrintIsU64(drawn.now);
    PrintIsU64(0);
    if CreatedAtMillis in f && IsCounter(f[CreatedAtMillis]) {
      ValidateUnchanged(f[CreatedAtMillis].text);
    }
    if Sessions in f && IsCounter(f[Sessions]) {
      ValidateUnchanged(f[Sessions].text);
    }
  }

  /** Normalising a stored state sets the version and drops a summary that is not permitted, and nothing else. */
  lemma NormalizeEncoded(s: State, version: string)
    requires WellFormed(s)
    ensures Normalize(Encode(s), version)
         == Some(s.(currentVersion := version, summary := if s.statisticsEnabled then s.summary else None))
  {
    ValidateUnchanged(s.createdAtMillis);
    ValidateUnchanged(s.sessions);
    EncodedKeys(s);
    SummaryEncoded(s.summary);
  }

  lemma EncodedKeys(s: State)
    ensures Encode(s).fields.Keys == STATE_KEYS
  {}

  lemma SummaryEncoded(s: Option<Summary>)
    requires s.Some? ==> IsU64Text(s.value.added) && IsU64Text(s.value.completed)
    ensures s.Some? ==> IsSummary(EncodeSummary(s)) && SummaryOf(EncodeSummary(s)) == s.value
  {
    if s.Some? {
      ValidateUnchanged(s.value.added);
      ValidateUnchanged(s.value.completed);
      assert EncodeSummary(s).fields.Keys == SUMMARY_KEYS;
    }
  }

  /** Normal states are the fixed points of normalisation. */
  lemma NormalIsFixed(s: State, version: string)
    requires Normal(s, version)
    ensures Normalize(Encode(s), version) == Some(s)
  {
    NormalizeEncoded(s, version);
  }

  /** What a read can end with, whichever of its writes are rejected. */
  predicate Reads(stored: Option<Json>, version: string, drawn: Fresh, loaded: Loaded) {
    loaded == Load(stored, version, drawn) || Retry(stored, version, drawn) == Some(loaded)
  }

  /** A rejected repair costs the cached summary, and nothing else. */
  lemma RetryDropsTheSummary(stored: Option<Json>, version: string, drawn: Fresh)
    requires Retry(stored, version, drawn).Some?
    ensures var state := Load(stored, version, drawn).state.(summary := None);
            Retry(stored, version, drawn) == Some(Loaded(state, true, false, Some(Encode(state))))
  {
    var f := stored.value.fields;
    ValidateUnchanged(f[CreatedAtMillis].text);
    ValidateUnchanged(f[Sessions].text);
  }

  lemma LoadIsNormal(stored: Option<Json>, version: string, drawn: Fresh, loaded: Loaded)
    requires IsVersionText(version) && IsFresh(drawn) && Reads(stored, version, drawn, loaded)
    ensures Normal(loaded.state, version)
  {
    match stored
    case None => PrintIsU64(drawn.now); PrintIsU64(0);
    case Some(j) =>
      RecoverIsNormal(j, version, drawn);
      if IsState(j) {
        NormalizeIsNormal(j, version);
      }
  }

  /** Whatever was stored, one write makes it settle: reading the result gives the same state and writes nothing. */
  lemma LoadSettles(stored: Option<Json>, version: string, drawn: Fresh, again: Fresh, loaded: Loaded)
    requires IsVersionText(version) && IsFresh(drawn) && Reads(stored, version, drawn, loaded)
    ensures loaded.write.Some? ==>
              && loaded.write == Some(Encode(loaded.state))
              && Load(loaded.write, version, again) == Loaded(loaded.state, false, false, None)
    ensures loaded.write.None? ==> stored.Some? && (stored == Some(Encode(loaded.state)) || loaded.readOnly)
  {
    LoadIsNormal(stored, version, drawn, loaded);
    NormalIsFixed(loaded.state, version);
  }

  /** A value with a newer schema is read only: no operation changes it, and every change is rejected. */
  lemma {:induction false} NewerNeverOverwritten(j: Json, rs: seq<Request>, owner: Owner)
    requires IsNewer(j)
    ensures PerformAll(Some(j), rs, owner) == Some(j)
    ensures forall r: Request :: !r.op.Snapshot? && !r.op.Refresh? ==> Perform(Some(j), r, owner).outcome == Rejected
  {
    assert !IsState(j);
    if rs != [] {
      NewerNeverOverwritten(j, rs[..|rs| - 1], owner);
    }
  }

  /** Consent: the current disclosure is acknowledged and statistics are on, as far as a stored value says so. */
  predicate Consents(stored: Option<Json>) {
    && stored.Some? && stored.value.Object?
    && var f := stored.value.fields;
       && DisclosureVersion in f && f[DisclosureVersion] == Number(1.0)
       && StatisticsEnabled in f && f[StatisticsEnabled] == Bool(true)
  }

  predicate StateConsents(s: State) {
    s.disclosureVersion == 1 && s.statisticsEnabled
  }

  /** Reading, normalising and recovering neither give nor take consent. */
  lemma LoadPreservesConsent(stored: Option<Json>, version: string, drawn: Fresh, loaded: Loaded)
    requires Reads(stored, version, drawn, loaded)
    ensures StateConsents(loaded.state) <==> Consents(stored)
    ensures Consents(AfterLoad(stored, loaded)) <==> Consents(stored)
  {
    EncodedConsents(loaded.state);
  }

  lemma EncodedConsents(s: State)
    ensures Consents(Some(Encode(s))) <==> StateConsents(s)
  {}

  lemma ChangeIsWellFormed(r: Request, s: State)
    requires WellFormed(s) && IsRequest(r)
    ensures Change(r, s).Some? ==> WellFormed(Change(r, s).value)
  {
    match r.op
    case Reset => ResetIsWellFormed(r, s);
    case RecordSession => IncrementText(s.sessions);
    case CacheSummary(_, _) => CacheIsWellFormed(r, s);
    case Acknowledge(_) =>
    case SetStatistics(_) =>
    case _ =>
  }

  lemma ResetIsWellFormed(r: Request, s: State)
    requires WellFormed(s) && IsRequest(r) && r.op.Reset?
    ensures Change(r, s).Some? && WellFormed(Change(r, s).value)
  {
    PrintIsU64(r.resetting.now);
    PrintIsU64(0);
  }

  lemma CacheIsWellFormed(r: Request, s: State)
    requires WellFormed(s) && r.op.CacheSummary?
    ensures Change(r, s).Some? ==> WellFormed(Change(r, s).value)
  {
    if IsSummary(r.op.summary) {
      ValidateUnchanged(r.op.summary.fields[Added].text);
      ValidateUnchanged(r.op.summary.fields[Completed].text);
    }
  }

  /** Whether consent holds after a stored operation, if it held before or not. */
  predicate Decided(op: Op, before: bool) {
    match op
    case Acknowledge(on) => on
    case SetStatistics(on) => on
    case _ => before
  }

  lemma ChangeConsents(r: Request, s: State)
    requires Change(r, s).Some?
    ensures StateConsents(Change(r, s).value) <==> Decided(r.op, StateConsents(s))
  {}

  /** Only a reset gives a new identity. */
  lemma ChangeIdentifies(r: Request, s: State)
    requires Change(r, s).Some?
    ensures Change(r, s).value.installationId == if r.op.Reset? then Text(r.resetting.id) else s.installationId
  {}

  function Count(s: State): nat {
    if IsU64Text(s.sessions) then Value(s.sessions) else 0
  }

  lemma RecordingCounts(r: Request, s: State)
    requires IsU64Text(s.sessions) && r.op.RecordSession?
    ensures Change(r, s).Some? && Count(Change(r, s).value) == Saturated(Count(s) + 1)
  {
    IncrementText(s.sessions);
  }

  lemma ResetCounts(r: Request, s: State)
    requires r.op.Reset?
    ensures Change(r, s).Some? && Count(Change(r, s).value) == 0
  {
    PrintIsU64(0);
    assert Print(0) == "0";
  }

  lemma OthersDoNotCount(r: Request, s: State)
    requires !r.op.RecordSession? && !r.op.Reset? && Change(r, s).Some?
    ensures Change(r, s).value.sessions == s.sessions
  {}

  /** The session count goes to its saturating successor, to zero, or nowhere. */
  lemma ChangeCounts(r: Request, s: State)
    requires IsU64Text(s.sessions) && Change(r, s).Some?
    ensures Count(Change(r, s).value)
         == if r.op.RecordSession? then Saturated(Count(s) + 1) else if r.op.Reset? then 0 else Count(s)
  {
    if r.op.RecordSession? {
      RecordingCounts(r, s);
    } else if r.op.Reset? {
      ResetCounts(r, s);
    } else {
      OthersDoNotCount(r, s);
    }
  }

  /** What a mutating operation stores: a normal state that differs from the change only in the running version. */
  lemma NextIsNormal(r: Request, s: State, version: string)
    requires WellFormed(s) && SummaryPermitted(s) && IsRequest(r) && IsVersionText(version)
    ensures Next(r, s, version).Some? <==> Change(r, s).Some?
    ensures Next(r, s, version).Some? ==>
      && Normal(Next(r, s, version).value, version)
      && Next(r, s, version).value == Change(r, s).value.(currentVersion := version)
  {
    ChangeIsWellFormed(r, s);
    if Change(r, s).Some? {
      ChangePermitsSummary(r, s);
      NormalizeEncoded(Change(r, s).value, version);
    }
  }

  /** Every change keeps a summary only with statistics on. */
  lemma ChangePermitsSummary(r: Request, s: State)
    requires SummaryPermitted(s) && Change(r, s).Some?
    ensures SummaryPermitted(Change(r, s).value)
  {}

  predicate Mutates(op: Op) {
    !op.Snapshot? && !op.Refresh?
  }

  /** The operation got as far as storing its change. */
  predicate Stores(stored: Option<Json>, r: Request, owner: Owner) {
    && Mutates(r.op) && !r.setFails
    && Reading(stored, r, owner.version).Some?
    && var loaded := Reading(stored, r, owner.version).value;
       && !loaded.readOnly
       && Next(r, loaded.state, owner.version).Some?
  }

  /** A change is fulfilled only when it is stored; with a URL that fits, exactly then. */
  lemma FulfilledIffStored(stored: Option<Json>, r: Request, owner: Owner)
    requires Mutates(r.op)
    ensures Perform(stored, r, owner).outcome.Fulfilled? <==> Stores(stored, r, owner) && UrlFits(owner.version)
  {}

  /** With an ASCII version, and with any version of at most 109 units, a change is fulfilled exactly if it is stored.
      */
  lemma FulfilledIfShort(stored: Option<Json>, r: Request, owner: Owner)
    requires Mutates(r.op) && IsVersionText(owner.version)
    requires IsAscii(owner.version) || Units(owner.version) <= 109
    ensures Perform(stored, r, owner).outcome.Fulfilled? <==> Stores(stored, r, owner)
  {
    if IsAscii(owner.version) {
      AsciiFits(owner.version);
    } else {
      ShortFits(owner.version);
    }
  }

  /** A call that stores its change and is rejected: the first recorded session, under every version that does not fit.
      */
  lemma StoredButRejected(version: string, drawn: Fresh)
    requires IsVersionText(version) && !UrlFits(version) && IsFresh(drawn)
    ensures var owner := Owner(version);
            var r := Request(RecordSession, drawn, drawn, false, false, false, false);
            && Stores(None, r, owner) && StoredCount(Perform(None, r, owner).stored, owner) == 1
            && Perform(None, r, owner).outcome == Rejected
  {
    var owner := Owner(version);
    var r := Request(RecordSession, drawn, drawn, false, false, false, false);
    FreshCounts(r, owner);
    OneOperationCounts(None, r, owner);
    FulfilledIffStored(None, r, owner);
  }

  /** There is such a version: 110 times a character of three octets. */
  lemma WideVersionDoesNotFit()
    ensures IsVersionText(Wide(110)) && !UrlFits(Wide(110))
  {
    WideLength(110);
    WideDoesNotFit(110);
  }

  lemma FreshCounts(r: Request, owner: Owner)
    requires IsVersionText(owner.version) && IsRequest(r) && r.op.RecordSession?
    requires !r.getFails && !r.loadSetFails && !r.setFails
    ensures Stores(None, r, owner) && StoredCount(None, owner) == 0
  {
    var loaded := Load(None, owner.version, r.loading);
    LoadIsNormal(None, owner.version, r.loading, loaded);
    NextIsNormal(r, loaded.state, owner.version);
    RecordingCounts(r, loaded.state);
    PrintIsU64(0);
    assert Print(0) == "0";
  }

  /** Those operations of a run that stored their change. */
  function StoredOps(stored: Option<Json>, rs: seq<Request>, owner: Owner): seq<Op> {
    if rs == [] then []
    else
      var before, last := rs[..|rs| - 1], rs[|rs| - 1];
      var earlier := StoredOps(stored, before, owner);
      if Stores(PerformAll(stored, before, owner), last, owner) then earlier + [last.op] else earlier
  }

  /** The sessions recorded since the last reset, added to the start value if there was no reset. */
  function SessionsSinceReset(start: nat, ops: seq<Op>): nat {
    if ops == [] then start
    else match ops[|ops| - 1]
      case Reset => 0
      case RecordSession => SessionsSinceReset(start, ops[..|ops| - 1]) + 1
      case _ => SessionsSinceReset(start, ops[..|ops| - 1])
  }

  /** The session count that a stored value stands for, whatever identifier reading would draw. */
  function StoredCount(stored: Option<Json>, owner: Owner): nat {
    Count(Load(stored, owner.version, Fresh("", 0)).state)
  }

  lemma LoadCount(stored: Option<Json>, version: string, drawn: Fresh, again: Fresh, loaded: Loaded)
    requires Reads(stored, version, drawn, loaded)
    ensures loaded.state.sessions == Load(stored, version, again).state.sessions
  {
    if loaded != Load(stored, version, drawn) {
      RetryDropsTheSummary(stored, version, drawn);
    }
  }

  lemma StoredCountOfNormal(s: State, owner: Owner)
    requires Normal(s, owner.version)
    ensures StoredCount(Some(Encode(s)), owner) == Count(s)
  {
    NormalIsFixed(s, owner.version);
  }

  /** One operation moves the session count exactly if it stores a recording or a reset. */
  lemma OneOperationCounts(stored: Option<Json>, r: Request, owner: Owner)
    requires IsVersionText(owner.version) && IsRequest(r)
    ensures var before, after := StoredCount(stored, owner), StoredCount(Perform(stored, r, owner).stored, owner);
            if !Stores(stored, r, owner) then after == before
            else if r.op.Reset? then after == 0
            else if r.op.RecordSession? then after == Saturated(before + 1)
            else after == before
  {
    UnstoredEffect(stored, r, owner);
    if Reading(stored, r, owner.version).Some? {
      LoadKeepsCount(stored, r.loading, owner, Reading(stored, r, owner.version).value);
      if Stores(stored, r, owner) {
        StoreCounts(stored, r, owner);
      }
    }
  }

  lemma LoadKeepsCount(stored: Option<Json>, drawn: Fresh, owner: Owner, loaded: Loaded)
    requires IsVersionText(owner.version) && IsFresh(drawn) && Reads(stored, owner.version, drawn, loaded)
    ensures StoredCount(stored, owner) == Count(loaded.state)
    ensures StoredCount(AfterLoad(stored, loaded), owner) == Count(loaded.state)
  {
    LoadIsNormal(stored, owner.version, drawn, loaded);
    LoadSettles(stored, owner.version, drawn, drawn, loaded);
    LoadCount(stored, owner.version, drawn, Fresh("", 0), loaded);
    if loaded.write.Some? {
      StoredCountOfNormal(loaded.state, owner);
    }
  }

  /** An operation that does not store its change leaves what reading left, if it read at all. */
  lemma UnstoredEffect(stored: Option<Json>, r: Request, owner: Owner)
    ensures !Stores(stored, r, owner) ==>
            Perform(stored, r, owner).stored
            == match Reading(stored, r, owner.version)
               case None => stored
               case Some(loaded) => AfterLoad(stored, loaded)
  {}

  /** An operation that stores its change stores the changed state under the running version. */
  lemma StoredEffect(stored: Option<Json>, r: Request, owner: Owner)
    requires IsVersionText(owner.version) && IsRequest(r) && Stores(stored, r, owner)
    ensures var state := Reading(stored, r, owner.version).value.state;
            && Normal(state, owner.version) && Change(r, state).Some?
            && var next := Change(r, state).value.(currentVersion := owner.version);
               Normal(next, owner.version) && Perform(stored, r, owner).stored == Some(Encode(next))
  {
    var loaded := Reading(stored, r, owner.version).value;
    LoadIsNormal(stored, owner.version, r.loading, loaded);
    NextIsNormal(r, loaded.state, owner.version);
  }

  /** What one operation leaves behind is what was there, or a normal state: there a summary exists only while
      statistics are on. */
  lemma PerformStoresNormal(stored: Option<Json>, r: Request, owner: Owner)
    requires IsVersionText(owner.version) && IsRequest(r)
    ensures var after := Perform(stored, r, owner).stored;
            after == stored || exists s :: Normal(s, owner.version) && after == Some(Encode(s))
  {
    UnstoredEffect(stored, r, owner);
    if Reading(stored, r, owner.version).Some? {
      var loaded := Reading(stored, r, owner.version).value;
      LoadIsNormal(stored, owner.version, r.loading, loaded);
      LoadSettles(stored, owner.version, r.loading, r.loading, loaded);
      if Stores(stored, r, owner) {
        StoredEffect(stored, r, owner);
      }
    }
  }

  /** What a fulfilled call returns is a normal state. */
  lemma OutcomeIsNormal(stored: Option<Json>, r: Request, owner: Owner)
    requires IsVersionText(owner.version) && IsRequest(r)
    requires Perform(stored, r, owner).outcome.Fulfilled?
    ensures Normal(Perform(stored, r, owner).outcome.state, owner.version)
  {
    var loaded := Reading(stored, r, owner.version).value;
    LoadIsNormal(stored, owner.version, r.loading, loaded);
    if Mutates(r.op) {
      NextIsNormal(r, loaded.state, owner.version);
    }
  }

  lemma StoreCounts(stored: Option<Json>, r: Request, owner: Owner)
    requires IsVersionText(owner.version) && IsRequest(r) && Stores(stored, r, owner)
    ensures var before, after := StoredCount(stored, owner), StoredCount(Perform(stored, r, owner).stored, owner);
            if r.op.Reset? then after == 0
            else if r.op.RecordSession? then after == Saturated(before + 1)
            else after == before
  {
    var loaded := Reading(stored, r, owner.version).value;
    StoredEffect(stored, r, owner);
    LoadKeepsCount(stored, r.loading, owner, loaded);
    ChangeCounts(r, loaded.state);
    var next := Change(r, loaded.state).value.(currentVersion := owner.version);
    StoredCountOfNormal(next, owner);
    assert Count(next) == Count(Change(r, loaded.state).value);
  }

  /** Consent after one operation: as the user has just said if that was stored, and otherwise as before. */
  lemma ConsentAfterOperation(stored: Option<Json>, r: Request, owner: Owner)
    requires IsVersionText(owner.version) && IsRequest(r)
    ensures Consents(Perform(stored, r, owner).stored) <==>
            if Stores(stored, r, owner) then Decided(r.op, Consents(stored)) else Consents(stored)
  {
    UnstoredEffect(stored, r, owner);
    if Reading(stored, r, owner.version).Some? {
      var loaded := Reading(stored, r, owner.version).value;
      LoadPreservesConsent(stored, owner.version, r.loading, loaded);
      if Stores(stored, r, owner) {
        StoredEffect(stored, r, owner);
        ChangeConsents(r, loaded.state);
        EncodedConsents(Change(r, loaded.state).value.(currentVersion := owner.version));
      }
    }
  }

  /** The user's last stored decision, or the start value if there was none. */
  predicate LastDecision(start: bool, ops: seq<Op>) {
    if ops == [] then start else Decided(ops[|ops| - 1], LastDecision(start, ops[..|ops| - 1]))
  }

  /** Over every run consent is exactly the last decision of the user that was stored. */
  lemma {:induction false} ConsentIsLastDecision(stored: Option<Json>, rs: seq<Request>, owner: Owner)
    requires IsVersionText(owner.version) && forall r <- rs :: IsRequest(r)
    ensures Consents(PerformAll(stored, rs, owner)) <==> LastDecision(Consents(stored), StoredOps(stored, rs, owner))
  {
    if rs != [] {
      var before, last := rs[..|rs| - 1], rs[|rs| - 1];
      assert last in rs && forall r <- before :: r in rs;
      ConsentIsLastDecision(stored, before, owner);
      ConsentAfterOperation(PerformAll(stored, before, owner), last, owner);
      var ops := StoredOps(stored, before, owner);
      assert (ops + [last.op])[..|ops|] == ops;
    }
  }

  lemma {:induction false} StoredOpsAreRequested(stored: Option<Json>, rs: seq<Request>, owner: Owner)
    ensures forall op <- StoredOps(stored, rs, owner) :: exists r <- rs :: r.op == op
  {
    if rs != [] {
      var before, last := rs[..|rs| - 1], rs[|rs| - 1];
      StoredOpsAreRequested(stored, before, owner);
      assert last in rs && forall r <- before :: r in rs;
    }
  }

  predicate TurnsOn(op: Op) {
    op == Acknowledge(true) || op == SetStatistics(true)
  }

  lemma {:induction false} NoDecisionNoConsent(ops: seq<Op>)
    requires forall op <- ops :: !TurnsOn(op)
    ensures !LastDecision(false, ops)
  {
    if ops != [] {
      assert ops[|ops| - 1] in ops && forall op <- ops[..|ops| - 1] :: op in ops;
      NoDecisionNoConsent(ops[..|ops| - 1]);
    }
  }

  /** Over every run: without a call that turns it on consent never appears. */
  lemma ConsentNeverAppears(stored: Option<Json>, rs: seq<Request>, owner: Owner)
    requires IsVersionText(owner.version) && forall r <- rs :: IsRequest(r)
    requires !Consents(stored)
    requires forall r <- rs :: !TurnsOn(r.op)
    ensures !Consents(PerformAll(stored, rs, owner))
  {
    ConsentIsLastDecision(stored, rs, owner);
    StoredOpsAreRequested(stored, rs, owner);
    NoDecisionNoConsent(StoredOps(stored, rs, owner));
  }

  /** The valid identity that a stored value holds. */
  function Identity(stored: Option<Json>): Option<Json> {
    if stored.Some? && InstallationId in FieldsOf(stored.value) && MatchesUuid(FieldsOf(stored.value)[InstallationId])
    then Some(FieldsOf(stored.value)[InstallationId])
    else None
  }

  lemma EncodedIdentity(s: State)
    requires MatchesUuid(s.installationId)
    ensures Identity(Some(Encode(s))) == Some(s.installationId)
  {}

  /** However damaged the value is, reading keeps a valid identity. */
  lemma LoadKeepsIdentity(stored: Option<Json>, version: string, drawn: Fresh, loaded: Loaded)
    requires IsVersionText(version) && IsFresh(drawn) && Reads(stored, version, drawn, loaded)
    requires Identity(stored).Some?
    ensures Some(loaded.state.installationId) == Identity(stored) == Identity(AfterLoad(stored, loaded))
  {
    LoadIsNormal(stored, version, drawn, loaded);
    EncodedIdentity(loaded.state);
    if loaded != Load(stored, version, drawn) {
      RetryDropsTheSummary(stored, version, drawn);
    }
  }

  /** One operation keeps a valid identity, unless it is a reset that is stored. */
  lemma IdentityAfterOperation(stored: Option<Json>, r: Request, owner: Owner)
    requires IsVersionText(owner.version) && IsRequest(r) && Identity(stored).Some?
    ensures Identity(Perform(stored, r, owner).stored)
         == if Stores(stored, r, owner) && r.op.Reset? then Some(Text(r.resetting.id)) else Identity(stored)
  {
    UnstoredEffect(stored, r, owner);
    if Reading(stored, r, owner.version).Some? {
      var loaded := Reading(stored, r, owner.version).value;
      LoadKeepsIdentity(stored, owner.version, r.loading, loaded);
      if Stores(stored, r, owner) {
        StoredEffect(stored, r, owner);
        ChangeIdentifies(r, loaded.state);
        EncodedIdentity(Change(r, loaded.state).value.(currentVersion := owner.version));
      }
    }
  }

  /** Over every run a valid identity is replaced by nothing but a reset. */
  lemma {:induction false} IdentityOnlyReset(stored: Option<Json>, rs: seq<Request>, owner: Owner)
    requires IsVersionText(owner.version) && forall r <- rs :: IsRequest(r)
    requires Identity(stored).Some?
    ensures Identity(PerformAll(stored, rs, owner)).Some?
    ensures (forall r <- rs :: !r.op.Reset?) ==> Identity(PerformAll(stored, rs, owner)) == Identity(stored)
  {
    if rs != [] {
      var before, last := rs[..|rs| - 1], rs[|rs| - 1];
      assert last in rs && forall r <- before :: r in rs;
      IdentityOnlyReset(stored, before, owner);
      IdentityAfterOperation(PerformAll(stored, before, owner), last, owner);
    }
  }

  /** Over every run of operations the session count is the sessions stored since the last reset, added to the start
      value and saturating at 2^64 - 1. */
  lemma {:induction false} SessionsCounted(stored: Option<Json>, rs: seq<Request>, owner: Owner)
    requires IsVersionText(owner.version) && forall r <- rs :: IsRequest(r)
    ensures StoredCount(PerformAll(stored, rs, owner), owner)
         == Saturated(SessionsSinceReset(StoredCount(stored, owner), StoredOps(stored, rs, owner)))
  {
    if rs == [] {
      var state := Load(stored, owner.version, Fresh("", 0)).state;
      assert Count(state) <= MAX_U64;
    } else {
      var before, last := rs[..|rs| - 1], rs[|rs| - 1];
      assert last in rs && forall r <- before :: r in rs;
      SessionsCounted(stored, before, owner);
      OneOperationCounts(PerformAll(stored, before, owner), last, owner);
      var ops := StoredOps(stored, before, owner);
      assert (ops + [last.op])[..|ops|] == ops;
    }
  }
}
