/** What the next reader of the stored metrics finds, field by field: what a damaged value keeps, and what every
    operation does to every field. */
module MetricsReadBack {
  import opened Wrappers
  import opened Decimal
  import opened MetricsState

  predicate HoldsText(f: map<Field, Json>, key: Field, text: string) {
    key in f && f[key] == Text(text)
  }

  predicate HoldsU64(f: map<Field, Json>, key: Field) {
    key in f && f[key].Text? && IsU64Text(f[key].text)
  }

  predicate HoldsVersion(f: map<Field, Json>, key: Field) {
    key in f && f[key].Text? && IsVersionText(f[key].text)
  }

  /** A stored counter is kept if it is a canonical one, and is the default otherwise. */
  predicate CounterKept(f: map<Field, Json>, key: Field, read: string, otherwise: string) {
    if HoldsU64(f, key) then HoldsText(f, key, read) else read == otherwise
  }

  /** Whatever was stored, damaged or newer, reading keeps every field that is still valid, and puts a default for every
      other one; unreadable consent is no consent. */
  lemma ReadingKeepsValidFields(j: Json, version: string, drawn: Fresh, loaded: Loaded)
    requires Reads(Some(j), version, drawn, loaded)
    ensures var f, s := FieldsOf(j), loaded.state;
            && s.installationId
               == (if InstallationId in f && MatchesUuid(f[InstallationId]) then f[InstallationId] else Text(drawn.id))
            && CounterKept(f, CreatedAtMillis, s.createdAtMillis, Print(drawn.now))
            && CounterKept(f, Sessions, s.sessions, "0")
            && (if HoldsVersion(f, FirstVersion) then HoldsText(f, FirstVersion, s.firstVersion)
                else s.firstVersion == version)
            && s.currentVersion == version
            && (s.everConnected <==> EverConnected in f && f[EverConnected] == Bool(true))
            && s.disclosureVersion == (if DisclosureVersion in f && f[DisclosureVersion] == Number(1.0) then 1 else 0)
            && (s.statisticsEnabled <==> StatisticsEnabled in f && f[StatisticsEnabled] == Bool(true))
  {
    var f := FieldsOf(j);
    TextKept(f, CreatedAtMillis);
    TextKept(f, Sessions);
  }

  lemma TextKept(f: map<Field, Json>, key: Field)
    ensures key in f && IsCounter(f[key]) <==> HoldsU64(f, key)
    ensures key in f && IsCounter(f[key]) ==> CounterOf(f[key]) == f[key].text
  {
    if key in f && f[key].Text? {
      ValidateUnchanged(f[key].text);
    }
  }

  /** Nothing stored is read as a first start: counted from zero, statistics on but not yet disclosed. */
  lemma FirstStart(version: string, drawn: Fresh)
    ensures var loaded := Load(None, version, drawn);
            && loaded.state == State(Text(drawn.id), Print(drawn.now), version, version, "0", false, 0, true, None)
            && loaded.write == Some(Encode(loaded.state)) && !loaded.malformed && !loaded.readOnly
  {}

  /** The statistics switch after a stored operation. */
  predicate SwitchAfter(op: Op, before: bool) {
    match op
    case Acknowledge(on) => on
    case SetStatistics(on) => on
    case _ => before
  }

  /** The cached summary after a stored operation: it goes with the switch and with a reset, and only a summary that
      both sides permit is cached. */
  function SummaryAfter(op: Op, before: State): Option<Summary> {
    match op
    case Acknowledge(on) => if on then before.summary else None
    case SetStatistics(on) => if on then before.summary else None
    case Reset => None
    case CacheSummary(j, permits) =>
      if before.statisticsEnabled && permits && IsSummary(j) then Some(SummaryOf(j)) else None
    case _ => before.summary
  }

  /** After an operation that was stored, the next reading finds: a new identity, start and zero count behind a reset
      alone, one more session behind a recording, a connection behind a recording of one until a reset, the disclosure
      behind an acknowledgement, the switch where the user put it, and everything else as it was. */
  lemma StoredIsReadBack(stored: Option<Json>, r: Request, owner: Owner, again: Fresh)
    requires IsVersionText(owner.version) && IsRequest(r) && Stores(stored, r, owner)
    ensures var s := Reading(stored, r, owner.version).value.state;
            var t := Load(Perform(stored, r, owner).stored, owner.version, again).state;
            && t.installationId == (if r.op.Reset? then Text(r.resetting.id) else s.installationId)
            && t.createdAtMillis == (if r.op.Reset? then Print(r.resetting.now) else s.createdAtMillis)
            && t.firstVersion == s.firstVersion && t.currentVersion == owner.version
            && Count(t)
               == (if r.op.Reset? then 0 else if r.op.RecordSession? then Saturated(Count(s) + 1) else Count(s))
            && (t.everConnected <==> r.op.RecordConnected? || (s.everConnected && !r.op.Reset?))
            && t.disclosureVersion == (if r.op.Acknowledge? then 1 else s.disclosureVersion)
            && (t.statisticsEnabled <==> SwitchAfter(r.op, s.statisticsEnabled))
            && t.summary == SummaryAfter(r.op, s)
  {
    var s := Reading(stored, r, owner.version).value.state;
    StoredEffect(stored, r, owner);
    var t := Change(r, s).value.(currentVersion := owner.version);
    NormalIsFixed(t, owner.version);
    ChangeCounts(r, s);
    assert Count(t) == Count(Change(r, s).value);
    ChangedFields(r, s);
  }

  lemma ChangedFields(r: Request, s: State)
    requires Change(r, s).Some?
    ensures var t := Change(r, s).value;
            && t.installationId == (if r.op.Reset? then Text(r.resetting.id) else s.installationId)
            && t.createdAtMillis == (if r.op.Reset? then Print(r.resetting.now) else s.createdAtMillis)
            && t.firstVersion == s.firstVersion
            && (t.everConnected <==> r.op.RecordConnected? || (s.everConnected && !r.op.Reset?))
            && t.disclosureVersion == (if r.op.Acknowledge? then 1 else s.disclosureVersion)
            && (t.statisticsEnabled <==> SwitchAfter(r.op, s.statisticsEnabled))
            && t.summary == SummaryAfter(r.op, s)
  {}

  /** A summary is an object of exactly two canonical counters, which are kept as they are. */
  lemma SummaryIsTwoCounters(j: Json)
    ensures IsSummary(j) <==>
            && j.Object? && j.fields.Keys == {Added, Completed}
            && HoldsU64(j.fields, Added) && HoldsU64(j.fields, Completed)
    ensures IsSummary(j) ==> SummaryOf(j) == Summary(j.fields[Added].text, j.fields[Completed].text)
  {
    if j.Object? && j.fields.Keys == {Added, Completed} {
      TextKept(j.fields, Added);
      TextKept(j.fields, Completed);
    }
  }

  /** A summary is read where the value is sound, has one, and has statistics on; never from a damaged value. */
  lemma SummaryRead(j: Json, version: string, drawn: Fresh)
    ensures var loaded := Load(Some(j), version, drawn);
            loaded.state.summary
            == if IsState(j) && j.fields[StatisticsEnabled] == Bool(true) && j.fields[BackendSummary] != Null
               then Some(SummaryOf(j.fields[BackendSummary])) else None
  {}

  predicate IsSchema(j: Json, n: int) {
    j == Number(n as real)
  }

  /** A value is newer exactly if its schema is a whole number from 2 on. */
  lemma NewerIff(j: Json)
    ensures IsNewer(j) <==>
            j.Object? && SchemaVersion in j.fields
            && exists n: int :: n >= 2 && IsSchema(j.fields[SchemaVersion], n)
  {
    if IsNewer(j) {
      var n := j.fields[SchemaVersion].value.Floor;
      assert n >= 2 && IsSchema(j.fields[SchemaVersion], n);
    }
  }

  /** The operation is refused for what it asks: the switch before the disclosure, or a summary of a wrong shape. */
  predicate Refused(op: Op, s: State) {
    || (op.SetStatistics? && s.disclosureVersion != 1)
    || (op.CacheSummary? && s.statisticsEnabled && op.permits && !IsSummary(op.summary))
  }

  /** A change is stored exactly if reading and writing work, the value is not a newer one, and the operation is not
      refused. */
  lemma StoresIff(stored: Option<Json>, r: Request, owner: Owner)
    requires IsVersionText(owner.version) && IsRequest(r) && Mutates(r.op)
    ensures Stores(stored, r, owner) <==>
            && Reading(stored, r, owner.version).Some? && !Reading(stored, r, owner.version).value.readOnly
            && !Refused(r.op, Reading(stored, r, owner.version).value.state) && !r.setFails
  {
    if Reading(stored, r, owner.version).Some? {
      var loaded := Reading(stored, r, owner.version).value;
      LoadIsNormal(stored, owner.version, r.loading, loaded);
      NextIsNormal(r, loaded.state, owner.version);
      RefusedIff(r, loaded.state);
    }
  }

  lemma RefusedIff(r: Request, s: State)
    requires IsU64Text(s.sessions)
    ensures Change(r, s).None? <==> Refused(r.op, s)
  {
    IncrementText(s.sessions);
  }

  /** Snapshots and refreshes change nothing beyond what reading repairs, and return what they read. */
  lemma OnlyReads(stored: Option<Json>, r: Request, owner: Owner)
    requires !Mutates(r.op)
    ensures var reading, effect := Reading(stored, r, owner.version), Perform(stored, r, owner);
            && effect.stored == (if reading.Some? then AfterLoad(stored, reading.value) else stored)
            && (effect.outcome.Fulfilled? ==> reading.Some? && effect.outcome.state == reading.value.state)
            && (r.op.Snapshot? ==> (effect.outcome.Fulfilled? <==> reading.Some?))
  {}

  /** The stored value says that the extension has connected. */
  predicate Connected(stored: Option<Json>) {
    stored.Some? && EverConnected in FieldsOf(stored.value) && FieldsOf(stored.value)[EverConnected] == Bool(true)
  }

  lemma EncodedConnected(s: State)
    ensures Connected(Some(Encode(s))) <==> s.everConnected
  {}

  lemma LoadKeepsConnected(stored: Option<Json>, version: string, drawn: Fresh, loaded: Loaded)
    requires Reads(stored, version, drawn, loaded)
    ensures loaded.state.everConnected <==> Connected(stored)
    ensures Connected(AfterLoad(stored, loaded)) <==> Connected(stored)
  {
    EncodedConnected(loaded.state);
    if stored.Some? {
      ReadingKeepsValidFields(stored.value, version, drawn, loaded);
    }
  }

  predicate ConnectedAfter(op: Op, before: bool) {
    op.RecordConnected? || (before && !op.Reset?)
  }

  /** A connection is on record after one operation exactly if it was stored just now, or was there and not reset. */
  lemma ConnectedAfterOperation(stored: Option<Json>, r: Request, owner: Owner)
    requires IsVersionText(owner.version) && IsRequest(r)
    ensures Connected(Perform(stored, r, owner).stored) <==>
            if Stores(stored, r, owner) then ConnectedAfter(r.op, Connected(stored)) else Connected(stored)
  {
    UnstoredEffect(stored, r, owner);
    if Reading(stored, r, owner.version).Some? {
      var loaded := Reading(stored, r, owner.version).value;
      LoadKeepsConnected(stored, owner.version, r.loading, loaded);
      if Stores(stored, r, owner) {
        StoredEffect(stored, r, owner);
        ChangedFields(r, loaded.state);
        EncodedConnected(Change(r, loaded.state).value.(currentVersion := owner.version));
      }
    }
  }

  /** Some operation recorded a connection and none behind it was a reset; or there was one at the start and no reset.
      */
  predicate ConnectedSinceReset(start: bool, ops: seq<Op>) {
    if ops == [] then start else ConnectedAfter(ops[|ops| - 1], ConnectedSinceReset(start, ops[..|ops| - 1]))
  }

  /** Over every sequential run a connection is on record exactly since the last stored reset. */
  lemma {:induction false} ConnectionsRecorded(stored: Option<Json>, rs: seq<Request>, owner: Owner)
    requires IsVersionText(owner.version) && forall r <- rs :: IsRequest(r)
    ensures Connected(PerformAll(stored, rs, owner)) <==>
            ConnectedSinceReset(Connected(stored), StoredOps(stored, rs, owner))
  {
    if rs != [] {
      var before, last := rs[..|rs| - 1], rs[|rs| - 1];
      assert last in rs && forall r <- before :: r in rs;
      ConnectionsRecorded(stored, before, owner);
      ConnectedAfterOperation(PerformAll(stored, before, owner), last, owner);
      var ops := StoredOps(stored, before, owner);
      assert (ops + [last.op])[..|ops|] == ops;
    }
  }
}
