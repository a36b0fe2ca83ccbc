/** The raw data-channel benchmark: a back-pressured sender that cycles through four prepared messages, and a receiver
    that checks every byte against a formula of its position. */
module SenderPump {
  import opened Bytes

  const CHUNK: nat := 16384
  const CEILING: nat := 512 * 1024
  const THRESHOLD: nat := 256 * 1024
  const MIB: nat := 1048576

  /** The fixture's byte at a position; the shift works on the position modulo 2^32. */
  function Pattern(position: nat): byte {
    (position * 31 + position % 0x1_0000_0000 / 256 * 17) % 256
  }

  /** The fixture's bytes `[from, from + count)`. */
  function Stretch(from: nat, count: nat): (s: seq<byte>)
    ensures |s| == count
  {
    seq<byte>(count, (i: nat) => Pattern(from + i))
  }

  lemma SlidIndex(a: nat, k: nat)
    ensures (a + 0x1_0000 * k) % 0x1_0000_0000 / 256 % 256 == a / 256 % 256
  {
    var b := a + 0x1_0000 * k;
    var q := b / 0x1_0000_0000;
    assert b % 0x1_0000_0000 == b - 0x1_0000_0000 * q;
    assert b % 0x1_0000_0000 / 256 == a / 256 + 256 * k - 0x100_0000 * q;
    var t := a / 256 + 256 * (k - 0x1_0000 * q);
    assert t == a / 256 + 256 * k - 0x100_0000 * q;
    ModularShift(a / 256, k - 0x1_0000 * q);
  }

  lemma ModularShift(a: int, k: int)
    ensures (a + 256 * k) % 256 == a % 256
  {
    var q, r := a / 256, a % 256;
    assert a + 256 * k == 256 * (q + k) + r;
  }

  lemma PatternByDigits(p: nat)
    ensures Pattern(p) == (p % 256 * 31 + p % 0x1_0000_0000 / 256 % 256 * 17) % 256
  {
    var h := p % 0x1_0000_0000 / 256;
    assert p * 31 + h * 17 == p % 256 * 31 + h % 256 * 17 + 256 * (p / 256 * 31 + h / 256 * 17);
    ModularShift(p % 256 * 31 + h % 256 * 17, p / 256 * 31 + h / 256 * 17);
  }

  /** The pattern repeats every 64 KiB, also across the wrap of the shift's 32-bit operand. */
  lemma PatternPeriodic(p: nat, k: nat)
    ensures Pattern(p + 0x1_0000 * k) == Pattern(p)
  {
    PatternByDigits(p);
    PatternByDigits(p + 0x1_0000 * k);
    SlidIndex(p, k);
    SlidIndex(p, 0);
    ModularShift(p, 256 * k);
  }

  /** No shorter number of whole messages would do: the cycle must hold all four. */
  lemma ShorterCyclesDiffer()
    ensures forall c: nat :: 1 <= c < 4 ==> Pattern(CHUNK * c) != Pattern(0)
  {}

  /** The four messages prepared before the channel opens. */
  method Prepare() returns (pattern: seq<seq<byte>>)
    ensures |pattern| == 4
    ensures forall c: nat :: c < 4 ==> pattern[c] == Stretch(CHUNK * c, CHUNK)
  {
    pattern := [];
    for chunk: nat := 0 to 4
      invariant |pattern| == chunk
      invariant forall c: nat :: c < chunk ==> pattern[c] == Stretch(CHUNK * c, CHUNK)
    {
      var payload := new byte[CHUNK];
      for index: nat := 0 to CHUNK
        invariant forall i: nat :: i < index ==> payload[i] == Pattern(CHUNK * chunk + i)
      {
        payload[index] := Pattern(chunk * CHUNK + index);
      }
      assert payload[..] == Stretch(CHUNK * chunk, CHUNK);
      pattern := pattern + [payload[..]];
    }
  }

  lemma NextChunk(sent: nat)
    requires sent % CHUNK == 0
    ensures (sent + CHUNK) % CHUNK == 0
  {}

  /** The message that the cycle holds at a send position is the fixture's own stretch there. */
  lemma CycleIsFixture(pattern: seq<seq<byte>>, sent: nat)
    requires |pattern| == 4
    requires forall c: nat :: c < 4 ==> pattern[c] == Stretch(CHUNK * c, CHUNK)
    requires sent % CHUNK == 0
    ensures pattern[sent / CHUNK % 4] == Stretch(sent, CHUNK)
  {
    var c, k := sent / CHUNK % 4, sent / CHUNK / 4;
    assert sent == CHUNK * c + 0x1_0000 * k;
    forall i: nat | i < CHUNK
      ensures pattern[c][i] == Stretch(sent, CHUNK)[i]
    {
      PatternPeriodic(CHUNK * c + i, k);
      assert CHUNK * c + i + 0x1_0000 * k == sent + i;
    }
  }

  datatype Job = Job(length: nat, cancelAfterMiB: nat)

  /** `transit` is what was sent and not yet delivered; its last `buffered` bytes have not left the sender. */
  datatype Sender = Sender(open: bool, sent: nat, buffered: nat, highWater: nat, transit: seq<seq<byte>>)

  datatype Outcome = Pending | Resolved | Rejected

  datatype Receiver = Receiver(bytes: nat, messages: nat, finished: bool, outcome: Outcome)

  /** `lowDue` is a low-water event that is queued and has not fired; `started` says that the channel has been open,
      `closing` that the receiver has closed its end, and `interrupted` that something else ended the transfer. */
  datatype World = World(
    sender: Sender, receiver: Receiver, lowDue: bool, started: bool, closing: bool, interrupted: bool)

  function Max(a: nat, b: nat): nat {
    if a < b then b else a
  }

  function Settle(outcome: Outcome, next: Outcome): Outcome {
    if outcome.Pending? then next else outcome
  }

  predicate CanSend(job: Job, s: Sender) {
    s.open && s.sent < job.length && s.buffered + CHUNK <= CEILING
  }

  function SendOne(s: Sender): Sender {
    Sender(s.open, s.sent + CHUNK, s.buffered + CHUNK, Max(s.highWater, s.buffered + CHUNK),
           s.transit + [Stretch(s.sent, CHUNK)])
  }

  function Pumped(job: Job, s: Sender): Sender
    decreases job.length - s.sent
  {
    if CanSend(job, s) then Pumped(job, SendOne(s)) else s
  }

  predicate Acceptable(job: Job, bytes: nat, payload: seq<byte>) {
    && 0 < |payload| <= CHUNK
    && bytes + |payload| <= job.length
    && payload == Stretch(bytes, |payload|)
  }

  predicate Reached(job: Job, bytes: nat) {
    bytes == job.length || (job.cancelAfterMiB != 0 && bytes >= job.cancelAfterMiB * MIB)
  }

  function Received(job: Job, r: Receiver, payload: seq<byte>): Receiver {
    if r.finished then r
    else if !Acceptable(job, r.bytes, payload) then r.(outcome := Settle(r.outcome, Rejected))
    else
      var bytes := r.bytes + |payload|;
      var done := Reached(job, bytes);
      Receiver(bytes, r.messages + 1, done, if done then Settle(r.outcome, Resolved) else r.outcome)
  }

  /** A cancelled transfer is closed by the receiver that has finished early. */
  predicate ClosesItself(job: Job, r: Receiver) {
    r.finished && job.cancelAfterMiB != 0 && r.bytes < job.length
  }

  /** A message advances the receiver exactly if it is 1 to 16384 bytes, stays within the length, and every byte is that
      of the formula at its position; a single wrong byte rejects the transfer, as does any other unacceptable message.
      */
  lemma AdvancesIff(job: Job, r: Receiver, payload: seq<byte>)
    requires !r.finished
    ensures var next := Received(job, r, payload);
            var fits := 1 <= |payload| <= 16384 && r.bytes + |payload| <= job.length;
            var right := forall i: nat :: i < |payload| ==>
              var p := r.bytes + i; payload[i] == (p * 31 + p % 0x1_0000_0000 / 256 * 17) % 256;
            if fits && right then next.bytes == r.bytes + |payload| && next.messages == r.messages + 1
            else next.bytes == r.bytes && next.messages == r.messages && !next.finished && !next.outcome.Pending?
  {
    var stretch := Stretch(r.bytes, |payload|);
    assert forall i: nat :: i < |payload| ==> stretch[i] == Pattern(r.bytes + i);
    if payload != stretch {
      assert exists i: nat :: i < |payload| && payload[i] != stretch[i];
    }
  }

  class BrowserSender {
    const job: Job
    const pattern: seq<seq<byte>>
    var open: bool
    var sent: nat
    var bufferedAmount: nat
    var senderHighWater: nat
    var transit: seq<seq<byte>>

    ghost predicate Valid()
      reads this
    {
      && |pattern| == 4
      && (forall c: nat :: c < 4 ==> pattern[c] == Stretch(CHUNK * c, CHUNK))
      && sent % CHUNK == 0
    }

    ghost function View(): Sender
      reads this
    {
      Sender(open, sent, bufferedAmount, senderHighWater, transit)
    }

    constructor (job: Job, pattern: seq<seq<byte>>)
      requires |pattern| == 4
      requires forall c: nat :: c < 4 ==> pattern[c] == Stretch(CHUNK * c, CHUNK)
      ensures Valid() && this.job == job && View() == Sender(false, 0, 0, 0, [])
    {
      this.job, this.pattern := job, pattern;
      open, sent, bufferedAmount, senderHighWater, transit := false, 0, 0, 0, [];
    }

    method Send(payload: seq<byte>)
      modifies this`bufferedAmount, this`transit
      ensures bufferedAmount == old(bufferedAmount) + |payload| && transit == old(transit) + [payload]
    {
      bufferedAmount := bufferedAmount + |payload|;
      transit := transit + [payload];
    }

    /** What goes onto the wire is the fixture itself, taken from a cycle of four messages. */
    method Pump()
      requires Valid()
      modifies this
      ensures Valid() && View() == Pumped(job, old(View()))
    {
      while open && sent < job.length && bufferedAmount + CHUNK <= CEILING
        invariant Valid() && Pumped(job, View()) == Pumped(job, old(View()))
        decreases job.length - sent
      {
        ghost var before := View();
        CycleIsFixture(pattern, sent);
        Send(pattern[sent / CHUNK % 4]);
        NextChunk(sent);
        sent := sent + CHUNK;
        senderHighWater := Max(senderHighWater, bufferedAmount);
        assert CanSend(job, before) && View() == SendOne(before);
      }
    }
  }

  class BrowserReceiver {
    const job: Job
    var bytes: nat
    var messages: nat
    var finished: bool
    var outcome: Outcome

    ghost function View(): Receiver
      reads this
    {
      Receiver(bytes, messages, finished, outcome)
    }

    constructor (job: Job)
      ensures this.job == job && View() == Receiver(0, 0, false, Pending)
    {
      this.job := job;
      bytes, messages, finished, outcome := 0, 0, false, Pending;
    }

    /** The message handler: it compares byte by byte, and an error rejects without advancing. */
    method OnMessage(payload: seq<byte>)
      modifies this
      ensures View() == Received(job, old(View()), payload)
    {
      if finished {
        return;
      }
      if |payload| == 0 || |payload| > CHUNK || bytes + |payload| > job.length {
        outcome := Settle(outcome, Rejected);
        return;
      }
      for index: nat := 0 to |payload|
        invariant View() == old(View())
        invariant forall i: nat :: i < index ==> payload[i] == Pattern(bytes + i)
      {
        if payload[index] != Pattern(bytes + index) {
          assert Stretch(bytes, |payload|)[index] != payload[index];
          outcome := Settle(outcome, Rejected);
          return;
        }
      }
      assert payload == Stretch(bytes, |payload|);
      bytes := bytes + |payload|;
      messages := messages + 1;
      if Reached(job, bytes) {
        finished := true;
        outcome := Settle(outcome, Resolved);
      }
    }
  }

  /** Steps of the pair: the channel opens, `count` bytes leave the sender's buffer, a queued low-water event fires, a
      message arrives, the sender's channel stops being open, or the receiver's promise is rejected from outside. A
      channel that stops being open although the receiver has not closed it is an interruption. */
  datatype Event = Opened | Drained(count: nat) | LowFired | Delivered | Closed | Interrupted

  predicate Enabled(w: World, e: Event) {
    var s := w.sender;
    match e
    case Opened => !w.started
    case Drained(n) => 0 < n <= s.buffered
    case LowFired => w.lowDue
    case Delivered => s.transit != [] && s.buffered <= CHUNK * (|s.transit| - 1)
    case Closed => s.open
    case Interrupted => true
  }

  function Step(job: Job, w: World, e: Event): World
    requires Enabled(w, e)
  {
    var s := w.sender;
    match e
    case Opened => w.(sender := Pumped(job, s.(open := true)), started := true)
    case Drained(n) =>
      w.(sender := s.(buffered := s.buffered - n), lowDue := w.lowDue || s.buffered - n <= THRESHOLD < s.buffered)
    case LowFired => w.(sender := Pumped(job, s), lowDue := false)
    case Delivered =>
      var receiver := Received(job, w.receiver, s.transit[0]);
      w.(sender := s.(transit := s.transit[1..]), receiver := receiver,
         closing := w.closing || ClosesItself(job, receiver))
    case Closed => w.(sender := s.(open := false), interrupted := w.interrupted || !w.closing)
    case Interrupted =>
      w.(receiver := w.receiver.(outcome := Settle(w.receiver.outcome, Rejected)), interrupted := true)
  }

  const START: World := World(Sender(false, 0, 0, 0, []), Receiver(0, 0, false, Pending), false, false, false, false)

  predicate Possible(job: Job, w: World, events: seq<Event>)
    decreases |events|
  {
    events == [] || (Enabled(w, events[0]) && Possible(job, Step(job, w, events[0]), events[1..]))
  }

  function Run(job: Job, w: World, events: seq<Event>): World
    requires Possible(job, w, events)
    decreases |events|
  {
    if events == [] then w else Run(job, Step(job, w, events[0]), events[1..])
  }

  /** Sent minus what is still under way. */
  function Arrived(s: Sender): int {
    s.sent - CHUNK * |s.transit|
  }

  predicate Flow(job: Job, s: Sender) {
    && s.sent % CHUNK == 0
    && (s.sent == 0 || s.sent < job.length + CHUNK)
    && Arrived(s) >= 0
    && s.buffered <= CHUNK * |s.transit|
    && s.buffered <= CEILING && s.highWater <= CEILING
    && forall k: nat :: k < |s.transit| ==> s.transit[k] == Stretch(Arrived(s) + CHUNK * k, CHUNK)
  }

  /** A sender with work left is above the wake-up threshold, or its wake-up is already queued. */
  predicate Awake(job: Job, s: Sender, lowDue: bool) {
    s.open && s.sent < job.length ==> lowDue || s.buffered > THRESHOLD
  }

  /** The byte count at which the receiver resolves, if whole messages ever reach it. */
  predicate Goal(job: Job, bytes: nat) {
    && 0 < bytes <= job.length
    && bytes % CHUNK == 0
    && Reached(job, bytes)
    && (bytes < job.length ==> bytes == job.cancelAfterMiB * MIB)
  }

  /** The receiver after `arrived` bytes of whole messages. */
  predicate Checked(job: Job, r: Receiver, arrived: int, interrupted: bool) {
    && r.bytes == CHUNK * r.messages
    && r.bytes <= arrived
    && (r.finished <==> Goal(job, r.bytes))
    && (!r.finished ==> r.bytes == if arrived <= job.length then arrived else arrived - CHUNK)
    && (r.bytes > 0 && Reached(job, r.bytes) ==> r.finished)
    && (r.outcome.Resolved? ==> r.finished)
    && (!r.finished && arrived > job.length ==> r.outcome.Rejected?)
    && (!interrupted ==> (r.finished ==> r.outcome.Resolved?) && (r.outcome.Rejected? ==> arrived > job.length))
  }

  predicate Inv(job: Job, w: World) {
    && Flow(job, w.sender)
    && Awake(job, w.sender, w.lowDue)
    && Checked(job, w.receiver, Arrived(w.sender), w.interrupted)
    && Lifetime(w.sender.open, w.started, w.closing, w.interrupted, w.receiver.finished)
    && (w.receiver.finished && w.receiver.bytes < job.length ==> w.closing)
  }

  /** A channel that has been open and is not, without an interruption, was closed by a receiver that had finished. */
  predicate Lifetime(open: bool, started: bool, closing: bool, interrupted: bool, finished: bool) {
    && (open ==> started)
    && (closing ==> finished)
    && (started && !open && !interrupted ==> closing)
  }

  lemma SendOneKeeps(job: Job, s: Sender)
    requires Flow(job, s) && CanSend(job, s)
    ensures Flow(job, SendOne(s)) && Arrived(SendOne(s)) == Arrived(s)
  {}

  /** A pump keeps the flow, and what stops it with work left is a buffer within one message of the ceiling. */
  lemma {:induction false} PumpKeeps(job: Job, s: Sender)
    requires Flow(job, s)
    ensures var t := Pumped(job, s);
            && Flow(job, t) && Arrived(t) == Arrived(s) && t.open == s.open
            && t.sent - t.buffered == s.sent - s.buffered && t.sent >= s.sent
            && (t.open && t.sent < job.length ==> t.buffered > CEILING - CHUNK)
    decreases job.length - s.sent
  {
    if CanSend(job, s) {
      SendOneKeeps(job, s);
      PumpKeeps(job, SendOne(s));
    }
  }

  lemma DeliveryKeepsFlow(job: Job, w: World)
    requires Flow(job, w.sender) && Enabled(w, Delivered)
    ensures var s := Step(job, w, Delivered).sender;
            Flow(job, s) && Arrived(s) == Arrived(w.sender) + CHUNK
  {
    var s, t := w.sender, Step(job, w, Delivered).sender;
    assert Arrived(t) == Arrived(s) + CHUNK;
    forall k: nat | k < |t.transit|
      ensures t.transit[k] == Stretch(Arrived(t) + CHUNK * k, CHUNK)
    {
      assert t.transit[k] == s.transit[k + 1];
    }
  }

  /** A whole message arriving in order either extends the checked prefix or is the overshoot that is refused. */
  lemma DeliveryKeepsChecked(job: Job, r: Receiver, arrived: nat, interrupted: bool)
    requires Checked(job, r, arrived, interrupted)
    requires arrived % CHUNK == 0 && arrived < job.length
    ensures Checked(job, Received(job, r, Stretch(arrived, CHUNK)), arrived + CHUNK, interrupted)
  {}

  lemma PumpKeepsInv(job: Job, w: World, s: Sender, lowDue: bool, started: bool)
    requires Inv(job, w) && Flow(job, s) && Arrived(s) == Arrived(w.sender)
    requires Lifetime(s.open, started, w.closing, w.interrupted, w.receiver.finished)
    ensures Inv(job, World(Pumped(job, s), w.receiver, lowDue, started, w.closing, w.interrupted))
  {
    PumpKeeps(job, s);
  }

  lemma FinishesShort(job: Job, r: Receiver, payload: seq<byte>)
    requires !r.finished
    ensures var next := Received(job, r, payload);
            next.finished && next.bytes < job.length ==> ClosesItself(job, next)
  {}

  /** A delivery of a whole message keeps the receiver's part of the invariant. */
  lemma DeliveryKeepsReceiver(job: Job, r: Receiver, arrived: nat, closing: bool, open: bool, started: bool,
                              interrupted: bool)
    requires Checked(job, r, arrived, interrupted) && Lifetime(open, started, closing, interrupted, r.finished)
    requires r.finished && r.bytes < job.length ==> closing
    requires arrived % CHUNK == 0 && arrived < job.length
    ensures var next := Received(job, r, Stretch(arrived, CHUNK));
            var closes := closing || ClosesItself(job, next);
            && Checked(job, next, arrived + CHUNK, interrupted)
            && Lifetime(open, started, closes, interrupted, next.finished)
            && (next.finished && next.bytes < job.length ==> closes)
  {
    DeliveryKeepsChecked(job, r, arrived, interrupted);
    if !r.finished {
      FinishesShort(job, r, Stretch(arrived, CHUNK));
    }
  }

  lemma DeliveryKeeps(job: Job, w: World)
    requires Inv(job, w) && Enabled(w, Delivered)
    ensures Inv(job, Step(job, w, Delivered))
  {
    var s := w.sender;
    DeliveryKeepsFlow(job, w);
    assert s.transit[0] == Stretch(Arrived(s), CHUNK);
    DeliveryKeepsReceiver(job, w.receiver, Arrived(s), w.closing, s.open, w.started, w.interrupted);
  }

  lemma StepKeeps(job: Job, w: World, e: Event)
    requires Inv(job, w) && Enabled(w, e)
    ensures Inv(job, Step(job, w, e))
  {
    var s := w.sender;
    match e
    case Opened => PumpKeepsInv(job, w, s.(open := true), w.lowDue, true);
    case LowFired => PumpKeepsInv(job, w, s, false, w.started);
    case Delivered => DeliveryKeeps(job, w);
    case Drained(n) => assert Flow(job, s.(buffered := s.buffered - n));
    case Closed => assert Flow(job, s.(open := false));
    case Interrupted =>
  }

  /** Over every run: at most 512 KiB buffered, only the fixture's own bytes accepted, and no lost wake-up. */
  lemma {:induction false} RunKeeps(job: Job, w: World, events: seq<Event>)
    requires Inv(job, w) && Possible(job, w, events)
    ensures Inv(job, Run(job, w, events))
    decreases |events|
  {
    if events != [] {
      StepKeeps(job, w, events[0]);
      RunKeeps(job, Step(job, w, events[0]), events[1..]);
    }
  }

  lemma StartHolds(job: Job)
    ensures Inv(job, START)
  {
    assert Arrived(START.sender) == 0;
    assert Flow(job, START.sender);
    assert Checked(job, START.receiver, 0, false);
    assert Lifetime(false, false, false, false, false);
  }

  /** Sent bytes are received plus under way, and the buffered part of those never exceeds its ceiling. */
  lemma Conserved(job: Job, events: seq<Event>)
    requires Possible(job, START, events)
    ensures var w := Run(job, START, events);
            && w.sender.buffered <= 512 * 1024 && w.sender.highWater <= 512 * 1024
            && w.sender.buffered <= CHUNK * |w.sender.transit|
            && w.receiver.bytes + CHUNK * |w.sender.transit| <= w.sender.sent
            && (!w.receiver.finished && !w.receiver.outcome.Rejected? ==>
                w.sender.sent == w.receiver.bytes + CHUNK * |w.sender.transit|)
  {
    StartHolds(job);
    RunKeeps(job, START, events);
  }

  /** In every run an open sender with work left has more than 256 KiB to drain before its wake-up, or the wake-up is
      queued: none is lost. */
  lemma NoLostWakeUp(job: Job, events: seq<Event>)
    requires Possible(job, START, events)
    ensures var w := Run(job, START, events);
            w.sender.open && w.sender.sent < job.length ==> w.lowDue || w.sender.buffered > 256 * 1024
  {
    StartHolds(job);
    RunKeeps(job, START, events);
  }

  /** A receiver that has finished short of the length has done so at the cancellation point, and has closed the
      channel. */
  lemma FinishedShortCloses(job: Job, events: seq<Event>)
    requires Possible(job, START, events) && Run(job, START, events).receiver.finished
    ensures var w := Run(job, START, events);
            w.receiver.bytes < job.length ==> w.closing && w.receiver.bytes == job.cancelAfterMiB * 1048576
  {
    StartHolds(job);
    RunKeeps(job, START, events);
  }

  /** The rounded-up length, which is what the sender sends. */
  function Total(job: Job): nat {
    (job.length + CHUNK - 1) / CHUNK * CHUNK
  }

  function Work(job: Job, w: World): int {
    var s := w.sender;
    2 * (Total(job) - s.sent + s.buffered) + (Total(job) - s.sent) / CHUNK + |s.transit| + if w.lowDue then 1 else 0
  }

  lemma WorkLeft(job: Job, w: World)
    requires Flow(job, w.sender)
    ensures w.sender.sent <= Total(job) && Work(job, w) >= 0
  {}

  /** A pump moves bytes into the buffer and does not add to the work. */
  lemma PumpWork(job: Job, w: World)
    requires Flow(job, w.sender)
    ensures Work(job, w.(sender := Pumped(job, w.sender))) == Work(job, w)
  {
    var s, t := w.sender, Pumped(job, w.sender);
    PumpKeeps(job, s);
    assert CHUNK * (|t.transit| - |s.transit|) == t.sent - s.sent;
    assert (Total(job) - s.sent) / CHUNK == (Total(job) - t.sent) / CHUNK + (|t.transit| - |s.transit|);
  }

  /** The pair does not run for ever: each step of the channel uses up some work. */
  lemma WorkShrinks(job: Job, w: World, e: Event)
    requires Inv(job, w) && Enabled(w, e) && (e.Drained? || e.LowFired? || e.Delivered?)
    ensures 0 <= Work(job, Step(job, w, e)) < Work(job, w)
  {
    StepKeeps(job, w, e);
    WorkLeft(job, Step(job, w, e));
    if e.LowFired? {
      PumpWork(job, w);
    }
  }

  /** The channel has been open, and is closed again or has no step left. */
  ghost predicate AtRest(w: World) {
    w.started && (!w.sender.open || Quiet(w))
  }

  /** No step of the channel is left. */
  ghost predicate Quiet(w: World) {
    forall e: Event :: Enabled(w, e) ==> e.Opened? || e.Closed? || e.Interrupted?
  }

  /** No whole number of messages lies strictly between two consecutive ones. */
  lemma WholeBelow(a: nat, b: nat)
    requires a % CHUNK == 0 && b % CHUNK == 0 && a < b + CHUNK
    ensures a <= b
  {}

  lemma FinishedWithin(job: Job, r: Receiver, arrived: nat)
    requires Checked(job, r, arrived, false) && r.finished
    ensures 0 < job.length
    ensures job.length % CHUNK == 0 || 0 < job.cancelAfterMiB * MIB <= job.length
  {}

  lemma UnfinishedOvershoots(job: Job, r: Receiver, arrived: nat)
    requires Checked(job, r, arrived, false) && !r.finished
    requires arrived % CHUNK == 0 && arrived >= job.length && 0 < job.length && arrived < job.length + CHUNK
    ensures arrived > job.length && r.bytes == arrived - CHUNK && job.length % CHUNK != 0
  {
    if arrived == job.length {
      assert Reached(job, r.bytes);
    } else if job.length % CHUNK == 0 {
      WholeBelow(arrived, job.length);
    }
  }

  /** The cancellation point is itself a whole number of messages, so the last whole message is at or past it. */
  lemma LastMessagePassesPoint(job: Job, bytes: nat)
    requires bytes % CHUNK == 0 && job.length < bytes + CHUNK
    ensures 0 < job.cancelAfterMiB * MIB <= job.length ==> Reached(job, bytes)
  {
    var n := job.cancelAfterMiB;
    assert n * MIB == CHUNK * (64 * n);
    if n * MIB <= job.length {
      WholeBelow(n * MIB, bytes);
    }
  }

  lemma EndsWhere(job: Job, r: Receiver, arrived: nat)
    requires Checked(job, r, arrived, false)
    requires arrived % CHUNK == 0 && arrived >= job.length && (arrived == 0 || arrived < job.length + CHUNK)
    ensures r.finished <==>
            (0 < job.length && job.length % CHUNK == 0) || 0 < job.cancelAfterMiB * MIB <= job.length
    ensures r.outcome.Pending? <==> job.length == 0
  {
    if r.finished {
      FinishedWithin(job, r, arrived);
    } else if job.length > 0 {
      UnfinishedOvershoots(job, r, arrived);
      LastMessagePassesPoint(job, r.bytes);
    }
  }

  /** When a channel that was not interrupted is at rest, the transfer has resolved exactly when the length
      is a positive whole number of messages or a cancellation point lies within it; any other positive length has been
      rejected for its last, overshooting message. */
  lemma CompletesIff(job: Job, events: seq<Event>)
    requires Possible(job, START, events)
    requires var w := Run(job, START, events); AtRest(w) && !w.interrupted
    ensures var outcome := Run(job, START, events).receiver.outcome;
            && (outcome.Resolved? <==>
                (0 < job.length && job.length % 16384 == 0) || 0 < job.cancelAfterMiB * 1048576 <= job.length)
            && (outcome.Pending? <==> job.length == 0)
  {
    var w := Run(job, START, events);
    StartHolds(job);
    RunKeeps(job, START, events);
    if w.receiver.finished {
      FinishedWithin(job, w.receiver, Arrived(w.sender));
    } else {
      assert !Enabled(w, Drained(w.sender.buffered)) && !Enabled(w, LowFired) && !Enabled(w, Delivered);
      assert w.sender.transit == [] && Arrived(w.sender) == w.sender.sent >= job.length;
      EndsWhere(job, w.receiver, w.sender.sent);
    }
  }

  /** The run of a single message, which is resolved or rejected by the length: with a length of 1 it is rejected. */
  lemma OneMessageRuns(job: Job)
    requires 0 < job.length <= CHUNK && job.cancelAfterMiB == 0
    ensures var events := [Opened, Drained(CHUNK), Delivered];
            && Possible(job, START, events)
            && var w := Run(job, START, events);
               && AtRest(w) && !w.interrupted
               && w.receiver.outcome == if job.length == CHUNK then Resolved else Rejected
  {
    var begun := Step(job, START, Opened);
    OneMessageSent(job);
    var drained := Step(job, begun, Drained(CHUNK));
    var delivered := Step(job, drained, Delivered);
    RunOne(job, drained, Delivered, []);
    RunOne(job, begun, Drained(CHUNK), [Delivered]);
    RunOne(job, START, Opened, [Drained(CHUNK), Delivered]);
    assert [Delivered] + [] == [Delivered] && [Drained(CHUNK)] + [Delivered] == [Drained(CHUNK), Delivered];
    assert [Opened] + [Drained(CHUNK), Delivered] == [Opened, Drained(CHUNK), Delivered];
    assert delivered.sender == Sender(true, CHUNK, 0, CHUNK, []) && !delivered.lowDue;
    assert Quiet(delivered);
    CompletesIff(job, [Opened, Drained(CHUNK), Delivered]);
  }

  lemma RunOne(job: Job, w: World, e: Event, rest: seq<Event>)
    ensures Possible(job, w, [e] + rest) <==> Enabled(w, e) && Possible(job, Step(job, w, e), rest)
    ensures Possible(job, w, [e] + rest) ==> Run(job, w, [e] + rest) == Run(job, Step(job, w, e), rest)
  {
    assert ([e] + rest)[1..] == rest;
  }

  lemma OneMessageSent(job: Job)
    requires 0 < job.length <= CHUNK
    ensures Step(job, START, Opened).sender == Sender(true, CHUNK, CHUNK, CHUNK, [Stretch(0, CHUNK)])
  {
    var s := START.sender.(open := true);
    var t := SendOne(s);
    assert CanSend(job, s) && !CanSend(job, t);
    assert Pumped(job, s) == Pumped(job, t) == t;
    assert t.transit == [Stretch(0, CHUNK)];
  }
}
