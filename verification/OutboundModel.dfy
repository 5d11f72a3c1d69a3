/** The outbound scheduler of one agent connection as a step system.

    Any number of goroutines call `enqueue`; one writer goroutine runs weighted
    passes over three bounded lanes.  Every event below is one atomic action of
    the program: a channel operation, an atomic counter update, the result of a
    `select`, or an action of the environment (a context is cancelled, a
    connection write returns, the scheduler is closed).  A run is any sequence
    of enabled events, so a statement about all runs covers all interleavings. */
module OutboundModel {
  import opened Options

  /** A call of `enqueue` and the frame it carries share one number; numbers are
      given out in the order in which calls start. */
  type FrameId = nat
  type Goroutine = nat

  datatype Priority = Critical | Interactive | Bulk

  const LANE_CAPACITY: nat := 64

  function Weight(p: Priority): nat {
    match p
    case Critical => 8
    case Interactive => 4
    case Bulk => 1
  }

  function Rank(p: Priority): nat {
    match p
    case Critical => 0
    case Interactive => 1
    case Bulk => 2
  }

  datatype PerLane<T> = PerLane(critical: T, interactive: T, bulk: T) {
    function Get(p: Priority): T {
      match p
      case Critical => critical
      case Interactive => interactive
      case Bulk => bulk
    }

    function Set(p: Priority, v: T): PerLane<T> {
      match p
      case Critical => this.(critical := v)
      case Interactive => this.(interactive := v)
      case Bulk => this.(bulk := v)
    }
  }

  /** What `enqueue` returns; `Sent` is Go's nil. */
  datatype Result = Sent | WriteFailed | Cancelled | Closed | QueueFull

  /** The value put on a frame's one-slot `done` channel. */
  datatype Done = Written | Failed | Dropped

  datatype CallerPC =
    | Checking    // about to load `stopped`
    | Sending     // about to enter the first select
    | Counting    // frame is on its lane, `enqueued` not yet incremented
    | Signalling  // about to offer a token to `wake`
    | Awaiting    // in the second select
    | Returned(result: Result)

  datatype Call = Call(
    owner: Goroutine,
    lane: Priority,
    pc: CallerPC,
    cancelled: bool,     // the caller's context is done
    slot: Option<Done>,  // content of the `done` channel
    sends: nat           // how often the writer has sent on `done`
  )

  datatype WriterPC =
    | Popping(lane: Priority, quota: nat)                   // about to call tryPop
    | Writing(lane: Priority, quota: nat, frame: FrameId)   // inside conn.Write
    | Failing(lane: Priority, quota: nat, frame: FrameId)   // about to count a write error
    | Finishing(lane: Priority, quota: nat, frame: FrameId, ok: bool)  // about to count `dequeued`
    | Answering(lane: Priority, quota: nat, frame: FrameId, ok: bool)  // about to send on `done`
    | StopCheck
    | Parked
    | Draining(lane: Priority)
    | Dropping(lane: Priority, frame: FrameId)
    | Exited

  datatype Attempt = Attempt(frame: FrameId, ok: bool)

  /** One lane: the channel's content, and its history, which no step reads. */
  datatype Lane = Lane(
    queued: seq<FrameId>,    // content of the channel
    accepted: seq<FrameId>,  // every frame ever put on it
    taken: seq<FrameId>      // every frame the writer took off it
  )

  /** Per-lane counters; `dropped`, the frames answered by drain, is history only. */
  datatype Counters = Counters(enqueued: nat, dequeued: nat, rejected: nat, dropped: nat)

  datatype State = State(
    calls: map<FrameId, Call>,
    nextId: FrameId,
    lanes: PerLane<Lane>,
    counters: PerLane<Counters>,
    writer: WriterPC,
    wake: bool,         // the one-slot channel holds a token
    stopped: bool,
    stopClosed: bool,   // stopCh has been closed
    writeErrors: nat,
    log: seq<Attempt>,  // history: completed conn.Write calls, in order
    passes: nat         // history: weighted passes started
  )

  function Init(): State {
    var lane := Lane([], [], []);
    var none := Counters(0, 0, 0, 0);
    State(map[], 0, PerLane(lane, lane, lane), PerLane(none, none, none), Popping(Critical, Weight(Critical)),
          false, false, false, 0, [], 1)
  }

  datatype Event =
    // a goroutine inside enqueue
    | Start(g: Goroutine, p: Priority)
    | LoadStopped(f: FrameId)
    | SendFrame(f: FrameId)
    | GiveUp(f: FrameId, why: Result)  // the non-send cases of either select
    | CountEnqueued(f: FrameId)
    | SignalWake(f: FrameId)
    | ReceiveDone(f: FrameId)
    // the environment
    | CancelContext(f: FrameId)
    | StoreStopped
    | CloseStopCh
    // the writer goroutine
    | TryPop
    | ConnWrite(ok: bool)
    | CountWriteError
    | CountDequeued
    | SendDone
    | CheckStopCh
    | WakeUp
    | StopWhileParked
    | DrainPop
    | DrainDone

  predicate IsCallerEvent(e: Event) {
    e.Start? || e.LoadStopped? || e.SendFrame? || e.GiveUp? || e.CountEnqueued? || e.SignalWake? || e.ReceiveDone?
  }

  predicate IsEnvironmentEvent(e: Event) {
    e.CancelContext? || e.StoreStopped? || e.CloseStopCh?
  }

  predicate IsWriterEvent(e: Event) {
    !IsCallerEvent(e) && !IsEnvironmentEvent(e)
  }

  predicate At(s: State, f: FrameId, pc: CallerPC) {
    f in s.calls && s.calls[f].pc == pc
  }

  /** A goroutine runs one call at a time. */
  predicate Idle(s: State, g: Goroutine) {
    forall f | f in s.calls :: s.calls[f].owner == g ==> s.calls[f].pc.Returned?
  }

  /** A buffered channel accepts a send while it is not full. */
  predicate HasRoom(s: State, p: Priority) {
    |s.lanes.Get(p).queued| < LANE_CAPACITY
  }

  /** Which case other than the send (first select) or the receive on `done`
      (second select) may be chosen; `default` only when nothing else is ready. */
  predicate MayGiveUp(s: State, c: Call, why: Result) {
    match why
    case Cancelled => (c.pc.Sending? || c.pc.Awaiting?) && c.cancelled
    case Closed => (c.pc.Sending? || c.pc.Awaiting?) && s.stopClosed
    case QueueFull => c.pc.Sending? && !HasRoom(s, c.lane) && !c.cancelled && !s.stopClosed
    case _ => false
  }

  /** A send on the one-slot `done` channel is ready only while the slot is empty. */
  predicate CanAnswer(s: State) {
    Held(s.writer).Some? && Held(s.writer).value in s.calls && s.calls[Held(s.writer).value].slot.None?
  }

  predicate Enabled(s: State, e: Event) {
    match e
    case Start(g, _) => Idle(s, g)
    case LoadStopped(f) => At(s, f, Checking)
    case SendFrame(f) => At(s, f, Sending) && HasRoom(s, s.calls[f].lane)
    case GiveUp(f, why) => f in s.calls && MayGiveUp(s, s.calls[f], why)
    case CountEnqueued(f) => At(s, f, Counting)
    case SignalWake(f) => At(s, f, Signalling)
    case ReceiveDone(f) => At(s, f, Awaiting) && s.calls[f].slot.Some?
    case CancelContext(f) => f in s.calls
    case StoreStopped => !s.stopped
    case CloseStopCh => s.stopped && !s.stopClosed
    case TryPop => s.writer.Popping?
    case ConnWrite(_) => s.writer.Writing?
    case CountWriteError => s.writer.Failing?
    case CountDequeued => s.writer.Finishing?
    case SendDone => s.writer.Answering? && CanAnswer(s)
    case CheckStopCh => s.writer.StopCheck?
    case WakeUp => s.writer.Parked? && s.wake
    case StopWhileParked => s.writer.Parked? && s.stopClosed
    case DrainPop => s.writer.Draining?
    case DrainDone => s.writer.Dropping? && CanAnswer(s)
  }

  /** The result a caller returns for what it received on `done`. */
  function ResultOf(d: Done): Result {
    match d
    case Written => Sent
    case Failed => WriteFailed
    case Dropped => Closed
  }

  // The effect of an event, component by component.

  /** The existing call whose record the event changes. */
  function Touched(s: State, e: Event): Option<FrameId> {
    match e
    case LoadStopped(f) => Some(f)
    case SendFrame(f) => Some(f)
    case GiveUp(f, _) => Some(f)
    case CountEnqueued(f) => Some(f)
    case SignalWake(f) => Some(f)
    case ReceiveDone(f) => Some(f)
    case CancelContext(f) => Some(f)
    case SendDone => Held(s.writer)
    case DrainDone => Held(s.writer)
    case _ => None
  }

  function NextCall(s: State, c: Call, e: Event): Call {
    match e
    case LoadStopped(_) => c.(pc := if s.stopped then Returned(Closed) else Sending)
    case SendFrame(_) => c.(pc := Counting)
    case GiveUp(_, why) => c.(pc := Returned(why))
    case CountEnqueued(_) => c.(pc := Signalling)
    case SignalWake(_) => c.(pc := Awaiting)
    case ReceiveDone(_) =>
      if c.slot.Some? then c.(pc := Returned(ResultOf(c.slot.value)), slot := None) else c
    case CancelContext(_) => c.(cancelled := true)
    case SendDone =>
      var ok := s.writer.Answering? && s.writer.ok;
      c.(slot := Some(if ok then Written else Failed), sends := c.sends + 1)
    case DrainDone => c.(slot := Some(Dropped), sends := c.sends + 1)
    case _ => c
  }

  function NextCalls(s: State, e: Event): map<FrameId, Call>
    requires Enabled(s, e)
  {
    if e.Start? then s.calls[s.nextId := Call(e.g, e.p, Checking, false, None, 0)]
    else
      match Touched(s, e)
      case None => s.calls
      case Some(f) => s.calls[f := NextCall(s, s.calls[f], e)]
  }

  /** The lane the event touches, if any. */
  function LaneOf(s: State, e: Event): Option<Priority>
    requires Enabled(s, e)
  {
    match e
    case SendFrame(f) => Some(s.calls[f].lane)
    case GiveUp(f, _) => Some(s.calls[f].lane)
    case CountEnqueued(f) => Some(s.calls[f].lane)
    case TryPop => Some(s.writer.lane)
    case CountDequeued => Some(s.writer.lane)
    case DrainPop => Some(s.writer.lane)
    case DrainDone => Some(s.writer.lane)
    case _ => None
  }

  /** The writer receives a frame: drain always tries, a pass only within its quota. */
  predicate Takes(s: State, e: Event)
    requires Enabled(s, e)
  {
    (e.DrainPop? || (e.TryPop? && s.writer.quota > 0)) && s.lanes.Get(s.writer.lane).queued != []
  }

  function NextLane(s: State, l: Lane, e: Event): Lane
    requires Enabled(s, e)
  {
    if e.SendFrame? then l.(queued := l.queued + [e.f], accepted := l.accepted + [e.f])
    else if Takes(s, e) && l.queued != [] then l.(queued := l.queued[1..], taken := l.taken + [l.queued[0]])
    else l
  }

  function NextLanes(s: State, e: Event): PerLane<Lane>
    requires Enabled(s, e)
  {
    match LaneOf(s, e)
    case None => s.lanes
    case Some(p) => s.lanes.Set(p, NextLane(s, s.lanes.Get(p), e))
  }

  function NextCounter(c: Counters, e: Event): Counters {
    match e
    case CountEnqueued(_) => c.(enqueued := c.enqueued + 1)
    case CountDequeued => c.(dequeued := c.dequeued + 1)
    case GiveUp(_, why) => if why.QueueFull? then c.(rejected := c.rejected + 1) else c
    case DrainDone => c.(dropped := c.dropped + 1)
    case _ => c
  }

  function NextCounters(s: State, e: Event): PerLane<Counters>
    requires Enabled(s, e)
  {
    match LaneOf(s, e)
    case None => s.counters
    case Some(p) => s.counters.Set(p, NextCounter(s.counters.Get(p), e))
  }

  /** Where the writer goes once it is through with lane p in this pass. */
  function AfterLane(p: Priority): WriterPC {
    match p
    case Critical => Popping(Interactive, Weight(Interactive))
    case Interactive => Popping(Bulk, Weight(Bulk))
    case Bulk => StopCheck
  }

  /** Where drain goes once it found lane p empty. */
  function AfterDrain(p: Priority): WriterPC {
    match p
    case Critical => Draining(Interactive)
    case Interactive => Draining(Bulk)
    case Bulk => Exited
  }

  function NextWriter(s: State, e: Event): WriterPC
    requires Enabled(s, e)
  {
    var w := s.writer;
    match e
    case TryPop =>
      if Takes(s, e) then Writing(w.lane, w.quota - 1, s.lanes.Get(w.lane).queued[0]) else AfterLane(w.lane)
    case ConnWrite(ok) =>
      if ok then Finishing(w.lane, w.quota, w.frame, true) else Failing(w.lane, w.quota, w.frame)
    case CountWriteError => Finishing(w.lane, w.quota, w.frame, false)
    case CountDequeued => Answering(w.lane, w.quota, w.frame, w.ok)
    case SendDone => Popping(w.lane, w.quota)
    case CheckStopCh => if s.stopClosed then Draining(Critical) else Parked
    case WakeUp => Popping(Critical, Weight(Critical))
    case StopWhileParked => Draining(Critical)
    case DrainPop =>
      if Takes(s, e) then Dropping(w.lane, s.lanes.Get(w.lane).queued[0]) else AfterDrain(w.lane)
    case DrainDone => Draining(w.lane)
    case _ => w
  }

  function NextLog(s: State, e: Event): seq<Attempt>
    requires Enabled(s, e)
  {
    if e.ConnWrite? then s.log + [Attempt(s.writer.frame, e.ok)] else s.log
  }

  function Next(s: State, e: Event): State
    requires Enabled(s, e)
  {
    State(
      NextCalls(s, e),
      if e.Start? then s.nextId + 1 else s.nextId,
      NextLanes(s, e),
      NextCounters(s, e),
      NextWriter(s, e),
      if e.SignalWake? then true else if e.WakeUp? then false else s.wake,
      s.stopped || e.StoreStopped?,
      s.stopClosed || e.CloseStopCh?,
      if e.CountWriteError? then s.writeErrors + 1 else s.writeErrors,
      NextLog(s, e),
      if e.WakeUp? then s.passes + 1 else s.passes)
  }

  predicate ValidRun(s: State, run: seq<Event>)
    decreases |run|
  {
    run == [] || (Enabled(s, run[0]) && ValidRun(Next(s, run[0]), run[1..]))
  }

  function After(s: State, run: seq<Event>): State
    requires ValidRun(s, run)
    decreases |run|
  {
    if run == [] then s else After(Next(s, run[0]), run[1..])
  }

  lemma {:induction false} RunConcat(s: State, a: seq<Event>, b: seq<Event>)
    requires ValidRun(s, a) && ValidRun(After(s, a), b)
    ensures ValidRun(s, a + b) && After(s, a + b) == After(After(s, a), b)
    decreases |a|
  {
    if a == [] {
      assert a + b == b;
    } else {
      assert (a + b)[1..] == a[1..] + b;
      RunConcat(Next(s, a[0]), a[1..], b);
    }
  }

  lemma {:induction false} RunSplit(s: State, a: seq<Event>, b: seq<Event>)
    requires ValidRun(s, a + b)
    ensures ValidRun(s, a) && ValidRun(After(s, a), b)
    ensures After(s, a + b) == After(After(s, a), b)
    decreases |a|
  {
    if a == [] {
      assert a + b == b;
    } else {
      assert (a + b)[1..] == a[1..] + b;
      RunSplit(Next(s, a[0]), a[1..], b);
    }
  }

  // ---- vocabulary shared by the theorems ----

  /** The frame the writer has taken off a lane and not yet answered. */
  function Held(w: WriterPC): Option<FrameId> {
    match w
    case Writing(_, _, f) => Some(f)
    case Failing(_, _, f) => Some(f)
    case Finishing(_, _, f, _) => Some(f)
    case Answering(_, _, f, _) => Some(f)
    case Dropping(_, f) => Some(f)
    case _ => None
  }

  predicate InPass(w: WriterPC) {
    w.Popping? || w.Writing? || w.Failing? || w.Finishing? || w.Answering?
  }

  predicate InShutdown(w: WriterPC) {
    w.Draining? || w.Dropping? || w.Exited?
  }

  /** How many more frames the current pass may take off lane p. */
  function QuotaAhead(w: WriterPC, p: Priority): nat {
    if !InPass(w) then 0
    else if Rank(p) > Rank(w.lane) then Weight(p)
    else if p == w.lane then w.quota
    else 0
  }

  predicate Attempted(s: State, f: FrameId) {
    exists i :: 0 <= i < |s.log| && s.log[i].frame == f
  }
}
