/** Reachable states the code's promises do not cover.  A stall: two goroutines
    queue one bulk frame each while the writer is parked, the one-slot `wake` channel
    keeps one token for both, and the pass that the token starts serves only the
    first.  A stray: a frame sent after the drain stays on its lane.  An overtaking:
    the frame of a call that gave up is written after that of the goroutine's next. */
module OutboundWitness {
  import opened Options
  import opened OutboundModel
  import opened OutboundInvariants
  import opened OutboundFairness

  ghost predicate Leads(run: seq<Event>, s: State) {
    ValidRun(Init(), run) && After(Init(), run) == s
  }

  lemma Extend(run: seq<Event>, s: State, e: Event)
    requires Leads(run, s) && Enabled(s, e)
    ensures Leads(run + [e], Next(s, e))
  {
    var t := Next(s, e);
    assert [e][0] == e && [e][1..] == [];
    assert ValidRun(t, []) && After(t, []) == t;
    assert ValidRun(s, [e]) && After(s, [e]) == t;
    RunConcat(Init(), run, [e]);
  }

  // ---- a stall ----

  /** While the writer sleeps: only bulk frames, all callers past their signal. */
  ghost predicate Asleep(s: State, bulk: seq<FrameId>) {
    && CallsInv(s) && s.writer.Parked? && !s.stopped && !s.stopClosed
    && s.lanes.critical.queued == [] && s.lanes.interactive.queued == [] && s.lanes.bulk.queued == bulk
    && (forall f :: f in s.calls ==> s.calls[f] == Call(f, Bulk, Awaiting, false, None, 0))
  }

  /** The writer finds its lane empty, or has used up its quota, and goes on to the next lane. */
  lemma SkipLane(run0: seq<Event>, s0: State) returns (run: seq<Event>, s: State)
    requires Leads(run0, s0) && s0.writer.Popping?
    requires s0.lanes.Get(s0.writer.lane).queued == [] || s0.writer.quota == 0
    ensures Leads(run, s) && s == s0.(writer := AfterLane(s0.writer.lane))
  {
    Extend(run0, s0, TryPop);
    run, s := run0 + [TryPop], Next(s0, TryPop);
  }

  lemma FirstPass() returns (run: seq<Event>, s: State)
    ensures Leads(run, s) && Asleep(s, []) && s.nextId == 0 && !s.wake
  {
    run, s := SkipLane([], Init());
    run, s := SkipLane(run, s);
    run, s := SkipLane(run, s);
    Extend(run, s, CheckStopCh);
    run, s := run + [CheckStopCh], Next(s, CheckStopCh);
  }

  lemma StartCall(run0: seq<Event>, s0: State, g: Goroutine, p: Priority) returns (run: seq<Event>, s: State)
    requires Leads(run0, s0) && Idle(s0, g) && !s0.stopped
    ensures Leads(run, s) && s == s0.(
              calls := s0.calls[s0.nextId := Call(g, p, Sending, false, None, 0)], nextId := s0.nextId + 1)
  {
    var f := s0.nextId;
    Extend(run0, s0, Start(g, p));
    run, s := run0 + [Start(g, p)], Next(s0, Start(g, p));
    Extend(run, s, LoadStopped(f));
    run, s := run + [LoadStopped(f)], Next(s, LoadStopped(f));
  }

  lemma QueueAndSignal(run0: seq<Event>, s0: State, f: FrameId, bulk: seq<FrameId>) returns (run: seq<Event>, s: State)
    requires Leads(run0, s0) && At(s0, f, Sending) && s0.nextId !in s0.calls
    requires s0.calls[f].lane == Bulk && s0.lanes.bulk.queued == bulk && |bulk| < LANE_CAPACITY
    ensures Leads(run, s) && s.calls == s0.calls[f := s0.calls[f].(pc := Awaiting)] && s.nextId == s0.nextId
    ensures s.lanes.critical == s0.lanes.critical && s.lanes.interactive == s0.lanes.interactive
    ensures s.lanes.bulk.queued == bulk + [f] && s.wake && s.writer == s0.writer
    ensures s.stopped == s0.stopped && s.stopClosed == s0.stopClosed && s.log == s0.log
  {
    Extend(run0, s0, SendFrame(f));
    run, s := run0 + [SendFrame(f)], Next(s0, SendFrame(f));
    assert s.lanes.bulk.queued == bulk + [f];
    Extend(run, s, CountEnqueued(f));
    run, s := run + [CountEnqueued(f)], Next(s, CountEnqueued(f));
    Extend(run, s, SignalWake(f));
    run, s := run + [SignalWake(f)], Next(s, SignalWake(f));
  }

  /** One more goroutine queues a bulk frame, signals, and waits. */
  lemma EnqueueBulk(run0: seq<Event>, s0: State, bulk: seq<FrameId>) returns (run: seq<Event>, s: State)
    requires Leads(run0, s0) && Asleep(s0, bulk) && |bulk| < LANE_CAPACITY
    ensures Leads(run, s) && Asleep(s, bulk + [s0.nextId]) && s.wake && s.nextId == s0.nextId + 1
  {
    run, s := StartCall(run0, s0, s0.nextId, Bulk);
    run, s := QueueAndSignal(run, s, s0.nextId, bulk);
  }

  /** The woken writer finds the first two lanes empty and takes one bulk frame. */
  lemma WakeAndTake(run0: seq<Event>, s0: State, bulk: seq<FrameId>) returns (run: seq<Event>, s: State)
    requires Leads(run0, s0) && Asleep(s0, bulk) && s0.wake && bulk != []
    ensures Leads(run, s) && s.writer == Writing(Bulk, 0, bulk[0]) && !s.wake && !s.stopClosed && s.calls == s0.calls
    ensures s.lanes.bulk.queued == bulk[1..]
  {
    Extend(run0, s0, WakeUp);
    run, s := run0 + [WakeUp], Next(s0, WakeUp);
    run, s := SkipLane(run, s);
    run, s := SkipLane(run, s);
    Extend(run, s, TryPop);
    run, s := run + [TryPop], Next(s, TryPop);
  }

  lemma WriteAndCount(run0: seq<Event>, s0: State, f: FrameId) returns (run: seq<Event>, s: State)
    requires Leads(run0, s0) && s0.writer == Writing(Bulk, 0, f)
    ensures Leads(run, s) && s.writer == Answering(Bulk, 0, f, true)
    ensures s.calls == s0.calls && s.lanes == s0.lanes && s.wake == s0.wake && s.stopClosed == s0.stopClosed
  {
    Extend(run0, s0, ConnWrite(true));
    run, s := run0 + [ConnWrite(true)], Next(s0, ConnWrite(true));
    Extend(run, s, CountDequeued);
    run, s := run + [CountDequeued], Next(s, CountDequeued);
  }

  /** It writes the frame, answers its caller, and goes back to sleep. */
  lemma WriteAndPark(run0: seq<Event>, s0: State, f: FrameId) returns (run: seq<Event>, s: State)
    requires Leads(run0, s0) && s0.writer == Writing(Bulk, 0, f) && !s0.wake && !s0.stopClosed
    requires f in s0.calls && s0.calls[f].slot.None?
    ensures Leads(run, s) && s.writer.Parked? && !s.wake && !s.stopClosed
    ensures s.lanes.bulk.queued == s0.lanes.bulk.queued
    ensures s.calls.Keys == s0.calls.Keys && forall g :: g in s.calls ==> s.calls[g].pc == s0.calls[g].pc
  {
    run, s := WriteAndCount(run0, s0, f);
    Extend(run, s, SendDone);
    run, s := run + [SendDone], Next(s, SendDone);
    assert s.lanes == s0.lanes && s.writer == Popping(Bulk, 0) && !s.wake && !s.stopClosed;
    run, s := SkipLane(run, s);
    Extend(run, s, CheckStopCh);
    run, s := run + [CheckStopCh], Next(s, CheckStopCh);
  }

  lemma TwoQueued() returns (run: seq<Event>, s: State)
    ensures Leads(run, s) && Asleep(s, [0, 1]) && s.wake && s.nextId == 2
  {
    run, s := FirstPass();
    run, s := EnqueueBulk(run, s, []);
    run, s := EnqueueBulk(run, s, [0]);
    assert [0] + [1] == [0, 1];
  }

  /** Two bulk frames and one token: a reachable stall, with a caller waiting for
      the frame that stays.  By StallLasts it stays there until another frame is
      queued or the scheduler is closed. */
  lemma TwoFramesOneToken()
    ensures exists s :: Reachable(s) && Stalled(s) && !s.stopClosed && At(s, 1, Awaiting) && s.lanes.bulk.queued == [1]
  {
    var run, s := TwoQueued();
    run, s := WakeAndTake(run, s, [0, 1]);
    run, s := WriteAndPark(run, s, 0);
    assert Reachable(s) && Stalled(s) && At(s, 1, Awaiting) && s.lanes.bulk.queued == [1];
  }

  // ---- a frame that misses the drain ----

  /** Frame 0 is about to be sent on the bulk lane, all lanes are empty, and close has been called. */
  ghost predicate LateSender(s: State, w: WriterPC) {
    && At(s, 0, Sending) && s.calls[0].lane == Bulk && s.lanes == Init().lanes && s.stopClosed && s.writer == w
  }

  lemma CloseBeforeSend() returns (run: seq<Event>, s: State)
    ensures Leads(run, s) && LateSender(s, Popping(Critical, 8))
  {
    run, s := StartCall([], Init(), 0, Bulk);
    Extend(run, s, StoreStopped);
    run, s := run + [StoreStopped], Next(s, StoreStopped);
    Extend(run, s, CloseStopCh);
    run, s := run + [CloseStopCh], Next(s, CloseStopCh);
  }

  /** Where the writer goes when every lane it looks at is empty and close has been called. */
  function EmptyHanded(w: WriterPC): WriterPC {
    match w
    case Popping(p, _) => AfterLane(p)
    case StopCheck => Draining(Critical)
    case Draining(p) => AfterDrain(p)
    case _ => w
  }

  lemma WriterPasses(run0: seq<Event>, s0: State, w: WriterPC) returns (run: seq<Event>, s: State)
    requires Leads(run0, s0) && LateSender(s0, w) && (w.Popping? || w.StopCheck? || w.Draining?)
    ensures Leads(run, s) && LateSender(s, EmptyHanded(w))
  {
    var e := if w.Popping? then TryPop else if w.StopCheck? then CheckStopCh else DrainPop;
    Extend(run0, s0, e);
    run, s := run0 + [e], Next(s0, e);
  }

  /** A caller that has seen `stopped` unset can send after the drain is over: its
      frame stays on the lane, by PassedRun for good. */
  lemma StrayFrame()
    ensures exists s :: Reachable(s) && s.stopClosed && s.writer.Exited? && s.lanes.bulk.queued == [0]
  {
    var run, s := CloseBeforeSend();
    run, s := WriterPasses(run, s, Popping(Critical, 8));
    run, s := WriterPasses(run, s, Popping(Interactive, 4));
    run, s := WriterPasses(run, s, Popping(Bulk, 1));
    run, s := WriterPasses(run, s, StopCheck);
    run, s := WriterPasses(run, s, Draining(Critical));
    run, s := WriterPasses(run, s, Draining(Interactive));
    run, s := WriterPasses(run, s, Draining(Bulk));
    Extend(run, s, SendFrame(0));
    run, s := run + [SendFrame(0)], Next(s, SendFrame(0));
    assert Reachable(s) && s.lanes.bulk.queued == [0];
  }

  // ---- a frame overtaken by the next call's ----

  /** One goroutine has sent a bulk frame, given up on it, and sent an interactive one. */
  ghost predicate SentBoth(s: State) {
    && s.calls.Keys == {0, 1} && s.calls[0].owner == s.calls[1].owner
    && s.calls[0].pc == Returned(Cancelled) && s.calls[0].slot.None? && s.calls[1].slot.None?
    && s.lanes.critical.queued == [] && s.lanes.interactive.queued == [1] && s.lanes.bulk.queued == [0]
    && s.log == [] && s.writer == Popping(Critical, 8)
  }

  lemma CancelledChunk() returns (run: seq<Event>, s: State)
    ensures Leads(run, s) && s.calls == map[0 := Call(0, Bulk, Returned(Cancelled), true, None, 0)] && s.nextId == 1
    ensures s.lanes.critical.queued == [] && s.lanes.interactive.queued == [] && s.lanes.bulk.queued == [0]
    ensures s.log == [] && s.writer == Popping(Critical, 8) && !s.stopped && !s.stopClosed
  {
    run, s := StartCall([], Init(), 0, Bulk);
    run, s := QueueAndSignal(run, s, 0, []);
    Extend(run, s, CancelContext(0));
    run, s := run + [CancelContext(0)], Next(s, CancelContext(0));
    Extend(run, s, GiveUp(0, Cancelled));
    run, s := run + [GiveUp(0, Cancelled)], Next(s, GiveUp(0, Cancelled));
  }

  lemma SendBoth() returns (run: seq<Event>, s: State)
    ensures Leads(run, s) && SentBoth(s)
  {
    run, s := CancelledChunk();
    run, s := StartCall(run, s, 0, Interactive);
    Extend(run, s, SendFrame(1));
    run, s := run + [SendFrame(1)], Next(s, SendFrame(1));
  }

  /** The writer takes the head of its lane and writes it. */
  lemma TakeAndWrite(run0: seq<Event>, s0: State, f: FrameId) returns (run: seq<Event>, s: State)
    requires Leads(run0, s0) && s0.writer.Popping? && s0.writer.quota > 0
    requires s0.lanes.Get(s0.writer.lane).queued == [f]
    ensures Leads(run, s) && s.writer == Finishing(s0.writer.lane, s0.writer.quota - 1, f, true)
    ensures s.calls == s0.calls && s.log == s0.log + [Attempt(f, true)]
    ensures s.lanes.Get(s0.writer.lane).queued == []
    ensures forall q: Priority :: q != s0.writer.lane ==> s.lanes.Get(q).queued == s0.lanes.Get(q).queued
  {
    Extend(run0, s0, TryPop);
    run, s := run0 + [TryPop], Next(s0, TryPop);
    Extend(run, s, ConnWrite(true));
    run, s := run + [ConnWrite(true)], Next(s, ConnWrite(true));
  }

  lemma CountAndAnswer(run0: seq<Event>, s0: State) returns (run: seq<Event>, s: State)
    requires Leads(run0, s0) && s0.writer.Finishing? && s0.writer.frame in s0.calls
    requires s0.calls[s0.writer.frame].slot.None?
    ensures Leads(run, s) && s.writer == Popping(s0.writer.lane, s0.writer.quota)
    ensures s.lanes == s0.lanes && s.log == s0.log
    ensures s.calls.Keys == s0.calls.Keys
    ensures forall g :: g in s.calls ==> s.calls[g].owner == s0.calls[g].owner && s.calls[g].pc == s0.calls[g].pc
  {
    Extend(run0, s0, CountDequeued);
    run, s := run0 + [CountDequeued], Next(s0, CountDequeued);
    Extend(run, s, SendDone);
    run, s := run + [SendDone], Next(s, SendDone);
  }

  /** A chunk whose caller gave up is written after the end message the same
      goroutine sends next: call 1 overtakes call 0. */
  lemma EndOvertakesChunk()
    ensures exists s :: Reachable(s) && 0 in s.calls && 1 in s.calls && s.calls[0].owner == s.calls[1].owner
                        && s.log == [Attempt(1, true), Attempt(0, true)] && s.calls[0].pc == Returned(Cancelled)
  {
    var run, s := SendBoth();
    run, s := SkipLane(run, s);
    run, s := TakeAndWrite(run, s, 1);
    run, s := CountAndAnswer(run, s);
    run, s := SkipLane(run, s);
    run, s := TakeAndWrite(run, s, 0);
    assert Reachable(s) && s.log == [Attempt(1, true), Attempt(0, true)];
  }
}
