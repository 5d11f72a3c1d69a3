/** What close does: few further writes, a drain that ends, and no caller left behind. */
module OutboundShutdown {
  import opened Options
  import opened OutboundModel
  import opened OutboundInvariants
  import opened OutboundFairness

  // ---- at most one more pass ----

  /** How many writes may still start once stopCh is closed: the rest of the
      current pass, or one whole pass if the parked writer picks the token. */
  function Allowance(w: WriterPC): nat {
    if w.Parked? then PASS_BUDGET else PassAhead(w)
  }

  lemma StepAllowance(s: State, e: Event)
    requires WriterInv(s) && s.stopClosed && Enabled(s, e)
    ensures var t := Next(s, e);
            t.stopClosed && Started(t) + Allowance(t.writer) <= Started(s) + Allowance(s.writer)
  {
    StepStarted(s, e);
  }

  lemma {:induction false} AllowanceRun(s: State, run: seq<Event>)
    requires Inv(s) && s.stopClosed && ValidRun(s, run)
    ensures var t := After(s, run); Started(t) + Allowance(t.writer) <= Started(s) + Allowance(s.writer)
    decreases |run|
  {
    if run != [] {
      StepAllowance(s, run[0]);
      StepInv(s, run[0]);
      AllowanceRun(Next(s, run[0]), run[1..]);
    }
  }

  /** After close at most 13 further writes start, however long the run and whatever is queued. */
  lemma WritesAfterClose(s: State, run: seq<Event>)
    requires Reachable(s) && s.stopClosed && ValidRun(s, run)
    ensures Started(After(s, run)) <= Started(s) + PASS_BUDGET
  {
    ReachableInv(s);
    AllowanceRun(s, run);
    StepWriterAhead(s);
  }

  /** Once shutdown has begun no write starts at all: the log is frozen. */
  lemma {:induction false} LogFrozen(s: State, run: seq<Event>)
    requires ValidRun(s, run) && InShutdown(s.writer)
    ensures After(s, run).log == s.log && Started(After(s, run)) == Started(s)
    decreases |run|
  {
    if run != [] {
      LogFrozen(Next(s, run[0]), run[1..]);
    }
  }

  // ---- the writer gets to its end ----

  /** Steps from here to the end if every lane is found empty. */
  function Distance(w: WriterPC): nat {
    match w
    case Exited => 0
    case Draining(p) => 3 - Rank(p)
    case Dropping(p, _) => 4 - Rank(p)
    case StopCheck => 4
    case Popping(p, _) => 7 - Rank(p)
    case Answering(p, _, _, _) => 8 - Rank(p)
    case Finishing(p, _, _, _) => 9 - Rank(p)
    case Failing(p, _, _) => 10 - Rank(p)
    case Writing(p, _, _) => 11 - Rank(p)
    case Parked => 8
  }

  /** Frames the writer may still have to take: queued ones and those of callers about to send. */
  ghost function Pending(s: State, p: Priority): nat {
    |s.lanes.Get(p).queued| + |CallersAt(s.calls, p, Sending)|
  }

  ghost function AllPending(s: State): nat {
    Pending(s, Critical) + Pending(s, Interactive) + Pending(s, Bulk)
  }

  /** A bound on the writer's remaining steps. */
  ghost function StepsLeft(s: State): nat {
    5 * AllPending(s) + Distance(s.writer)
  }

  lemma StepPending(s: State, e: Event, p: Priority)
    requires CallsInv(s) && s.stopped && Enabled(s, e)
    ensures Pending(Next(s, e), p) <= Pending(s, p) - (if Takes(s, e) && s.writer.lane == p then 1 else 0)
  {
    StepLane(s, e, p);
    StepCallers(s, e, p, Sending);
  }

  lemma StepDistance(s: State, e: Event)
    requires s.stopClosed && Enabled(s, e)
    ensures Distance(Next(s, e).writer) <=
            Distance(s.writer) + (if Takes(s, e) then 4 else if IsWriterEvent(e) then -1 else 0)
  {
  }

  lemma StepStepsLeft(s: State, e: Event)
    requires CallsInv(s) && WriterInv(s) && s.stopClosed && Enabled(s, e)
    ensures StepsLeft(Next(s, e)) <= StepsLeft(s) - (if IsWriterEvent(e) then 1 else 0)
  {
    StepPending(s, e, Critical);
    StepPending(s, e, Interactive);
    StepPending(s, e, Bulk);
    StepDistance(s, e);
  }

  function WriterSteps(run: seq<Event>): nat {
    if run == [] then 0 else (if IsWriterEvent(run[0]) then 1 else 0) + WriterSteps(run[1..])
  }

  /** After close the writer takes boundedly many steps, however the callers interleave. */
  lemma {:induction false} WriterStepsBounded(s: State, run: seq<Event>)
    requires Inv(s) && s.stopClosed && ValidRun(s, run)
    ensures WriterSteps(run) + StepsLeft(After(s, run)) <= StepsLeft(s)
    decreases |run|
  {
    if run != [] {
      StepStepsLeft(s, run[0]);
      StepInv(s, run[0]);
      WriterStepsBounded(Next(s, run[0]), run[1..]);
    }
  }

  /** The step the writer is about to take; for a pending conn.Write, its return. */
  function WriterMove(s: State): Event {
    match s.writer
    case Popping(_, _) => TryPop
    case Writing(_, _, _) => ConnWrite(false)
    case Failing(_, _, _) => CountWriteError
    case Finishing(_, _, _, _) => CountDequeued
    case Answering(_, _, _, _) => SendDone
    case StopCheck => CheckStopCh
    case Parked => StopWhileParked
    case Draining(_) => DrainPop
    case Dropping(_, _) => DrainDone
    case Exited => DrainPop
  }

  /** After close the writer is never blocked before it has exited: with the bound on
      its steps, every run that keeps giving it steps ends in Exited. */
  lemma WriterNeverBlocks(s: State)
    requires Reachable(s) && s.stopClosed
    ensures s.writer.Exited? <==> !exists e :: IsWriterEvent(e) && Enabled(s, e)
  {
    if !s.writer.Exited? {
      assert Inv(s) by { ReachableInv(s); }
      MoveIsEnabled(s);
    }
  }

  lemma MoveIsEnabled(s: State)
    requires Inv(s) && s.stopClosed && !s.writer.Exited?
    ensures IsWriterEvent(WriterMove(s)) && Enabled(s, WriterMove(s))
  {
    if Held(s.writer).Some? {
      assert CanAnswer(s) by { HeldCanBeAnswered(s); }
    }
  }

  /** The writer, left alone, leaves within its bound. */
  ghost predicate ExitsBy(s: State, run: seq<Event>) {
    && |run| <= StepsLeft(s) && ValidRun(s, run)
    && (forall i :: 0 <= i < |run| ==> IsWriterEvent(run[i]))
    && After(s, run).writer.Exited?
  }

  lemma {:induction false} WriterExits(s: State) returns (run: seq<Event>)
    requires Inv(s) && s.stopClosed
    ensures ExitsBy(s, run)
    decreases StepsLeft(s)
  {
    if s.writer.Exited? {
      run := [];
    } else {
      MoveGetsCloser(s);
      var rest := WriterExits(Next(s, WriterMove(s)));
      MoveFirst(s, WriterMove(s), rest);
      run := [WriterMove(s)] + rest;
    }
  }

  lemma MoveGetsCloser(s: State)
    requires Inv(s) && s.stopClosed && !s.writer.Exited?
    ensures var e := WriterMove(s);
            && IsWriterEvent(e) && Enabled(s, e) && Next(s, e).stopClosed
            && Inv(Next(s, e)) && StepsLeft(Next(s, e)) < StepsLeft(s)
  {
    MoveIsEnabled(s);
    StepStepsLeft(s, WriterMove(s));
    StepInv(s, WriterMove(s));
  }

  lemma MoveFirst(s: State, e: Event, rest: seq<Event>)
    requires IsWriterEvent(e) && Enabled(s, e) && StepsLeft(Next(s, e)) < StepsLeft(s) && ExitsBy(Next(s, e), rest)
    ensures ExitsBy(s, [e] + rest)
  {
    var run := [e] + rest;
    assert run[0] == e && run[1..] == rest;
    assert forall i :: 1 <= i < |run| ==> run[i] == rest[i - 1];
  }

  /** From every reachable state after close the writer can reach its end by its
      own steps, and no more of them than the bound. */
  lemma ShutdownCompletes(s: State)
    requires Reachable(s) && s.stopClosed
    ensures exists run :: ExitsBy(s, run)
  {
    ReachableInv(s);
    var run := WriterExits(s);
  }

  // ---- no caller is left behind ----

  /** The steps by which a caller leaves enqueue once stopCh is closed. */
  function WayOut(pc: CallerPC, f: FrameId): seq<Event> {
    match pc
    case Checking => [LoadStopped(f)]
    case Sending => [GiveUp(f, Closed)]
    case Counting => [CountEnqueued(f), SignalWake(f), GiveUp(f, Closed)]
    case Signalling => [SignalWake(f), GiveUp(f, Closed)]
    case Awaiting => [GiveUp(f, Closed)]
    case Returned(_) => []
  }

  lemma {:induction false} TakeWayOut(s: State, f: FrameId)
    requires CallsInv(s) && s.stopped && s.stopClosed && f in s.calls
    ensures ValidRun(s, WayOut(s.calls[f].pc, f))
    ensures var t := After(s, WayOut(s.calls[f].pc, f)); f in t.calls && t.calls[f].pc.Returned?
    decreases |WayOut(s.calls[f].pc, f)|
  {
    var pc := s.calls[f].pc;
    if !pc.Returned? {
      var e, t := WayOut(pc, f)[0], Next(s, WayOut(pc, f)[0]);
      StepCalls(s, e);
      StepCall(s, e, f);
      TakeWayOut(t, f);
      assert WayOut(pc, f)[1..] == WayOut(t.calls[f].pc, f);
    }
  }

  /** A step of call f itself. */
  predicate IsStepOf(e: Event, f: FrameId) {
    match e
    case LoadStopped(g) => g == f
    case SendFrame(g) => g == f
    case GiveUp(g, _) => g == f
    case CountEnqueued(g) => g == f
    case SignalWake(g) => g == f
    case ReceiveDone(g) => g == f
    case _ => false
  }

  /** A few steps of call f alone after which it has returned. */
  ghost predicate ReturnsBy(s: State, f: FrameId, run: seq<Event>) {
    && |run| <= 3 && ValidRun(s, run)
    && (forall i :: 0 <= i < |run| ==> IsStepOf(run[i], f))
    && f in After(s, run).calls && After(s, run).calls[f].pc.Returned?
  }

  /** From any point after close, also after the drain, every caller still inside
      enqueue can return within three steps of its own, with no help from the writer. */
  lemma CallersCanReturn(s: State, f: FrameId)
    requires Reachable(s) && s.stopClosed && f in s.calls
    ensures exists run :: ReturnsBy(s, f, run)
  {
    ReachableInv(s);
    WayOutReturns(s, f);
  }

  lemma WayOutReturns(s: State, f: FrameId)
    requires CallsInv(s) && s.stopped && s.stopClosed && f in s.calls
    ensures ReturnsBy(s, f, WayOut(s.calls[f].pc, f))
  {
    TakeWayOut(s, f);
    WayOutIsShort(s.calls[f].pc, f);
  }

  lemma WayOutIsShort(pc: CallerPC, f: FrameId)
    ensures |WayOut(pc, f)| <= 3 && forall i :: 0 <= i < |WayOut(pc, f)| ==> IsStepOf(WayOut(pc, f)[i], f)
  {
  }

  /** Steps a caller has before it; each of its own steps is progress. */
  function CallerDistance(pc: CallerPC): nat {
    match pc
    case Checking => 5
    case Sending => 4
    case Counting => 3
    case Signalling => 2
    case Awaiting => 1
    case Returned(_) => 0
  }

  lemma CallersProgress(s: State, e: Event, f: FrameId)
    requires CallsInv(s) && Enabled(s, e) && f in s.calls
    ensures CallerDistance(Next(s, e).calls[f].pc) <=
            CallerDistance(s.calls[f].pc) - (if IsCallerEvent(e) && Touched(s, e) == Some(f) then 1 else 0)
  {
    StepCall(s, e, f);
  }
}
