/** What every step of the outbound scheduler keeps. */
module OutboundInvariants {
  import opened Options
  import opened OutboundModel
  import opened Histories

  ghost predicate Distinct<T>(q: seq<T>) {
    forall i, j :: 0 <= i < j < |q| ==> q[i] != q[j]
  }

  /** Call numbers are handed out in order, and a goroutine's unfinished call is its latest one. */
  ghost predicate CallsInv(s: State) {
    && (forall f: FrameId :: f in s.calls <==> f < s.nextId)
    && (forall a, b :: a in s.calls && b in s.calls && a < b && s.calls[a].owner == s.calls[b].owner
          ==> s.calls[a].pc.Returned?)
  }

  /** A lane is a bounded queue: what was accepted is what was taken followed by what is queued. */
  ghost predicate LaneInv(l: Lane) {
    |l.queued| <= LANE_CAPACITY && l.accepted == l.taken + l.queued && Distinct(l.accepted)
  }

  /** A frame's call has not reached its lane, or was turned away because it was full. */
  predicate NotSent(pc: CallerPC) {
    pc.Checking? || pc.Sending? || pc == Returned(QueueFull)
  }

  /** A frame's call has certainly put it on its lane. */
  predicate PastSend(pc: CallerPC) {
    pc.Counting? || pc.Signalling? || pc.Awaiting? || pc == Returned(Sent) || pc == Returned(WriteFailed)
  }

  ghost predicate AcceptedInv(s: State) {
    && (forall p, f :: f in s.lanes.Get(p).accepted ==>
          f in s.calls && s.calls[f].lane == p && !NotSent(s.calls[f].pc))
    && (forall f :: f in s.calls && PastSend(s.calls[f].pc) ==> f in s.lanes.Get(s.calls[f].lane).accepted)
  }

  ghost predicate LanesInv(s: State) {
    (forall p :: LaneInv(s.lanes.Get(p))) && AcceptedInv(s)
  }

  ghost predicate WriterInv(s: State) {
    && (InPass(s.writer) ==> s.writer.quota <= Weight(s.writer.lane))
    && (Held(s.writer).Some? ==>
          var t := s.lanes.Get(s.writer.lane).taken;
          t != [] && t[|t| - 1] == Held(s.writer).value)
    && (InShutdown(s.writer) ==> s.stopClosed)
    && (s.stopClosed ==> s.stopped)
  }

  ghost predicate Taken(s: State, f: FrameId) {
    f in s.calls && f in s.lanes.Get(s.calls[f].lane).taken
  }

  /** A frame has been answered once if it was taken and is no longer held, and never otherwise. */
  ghost predicate AnswerInv(s: State) {
    forall f :: f in s.calls ==>
      && s.calls[f].sends == (if Taken(s, f) && Held(s.writer) != Some(f) then 1 else 0)
      && (s.calls[f].slot.Some? ==> s.calls[f].sends == 1)
  }

  /** The writer holds f and conn.Write has not been completed for it. */
  predicate Unwritten(w: WriterPC, f: FrameId) {
    (w.Writing? || w.Dropping?) && w.frame == f
  }

  /** No frame is written twice; every written frame was taken. */
  ghost predicate LogInv(s: State) {
    && (forall i, j :: 0 <= i < j < |s.log| ==> s.log[i].frame != s.log[j].frame)
    && (forall a :: a in s.log ==> Taken(s, a.frame) && !Unwritten(s.writer, a.frame))
    && (s.writer.Failing? ==> Attempt(s.writer.frame, false) in s.log)
    && (s.writer.Finishing? || s.writer.Answering? ==> Attempt(s.writer.frame, s.writer.ok) in s.log)
  }

  /** What was put on `done`, and what a caller returned because of it, is what the write did. */
  ghost predicate OutcomeInv(s: State) {
    forall f :: f in s.calls ==>
      var c := s.calls[f];
      && (c.slot == Some(Written) || c.pc == Returned(Sent) ==> Attempt(f, true) in s.log)
      && (c.slot == Some(Failed) || c.pc == Returned(WriteFailed) ==> Attempt(f, false) in s.log)
  }

  /** Until shutdown starts, every taken frame is written or in the writer's hands. */
  ghost predicate WrittenInv(s: State) {
    !InShutdown(s.writer) ==>
      forall f :: Taken(s, f) ==> Attempted(s, f) || Unwritten(s.writer, f)
  }

  /** Call a returned what its write did before its goroutine started call b. */
  ghost predicate PrecedesInProgram(s: State, a: FrameId, b: FrameId) {
    && a in s.calls && b in s.calls && a < b && s.calls[a].owner == s.calls[b].owner
    && (s.calls[a].pc == Returned(Sent) || s.calls[a].pc == Returned(WriteFailed))
  }

  ghost predicate OrderInv(s: State) {
    forall i, j :: 0 <= i < |s.log| && 0 <= j < |s.log| && PrecedesInProgram(s, s.log[j].frame, s.log[i].frame)
      ==> j < i
  }

  // ---- one step ----

  /** What a step can do to a call that already exists. */
  lemma StepCall(s: State, e: Event, f: FrameId)
    requires s.nextId !in s.calls && Enabled(s, e) && f in s.calls
    ensures var c, d := s.calls[f], Next(s, e).calls[f];
            && d == (if Touched(s, e) == Some(f) then NextCall(s, c, e) else c)
            && d.owner == c.owner && d.lane == c.lane
            && (c.pc.Returned? ==> d.pc == c.pc)
            && (PastSend(c.pc) ==> !NotSent(d.pc))
  {
  }

  lemma StepCalls(s: State, e: Event)
    requires CallsInv(s) && Enabled(s, e)
    ensures CallsInv(Next(s, e))
  {
    var t := Next(s, e);
    forall a, b | a in t.calls && b in t.calls && a < b && t.calls[a].owner == t.calls[b].owner
      ensures t.calls[a].pc.Returned?
    {
      StepCall(s, e, a);
      if b in s.calls { StepCall(s, e, b); }
    }
  }

  /** What a step can do to a lane. */
  lemma StepLane(s: State, e: Event, p: Priority)
    requires Enabled(s, e)
    ensures var l, m := s.lanes.Get(p), Next(s, e).lanes.Get(p);
            && m == (if LaneOf(s, e) == Some(p) then NextLane(s, l, e) else l)
  {
  }

  lemma {:induction false} StepLaneInv(s: State, e: Event, p: Priority)
    requires LanesInv(s) && Enabled(s, e)
    ensures LaneInv(Next(s, e).lanes.Get(p))
  {
    var l, m := s.lanes.Get(p), Next(s, e).lanes.Get(p);
    assert LaneInv(l);
    StepLane(s, e, p);
    if m.taken != l.taken {
      assert l.queued == [l.queued[0]] + l.queued[1..];
    } else if m != l {
      assert e.f !in l.accepted;
    }
  }

  lemma StepAccepted(s: State, e: Event)
    requires CallsInv(s) && LanesInv(s) && Enabled(s, e)
    ensures AcceptedInv(Next(s, e))
  {
    var t := Next(s, e);
    forall p, f | f in t.lanes.Get(p).accepted
      ensures f in t.calls && t.calls[f].lane == p && !NotSent(t.calls[f].pc)
    {
      AcceptedIsSent(s, e, p, f);
    }
    forall f | f in t.calls && PastSend(t.calls[f].pc)
      ensures f in t.lanes.Get(t.calls[f].lane).accepted
    {
      SentIsAccepted(s, e, f);
    }
  }

  lemma AcceptedIsSent(s: State, e: Event, p: Priority, f: FrameId)
    requires CallsInv(s) && AcceptedInv(s) && Enabled(s, e) && f in Next(s, e).lanes.Get(p).accepted
    ensures var t := Next(s, e); f in t.calls && t.calls[f].lane == p && !NotSent(t.calls[f].pc)
  {
    StepLane(s, e, p);
    if f in s.calls { StepCall(s, e, f); }
    if f !in s.lanes.Get(p).accepted { assert e == SendFrame(f); }
  }

  lemma SentIsAccepted(s: State, e: Event, f: FrameId)
    requires CallsInv(s) && AcceptedInv(s) && Enabled(s, e) && f in Next(s, e).calls
    requires PastSend(Next(s, e).calls[f].pc)
    ensures var t := Next(s, e); f in t.lanes.Get(t.calls[f].lane).accepted
  {
    if f in s.calls {
      StepCall(s, e, f);
      StepLane(s, e, s.calls[f].lane);
    }
  }

  lemma StepLanes(s: State, e: Event)
    requires CallsInv(s) && LanesInv(s) && Enabled(s, e)
    ensures LanesInv(Next(s, e))
  {
    forall p ensures LaneInv(Next(s, e).lanes.Get(p)) { StepLaneInv(s, e, p); }
    StepAccepted(s, e);
  }

  lemma StepWriter(s: State, e: Event)
    requires WriterInv(s) && Enabled(s, e)
    ensures WriterInv(Next(s, e))
  {
    if Held(Next(s, e).writer).Some? {
      StepLane(s, e, Next(s, e).writer.lane);
    }
  }

  /** The frame at the head of a lane has a call and was never taken before. */
  lemma HeadIsFresh(s: State, p: Priority)
    requires LanesInv(s) && s.lanes.Get(p).queued != []
    ensures var f := s.lanes.Get(p).queued[0];
            f in s.calls && s.calls[f].lane == p && f !in s.lanes.Get(p).taken
  {
    var l := s.lanes.Get(p);
    assert LaneInv(l);
    assert l.accepted[|l.taken|] == l.queued[0];
    forall i | 0 <= i < |l.taken| ensures l.taken[i] != l.queued[0] {
      assert l.accepted[i] == l.taken[i];
    }
  }

  lemma TakenIsKnown(s: State, p: Priority, f: FrameId)
    requires LanesInv(s) && f in s.lanes.Get(p).taken
    ensures f in s.calls && s.calls[f].lane == p && f in s.lanes.Get(p).accepted && Taken(s, f)
  {
    assert LaneInv(s.lanes.Get(p));
  }

  /** The frame in the writer's hands has an empty slot: answering it never blocks. */
  lemma HeldCanBeAnswered(s: State)
    requires LanesInv(s) && WriterInv(s) && AnswerInv(s) && Held(s.writer).Some?
    ensures CanAnswer(s)
  {
    TakenIsKnown(s, s.writer.lane, Held(s.writer).value);
  }

  /** A step takes the head of the writer's lane or leaves the set of taken frames alone. */
  lemma StepTaken(s: State, e: Event, f: FrameId)
    requires CallsInv(s) && LanesInv(s) && Enabled(s, e) && f in s.calls
    ensures Taken(Next(s, e), f) <==>
            Taken(s, f) || (Takes(s, e) && f == s.lanes.Get(s.writer.lane).queued[0])
  {
    StepCall(s, e, f);
    StepLane(s, e, s.calls[f].lane);
    if Takes(s, e) { HeadIsFresh(s, s.writer.lane); }
  }

  lemma NewCallNotTaken(s: State, e: Event)
    requires CallsInv(s) && LanesInv(s) && Enabled(s, e) && e.Start?
    ensures !Taken(Next(s, e), s.nextId)
  {
    if s.nextId in s.lanes.Get(e.p).taken { TakenIsKnown(s, e.p, s.nextId); }
  }

  /** The writer picks up a frame only by taking it and puts it down only by answering it. */
  lemma StepHeld(s: State, e: Event)
    requires Enabled(s, e)
    ensures Held(Next(s, e).writer) ==
            if Takes(s, e) then Some(s.lanes.Get(s.writer.lane).queued[0])
            else if e.SendDone? || e.DrainDone? then None
            else Held(s.writer)
  {
  }

  lemma AnswerFrame(s: State, e: Event, f: FrameId)
    requires CallsInv(s) && LanesInv(s) && WriterInv(s) && AnswerInv(s) && Enabled(s, e) && f in s.calls
    ensures var t := Next(s, e);
            && t.calls[f].sends == (if Taken(t, f) && Held(t.writer) != Some(f) then 1 else 0)
            && (t.calls[f].slot.Some? ==> t.calls[f].sends == 1)
  {
    StepCall(s, e, f);
    StepTaken(s, e, f);
    StepHeld(s, e);
    if Takes(s, e) { HeadIsFresh(s, s.writer.lane); }
    if Held(s.writer).Some? { TakenIsKnown(s, s.writer.lane, Held(s.writer).value); }
  }

  lemma StepAnswer(s: State, e: Event)
    requires CallsInv(s) && LanesInv(s) && WriterInv(s) && AnswerInv(s) && Enabled(s, e)
    ensures AnswerInv(Next(s, e))
  {
    var t := Next(s, e);
    forall f | f in t.calls
      ensures t.calls[f].sends == (if Taken(t, f) && Held(t.writer) != Some(f) then 1 else 0)
      ensures t.calls[f].slot.Some? ==> t.calls[f].sends == 1
    {
      if f in s.calls { AnswerFrame(s, e, f); } else { NewCallNotTaken(s, e); }
    }
  }

  lemma LoggedFrame(s: State, e: Event, f: FrameId)
    requires CallsInv(s) && LanesInv(s) && WriterInv(s) && Enabled(s, e) && Taken(s, f)
    requires !Unwritten(s.writer, f) || e.ConnWrite?
    ensures Taken(Next(s, e), f) && !Unwritten(Next(s, e).writer, f)
  {
    StepTaken(s, e, f);
    if Takes(s, e) { HeadIsFresh(s, s.writer.lane); }
  }

  lemma StepLog(s: State, e: Event)
    requires CallsInv(s) && LanesInv(s) && WriterInv(s) && LogInv(s) && Enabled(s, e)
    ensures LogInv(Next(s, e))
  {
    var t := Next(s, e);
    if e.ConnWrite? { TakenIsKnown(s, s.writer.lane, s.writer.frame); }
    forall a | a in t.log ensures Taken(t, a.frame) && !Unwritten(t.writer, a.frame) {
      LoggedFrame(s, e, a.frame);
    }
    assert forall a :: a in s.log ==> a in t.log;
    if e.ConnWrite? { assert t.log[|s.log|] == Attempt(s.writer.frame, e.ok); }
  }

  lemma StepOutcome(s: State, e: Event)
    requires CallsInv(s) && LogInv(s) && OutcomeInv(s) && Enabled(s, e)
    ensures OutcomeInv(Next(s, e))
  {
    forall f | f in s.calls
      ensures var c, t := Next(s, e).calls[f], Next(s, e);
              && (c.slot == Some(Written) || c.pc == Returned(Sent) ==> Attempt(f, true) in t.log)
              && (c.slot == Some(Failed) || c.pc == Returned(WriteFailed) ==> Attempt(f, false) in t.log)
    {
      StepCall(s, e, f);
    }
  }

  lemma StepWritten(s: State, e: Event)
    requires CallsInv(s) && LanesInv(s) && WriterInv(s) && LogInv(s) && WrittenInv(s) && Enabled(s, e)
    ensures WrittenInv(Next(s, e))
  {
    var t := Next(s, e);
    if !InShutdown(t.writer) {
      assert !InShutdown(s.writer);
      forall f | Taken(t, f) ensures Attempted(t, f) || Unwritten(t.writer, f) {
        if f in s.calls {
          StepTaken(s, e, f);
          if Attempted(s, f) {
            var i :| 0 <= i < |s.log| && s.log[i].frame == f;
            assert t.log[i].frame == f;
          } else if e.ConnWrite? {
            assert t.log[|s.log|] == Attempt(s.writer.frame, e.ok);
          }
        } else {
          NewCallNotTaken(s, e);
        }
      }
    }
  }

  lemma StepOrder(s: State, e: Event)
    requires CallsInv(s) && LogInv(s) && OutcomeInv(s) && OrderInv(s) && Enabled(s, e)
    ensures OrderInv(Next(s, e))
  {
    var t := Next(s, e);
    forall i, j | 0 <= i < |t.log| && 0 <= j < |t.log| && PrecedesInProgram(t, t.log[j].frame, t.log[i].frame)
      ensures j < i
    {
      var a, b := t.log[j].frame, t.log[i].frame;
      if i < |s.log| && j < |s.log| {
        assert s.log[i] in s.log && s.log[j] in s.log;
        StepCall(s, e, a);
        StepCall(s, e, b);
        assert PrecedesInProgram(s, a, b);
      } else if j == |s.log| {
        assert false;  // a is being written just now, so its call cannot have returned nil
      }
    }
  }

  // ---- counters ----

  ghost predicate IsAt(c: Call, p: Priority, pc: CallerPC) {
    c.lane == p && c.pc == pc
  }

  ghost function CallersAt(calls: map<FrameId, Call>, p: Priority, pc: CallerPC): set<FrameId> {
    set f | f in calls && IsAt(calls[f], p, pc)
  }

  /** 1 while the writer holds a frame of lane p that no counter covers yet. */
  function InFlight(w: WriterPC, p: Priority): nat {
    if (w.Writing? || w.Failing? || w.Finishing? || w.Dropping?) && w.lane == p then 1 else 0
  }

  /** Per lane: what was accepted is counted or about to be; what was taken is
      counted, in flight or drained; what was refused is counted. */
  ghost predicate LedgerInv(s: State, p: Priority) {
    InLedger(s, p) && OutLedger(s, p) && RefusalLedger(s, p)
  }

  ghost predicate InLedger(s: State, p: Priority) {
    s.counters.Get(p).enqueued + |CallersAt(s.calls, p, Counting)| == |s.lanes.Get(p).accepted|
  }

  predicate OutLedger(s: State, p: Priority) {
    |s.lanes.Get(p).taken| == s.counters.Get(p).dequeued + InFlight(s.writer, p) + s.counters.Get(p).dropped
  }

  ghost predicate RefusalLedger(s: State, p: Priority) {
    s.counters.Get(p).rejected == |CallersAt(s.calls, p, Returned(QueueFull))|
  }

  function FailedWrites(log: seq<Attempt>): nat {
    if log == [] then 0
    else FailedWrites(log[..|log| - 1]) + (if log[|log| - 1].ok then 0 else 1)
  }

  predicate ErrorsInv(s: State) {
    s.writeErrors + (if s.writer.Failing? then 1 else 0) == FailedWrites(s.log)
  }

  lemma CountUpdated(calls: map<FrameId, Call>, f: FrameId, d: Call, p: Priority, pc: CallerPC)
    ensures |CallersAt(calls[f := d], p, pc)| == |CallersAt(calls, p, pc)| +
              (if IsAt(d, p, pc) then 1 else 0) - (if f in calls && IsAt(calls[f], p, pc) then 1 else 0)
  {
    var updated := calls[f := d];
    var was, now := CallersAt(calls, p, pc), CallersAt(updated, p, pc);
    SizeWithout(was, f);
    SizeWithout(now, f);
    assert f in now <==> IsAt(d, p, pc);
    assert was - {f} == now - {f} by {
      forall g: FrameId | g != f ensures g in was <==> g in now {
        assert g in calls <==> g in updated;
      }
    }
  }

  /** The number of callers of lane p at pc, for a pc no new call starts in. */
  lemma StepCallers(s: State, e: Event, p: Priority, pc: CallerPC)
    requires Enabled(s, e) && pc != Checking && s.nextId !in s.calls
    ensures var f := Touched(s, e);
            |CallersAt(Next(s, e).calls, p, pc)| == |CallersAt(s.calls, p, pc)| +
              (if f.Some? && IsAt(NextCall(s, s.calls[f.value], e), p, pc) then 1 else 0) -
              (if f.Some? && IsAt(s.calls[f.value], p, pc) then 1 else 0)
  {
    if e.Start? {
      CountUpdated(s.calls, s.nextId, Call(e.g, e.p, Checking, false, None, 0), p, pc);
    } else if Touched(s, e).Some? {
      var f := Touched(s, e).value;
      CountUpdated(s.calls, f, NextCall(s, s.calls[f], e), p, pc);
    }
  }

  lemma StepCounter(s: State, e: Event, p: Priority)
    requires Enabled(s, e)
    ensures Next(s, e).counters.Get(p) ==
            if LaneOf(s, e) == Some(p) then NextCounter(s.counters.Get(p), e) else s.counters.Get(p)
  {
  }

  lemma StepLedger(s: State, e: Event, p: Priority)
    requires CallsInv(s) && LedgerInv(s, p) && Enabled(s, e)
    ensures LedgerInv(Next(s, e), p)
  {
    StepCounter(s, e, p);
    StepLane(s, e, p);
    assert InLedger(Next(s, e), p) by { StepCallers(s, e, p, Counting); }
    assert RefusalLedger(Next(s, e), p) by { StepCallers(s, e, p, Returned(QueueFull)); }
    StepOutLedger(s, e, p);
  }

  lemma StepOutLedger(s: State, e: Event, p: Priority)
    requires OutLedger(s, p) && Enabled(s, e)
    ensures OutLedger(Next(s, e), p)
  {
    StepCounter(s, e, p);
    StepLane(s, e, p);
  }

  lemma StepErrors(s: State, e: Event)
    requires ErrorsInv(s) && Enabled(s, e)
    ensures ErrorsInv(Next(s, e))
  {
    if e.ConnWrite? {
      var log := Next(s, e).log;
      assert log[..|log| - 1] == s.log;
    }
  }

  // ---- all runs ----

  ghost predicate Inv(s: State) {
    && CallsInv(s) && LanesInv(s) && WriterInv(s) && AnswerInv(s)
    && LogInv(s) && OutcomeInv(s) && WrittenInv(s) && OrderInv(s)
    && (forall p :: LedgerInv(s, p)) && ErrorsInv(s)
  }

  lemma InitInv()
    ensures Inv(Init())
  {
    var s := Init();
    forall p ensures LedgerInv(s, p) {
      assert CallersAt(s.calls, p, Counting) == {} && CallersAt(s.calls, p, Returned(QueueFull)) == {};
    }
  }

  lemma StepInv(s: State, e: Event)
    requires Inv(s) && Enabled(s, e)
    ensures Inv(Next(s, e))
  {
    StepCalls(s, e);
    StepLanes(s, e);
    StepWriter(s, e);
    StepAnswer(s, e);
    StepLog(s, e);
    StepOutcome(s, e);
    StepWritten(s, e);
    StepOrder(s, e);
    forall p ensures LedgerInv(Next(s, e), p) { StepLedger(s, e, p); }
    StepErrors(s, e);
  }

  /** Every reachable state satisfies the invariant, from any state that does. */
  lemma {:induction false} RunInv(s: State, run: seq<Event>)
    requires Inv(s) && ValidRun(s, run)
    ensures Inv(After(s, run))
    decreases |run|
  {
    if run != [] {
      StepInv(s, run[0]);
      RunInv(Next(s, run[0]), run[1..]);
    }
  }

  ghost predicate Reachable(s: State) {
    exists run :: ValidRun(Init(), run) && After(Init(), run) == s
  }

  lemma ReachableInv(s: State)
    requires Reachable(s)
    ensures Inv(s)
  {
    var run :| ValidRun(Init(), run) && After(Init(), run) == s;
    InitInv();
    RunInv(Init(), run);
  }

  /** A run cut before its i-th event. */
  lemma RunCut(run: seq<Event>, i: nat)
    requires ValidRun(Init(), run) && i < |run|
    ensures ValidRun(Init(), run[..i]) && Enabled(After(Init(), run[..i]), run[i])
    ensures ValidRun(Next(After(Init(), run[..i]), run[i]), run[i + 1..])
    ensures After(Init(), run) == After(Next(After(Init(), run[..i]), run[i]), run[i + 1..])
    ensures Inv(After(Init(), run[..i])) && Inv(Next(After(Init(), run[..i]), run[i]))
  {
    assert run == run[..i] + run[i..];
    RunSplit(Init(), run[..i], run[i..]);
    assert run[i..][0] == run[i] && run[i..][1..] == run[i + 1..];
    InitInv();
    RunInv(Init(), run[..i]);
    StepInv(After(Init(), run[..i]), run[i]);
  }
}
