/** What the drain leaves behind: every frame that is on a lane when the drain comes
    to it is answered, and the only frames left are those sent after it has passed. */
module OutboundDrain {
  import opened OutboundModel
  import opened OutboundInvariants
  import opened OutboundFairness
  import opened OutboundShutdown

  /** The drain has found lane p empty and gone on. */
  predicate Passed(w: WriterPC, p: Priority) {
    w.Exited? || ((w.Draining? || w.Dropping?) && Rank(w.lane) > Rank(p))
  }

  /** The drain passes a lane only when everything accepted on it has been taken,
      and takes nothing from it afterwards. */
  lemma StepPassed(s: State, e: Event, p: Priority)
    requires LaneInv(s.lanes.Get(p)) && Enabled(s, e)
    ensures Passed(s.writer, p) ==>
              Passed(Next(s, e).writer, p) && Next(s, e).lanes.Get(p).taken == s.lanes.Get(p).taken
    ensures !Passed(s.writer, p) && Passed(Next(s, e).writer, p) ==>
              Next(s, e).lanes.Get(p) == s.lanes.Get(p) && s.lanes.Get(p).queued == []
  {
    StepLane(s, e, p);
  }

  lemma {:induction false} PassedRun(s: State, run: seq<Event>, p: Priority)
    requires Inv(s) && ValidRun(s, run) && Passed(s.writer, p)
    ensures Passed(After(s, run).writer, p) && After(s, run).lanes.Get(p).taken == s.lanes.Get(p).taken
    decreases |run|
  {
    if run != [] {
      assert LaneInv(s.lanes.Get(p));
      StepPassed(s, run[0], p);
      StepInv(s, run[0]);
      PassedRun(Next(s, run[0]), run[1..], p);
    }
  }

  /** Once the drain has passed a lane, everything accepted before has been taken. */
  lemma {:induction false} DrainedRun(s: State, run: seq<Event>, p: Priority)
    requires Inv(s) && ValidRun(s, run) && !Passed(s.writer, p) && Passed(After(s, run).writer, p)
    ensures s.lanes.Get(p).accepted <= After(s, run).lanes.Get(p).taken
    decreases |run|
  {
    if run != [] {
      var u := Next(s, run[0]);
      assert LaneInv(s.lanes.Get(p));
      StepPassed(s, run[0], p);
      StepLane(s, run[0], p);
      StepInv(s, run[0]);
      if Passed(u.writer, p) {
        HistoryGrows(u, run[1..], p);
      } else {
        DrainedRun(u, run[1..], p);
      }
    }
  }

  /** When the writer has exited, every frame accepted on a lane before the drain
      passed that lane has been answered, once. */
  lemma DrainAnswers(s: State, run: seq<Event>, p: Priority, f: FrameId)
    requires Reachable(s) && ValidRun(s, run) && After(s, run).writer.Exited?
    requires !Passed(s.writer, p) && f in s.lanes.Get(p).accepted
    ensures f in After(s, run).calls && After(s, run).calls[f].sends == 1
  {
    var t := After(s, run);
    ReachableInv(s);
    RunInv(s, run);
    DrainedRun(s, run, p);
    TakenIsKnown(t, p, f);
  }

  /** A frame still queued when the drain begins is never written. */
  lemma DrainWritesNothing(s: State, run: seq<Event>, p: Priority, f: FrameId)
    requires Reachable(s) && ValidRun(s, run) && InShutdown(s.writer) && f in s.lanes.Get(p).queued
    ensures !Attempted(After(s, run), f)
  {
    ReachableInv(s);
    LogFrozen(s, run);
    QueuedIsNotTaken(s, p, f);
    forall i | 0 <= i < |s.log| ensures s.log[i].frame != f { assert s.log[i] in s.log; }
  }

  lemma QueuedIsNotTaken(s: State, p: Priority, f: FrameId)
    requires LanesInv(s) && f in s.lanes.Get(p).queued
    ensures f in s.lanes.Get(p).accepted && f !in s.lanes.Get(p).taken && f in s.calls && !Taken(s, f)
  {
    var l := s.lanes.Get(p);
    assert LaneInv(l);
    var i :| 0 <= i < |l.queued| && l.queued[i] == f;
    assert l.accepted[|l.taken| + i] == f;
    assert forall j :: 0 <= j < |l.taken| ==> l.accepted[j] == l.taken[j];
  }

  // ---- what is left on a lane ----

  /** At step i of the run the call of f sends on lane p, which the drain has passed. */
  ghost predicate SentLate(run: seq<Event>, i: nat, p: Priority, f: FrameId) {
    && i < |run| && run[i] == SendFrame(f)
    && ValidRun(Init(), run[..i])
    && At(After(Init(), run[..i]), f, Sending) && After(Init(), run[..i]).calls[f].lane == p
    && Passed(After(Init(), run[..i]).writer, p)
  }

  lemma LastStep(run: seq<Event>)
    requires ValidRun(Init(), run) && run != []
    ensures var n := |run| - 1;
            && ValidRun(Init(), run[..n]) && Enabled(After(Init(), run[..n]), run[n])
            && After(Init(), run) == Next(After(Init(), run[..n]), run[n])
  {
    RunCut(run, |run| - 1);
    assert run[|run|..] == [];
  }

  /** Every accepted frame was sent at some step of the run. */
  lemma {:induction false} SentSomewhere(run: seq<Event>, p: Priority, f: FrameId) returns (i: nat)
    requires ValidRun(Init(), run) && f in After(Init(), run).lanes.Get(p).accepted
    ensures i < |run| && run[i] == SendFrame(f) && ValidRun(Init(), run[..i])
    ensures At(After(Init(), run[..i]), f, Sending) && After(Init(), run[..i]).calls[f].lane == p
    decreases |run|
  {
    assert run != [];
    var n := |run| - 1;
    LastStep(run);
    var s := After(Init(), run[..n]);
    StepLane(s, run[n], p);
    if f in s.lanes.Get(p).accepted {
      i := SentSomewhere(run[..n], p, f);
      assert run[..n][..i] == run[..i];
    } else {
      i := n;
    }
  }

  lemma LeftBehindWasLate(run: seq<Event>, p: Priority, f: FrameId) returns (i: nat)
    requires ValidRun(Init(), run) && After(Init(), run).writer.Exited?
    requires f in After(Init(), run).lanes.Get(p).queued
    ensures SentLate(run, i, p, f)
  {
    var t := After(Init(), run);
    InitInv();
    RunInv(Init(), run);
    QueuedIsNotTaken(t, p, f);
    i := SentSomewhere(run, p, f);
    RunCut(run, i);
    SendAccepts(After(Init(), run[..i]), p, f);
    assert !Passed(After(Init(), run[..i]).writer, p) ==> f in t.lanes.Get(p).taken by {
      EarlyIsTaken(Next(After(Init(), run[..i]), run[i]), run[i + 1..], p, f);
    }
  }

  lemma SendAccepts(s: State, p: Priority, f: FrameId)
    requires Enabled(s, SendFrame(f)) && s.calls[f].lane == p
    ensures f in Next(s, SendFrame(f)).lanes.Get(p).accepted && Next(s, SendFrame(f)).writer == s.writer
  {
    StepLane(s, SendFrame(f), p);
  }

  lemma EarlyIsTaken(s: State, run: seq<Event>, p: Priority, f: FrameId)
    requires Inv(s) && ValidRun(s, run) && f in s.lanes.Get(p).accepted
    ensures !Passed(s.writer, p) && After(s, run).writer.Exited? ==> f in After(s, run).lanes.Get(p).taken
  {
    if !Passed(s.writer, p) && After(s, run).writer.Exited? { DrainedRun(s, run, p); }
  }

  lemma LateIsLeftBehind(run: seq<Event>, p: Priority, f: FrameId, i: nat)
    requires ValidRun(Init(), run) && SentLate(run, i, p, f)
    ensures f in After(Init(), run).lanes.Get(p).queued
  {
    RunCut(run, i);
    var s := After(Init(), run[..i]);
    var u, t := Next(s, run[i]), After(Init(), run);
    StepLane(s, run[i], p);
    assert LaneInv(s.lanes.Get(p));
    assert f !in s.lanes.Get(p).accepted;
    PassedRun(u, run[i + 1..], p);
    HistoryGrows(u, run[i + 1..], p);
    RunInv(u, run[i + 1..]);
    assert LaneInv(t.lanes.Get(p));
    assert f in u.lanes.Get(p).accepted;
    assert f !in t.lanes.Get(p).taken;
  }

  /** Once the writer has exited, a frame is left on a lane if and only if its call
      sent it after the drain had passed that lane. */
  lemma LeftBehindIff(run: seq<Event>, p: Priority, f: FrameId)
    requires ValidRun(Init(), run) && After(Init(), run).writer.Exited?
    ensures f in After(Init(), run).lanes.Get(p).queued <==> exists i: nat :: SentLate(run, i, p, f)
  {
    if f in After(Init(), run).lanes.Get(p).queued {
      var i := LeftBehindWasLate(run, p, f);
    }
    forall i: nat | SentLate(run, i, p, f) ensures f in After(Init(), run).lanes.Get(p).queued {
      LateIsLeftBehind(run, p, f, i);
    }
  }
}
