/** The writer's loops as written in `OutboundScheduler` and the step system of
    `OutboundModel` agree: what one undisturbed pass of the object does, a run of
    writer steps does, whatever the connection answers. */
module OutboundRefinement {
  import opened OutboundModel
  import opened OutboundInvariants
  import opened OutboundScheduler

  /** The lanes as the object sees them. */
  function Queues(s: State): PerLane<seq<FrameId>> {
    PerLane(s.lanes.critical.queued, s.lanes.interactive.queued, s.lanes.bulk.queued)
  }

  lemma QueuesAt(s: State, p: Priority)
    ensures Queues(s).Get(p) == s.lanes.Get(p).queued
  {
  }

  /** A run of writer steps from s to t, in which nobody else moves. */
  ghost predicate Undisturbed(s: State, run: seq<Event>, t: State) {
    && ValidRun(s, run) && After(s, run) == t && (forall i :: 0 <= i < |run| ==> IsWriterEvent(run[i]))
    && t.wake == s.wake && t.stopped == s.stopped && t.stopClosed == s.stopClosed
  }

  lemma Then(s: State, a: seq<Event>, t: State, b: seq<Event>, u: State)
    requires Undisturbed(s, a, t) && Undisturbed(t, b, u)
    ensures Undisturbed(s, a + b, u)
  {
    RunConcat(s, a, b);
  }

  lemma One(s: State, e: Event)
    requires Enabled(s, e) && IsWriterEvent(e) && !e.WakeUp?
    ensures Undisturbed(s, [e], Next(s, e))
  {
    var t := Next(s, e);
    assert [e][0] == e && [e][1..] == [];
    assert ValidRun(t, []) && After(t, []) == t;
  }

  lemma Grow(s: State, run: seq<Event>, t: State, e: Event)
    requires Undisturbed(s, run, t) && Enabled(t, e) && IsWriterEvent(e) && !e.WakeUp?
    ensures Undisturbed(s, run + [e], Next(t, e))
  {
    One(t, e);
    Then(s, run, t, [e], Next(t, e));
  }

  lemma StaysReachable(s: State, run: seq<Event>, t: State)
    requires Reachable(s) && Undisturbed(s, run, t)
    ensures Reachable(t)
  {
    var before :| ValidRun(Init(), before) && After(Init(), before) == s;
    RunConcat(Init(), before, run);
  }

  /** Taking the head of the lane. */
  lemma Take(s: State) returns (t: State)
    requires Reachable(s) && s.writer.Popping? && s.writer.quota > 0 && s.lanes.Get(s.writer.lane).queued != []
    ensures var p := s.writer.lane;
            && Undisturbed(s, [TryPop], t)
            && t.writer == Writing(p, s.writer.quota - 1, s.lanes.Get(p).queued[0]) && t.log == s.log
            && Queues(t) == Queues(s).Set(p, s.lanes.Get(p).queued[1..]) && CanAnswer(t)
  {
    One(s, TryPop);
    t := Next(s, TryPop);
    assert CanAnswer(t) by {
      ReachableInv(s);
      StepInv(s, TryPop);
      HeldCanBeAnswered(t);
    }
  }

  /** Writing it and counting a failure. */
  lemma Write(s: State, ok: bool) returns (run: seq<Event>, t: State)
    requires s.writer.Writing? && CanAnswer(s)
    ensures Undisturbed(s, run, t)
    ensures t.writer == Finishing(s.writer.lane, s.writer.quota, s.writer.frame, ok)
    ensures t.log == s.log + [Attempt(s.writer.frame, ok)] && t.lanes == s.lanes && CanAnswer(t)
  {
    One(s, ConnWrite(ok));
    run, t := [ConnWrite(ok)], Next(s, ConnWrite(ok));
    if !ok {
      Grow(s, run, t, CountWriteError);
      run, t := run + [CountWriteError], Next(t, CountWriteError);
    }
  }

  /** Counting it and answering its caller. */
  lemma Answer(s: State) returns (run: seq<Event>, t: State)
    requires s.writer.Finishing? && CanAnswer(s)
    ensures Undisturbed(s, run, t)
    ensures t.writer == Popping(s.writer.lane, s.writer.quota) && t.log == s.log && t.lanes == s.lanes
  {
    One(s, CountDequeued);
    run, t := [CountDequeued], Next(s, CountDequeued);
    Grow(s, run, t, SendDone);
    run, t := run + [SendDone], Next(t, SendDone);
  }

  /** PopAndWrite on a lane that is not empty. */
  lemma PopIsRun(s: State, ok: bool) returns (run: seq<Event>, t: State)
    requires Reachable(s) && s.writer.Popping? && s.writer.quota > 0 && s.lanes.Get(s.writer.lane).queued != []
    ensures var p := s.writer.lane;
            && Undisturbed(s, run, t) && t.writer == Popping(p, s.writer.quota - 1)
            && t.log == s.log + [Attempt(s.lanes.Get(p).queued[0], ok)]
            && Queues(t) == Queues(s).Set(p, s.lanes.Get(p).queued[1..])
  {
    var taken := Take(s);
    var write, written := Write(taken, ok);
    Then(s, [TryPop], taken, write, written);
    var answer;
    answer, t := Answer(written);
    Then(s, [TryPop] + write, written, answer, t);
    run := [TryPop] + write + answer;
  }

  /** What the log gains by one more write comes first, the rest after it. */
  lemma WroteFirst(before: seq<Attempt>, after: seq<Attempt>, frames: seq<FrameId>)
    requires Wrote(before, after, frames) && frames != []
    ensures Wrote(before + [Attempt(frames[0], after[|before|].ok)], after, frames[1..])
  {
    assert after[|before|].frame == frames[0];
    assert before + [after[|before|]] == after[..|before| + 1];
  }

  /** ServeLane, with whatever quota is left. */
  lemma {:induction false} LaneIsRun(s: State, log: seq<Attempt>) returns (run: seq<Event>, t: State)
    requires Reachable(s) && s.writer.Popping?
    requires var q := s.lanes.Get(s.writer.lane).queued; Wrote(s.log, log, q[..Min(|q|, s.writer.quota)])
    ensures Undisturbed(s, run, t) && t.writer == AfterLane(s.writer.lane) && t.log == log
    ensures var q := s.lanes.Get(s.writer.lane).queued;
            Queues(t) == Queues(s).Set(s.writer.lane, q[Min(|q|, s.writer.quota)..])
    decreases s.writer.quota
  {
    if s.writer.quota == 0 || s.lanes.Get(s.writer.lane).queued == [] {
      t := LaneEnds(s);
      run := [TryPop];
      assert log == s.log;
    } else {
      var p, q := s.writer.lane, s.lanes.Get(s.writer.lane).queued;
      var m := Min(|q|, s.writer.quota);
      var first, u := LaneGoesOn(s, log, m);
      var rest;
      rest, t := LaneIsRun(u, log);
      SetSet(Queues(s), p, q[1..], q[m..]);
      Then(s, first, u, rest, t);
      run := first + rest;
    }
  }

  lemma LaneEnds(s: State) returns (t: State)
    requires s.writer.Popping? && (s.writer.quota == 0 || s.lanes.Get(s.writer.lane).queued == [])
    ensures Undisturbed(s, [TryPop], t) && t.writer == AfterLane(s.writer.lane) && t.log == s.log
    ensures var p, q := s.writer.lane, s.lanes.Get(s.writer.lane).queued;
            Queues(t) == Queues(s).Set(p, q[Min(|q|, s.writer.quota)..])
  {
    One(s, TryPop);
    t := Next(s, TryPop);
    QueuesAt(s, s.writer.lane);
    SetGet(Queues(s), s.writer.lane);
  }

  lemma LaneGoesOn(s: State, log: seq<Attempt>, m: nat) returns (run: seq<Event>, t: State)
    requires Reachable(s) && s.writer.Popping? && s.writer.quota > 0
    requires var q := s.lanes.Get(s.writer.lane).queued;
             q != [] && m == Min(|q|, s.writer.quota) && Wrote(s.log, log, q[..m])
    ensures Undisturbed(s, run, t) && Reachable(t) && t.writer == Popping(s.writer.lane, s.writer.quota - 1)
    ensures var p, q := s.writer.lane, s.lanes.Get(s.writer.lane).queued;
            && Queues(t) == Queues(s).Set(p, q[1..]) && t.lanes.Get(p).queued == q[1..]
            && q[1..][m - 1..] == q[m..] && Wrote(t.log, log, q[1..][..m - 1])
  {
    var p, q := s.writer.lane, s.lanes.Get(s.writer.lane).queued;
    run, t := PopIsRun(s, log[|s.log|].ok);
    StaysReachable(s, run, t);
    WroteFirst(s.log, log, q[..m]);
    QueuesAt(t, p);
    GetSet(Queues(s), p, q[1..]);
    assert q[..m][1..] == q[1..][..m - 1];
  }

  /** The log grown by two lists of frames has a middle, where the first list ends. */
  lemma WroteSplit(before: seq<Attempt>, after: seq<Attempt>, x: seq<FrameId>, y: seq<FrameId>)
    returns (middle: seq<Attempt>)
    requires Wrote(before, after, x + y)
    ensures Wrote(before, middle, x) && Wrote(middle, after, y)
  {
    middle := after[..|before| + |x|];
    assert forall i :: 0 <= i < |x| ==> (x + y)[i] == x[i];
    assert forall i :: 0 <= i < |y| ==> (x + y)[|x| + i] == y[i] && after[|middle| + i] == after[|before| + (|x| + i)];
  }

  /** RunPass: for every outcome of its writes there is a run of writer steps from
      the start of a pass to its end with the same lanes and the same log. */
  lemma PassIsRun(s: State, log: seq<Attempt>)
    requires Reachable(s) && s.writer == Popping(Critical, Weight(Critical))
    requires Wrote(s.log, log, PassOrder(Queues(s)))
    ensures exists run, t :: Undisturbed(s, run, t) && t.writer.StopCheck?
                             && Queues(t) == Remainders(Queues(s), 1) && t.log == log
  {
    var q := Queues(s);
    var c, i, b := Share(q.critical, Critical, 1), Share(q.interactive, Interactive, 1), Share(q.bulk, Bulk, 1);
    var log2 := WroteSplit(s.log, log, c + i, b);
    var log1 := WroteSplit(s.log, log2, c, i);
    var run, u := UpperLanes(s, log1, log2);
    var more, t := LaneIsRun(u, log);
    Then(s, run, u, more, t);
  }

  /** The critical lane, then the interactive one. */
  lemma UpperLanes(s: State, log1: seq<Attempt>, log2: seq<Attempt>) returns (run: seq<Event>, t: State)
    requires Reachable(s) && s.writer == Popping(Critical, Weight(Critical))
    requires Wrote(s.log, log1, Share(s.lanes.critical.queued, Critical, 1))
    requires Wrote(log1, log2, Share(s.lanes.interactive.queued, Interactive, 1))
    ensures Undisturbed(s, run, t) && Reachable(t) && t.writer == Popping(Bulk, Weight(Bulk)) && t.log == log2
    ensures Queues(t) == PerLane(Remainder(s.lanes.critical.queued, Critical, 1),
                                 Remainder(s.lanes.interactive.queued, Interactive, 1), s.lanes.bulk.queued)
  {
    var runC, u := LaneIsRun(s, log1);
    StaysReachable(s, runC, u);
    var runI;
    runI, t := LaneIsRun(u, log2);
    Then(s, runC, u, runI, t);
    run := runC + runI;
    StaysReachable(s, run, t);
  }
}
