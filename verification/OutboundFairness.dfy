/** How long a queued frame waits: how many weighted passes at most, and when it is
    left on its lane while the writer sleeps.

    The protocol document promises that bulk traffic is never starved
    indefinitely.  The loop does not keep that promise: one pass serves at most
    8, 4 and 1 frames, after it the writer parks on `wake`, and `wake` holds at
    most one token however many frames it stands for.  The second half proves
    exactly when that happens, and that such a stall lasts until something new
    arrives; `OutboundWitness` gives a run that shows it. */
module OutboundFairness {
  import opened OutboundModel
  import opened OutboundInvariants

  /** The most frames the passes so far could have taken off lane p. */
  function Credit(s: State, p: Priority): int {
    Weight(p) * s.passes - QuotaAhead(s.writer, p)
  }

  lemma {:induction false} ShutdownIsFinalRun(s: State, run: seq<Event>)
    requires ValidRun(s, run) && InShutdown(s.writer)
    ensures InShutdown(After(s, run).writer)
    decreases |run|
  {
    if run != [] {
      ShutdownIsFinalRun(Next(s, run[0]), run[1..]);
    }
  }

  lemma StepQuota(s: State, e: Event, p: Priority)
    requires WriterInv(s) && Enabled(s, e)
    ensures QuotaAhead(Next(s, e).writer, p) ==
            if e.WakeUp? then Weight(p)
            else if e.TryPop? && p == s.writer.lane then (if Takes(s, e) then s.writer.quota - 1 else 0)
            else QuotaAhead(s.writer, p)
  {
  }

  /** Before shutdown a step takes frames only against credit, and forfeits
      credit only when it finds the lane empty. */
  lemma StepCredit(s: State, e: Event, p: Priority)
    requires WriterInv(s) && Enabled(s, e) && !InShutdown(s.writer)
    ensures var t := Next(s, e);
            var gained, took := Credit(t, p) - Credit(s, p), |t.lanes.Get(p).taken| - |s.lanes.Get(p).taken|;
            && took <= gained
            && (took < gained ==> s.lanes.Get(p).queued == [])
  {
    StepQuota(s, e, p);
    StepLane(s, e, p);
    if e.WakeUp? { assert Weight(p) * (s.passes + 1) == Weight(p) * s.passes + Weight(p); }
  }

  /** Frame number n of lane p has been taken, or as many frames have been as the credit beyond base. */
  predicate Served(s: State, p: Priority, n: nat, base: int) {
    var l := s.lanes.Get(p);
    n < |l.accepted| && (|l.taken| > n || |l.taken| >= base + Credit(s, p))
  }

  lemma {:induction false} ServedRun(s: State, run: seq<Event>, p: Priority, n: nat, base: int)
    requires Inv(s) && ValidRun(s, run) && !InShutdown(After(s, run).writer)
    requires Served(s, p, n, base)
    ensures Served(After(s, run), p, n, base)
    decreases |run|
  {
    if run != [] {
      if InShutdown(s.writer) { ShutdownIsFinalRun(s, run); }
      StepInv(s, run[0]);
      StepCredit(s, run[0], p);
      StepLane(s, run[0], p);
      assert LaneInv(s.lanes.Get(p));
      ServedRun(Next(s, run[0]), run[1..], p, n, base);
    }
  }

  lemma {:induction false} HistoryGrows(s: State, run: seq<Event>, p: Priority)
    requires ValidRun(s, run)
    ensures s.lanes.Get(p).accepted <= After(s, run).lanes.Get(p).accepted
    ensures s.lanes.Get(p).taken <= After(s, run).lanes.Get(p).taken
    decreases |run|
  {
    if run != [] {
      StepLane(s, run[0], p);
      HistoryGrows(Next(s, run[0]), run[1..], p);
    }
  }

  predicate BetweenPasses(w: WriterPC) {
    w.StopCheck? || w.Parked?
  }

  /** A frame at index k of its lane has been given to conn.Write when the
      (k / weight + 1)-th pass that starts from now on is over, whatever else
      happens in the meantime on any lane. */
  lemma WrittenWithinPasses(s: State, run: seq<Event>, p: Priority, k: nat)
    requires Reachable(s) && ValidRun(s, run)
    requires k < |s.lanes.Get(p).queued|
    requires var t := After(s, run); BetweenPasses(t.writer) && t.passes >= s.passes + k / Weight(p) + 1
    ensures Attempted(After(s, run), s.lanes.Get(p).queued[k])
  {
    var t := After(s, run);
    ReachableInv(s);
    RunInv(s, run);
    TakenWithinPasses(s, run, p, k);
    TakenIsKnown(t, p, s.lanes.Get(p).queued[k]);
  }

  lemma TakenWithinPasses(s: State, run: seq<Event>, p: Priority, k: nat)
    requires Inv(s) && ValidRun(s, run) && LanesInv(After(s, run))
    requires k < |s.lanes.Get(p).queued|
    requires var t := After(s, run); BetweenPasses(t.writer) && t.passes >= s.passes + k / Weight(p) + 1
    ensures s.lanes.Get(p).queued[k] in After(s, run).lanes.Get(p).taken
  {
    var t, l, w := After(s, run), s.lanes.Get(p), Weight(p);
    assert LaneInv(l) && LaneInv(t.lanes.Get(p));
    ServedRun(s, run, p, |l.taken| + k, |l.taken| - w * s.passes);
    MulMonotone(w, k / w + 1, t.passes - s.passes);
    HistoryGrows(s, run, p);
    TakenPast(l, t.lanes.Get(p), k);
  }

  /** A lane from which more than k frames have been taken since has lost the one at index k. */
  lemma TakenPast(l: Lane, m: Lane, k: nat)
    requires LaneInv(l) && LaneInv(m) && l.accepted <= m.accepted
    ensures k < |l.queued| && |l.taken| + k < |m.taken| ==> l.queued[k] in m.taken
  {
    var n := |l.taken| + k;
    assert k < |l.queued| && n < |m.taken| ==> m.taken[n] == m.accepted[n] == l.accepted[n] == l.queued[k];
  }

  lemma MulMonotone(w: nat, a: int, b: int)
    ensures a <= b ==> w * a <= w * b
  {
  }

  /** Whatever is queued now, even a full lane, is written within 8, 16 or 64
      further passes: no lane starves as long as passes keep starting. */
  lemma FullLaneWithinPasses(s: State, run: seq<Event>, p: Priority)
    requires Reachable(s) && ValidRun(s, run)
    requires var t := After(s, run);
             && BetweenPasses(t.writer)
             && t.passes >= s.passes + (match p case Critical => 8 case Interactive => 16 case Bulk => 64)
    ensures forall f :: f in s.lanes.Get(p).queued ==> Attempted(After(s, run), f)
  {
    ReachableInv(s);
    assert LaneInv(s.lanes.Get(p));
    forall f | f in s.lanes.Get(p).queued ensures Attempted(After(s, run), f) {
      var k :| 0 <= k < |s.lanes.Get(p).queued| && s.lanes.Get(p).queued[k] == f;
      WrittenWithinPasses(s, run, p, k);
    }
  }

  // ---- how much a pass may write ----

  const PASS_BUDGET: nat := 13

  function PassAhead(w: WriterPC): nat {
    QuotaAhead(w, Critical) + QuotaAhead(w, Interactive) + QuotaAhead(w, Bulk)
  }

  /** Writes begun so far. */
  function Started(s: State): nat {
    |s.log| + (if s.writer.Writing? then 1 else 0)
  }

  lemma StepStarted(s: State, e: Event)
    requires WriterInv(s) && Enabled(s, e)
    ensures var t := Next(s, e);
            Started(t) + PassAhead(t.writer) <= Started(s) + PassAhead(s.writer) + PASS_BUDGET * (t.passes - s.passes)
    ensures PassAhead(s.writer) <= PASS_BUDGET
  {
    StepQuota(s, e, Critical);
    StepQuota(s, e, Interactive);
    StepQuota(s, e, Bulk);
  }

  /** Between any two points of a run at most 13 writes start per pass: those of
      the passes started in between and what is left of the current one. */
  lemma {:induction false} WritesPerPass(s: State, run: seq<Event>)
    requires Inv(s) && ValidRun(s, run)
    ensures var t := After(s, run);
            && Started(t) + PassAhead(t.writer)
                 <= Started(s) + PassAhead(s.writer) + PASS_BUDGET * (t.passes - s.passes)
            && PassAhead(s.writer) <= PASS_BUDGET
    decreases |run|
  {
    if run == [] {
      StepWriterAhead(s);
    } else {
      var u := Next(s, run[0]);
      StepStarted(s, run[0]);
      StepInv(s, run[0]);
      WritesPerPass(u, run[1..]);
    }
  }

  lemma StepWriterAhead(s: State)
    requires WriterInv(s)
    ensures PassAhead(s.writer) <= PASS_BUDGET
  {
  }

  // ---- can work be left on a lane while the writer sleeps? ----

  /** Some caller has queued its frame and has yet to offer a token. */
  ghost predicate SignalPending(s: State) {
    exists f :: At(s, f, Counting) || At(s, f, Signalling)
  }

  predicate AllLanesEmpty(s: State) {
    s.lanes.critical.queued == [] && s.lanes.interactive.queued == [] && s.lanes.bulk.queued == []
  }

  /** No lane holds more than one pass serves. */
  predicate WithinWeights(s: State) {
    && |s.lanes.critical.queued| <= Weight(Critical)
    && |s.lanes.interactive.queued| <= Weight(Interactive)
    && |s.lanes.bulk.queued| <= Weight(Bulk)
  }

  /** The writer sleeps and nothing already under way will wake it. */
  ghost predicate Quiescent(s: State) {
    s.writer.Parked? && !s.wake && !SignalPending(s)
  }

  ghost predicate Stalled(s: State) {
    Quiescent(s) && !AllLanesEmpty(s)
  }

  // ---- no lost wake-up while every wake-up finds the lanes within their weights ----

  predicate NoOverloadedWake(s: State, run: seq<Event>)
    requires ValidRun(s, run)
    decreases |run|
  {
    run == [] ||
    ((run[0].WakeUp? ==> WithinWeights(s)) && NoOverloadedWake(Next(s, run[0]), run[1..]))
  }

  predicate Beyond(s: State, p: Priority) {
    |s.lanes.Get(p).queued| > QuotaAhead(s.writer, p)
  }

  /** Frames beyond what the current pass will serve are covered by a token or a pending signal. */
  ghost predicate Covered(s: State) {
    Beyond(s, Critical) || Beyond(s, Interactive) || Beyond(s, Bulk) ==> s.wake || SignalPending(s)
  }

  lemma PendingAfter(s: State, e: Event)
    requires Enabled(s, e) && s.nextId !in s.calls
    ensures SignalPending(s) && !e.SignalWake? ==> SignalPending(Next(s, e))
    ensures e.SendFrame? ==> SignalPending(Next(s, e))
  {
    if e.SendFrame? {
      StepCall(s, e, e.f);
      assert At(Next(s, e), e.f, Counting);
    } else if SignalPending(s) && !e.SignalWake? {
      var f :| At(s, f, Counting) || At(s, f, Signalling);
      StepCall(s, e, f);
      assert At(Next(s, e), f, Counting) || At(Next(s, e), f, Signalling);
    }
  }

  lemma StepCovered(s: State, e: Event)
    requires s.nextId !in s.calls && WriterInv(s) && Covered(s) && Enabled(s, e) && (e.WakeUp? ==> WithinWeights(s))
    ensures Covered(Next(s, e))
  {
    var t := Next(s, e);
    PendingAfter(s, e);
    forall p | Beyond(t, p) ensures Beyond(s, p) || e.SendFrame? || e.WakeUp? {
      StepQuota(s, e, p);
      StepLane(s, e, p);
    }
  }

  lemma {:induction false} CoveredRun(s: State, run: seq<Event>)
    requires Inv(s) && Covered(s) && ValidRun(s, run) && NoOverloadedWake(s, run)
    ensures Covered(After(s, run))
    decreases |run|
  {
    if run != [] {
      StepInv(s, run[0]);
      StepCovered(s, run[0]);
      CoveredRun(Next(s, run[0]), run[1..]);
    }
  }

  /** Along any run in which every wake-up finds the lanes within their weights,
      the writer never sleeps on queued work. */
  lemma NoLostWakeUp(run: seq<Event>)
    requires ValidRun(Init(), run) && NoOverloadedWake(Init(), run)
    ensures Quiescent(After(Init(), run)) ==> AllLanesEmpty(After(Init(), run))
  {
    InitInv();
    CoveredRun(Init(), run);
    var s := After(Init(), run);
    if Quiescent(s) {
      forall p ensures |s.lanes.Get(p).queued| == 0 {
        assert |s.lanes.Get(p).queued| <= QuotaAhead(s.writer, p);
      }
      assert |s.lanes.Get(Critical).queued| + |s.lanes.Get(Interactive).queued| + |s.lanes.Get(Bulk).queued| == 0;
    }
  }

  // ---- exactly when a run goes to sleep on queued work ----

  predicate NoWakeUp(run: seq<Event>) {
    forall i :: 0 <= i < |run| ==> !run[i].WakeUp?
  }

  /** Since u, nothing has arrived on any lane unless a token or a pending signal shows it. */
  ghost predicate ArrivalsShow(u: State, s: State) {
    || s.wake || SignalPending(s)
    || (&& s.lanes.critical.accepted == u.lanes.critical.accepted
        && s.lanes.interactive.accepted == u.lanes.interactive.accepted
        && s.lanes.bulk.accepted == u.lanes.bulk.accepted)
  }

  lemma StepArrivals(u: State, s: State, e: Event)
    requires s.nextId !in s.calls && ArrivalsShow(u, s) && Enabled(s, e) && !e.WakeUp?
    ensures ArrivalsShow(u, Next(s, e)) && Next(s, e).passes == s.passes
  {
    PendingAfter(s, e);
    forall p ensures !e.SendFrame? ==> Next(s, e).lanes.Get(p).accepted == s.lanes.Get(p).accepted {
      StepLane(s, e, p);
    }
  }

  lemma {:induction false} ArrivalsRun(u: State, s: State, run: seq<Event>)
    requires Inv(s) && ArrivalsShow(u, s) && ValidRun(s, run) && NoWakeUp(run)
    ensures ArrivalsShow(u, After(s, run)) && After(s, run).passes == s.passes
    decreases |run|
  {
    if run != [] {
      StepInv(s, run[0]);
      StepArrivals(u, s, run[0]);
      assert NoWakeUp(run[1..]);
      ArrivalsRun(u, Next(s, run[0]), run[1..]);
    }
  }

  /** A pass takes no more than its credit. */
  lemma {:induction false} TakenWithinCredit(s: State, run: seq<Event>, p: Priority)
    requires Inv(s) && ValidRun(s, run) && !InShutdown(After(s, run).writer)
    ensures var t := After(s, run);
            |t.lanes.Get(p).taken| - |s.lanes.Get(p).taken| <= Credit(t, p) - Credit(s, p)
    decreases |run|
  {
    if run != [] {
      if InShutdown(s.writer) { ShutdownIsFinalRun(s, run); }
      StepInv(s, run[0]);
      StepCredit(s, run[0], p);
      TakenWithinCredit(Next(s, run[0]), run[1..], p);
    }
  }

  /** From wake-up to the next sleep a lane nobody adds to loses exactly its weight, or all it has. */
  lemma OnePass(s: State, run: seq<Event>, p: Priority)
    requires Inv(s) && Enabled(s, WakeUp)
    requires var u := Next(s, WakeUp);
             && ValidRun(u, run) && After(u, run).writer.Parked? && After(u, run).passes == u.passes
             && After(u, run).lanes.Get(p).accepted == u.lanes.Get(p).accepted
    ensures |After(Next(s, WakeUp), run).lanes.Get(p).queued| ==
            (if |s.lanes.Get(p).queued| <= Weight(p) then 0 else |s.lanes.Get(p).queued| - Weight(p))
  {
    var u := Next(s, WakeUp);
    var t, l := After(u, run), u.lanes.Get(p);
    StepInv(s, WakeUp);
    RunInv(u, run);
    StepLane(s, WakeUp, p);
    StepQuota(s, WakeUp, p);
    assert LaneInv(l) && LaneInv(t.lanes.Get(p));
    TakenWithinCredit(u, run, p);
    HistoryGrows(u, run, p);
    assert Credit(t, p) - Credit(u, p) == Weight(p);
    assert |l.accepted| == |l.taken| + |l.queued|;
    assert |t.lanes.Get(p).accepted| == |t.lanes.Get(p).taken| + |t.lanes.Get(p).queued|;
    if l.queued != [] {
      ServedRun(u, run, p, |l.accepted| - 1, |l.taken| - Credit(u, p));
    }
  }

  /** A run that ends asleep with nothing under way has emptied all lanes if and
      only if its last wake-up found every lane within its weight. */
  lemma SleepsOnWorkIff(before: seq<Event>, after: seq<Event>)
    requires ValidRun(Init(), before) && Enabled(After(Init(), before), WakeUp)
    requires ValidRun(Next(After(Init(), before), WakeUp), after) && NoWakeUp(after)
    requires Quiescent(After(Next(After(Init(), before), WakeUp), after))
    ensures AllLanesEmpty(After(Next(After(Init(), before), WakeUp), after)) <==> WithinWeights(After(Init(), before))
  {
    var s := After(Init(), before);
    var u := Next(s, WakeUp);
    var t := After(u, after);
    InitInv();
    RunInv(Init(), before);
    StepInv(s, WakeUp);
    ArrivalsRun(u, u, after);
    OnePass(s, after, Critical);
    OnePass(s, after, Interactive);
    OnePass(s, after, Bulk);
  }

  /** A run without any wake-up that ends asleep has never been given a frame. */
  lemma SleepsWithoutWakeUp(run: seq<Event>)
    requires ValidRun(Init(), run) && NoWakeUp(run) && Quiescent(After(Init(), run))
    ensures AllLanesEmpty(After(Init(), run))
  {
    InitInv();
    ArrivalsRun(Init(), Init(), run);
    RunInv(Init(), run);
    var s := After(Init(), run);
    assert LaneInv(s.lanes.Get(Critical)) && LaneInv(s.lanes.Get(Interactive)) && LaneInv(s.lanes.Get(Bulk));
    assert s.lanes.Get(Critical).accepted == [] && s.lanes.Get(Interactive).accepted == [];
    assert s.lanes.Get(Bulk).accepted == [];
  }

  // ---- a stall lasts ----

  predicate OnlyOutside(e: Event) {
    !e.SendFrame? && !e.CloseStopCh?
  }

  lemma PendingBefore(s: State, e: Event)
    requires Enabled(s, e) && s.nextId !in s.calls
    ensures SignalPending(Next(s, e)) && !e.SendFrame? ==> SignalPending(s)
    ensures e.CountEnqueued? || e.SignalWake? ==> SignalPending(s)
  {
    var t := Next(s, e);
    if e.CountEnqueued? { assert At(s, e.f, Counting); }
    if e.SignalWake? { assert At(s, e.f, Signalling); }
    if f :| At(t, f, Counting) || At(t, f, Signalling) {
      if f in s.calls {
        StepCall(s, e, f);
        assert !e.SendFrame? ==> At(s, f, Counting) || At(s, f, Signalling);
      }
    }
  }

  lemma StepStalled(s: State, e: Event)
    requires CallsInv(s) && Stalled(s) && !s.stopClosed && Enabled(s, e) && OnlyOutside(e)
    ensures var t := Next(s, e);
            Stalled(t) && !t.stopClosed && !IsWriterEvent(e) && t.lanes == s.lanes && t.log == s.log
  {
    PendingBefore(s, e);
    assert Next(s, e).lanes == s.lanes;
  }

  /** Nothing but a newly queued frame or a shutdown ends a stall: until then the
      writer takes no step and the lanes do not change. */
  lemma {:induction false} StallLasts(s: State, run: seq<Event>)
    requires CallsInv(s) && Stalled(s) && !s.stopClosed && ValidRun(s, run)
    requires forall i :: 0 <= i < |run| ==> OnlyOutside(run[i])
    ensures Stalled(After(s, run)) && After(s, run).lanes == s.lanes && After(s, run).log == s.log
    ensures forall i :: 0 <= i < |run| ==> !IsWriterEvent(run[i])
    decreases |run|
  {
    if run != [] {
      StepStalled(s, run[0]);
      StepCalls(s, run[0]);
      StallLasts(Next(s, run[0]), run[1..]);
    }
  }
}
