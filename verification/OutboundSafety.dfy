/** What holds of every reachable state of the outbound scheduler: exactly-once
    writes and answers, the counter ledger, and program order across lanes. */
module OutboundSafety {
  import opened Options
  import opened OutboundModel
  import opened OutboundInvariants

  /** No frame is written twice, no frame is answered twice, and the writer's
      answer finds the slot empty, so an abandoned caller never blocks it. */
  lemma ExactlyOnce(s: State)
    requires Reachable(s)
    ensures forall i, j :: 0 <= i < j < |s.log| ==> s.log[i].frame != s.log[j].frame
    ensures forall f :: f in s.calls ==> s.calls[f].sends <= 1
    ensures s.writer.Answering? ==> Enabled(s, SendDone)
    ensures s.writer.Dropping? ==> Enabled(s, DrainDone)
  {
    ReachableInv(s);
    if Held(s.writer).Some? { HeldCanBeAnswered(s); }
  }

  /** nil means the frame was written; a write error means its write failed; and
      the frame of a call turned away by a full lane never reaches the connection. */
  lemma ResultTellsTheWrite(s: State, f: FrameId)
    requires Reachable(s) && f in s.calls
    ensures s.calls[f].pc == Returned(Sent) ==> Attempt(f, true) in s.log && Attempt(f, false) !in s.log
    ensures s.calls[f].pc == Returned(WriteFailed) ==> Attempt(f, false) in s.log && Attempt(f, true) !in s.log
    ensures s.calls[f].pc == Returned(QueueFull) ==> !Attempted(s, f)
  {
    ReachableInv(s);
    if s.calls[f].pc == Returned(QueueFull) { UnsentIsNotWritten(s, f); }
  }

  lemma UnsentIsNotWritten(s: State, f: FrameId)
    requires LanesInv(s) && LogInv(s) && f in s.calls && NotSent(s.calls[f].pc)
    ensures !Attempted(s, f)
  {
    if Attempted(s, f) {
      var i :| 0 <= i < |s.log| && s.log[i].frame == f;
      assert s.log[i] in s.log;
      TakenIsKnown(s, s.calls[f].lane, f);
    }
  }

  // ---- why a call gives up ----

  /** Cancelled needs a cancelled context; Closed, and an answer from the drain, a closed scheduler. */
  predicate Justified(s: State, c: Call) {
    && (c.pc == Returned(Cancelled) ==> c.cancelled)
    && (c.pc == Returned(Closed) || c.slot == Some(Dropped) ==> s.stopped)
  }

  ghost predicate AllJustified(s: State) {
    forall f :: f in s.calls ==> Justified(s, s.calls[f])
  }

  lemma StepJustified(s: State, e: Event)
    requires CallsInv(s) && WriterInv(s) && AllJustified(s) && Enabled(s, e)
    ensures AllJustified(Next(s, e))
  {
    forall f | f in s.calls ensures Justified(Next(s, e), Next(s, e).calls[f]) {
      StepCall(s, e, f);
    }
  }

  lemma {:induction false} JustifiedRun(s: State, run: seq<Event>)
    requires Inv(s) && AllJustified(s) && ValidRun(s, run)
    ensures AllJustified(After(s, run))
    decreases |run|
  {
    if run != [] {
      StepInv(s, run[0]);
      StepJustified(s, run[0]);
      JustifiedRun(Next(s, run[0]), run[1..]);
    }
  }

  /** No call is told Cancelled while its context lives, or Closed before close was called. */
  lemma GivesUpWithReason(s: State, f: FrameId)
    requires Reachable(s) && f in s.calls
    ensures s.calls[f].pc == Returned(Cancelled) ==> s.calls[f].cancelled
    ensures s.calls[f].pc == Returned(Closed) ==> s.stopped
  {
    var run :| ValidRun(Init(), run) && After(Init(), run) == s;
    InitInv();
    JustifiedRun(Init(), run);
    assert Justified(s, s.calls[f]);
  }

  /** Each lane is a bounded FIFO queue whose counters never lose a frame. */
  lemma Ledger(s: State, p: Priority)
    requires Reachable(s)
    ensures var l, c := s.lanes.Get(p), s.counters.Get(p);
            && |l.queued| <= 64
            && l.accepted == l.taken + l.queued
            && c.enqueued + |CallersAt(s.calls, p, Counting)|
                 == |l.queued| + InFlight(s.writer, p) + c.dequeued + c.dropped
            && c.rejected == |CallersAt(s.calls, p, Returned(QueueFull))|
    ensures s.writeErrors + (if s.writer.Failing? then 1 else 0) == FailedWrites(s.log)
  {
    ReachableInv(s);
    assert LaneInv(s.lanes.Get(p)) && LedgerInv(s, p);
  }

  /** If a goroutine's call a returned nil, its frame is written before the frame
      of any later call b of that goroutine, whatever the two lanes are. */
  lemma ProgramOrder(s: State, a: FrameId, b: FrameId)
    requires Reachable(s)
    requires a in s.calls && b in s.calls && a < b && s.calls[a].owner == s.calls[b].owner
    requires s.calls[a].pc == Returned(Sent) && Attempted(s, b)
    ensures exists j, i :: 0 <= j < i < |s.log| && s.log[j] == Attempt(a, true) && s.log[i].frame == b
  {
    ReachableInv(s);
    var i :| 0 <= i < |s.log| && s.log[i].frame == b;
    var j :| 0 <= j < |s.log| && s.log[j] == Attempt(a, true);
    assert PrecedesInProgram(s, s.log[j].frame, s.log[i].frame);
  }

  /** When a later call's frame is written before an earlier one's of the same
      goroutine, the earlier call had given up waiting: it returned Cancelled or Closed. */
  lemma OvertakenHadGivenUp(s: State, i: nat, j: nat)
    requires Reachable(s) && i < j < |s.log|
    requires var a, b := s.log[j].frame, s.log[i].frame;
             a in s.calls && b in s.calls && a < b && s.calls[a].owner == s.calls[b].owner
    ensures var pc := s.calls[s.log[j].frame].pc; pc == Returned(Cancelled) || pc == Returned(Closed)
  {
    assert CallsInv(s) && OrderInv(s) && LanesInv(s) && LogInv(s) by { ReachableInv(s); }
    var a, b := s.log[j].frame, s.log[i].frame;
    EarlierHasReturned(s, a, b);
    assert !PrecedesInProgram(s, a, b);
    assert Attempted(s, a);
    assert s.calls[a].pc != Returned(QueueFull) by {
      if s.calls[a].pc == Returned(QueueFull) { UnsentIsNotWritten(s, a); }
    }
    OtherResult(s.calls[a].pc);
  }

  lemma OtherResult(pc: CallerPC)
    requires pc.Returned? && pc != Returned(Sent) && pc != Returned(WriteFailed) && pc != Returned(QueueFull)
    ensures pc == Returned(Cancelled) || pc == Returned(Closed)
  {
    match pc.result
    case Cancelled =>
    case Closed =>
    case _ =>
  }

  lemma EarlierHasReturned(s: State, a: FrameId, b: FrameId)
    requires CallsInv(s) && a in s.calls && b in s.calls && a < b && s.calls[a].owner == s.calls[b].owner
    ensures s.calls[a].pc.Returned?
  {
  }

  ghost predicate IsConfirmed(s: State, g: Goroutine, f: FrameId) {
    f in s.calls && s.calls[f].owner == g && s.calls[f].pc == Returned(Sent)
  }

  /** The frames among the first n writes whose calls by goroutine g returned nil, in log order. */
  ghost function Confirmed(s: State, g: Goroutine, n: nat): seq<FrameId>
    requires n <= |s.log|
  {
    if n == 0 then []
    else
      var f := s.log[n - 1].frame;
      Confirmed(s, g, n - 1) + (if IsConfirmed(s, g, f) then [f] else [])
  }

  ghost predicate LoggedBefore(s: State, n: nat, f: FrameId)
    requires n <= |s.log|
  {
    exists i :: 0 <= i < n && s.log[i].frame == f
  }

  lemma {:induction false} ConfirmedMembers(s: State, g: Goroutine, n: nat, f: FrameId)
    requires n <= |s.log|
    ensures f in Confirmed(s, g, n) <==> LoggedBefore(s, n, f) && IsConfirmed(s, g, f)
  {
    if n > 0 {
      ConfirmedMembers(s, g, n - 1, f);
      assert LoggedBefore(s, n, f) <==> LoggedBefore(s, n - 1, f) || f == s.log[n - 1].frame;
    }
  }

  ghost predicate Ascending(c: seq<FrameId>) {
    forall i, j :: 0 <= i < j < |c| ==> c[i] < c[j]
  }

  lemma {:induction false} ConfirmedIsSorted(s: State, g: Goroutine, n: nat)
    requires LogInv(s) && OrderInv(s) && n <= |s.log|
    ensures Ascending(Confirmed(s, g, n))
  {
    if n > 0 {
      ConfirmedIsSorted(s, g, n - 1);
      var rest, f := Confirmed(s, g, n - 1), s.log[n - 1].frame;
      if IsConfirmed(s, g, f) {
        forall r | r in rest ensures r < f {
          ConfirmedMembers(s, g, n - 1, r);
          var i :| 0 <= i < n - 1 && s.log[i].frame == r;
          assert s.log[n - 1].frame != s.log[i].frame;
          assert !PrecedesInProgram(s, f, r);
        }
        assert Ascending(rest + [f]) by {
          assert forall i :: 0 <= i < |rest| ==> rest[i] in rest;
        }
      } else {
        assert rest + [] == rest;
      }
    }
  }

  /** Read in log order, the confirmed frames of one goroutine are exactly its
      calls that returned nil, in the order in which it made them. */
  lemma CrossLaneProgramOrder(s: State, g: Goroutine)
    requires Reachable(s)
    ensures Ascending(Confirmed(s, g, |s.log|))
    ensures forall f :: f in Confirmed(s, g, |s.log|) <==> IsConfirmed(s, g, f)
  {
    ReachableInv(s);
    ConfirmedIsSorted(s, g, |s.log|);
    forall f ensures f in Confirmed(s, g, |s.log|) <==> IsConfirmed(s, g, f) {
      ConfirmedMembers(s, g, |s.log|, f);
      if IsConfirmed(s, g, f) {
        var i :| 0 <= i < |s.log| && s.log[i] == Attempt(f, true);
      }
    }
  }
}
