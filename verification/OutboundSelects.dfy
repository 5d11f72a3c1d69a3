/** The two selects of `enqueue`, told from the lanes, the context and the stop
    channel: which steps a caller has in every reachable state, what they do, and when
    in a run a call is answered that its lane is full. */
module OutboundSelects {
  import opened Options
  import opened OutboundModel
  import opened OutboundInvariants

  function QueuedWith(s: State, f: FrameId): seq<FrameId>
    requires f in s.calls
  {
    s.lanes.Get(s.calls[f].lane).queued
  }

  lemma LaneIsBounded(s: State, p: Priority)
    requires Reachable(s)
    ensures |s.lanes.Get(p).queued| <= 64
  {
    assert LaneInv(s.lanes.Get(p)) by { ReachableInv(s); }
  }

  /** The first select: the send exactly while the lane holds fewer than 64 frames, a
      refusal exactly if the context is done or the scheduler closed, and "queue is
      full" exactly if none of these. So a caller there is never blocked. */
  lemma FirstSelect(s: State, f: FrameId)
    requires Reachable(s) && At(s, f, Sending)
    ensures Enabled(s, SendFrame(f)) <==> |QueuedWith(s, f)| < 64
    ensures Enabled(s, GiveUp(f, Cancelled)) <==> s.calls[f].cancelled
    ensures Enabled(s, GiveUp(f, Closed)) <==> s.stopClosed
    ensures Enabled(s, GiveUp(f, QueueFull)) <==>
            |QueuedWith(s, f)| == 64 && !s.calls[f].cancelled && !s.stopClosed
    ensures !Enabled(s, GiveUp(f, Sent)) && !Enabled(s, GiveUp(f, WriteFailed)) && !Enabled(s, ReceiveDone(f))
    ensures || Enabled(s, SendFrame(f)) || Enabled(s, GiveUp(f, Cancelled))
            || Enabled(s, GiveUp(f, Closed)) || Enabled(s, GiveUp(f, QueueFull))
  {
    LaneIsBounded(s, s.calls[f].lane);
  }

  /** The second select: what came on `done`, a context that is done, a closed
      scheduler; never "queue is full", and never nothing once one of them holds. */
  lemma SecondSelect(s: State, f: FrameId)
    requires At(s, f, Awaiting)
    ensures Enabled(s, ReceiveDone(f)) <==> s.calls[f].slot.Some?
    ensures Enabled(s, GiveUp(f, Cancelled)) <==> s.calls[f].cancelled
    ensures Enabled(s, GiveUp(f, Closed)) <==> s.stopClosed
    ensures !Enabled(s, GiveUp(f, QueueFull)) && !Enabled(s, GiveUp(f, Sent)) && !Enabled(s, GiveUp(f, WriteFailed))
    ensures !Enabled(s, SendFrame(f))
  {
  }

  /** What the steps of a select do: the send puts the frame at the back of its lane
      and of no other, every other step returns the reason and leaves all lanes alone. */
  lemma SelectEffects(s: State, f: FrameId, why: Result)
    requires f in s.calls
    ensures Enabled(s, SendFrame(f)) ==>
              && Next(s, SendFrame(f)).calls[f].pc == Counting
              && forall p :: Next(s, SendFrame(f)).lanes.Get(p).queued ==
                   if p == s.calls[f].lane then s.lanes.Get(p).queued + [f] else s.lanes.Get(p).queued
    ensures Enabled(s, GiveUp(f, why)) ==>
              Next(s, GiveUp(f, why)).calls[f].pc == Returned(why) && Next(s, GiveUp(f, why)).lanes == s.lanes
  {
  }

  /** A call that finds `stopped` set is answered at once; otherwise it goes on to send. */
  lemma StoppedIsChecked(s: State, f: FrameId)
    requires At(s, f, Checking)
    ensures Next(s, LoadStopped(f)).calls[f].pc == if s.stopped then Returned(Closed) else Sending
  {
  }

  /** In every run, a call is answered that its lane is full only when that lane holds
      64 frames, the call's context is not done and the scheduler is not closed. */
  lemma QueueFullOnlyWhenFull(run: seq<Event>, i: nat, f: FrameId)
    requires ValidRun(Init(), run) && i < |run| && run[i] == GiveUp(f, QueueFull)
    ensures ValidRun(Init(), run[..i])
    ensures var s := After(Init(), run[..i]);
            f in s.calls && |QueuedWith(s, f)| == 64 && !s.calls[f].cancelled && !s.stopClosed
  {
    RunCut(run, i);
    var s := After(Init(), run[..i]);
    assert Reachable(s);
    if s.calls[f].pc.Awaiting? {
      SecondSelect(s, f);
    } else {
      FirstSelect(s, f);
    }
  }
}
