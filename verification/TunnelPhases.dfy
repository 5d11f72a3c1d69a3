/** How a tunnel comes to life and ends, and when a message for it is dropped, told
    from the messages themselves. */
module TunnelPhases {
  import opened Options
  import opened Tunnels

  /** The tunnel is not live and never will be again. */
  predicate Over(p: Phase) {
    p == Judged(false) || p.Returning? || p.Unregistered? || p.Closed?
  }

  /** A tunnel that is on its way or live ends exactly by an open message that could not
      be written, the timer, a first message that is no successful open result, a close
      from the agent, a frame the browser does not take, or the browser's side leaving. */
  lemma EndsExactlyWhen(s: State, e: Event, id: Id)
    requires Enabled(s, e) && id in s.tunnels && id != s.nextId && !Over(s.tunnels[id].phase)
    ensures id in Next(s, e).tunnels
    ensures var q := s.tunnels[id].queue;
            Over(Next(s, e).tunnels[id].phase) <==>
            || e == OpenWritten(id, false) || e == OpenTimeout(id) || e == Leave(id)
            || (e == TakeResult(id) && q[0] != OpenResult(true))
            || (e.TakeMessage? && e.id == id && (q[0] == Close || (q[0].Frame? && !e.writeOk)))
  {
  }

  lemma {:induction false} OverStays(s: State, run: seq<Event>, id: Id)
    requires ValidRun(s, run) && id in s.tunnels && id < s.nextId && Over(s.tunnels[id].phase)
    ensures id in After(s, run).tunnels && Over(After(s, run).tunnels[id].phase)
    decreases |run|
  {
    if run != [] {
      OverStays(Next(s, run[0]), run[1..], id);
    }
  }

  /** The first message being a successful open result makes the tunnel live, and is
      counted; any other is counted as a failure and the tunnel returns. */
  lemma OpenResultDecides(s: State, id: Id)
    requires At(s, id, Awaiting) && s.tunnels[id].queue != []
    ensures var judged := Next(s, TakeResult(id));
            && Enabled(s, TakeResult(id)) && Enabled(judged, CountOutcome(id))
            && var t := Next(judged, CountOutcome(id));
            && judged.tunnels[id].consumed == s.tunnels[id].consumed + [s.tunnels[id].queue[0]]
            && if s.tunnels[id].queue[0] == OpenResult(true)
               then t.tunnels[id].phase == Live && t.openAcked == s.openAcked + 1 && t.openFailed == s.openFailed
               else t.tunnels[id].phase == Returning && t.openAcked == s.openAcked && t.openFailed == s.openFailed + 1
  {
  }

  /** The way to the open result: accepted, registered, counted, written. */
  lemma OpeningSteps(s: State, id: Id)
    ensures At(s, id, Accepted) ==> At(Next(s, Register(id)), id, Registered)
    ensures At(s, id, Registered) ==>
              At(Next(s, CountSent(id)), id, Sending) && Next(s, CountSent(id)).openSent == s.openSent + 1
    ensures At(s, id, Sending) ==> At(Next(s, OpenWritten(id, true)), id, Awaiting)
    ensures At(s, id, Returning) ==> At(Next(s, Unregister(id)), id, Unregistered)
    ensures At(s, id, Unregistered) ==>
              At(Next(s, CountClosed(id)), id, Closed) && Next(s, CountClosed(id)).closed == s.closed + 1
  {
  }

  /** Once a live tunnel has received a close, it is never live again. */
  lemma CloseEndsTunnel(s: State, id: Id, ok: bool, run: seq<Event>)
    requires At(s, id, Live) && id < s.nextId && s.tunnels[id].queue != [] && s.tunnels[id].queue[0] == Close
    requires ValidRun(Next(s, TakeMessage(id, ok)), run)
    ensures var t := After(Next(s, TakeMessage(id, ok)), run);
            id in t.tunnels && !t.tunnels[id].phase.Live?
  {
    EndsExactlyWhen(s, TakeMessage(id, ok), id);
    OverStays(Next(s, TakeMessage(id, ok)), run, id);
  }

  /** The reader finds a tunnel exactly between its registration and its removal. */
  lemma FoundWhileRegistered(s: State, id: Id, m: Message)
    requires s.reader.None?
    ensures Next(s, Lookup(id, m)).reader ==
            if id in s.tunnels && !s.tunnels[id].phase.Accepted? && !s.tunnels[id].phase.Unregistered?
                 && !s.tunnels[id].phase.Closed?
            then Some((id, m)) else None
  {
  }

  /** A message is dropped, and counted, exactly if 32 are queued; otherwise it goes to
      the back of that tunnel's queue. No other tunnel notices. */
  lemma DroppedExactlyWhenFull(run: seq<Event>)
    requires ValidRun(Init(), run) && Enabled(After(Init(), run), Dispatch)
    ensures var s := After(Init(), run);
            var t, id, m := Next(s, Dispatch), s.reader.value.0, s.reader.value.1;
            var q := s.tunnels[id].queue;
            && |q| <= 32
            && (|q| == 32 ==> t.tunnels[id].queue == q && t.dropped == s.dropped + 1)
            && (|q| < 32 ==> t.tunnels[id].queue == q + [m] && t.dropped == s.dropped)
            && t.tunnels[id].phase == s.tunnels[id].phase
            && forall other :: other in s.tunnels && other != id ==> t.tunnels[other] == s.tunnels[other]
  {
    assert Inv(After(Init(), run)) by {
      InitInv();
      RunInv(Init(), run);
    }
    DispatchOnce(After(Init(), run));
  }

  lemma DispatchOnce(s: State)
    requires Inv(s) && Enabled(s, Dispatch)
    ensures var t, id, m := Next(s, Dispatch), s.reader.value.0, s.reader.value.1;
            var q := s.tunnels[id].queue;
            && |q| <= 32
            && (|q| == 32 ==> t.tunnels[id].queue == q && t.dropped == s.dropped + 1)
            && (|q| < 32 ==> t.tunnels[id].queue == q + [m] && t.dropped == s.dropped)
            && t.tunnels[id].phase == s.tunnels[id].phase
            && forall other :: other in s.tunnels && other != id ==> t.tunnels[other] == s.tunnels[other]
  {
    assert ChannelInv(s.tunnels[s.reader.value.0]);
  }
}
