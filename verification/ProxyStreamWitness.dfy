/** A reachable run in which the browser sees a normal end of a response with a
    chunk missing: the queue overflows once, the handler's select keeps choosing
    `chunks` over `errors`, and the end marker finds room. */
module ProxyStreamWitness {
  import opened ProxyStream

  ghost predicate Leads(run: seq<Event>, s: State) {
    ValidRun(Init(), run) && After(Init(), run) == s
  }

  lemma {:induction false} RunSnoc(s: State, run: seq<Event>, e: Event)
    requires ValidRun(s, run) && Enabled(After(s, run), e)
    ensures ValidRun(s, run + [e]) && After(s, run + [e]) == Next(After(s, run), e)
    decreases |run|
  {
    if run == [] {
      assert [e][1..] == [] && [] + [e] == [e];
    } else {
      assert (run + [e])[1..] == run[1..] + [e];
      RunSnoc(Next(s, run[0]), run[1..], e);
    }
  }

  lemma Step(s: State, e: Event) returns (t: State)
    requires Reachable(s) && Enabled(s, e)
    ensures Reachable(t) && t == Next(s, e)
  {
    var run :| ValidRun(Init(), run) && After(Init(), run) == s;
    RunSnoc(Init(), run, e);
    t := Next(s, e);
    assert Leads(run + [e], t);
  }

  lemma Receive(s: State, m: Message) returns (t: State)
    requires Reachable(s) && s.registered && s.reader == []
    ensures Reachable(t) && t == HandleMessage(s, m)
  {
    t := Step(s, Lookup(m));
    t := Step(t, Handle);
    assert t == HandleMessage(s, m);
  }

  const PLAIN: Chunk := Chunk([1], false)

  /** The handler is streaming, the queue holds n plain chunks, and no final chunk has been sent. */
  ghost predicate Queued(s: State, n: nat) {
    && Reachable(s) && s.registered && s.reader == [] && s.handler.Streaming?
    && |s.queues.chunks| == n && (forall i :: 0 <= i < n ==> s.queues.chunks[i] == PLAIN)
    && (forall i :: 0 <= i < |s.offered| ==> !s.offered[i].final)
  }

  lemma StartStreaming() returns (s: State)
    ensures Queued(s, 0)
  {
    assert ValidRun(Init(), []) && After(Init(), []) == Init();
    s := Step(Init(), RequestSent(true));
    s := Receive(s, Head(Header(false)));
    s := Step(s, TakeHeader(true));
  }

  lemma {:induction false} FillQueue(s0: State, n: nat) returns (s: State)
    requires n <= CHUNK_QUEUE && Queued(s0, n)
    ensures Queued(s, CHUNK_QUEUE)
    decreases CHUNK_QUEUE - n
  {
    if n == CHUNK_QUEUE {
      s := s0;
    } else {
      s := Receive(s0, Body(PLAIN));
      s := FillQueue(s, n + 1);
    }
  }

  /** The next chunk is dropped; then the handler takes a queued one although an error is waiting. */
  lemma DropOneTakeOne(s0: State) returns (s: State, i: nat)
    requires Queued(s0, CHUNK_QUEUE)
    ensures Queued(s, CHUNK_QUEUE - 1) && i < |s.offered| == |s.kept| && !s.kept[i] && s.offered[i].data != []
  {
    ReachableInv(s0);
    i := |s0.offered|;
    s := Receive(s0, Body(Chunk([2], false)));
    s := Step(s, TakeChunk);
    s := Step(s, WriteDone(true));
  }

  /** The queue ends in the end marker, after plain chunks only. */
  ghost predicate Closing(s: State, n: nat) {
    && Reachable(s) && s.handler.Streaming? && |s.queues.chunks| == n + 1
    && (forall j :: 0 <= j < n ==> s.queues.chunks[j] == PLAIN) && s.queues.chunks[n] == Chunk([], true)
  }

  /** Writing out the queue up to the end marker ends the response normally. */
  lemma {:induction false} WriteOut(s0: State, n: nat) returns (s: State)
    requires Closing(s0, n)
    ensures Reachable(s) && s.handler == Finished(Complete) && s.offered == s0.offered && s.kept == s0.kept
    decreases n
  {
    s := Step(s0, TakeChunk);
    if n > 0 {
      s := Step(s, WriteDone(true));
      s := WriteOut(s, n - 1);
    }
  }

  /** A response can end normally for the browser although a chunk before its end
      was dropped: the bytes written are not the bytes sent up to that end. */
  lemma HoleIsReachable()
    ensures exists s, n: nat ::
              Reachable(s) && s.handler == Finished(Complete) && StoppedAt(s, n) && s.written != Concat(s.offered[..n])
  {
    var s := StartStreaming();
    s := FillQueue(s, 0);
    var i;
    s, i := DropOneTakeOne(s);
    ReachableInv(s);
    var m := |s.offered|;
    ghost var before := s;
    s := Receive(s, End(false));
    assert s.kept == before.kept + [true];
    assert Closing(s, CHUNK_QUEUE - 1);
    s := WriteOut(s, CHUNK_QUEUE - 1);
    CompleteIsExactIff(s);
    var n: nat :| StoppedAt(s, n);
    assert forall j :: 0 <= j < m ==> s.offered[j] == before.offered[j];
    assert n == m + 1 && !s.kept[i];
    assert s.offered[i] == before.offered[i];
    assert !NoBytesDropped(s, n);
    assert !ExactUpTo(s, n);
  }
}
