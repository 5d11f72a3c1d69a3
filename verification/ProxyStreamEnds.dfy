/** How a stream may end, told from the messages the agent sent: a normal end needs a
    normal end message, a failed one is reported, and only an accepted header starts
    a stream at all. */
module ProxyStreamEnds {
  import opened ProxyStream

  // ---- a normal end ----

  /** The agent ends the body: an end message without an error, or a chunk with the final flag. */
  predicate IsNormalEnd(m: Message) {
    m == End(false) || (m.Body? && m.chunk.final)
  }

  ghost predicate Received(run: seq<Event>, m: Message) {
    exists i :: 0 <= i < |run| && run[i] == Lookup(m)
  }

  lemma LaterReceived(run: seq<Event>, m: Message)
    ensures run != [] && Received(run[1..], m) ==> Received(run, m)
  {
    assert forall i :: 1 <= i < |run| ==> run[i] == run[1..][i - 1];
  }

  /** No normal end is on its way to the handler. */
  ghost predicate NoEndComing(s: State) {
    && (forall i :: 0 <= i < |s.reader| ==> !IsNormalEnd(s.reader[i]))
    && (forall i :: 0 <= i < |s.queues.chunks| ==> !s.queues.chunks[i].final)
    && (s.handler.Writing? ==> !s.handler.chunk.final)
    && s.handler != Finished(Complete)
  }

  lemma StepNoEndComing(s: State, e: Event)
    requires NoEndComing(s) && Enabled(s, e) && (e.Lookup? ==> !IsNormalEnd(e.m))
    ensures NoEndComing(Next(s, e))
  {
    if e.Handle? { assert !IsNormalEnd(s.reader[0]); }
  }

  lemma {:induction false} RunNoEndComing(s: State, run: seq<Event>)
    requires NoEndComing(s) && ValidRun(s, run)
    requires forall m :: Received(run, m) ==> !IsNormalEnd(m)
    ensures NoEndComing(After(s, run))
    decreases |run|
  {
    if run != [] {
      if run[0].Lookup? { assert Received(run, run[0].m); }
      StepNoEndComing(s, run[0]);
      forall m | Received(run[1..], m) ensures Received(run, m) { LaterReceived(run, m); }
      RunNoEndComing(Next(s, run[0]), run[1..]);
    }
  }

  /** A response ends normally for the browser only if the agent sent a normal end; in
      particular one whose only end message carries an error never does. */
  lemma CompleteNeedsNormalEnd(run: seq<Event>)
    requires ValidRun(Init(), run) && After(Init(), run).handler == Finished(Complete)
    ensures exists m :: Received(run, m) && IsNormalEnd(m)
  {
    if forall m :: Received(run, m) ==> !IsNormalEnd(m) {
      RunNoEndComing(Init(), run);
    }
  }

  // ---- a failed end ----

  ghost predicate ErrorOnRecord(s: State) {
    s.handler.Finished? || s.queues.errors != []
  }

  lemma {:induction false} ErrorStaysOnRecord(s: State, run: seq<Event>)
    requires ErrorOnRecord(s) && ValidRun(s, run)
    ensures ErrorOnRecord(After(s, run))
    decreases |run|
  {
    if run != [] {
      ErrorStaysOnRecord(Next(s, run[0]), run[1..]);
    }
  }

  /** Once an end message with an error has been handled, the error is on record until
      the handler is done. */
  lemma FailedEndIsReported(s: State, run: seq<Event>)
    requires s.reader == [End(true)] && ValidRun(Next(s, Handle), run)
    ensures ErrorOnRecord(After(Next(s, Handle), run))
  {
    ErrorStaysOnRecord(Next(s, Handle), run);
  }

  /** Taking an error ends the response: aborted if its header is out, as an error
      response otherwise. */
  lemma ErrorEndsResponse(s: State)
    requires Enabled(s, TakeError)
    ensures Next(s, TakeError).handler == Finished(if s.handler.Streaming? then Aborted else NotStreamed)
    ensures Next(s, TakeError).written == s.written
  {
  }

  /** The first error stays, whatever fails afterwards; a second header is an error and
      does not replace the first; a chunk without room is an error and changes no chunk. */
  lemma FirstErrorStays(q: Queues, r: Reason, h: Header, c: Chunk)
    requires q.Bounded()
    ensures q.errors != [] ==> Fail(q, r) == q
    ensures q.errors == [] ==> Fail(q, r) == q.(errors := [r])
    ensures q.headers != [] ==> DeliverHeader(q, h) == Fail(q, DuplicateHeader)
    ensures q.headers == [] ==> DeliverHeader(q, h) == q.(headers := [h])
    ensures |q.chunks| == 8 ==> DeliverChunk(q, c) == Fail(q, Overflow)
    ensures |q.chunks| < 8 ==> DeliverChunk(q, c) == q.(chunks := q.chunks + [c])
  {
  }

  // ---- the start ----

  /** The header has not come, or nothing but refusals. */
  ghost predicate NothingAccepted(s: State) {
    && (forall i :: 0 <= i < |s.reader| ==> s.reader[i].Head? ==> s.reader[i].header.refused)
    && (forall i :: 0 <= i < |s.queues.headers| ==> s.queues.headers[i].refused)
    && (s.handler.Requesting? || s.handler.AwaitingHeader? || s.handler == Finished(NotStreamed))
    && s.written == []
  }

  lemma StepNothingAccepted(s: State, e: Event)
    requires NothingAccepted(s) && Enabled(s, e) && e != Lookup(Head(Header(false)))
    ensures NothingAccepted(Next(s, e))
  {
    if e.Handle? && s.reader[0].Head? { assert s.reader[0].header.refused; }
  }

  lemma {:induction false} RunNothingAccepted(s: State, run: seq<Event>)
    requires NothingAccepted(s) && ValidRun(s, run) && !Received(run, Head(Header(false)))
    ensures NothingAccepted(After(s, run))
    decreases |run|
  {
    if run != [] {
      assert run[0] != Lookup(Head(Header(false)));
      StepNothingAccepted(s, run[0]);
      LaterReceived(run, Head(Header(false)));
      RunNothingAccepted(Next(s, run[0]), run[1..]);
    }
  }

  /** Without a header that is no refusal nothing is streamed and nothing written. */
  lemma RefusedNeverStreams(run: seq<Event>)
    requires ValidRun(Init(), run) && !Received(run, Head(Header(false)))
    ensures var s := After(Init(), run);
            && (s.handler.Requesting? || s.handler.AwaitingHeader? || s.handler == Finished(NotStreamed))
            && s.written == []
  {
    RunNothingAccepted(Init(), run);
  }

  /** A header starts the stream exactly if it is no refusal and a stream was asked for. */
  lemma HeaderStartsStream(s: State, stream: bool)
    requires Enabled(s, TakeHeader(stream))
    ensures Next(s, TakeHeader(stream)).handler ==
            if stream && !s.queues.headers[0].refused then Streaming else Finished(NotStreamed)
  {
  }

  /** A request that could not be sent waits for no response. */
  lemma UnsentEnds(s: State, ok: bool)
    requires Enabled(s, RequestSent(ok))
    ensures Next(s, RequestSent(ok)).handler == if ok then AwaitingHeader else Finished(NotStreamed)
  {
  }

  // ---- after the handler ----

  lemma {:induction false} RegisteredRun(s: State, run: seq<Event>)
    requires (s.registered || s.handler.Finished?) && ValidRun(s, run)
    ensures After(s, run).registered || After(s, run).handler.Finished?
    decreases |run|
  {
    if run != [] {
      RegisteredRun(Next(s, run[0]), run[1..]);
    }
  }

  /** The stream stays in the map until its handler is done. */
  lemma RegisteredWhileServed(run: seq<Event>)
    requires ValidRun(Init(), run)
    ensures After(Init(), run).registered || After(Init(), run).handler.Finished?
  {
    RegisteredRun(Init(), run);
  }

  /** Once the handler has taken the stream out of the map, and the message the reader
      had looked up before is handled, nothing is offered to it any more. */
  lemma {:induction false} UnregisteredGetsNothing(s: State, run: seq<Event>)
    requires !s.registered && s.reader == [] && ValidRun(s, run)
    ensures After(s, run).offered == s.offered && After(s, run).reader == []
    decreases |run|
  {
    if run != [] {
      UnregisteredGetsNothing(Next(s, run[0]), run[1..]);
    }
  }
}
