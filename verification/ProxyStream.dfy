/** One streamed proxy response: the bounded channels between the single reader of
    the agent connection and the handler that writes to the browser. */
module ProxyStream {
  import opened Histories

  type Bytes = seq<bv8>

  datatype Chunk = Chunk(data: Bytes, final: bool)

  /** Only the error field of a header decides how the handler goes on. */
  datatype Header = Header(refused: bool)

  datatype Reason = Upstream | DuplicateHeader | Overflow

  const CHUNK_QUEUE: nat := 8

  /** The three channels of a stream. */
  datatype Queues = Queues(headers: seq<Header>, chunks: seq<Chunk>, errors: seq<Reason>) {
    predicate Bounded() {
      |headers| <= 1 && |chunks| <= CHUNK_QUEUE && |errors| <= 1
    }
  }

  function Fail(q: Queues, r: Reason): Queues {
    if |q.errors| < 1 then q.(errors := q.errors + [r]) else q
  }

  function DeliverHeader(q: Queues, h: Header): Queues {
    if |q.headers| < 1 then q.(headers := q.headers + [h]) else Fail(q, DuplicateHeader)
  }

  predicate HasRoom(q: Queues) {
    |q.chunks| < CHUNK_QUEUE
  }

  function DeliverChunk(q: Queues, c: Chunk): Queues {
    if HasRoom(q) then q.(chunks := q.chunks + [c]) else Fail(q, Overflow)
  }

  /** The stream object; its methods never wait, whatever the browser does. */
  class Stream {
    var queues: Queues

    constructor ()
      ensures queues == Queues([], [], []) && queues.Bounded()
    {
      queues := Queues([], [], []);
    }

    method FailWith(r: Reason)
      requires queues.Bounded()
      modifies this
      ensures queues == Fail(old(queues), r) && queues.Bounded() && queues.errors != []
      ensures queues.errors == if old(queues).errors == [] then [r] else old(queues).errors
    {
      if |queues.errors| < 1 { queues := queues.(errors := queues.errors + [r]); }
    }

    method PutHeader(h: Header)
      requires queues.Bounded()
      modifies this
      ensures queues == DeliverHeader(old(queues), h) && queues.Bounded()
      ensures queues.headers == if old(queues).headers == [] then [h] else old(queues).headers
      ensures old(queues).headers != [] ==> queues.errors != []
    {
      if |queues.headers| < 1 {
        queues := queues.(headers := queues.headers + [h]);
      } else {
        FailWith(DuplicateHeader);
      }
    }

    method PutChunk(c: Chunk) returns (ok: bool)
      requires queues.Bounded()
      modifies this
      ensures queues == DeliverChunk(old(queues), c) && queues.Bounded()
      ensures ok <==> |old(queues).chunks| < 8
      ensures if ok then queues.chunks == old(queues).chunks + [c]
              else queues.chunks == old(queues).chunks && queues.errors != []
    {
      if |queues.chunks| < CHUNK_QUEUE {
        queues := queues.(chunks := queues.chunks + [c]);
        return true;
      }
      FailWith(Overflow);
      return false;
    }
  }

  // ---- the interleaving of reader and handler ----

  datatype Message = Head(header: Header) | Body(chunk: Chunk) | End(failed: bool)

  datatype Ending = Complete | Aborted | ClientGone | WriteFailed | NotStreamed

  datatype Handler =
    | Requesting
    | AwaitingHeader
    | Streaming
    | Writing(chunk: Chunk)
    | Finished(how: Ending)

  datatype State = State(
    queues: Queues,
    registered: bool,           // the stream is in the pending map
    reader: seq<Message>,       // the message being handled, if any, after the map lookup
    handler: Handler,
    overflows: nat,
    // history
    offered: seq<Chunk>,        // chunks passed to deliverChunk
    kept: seq<bool>,            // what deliverChunk returned for each
    consumed: seq<Chunk>,       // chunks the handler received
    written: Bytes,             // body bytes written to the browser
    ended: bool                 // an end message or final chunk has been handled
  )

  function Init(): State {
    State(Queues([], [], []), true, [], Requesting, 0, [], [], [], [], false)
  }

  datatype Event =
    // the reader of the agent connection
    | Lookup(m: Message)
    | Handle
    // the handler of the browser's request
    | RequestSent(ok: bool)
    | TakeHeader(stream: bool)
    | TakeChunk
    | WriteDone(ok: bool)
    | TakeError
    | GiveUp         // client gone, or timeout while waiting for the header
    | Unregister

  predicate Enabled(s: State, e: Event) {
    match e
    case Lookup(_) => s.reader == []
    case Handle => s.reader != []
    case RequestSent(_) => s.handler.Requesting?
    case TakeHeader(_) => s.handler.AwaitingHeader? && s.queues.headers != []
    case TakeChunk => s.handler.Streaming? && s.queues.chunks != []
    case WriteDone(_) => s.handler.Writing?
    case TakeError => (s.handler.AwaitingHeader? || s.handler.Streaming?) && s.queues.errors != []
    case GiveUp => s.handler.AwaitingHeader? || s.handler.Streaming?
    case Unregister => s.handler.Finished? && s.registered
  }

  function AfterChunk(c: Chunk): Handler {
    if c.final then Finished(Complete) else Streaming
  }

  function Offer(s: State, c: Chunk): State {
    s.(queues := DeliverChunk(s.queues, c),
       offered := s.offered + [c],
       kept := s.kept + [HasRoom(s.queues)],
       overflows := if HasRoom(s.queues) then s.overflows else s.overflows + 1,
       ended := s.ended || c.final)
  }

  function HandleMessage(s: State, m: Message): State {
    match m
    case Head(h) => s.(queues := DeliverHeader(s.queues, h))
    case Body(c) => Offer(s, c)
    case End(failed) =>
      if failed then s.(queues := Fail(s.queues, Upstream), ended := true) else Offer(s, Chunk([], true))
  }

  function Next(s: State, e: Event): State
    requires Enabled(s, e)
  {
    match e
    case Lookup(m) => if s.registered then s.(reader := [m]) else s
    case Handle => HandleMessage(s, s.reader[0]).(reader := [])
    case RequestSent(ok) => s.(handler := if ok then AwaitingHeader else Finished(NotStreamed))
    case TakeHeader(stream) =>
      s.(queues := s.queues.(headers := s.queues.headers[1..]),
         handler := if stream && !s.queues.headers[0].refused then Streaming else Finished(NotStreamed))
    case TakeChunk =>
      var c := s.queues.chunks[0];
      s.(queues := s.queues.(chunks := s.queues.chunks[1..]),
         consumed := s.consumed + [c],
         handler := if |c.data| > 0 then Writing(c) else AfterChunk(c))
    case WriteDone(ok) =>
      if ok then s.(written := s.written + s.handler.chunk.data, handler := AfterChunk(s.handler.chunk))
      else s.(handler := Finished(WriteFailed))
    case TakeError =>
      s.(queues := s.queues.(errors := s.queues.errors[1..]),
         handler := Finished(if s.handler.Streaming? then Aborted else NotStreamed))
    case GiveUp => s.(handler := Finished(if s.handler.Streaming? then ClientGone else NotStreamed))
    case Unregister => s.(registered := false)
  }

  predicate ValidRun(s: State, run: seq<Event>)
    decreases |run|
  {
    run == [] || (Enabled(s, run[0]) && ValidRun(Next(s, run[0]), run[1..]))
  }

  function After(s: State, run: seq<Event>): State
    requires ValidRun(s, run)
    decreases |run|
  {
    if run == [] then s else After(Next(s, run[0]), run[1..])
  }

  ghost predicate Reachable(s: State) {
    exists run :: ValidRun(Init(), run) && After(Init(), run) == s
  }

  // ---- what the invariant is about ----

  function Concat(chunks: seq<Chunk>): Bytes {
    if chunks == [] then [] else Concat(chunks[..|chunks| - 1]) + chunks[|chunks| - 1].data
  }

  ghost predicate Dropped(s: State) {
    exists i :: 0 <= i < |s.kept| && !s.kept[i]
  }

  predicate HasFinal(q: Queues) {
    exists i :: 0 <= i < |q.chunks| && q.chunks[i].final
  }

  /** What the handler received is what was kept, less what is still queued. */
  ghost predicate QueueInv(s: State) {
    s.queues.Bounded() && |s.kept| == |s.offered| && Kept(s.offered, s.kept) == s.consumed + s.queues.chunks
    && s.overflows == Falses(s.kept)
  }

  /** The chunk a write has been started for and not completed. */
  predicate Unwritten(h: Handler) {
    h.Writing? || h == Finished(WriteFailed)
  }

  /** The browser has exactly the bytes of the received chunks, but for one whose write is open or failed. */
  predicate WrittenInv(s: State) {
    var n := |s.consumed|;
    && (Unwritten(s.handler) ==> n > 0 && s.written == Concat(s.consumed[..n - 1]))
    && (!Unwritten(s.handler) ==> s.written == Concat(s.consumed))
    && (s.handler.Writing? ==> s.consumed[n - 1] == s.handler.chunk)
  }

  /** A final chunk is the last thing received. */
  ghost predicate FinalInv(s: State) {
    && (forall i :: 0 <= i < |s.consumed| - 1 ==> !s.consumed[i].final)
    && (s.handler == Finished(Complete) ==> s.consumed != [] && s.consumed[|s.consumed| - 1].final)
    && (s.handler.Streaming? ==> forall i :: 0 <= i < |s.consumed| ==> !s.consumed[i].final)
    && (s.handler.Requesting? || s.handler.AwaitingHeader? ==> s.consumed == [])
  }

  /** The end of the stream reaches the handler, and no drop goes unreported. */
  ghost predicate EndInv(s: State) {
    && (s.ended ==> s.handler.Finished? || (s.handler.Writing? && s.handler.chunk.final) || HasFinal(s.queues)
                    || s.queues.errors != [])
    && (Dropped(s) ==> s.handler.Finished? || s.queues.errors != [])
    && (|s.reader| <= 1)
  }

  ghost predicate Inv(s: State) {
    QueueInv(s) && WrittenInv(s) && FinalInv(s) && EndInv(s)
  }

  lemma ConcatSnoc(chunks: seq<Chunk>, c: Chunk)
    ensures Concat(chunks + [c]) == Concat(chunks) + c.data
  {
    assert (chunks + [c])[..|chunks|] == chunks;
  }

  lemma OfferKeeps(s: State, c: Chunk)
    requires Inv(s)
    ensures Inv(Offer(s, c))
  {
    var t := Offer(s, c);
    KeptSnoc(s.offered, s.kept, c, HasRoom(s.queues));
    assert t.kept[..|s.kept|] == s.kept;
    if HasRoom(s.queues) {
      assert s.consumed + t.queues.chunks == (s.consumed + s.queues.chunks) + [c];
      FinalAdded(s.queues, c);
      assert Dropped(t) ==> Dropped(s);
    } else {
      assert Kept(s.offered, s.kept) + [] == Kept(s.offered, s.kept);
    }
  }

  lemma FinalAdded(q: Queues, c: Chunk)
    requires HasRoom(q)
    ensures HasFinal(DeliverChunk(q, c)) <==> HasFinal(q) || c.final
  {
    var more := DeliverChunk(q, c).chunks;
    assert more[|q.chunks|] == c;
    assert forall i :: 0 <= i < |q.chunks| ==> more[i] == q.chunks[i];
  }

  lemma TakeChunkWritten(s: State)
    requires WrittenInv(s) && Enabled(s, TakeChunk)
    ensures WrittenInv(Next(s, TakeChunk))
  {
    var t, c := Next(s, TakeChunk), s.queues.chunks[0];
    ConcatSnoc(s.consumed, c);
    assert t.consumed[..|s.consumed|] == s.consumed;
    assert |c.data| == 0 ==> Concat(s.consumed) + c.data == Concat(s.consumed);
  }

  lemma TakeChunkEnd(s: State)
    requires EndInv(s) && Enabled(s, TakeChunk)
    ensures EndInv(Next(s, TakeChunk))
  {
    var t, c := Next(s, TakeChunk), s.queues.chunks[0];
    if HasFinal(s.queues) && !c.final {
      var i :| 0 <= i < |s.queues.chunks| && s.queues.chunks[i].final;
      assert t.queues.chunks[i - 1].final;
    }
  }

  lemma TakeChunkKeeps(s: State)
    requires Inv(s) && Enabled(s, TakeChunk)
    ensures Inv(Next(s, TakeChunk))
  {
    var t := Next(s, TakeChunk);
    TakeChunkWritten(s);
    TakeChunkEnd(s);
    TakeChunkFinal(s);
    assert QueueInv(t) by {
      assert t.consumed + t.queues.chunks == s.consumed + s.queues.chunks;
    }
  }

  lemma TakeChunkFinal(s: State)
    requires FinalInv(s) && Enabled(s, TakeChunk)
    ensures FinalInv(Next(s, TakeChunk))
  {
  }

  lemma StepInv(s: State, e: Event)
    requires Inv(s) && Enabled(s, e)
    ensures Inv(Next(s, e))
  {
    match e {
      case Handle => HandleKeeps(s);
      case TakeChunk => TakeChunkKeeps(s);
      case WriteDone(ok) => WriteDoneKeeps(s, ok);
      case _ =>
    }
  }

  lemma WriteDoneKeeps(s: State, ok: bool)
    requires Inv(s) && Enabled(s, WriteDone(ok))
    ensures Inv(Next(s, WriteDone(ok)))
  {
    WriteDoneWritten(s, ok);
  }

  lemma WriteDoneWritten(s: State, ok: bool)
    requires WrittenInv(s) && Enabled(s, WriteDone(ok))
    ensures WrittenInv(Next(s, WriteDone(ok)))
  {
    var n := |s.consumed| - 1;
    assert s.consumed == s.consumed[..n] + [s.handler.chunk];
    ConcatSnoc(s.consumed[..n], s.handler.chunk);
  }

  lemma HandleKeeps(s: State)
    requires Inv(s) && s.reader != []
    ensures Inv(Next(s, Handle))
  {
    MessageKeeps(s, s.reader[0]);
    ReaderDone(HandleMessage(s, s.reader[0]));
  }

  lemma MessageKeeps(s: State, m: Message)
    requires Inv(s)
    ensures Inv(HandleMessage(s, m))
  {
    match m {
      case Body(c) => OfferKeeps(s, c);
      case End(failed) => if failed { FailKeeps(s, Upstream, true); } else { OfferKeeps(s, Chunk([], true)); }
      case Head(h) => if s.queues.headers != [] { FailKeeps(s, DuplicateHeader, s.ended); }
    }
  }

  lemma FailKeeps(s: State, r: Reason, ended: bool)
    requires Inv(s) && (s.ended ==> ended)
    ensures Inv(s.(queues := Fail(s.queues, r), ended := ended))
  {
  }

  lemma ReaderDone(s: State)
    requires Inv(s)
    ensures Inv(s.(reader := []))
  {
  }

  lemma {:induction false} RunInv(s: State, run: seq<Event>)
    requires Inv(s) && ValidRun(s, run)
    ensures Inv(After(s, run))
    decreases |run|
  {
    if run != [] {
      StepInv(s, run[0]);
      RunInv(Next(s, run[0]), run[1..]);
    }
  }

  lemma ReachableInv(s: State)
    requires Reachable(s)
    ensures Inv(s)
  {
    var run :| ValidRun(Init(), run) && After(Init(), run) == s;
    RunInv(Init(), run);
  }

  // ---- stream integrity ----

  /** What the handler receives is always an in-order subsequence of what the agent
      sent, and the browser has the bytes of all of it but for one open or failed write. */
  lemma ReceivedInOrder(s: State)
    requires Reachable(s)
    ensures Subsequence(s.consumed, s.offered)
    ensures s.written ==
            Concat(if Unwritten(s.handler) && s.consumed != [] then s.consumed[..|s.consumed| - 1] else s.consumed)
  {
    ReachableInv(s);
    KeptIsSubsequence(s.offered, s.kept, |s.consumed|);
    assert (s.consumed + s.queues.chunks)[..|s.consumed|] == s.consumed;
  }

  /** As long as no chunk has been dropped, the handler has a prefix of what the
      agent sent, and the browser the bytes of a prefix. */
  lemma PrefixWhileNothingDropped(s: State)
    requires Reachable(s) && !Dropped(s)
    ensures s.consumed <= s.offered
    ensures exists n :: 0 <= n <= |s.offered| && s.written == Concat(s.offered[..n])
  {
    ReachableInv(s);
    KeptLength(s.offered, s.kept);
    var n := if Unwritten(s.handler) then |s.consumed| - 1 else |s.consumed|;
    assert s.consumed == s.offered[..|s.consumed|];
    assert s.consumed[..n] == s.offered[..n] && s.consumed[..|s.consumed|] == s.consumed;
  }

  /** Chunk n - 1 of those sent is the final one the handler stopped at. */
  ghost predicate StoppedAt(s: State, n: nat) {
    && 0 < n <= |s.offered| && |s.kept| == |s.offered| && s.kept[n - 1]
    && s.consumed == Kept(s.offered[..n], s.kept[..n])
  }

  /** Leaving chunks out shortens the bytes, unless those left out are empty. */
  lemma {:induction false} KeptBytes(offered: seq<Chunk>, kept: seq<bool>)
    requires |offered| == |kept|
    ensures |Concat(Kept(offered, kept))| <= |Concat(offered)|
    ensures Concat(Kept(offered, kept)) == Concat(offered) <==>
            forall i :: 0 <= i < |kept| && !kept[i] ==> offered[i].data == []
    decreases |offered|
  {
    if offered != [] {
      var n := |offered| - 1;
      var o, k := offered[..n], kept[..n];
      KeptBytes(o, k);
      assert offered == o + [offered[n]];
      assert forall i :: 0 <= i < n ==> k[i] == kept[i] && o[i] == offered[i];
      assert Kept(offered, kept) == Kept(o, k) + (if kept[n] then [offered[n]] else []);
      assert Kept(o, k) + [] == Kept(o, k);
      ConcatSnoc(Kept(o, k), offered[n]);
      ConcatSnoc(o, offered[n]);
      LastBytes(Concat(Kept(o, k)), Concat(o), offered[n].data);
    }
  }

  lemma LastBytes(a: Bytes, b: Bytes, d: Bytes)
    ensures a + d == b + d <==> a == b
    ensures |a| <= |b| ==> (a == b + d <==> a == b && d == [])
  {
    if a + d == b + d {
      assert |a| == |b|;
      assert a == (a + d)[..|a|] == (b + d)[..|b|] == b;
    }
    if a == b + d { assert |a| == |b| + |d|; }
  }

  /** The body the browser has is the body the agent sent up to chunk n. */
  ghost predicate ExactUpTo(s: State, n: nat)
    requires n <= |s.offered|
  {
    s.written == Concat(s.offered[..n])
  }

  /** Every chunk before the n-th that deliverChunk returned false for was empty. */
  ghost predicate NoBytesDropped(s: State, n: nat)
    requires n <= |s.kept| == |s.offered|
  {
    forall i :: 0 <= i < n && !s.kept[i] ==> s.offered[i].data == []
  }

  lemma StoppedAtFacts(s: State, n: nat)
    requires Inv(s) && s.handler == Finished(Complete) && StoppedAt(s, n)
    ensures s.offered[n - 1].final
    ensures ExactUpTo(s, n) <==> NoBytesDropped(s, n)
  {
    KeptBytesUpTo(s.offered, s.kept, n);
    assert s.consumed[|s.consumed| - 1] == s.offered[n - 1];
  }

  lemma KeptBytesUpTo(offered: seq<Chunk>, kept: seq<bool>, n: nat)
    requires n <= |offered| == |kept|
    ensures Concat(Kept(offered[..n], kept[..n])) == Concat(offered[..n]) <==>
            forall i :: 0 <= i < n && !kept[i] ==> offered[i].data == []
  {
    var o, k := offered[..n], kept[..n];
    KeptBytes(o, k);
    assert forall i :: 0 <= i < n ==> k[i] == kept[i] && o[i] == offered[i];
  }

  /** A stream that ended normally stopped at a final chunk the agent sent, and the
      browser has exactly the bytes sent up to it if and only if every chunk dropped
      before it, that is, every one an earlier deliverChunk returned false for, was empty. */
  lemma CompleteIsExactIff(s: State)
    requires Reachable(s) && s.handler == Finished(Complete)
    ensures exists n: nat :: StoppedAt(s, n)
    ensures forall n: nat :: StoppedAt(s, n) ==>
              s.offered[n - 1].final && (ExactUpTo(s, n) <==> NoBytesDropped(s, n))
  {
    ReachableInv(s);
    var m := |s.consumed|;
    var n := KeptPrefix(s.offered, s.kept, m);
    assert (s.consumed + s.queues.chunks)[..m] == s.consumed;
    assert StoppedAt(s, n);
    forall n: nat | StoppedAt(s, n)
      ensures s.offered[n - 1].final && (ExactUpTo(s, n) <==> NoBytesDropped(s, n))
    {
      StoppedAtFacts(s, n);
    }
  }

  // ---- the handler is never stuck ----

  /** Past the header, once the end of the stream has been handled, the handler can
      always go on by itself: it has a write to finish, a chunk or an error to take. */
  lemma StreamNeverStuck(s: State)
    requires Reachable(s) && s.ended && (s.handler.Streaming? || s.handler.Writing?)
    ensures (s.handler.Writing? && Enabled(s, WriteDone(true))) || Enabled(s, TakeChunk) || Enabled(s, TakeError)
  {
    ReachableInv(s);
  }

  /** Every chunk offered was received, is queued, or is counted as an overflow. */
  lemma ChunkLedger(s: State)
    requires Reachable(s)
    ensures |s.offered| == |s.consumed| + |s.queues.chunks| + s.overflows
  {
    ReachableInv(s);
    KeptPlusDropped(s.offered, s.kept);
  }

  /** A drop is never silent: it is on record for the handler until the handler is done. */
  lemma DropsAreReported(s: State)
    requires Reachable(s) && Dropped(s)
    ensures s.handler.Finished? || s.queues.errors != []
  {
    ReachableInv(s);
  }

  /** The channels never hold more than 1, 8 and 1 values. */
  lemma QueuesBounded(s: State)
    requires Reachable(s)
    ensures |s.queues.headers| <= 1 && |s.queues.chunks| <= 8 && |s.queues.errors| <= 1
  {
    ReachableInv(s);
  }

  predicate IsHandlerEvent(e: Event) {
    !e.Lookup? && !e.Handle? && !e.Unregister?
  }

  /** What the handler has left to do if nothing more arrives. */
  function Work(s: State): nat {
    match s.handler
    case Finished(_) => 0
    case Streaming => 2 * |s.queues.chunks| + 1
    case Writing(_) => 2 * |s.queues.chunks| + 2
    case AwaitingHeader => 2 * |s.queues.chunks| + 3
    case Requesting => 2 * |s.queues.chunks| + 4
  }

  /** Every step of the handler brings it closer to its end. */
  lemma HandlerProgress(s: State, e: Event)
    requires Enabled(s, e) && IsHandlerEvent(e)
    ensures Work(Next(s, e)) < Work(s)
  {
  }

  // ---- the end is reached ----

  function HandlerSteps(run: seq<Event>): nat {
    if run == [] then 0 else (if IsHandlerEvent(run[0]) then 1 else 0) + HandlerSteps(run[1..])
  }

  predicate FinalAt(s: State, i: nat) {
    i < |s.queues.chunks| && s.queues.chunks[i].final
  }

  /** A final chunk is near enough for the handler to be done after n more of its steps. */
  ghost predicate EndsWithin(s: State, n: nat) {
    match s.handler
    case Finished(_) => true
    case Streaming => exists i: nat :: FinalAt(s, i) && 2 * (i + 1) <= n
    case Writing(c) => (c.final && 1 <= n) || exists i: nat :: FinalAt(s, i) && 2 * (i + 1) + 1 <= n
    case _ => false
  }

  lemma StepTowardsEnd(s: State, e: Event, n: nat)
    requires EndsWithin(s, n) && Enabled(s, e)
    ensures if IsHandlerEvent(e) then n > 0 && EndsWithin(Next(s, e), n - 1) else EndsWithin(Next(s, e), n)
  {
    var t := Next(s, e);
    if i: nat :| FinalAt(s, i) && 2 * (i + 1) + (if s.handler.Writing? then 1 else 0) <= n {
      if e.TakeChunk? {
        if i > 0 { assert FinalAt(t, i - 1); }
      } else {
        assert FinalAt(t, i);
      }
    }
  }

  lemma {:induction false} RunTowardsEnd(s: State, run: seq<Event>, n: nat)
    requires EndsWithin(s, n) && ValidRun(s, run)
    ensures HandlerSteps(run) <= n && EndsWithin(After(s, run), n - HandlerSteps(run))
    decreases |run|
  {
    if run != [] {
      StepTowardsEnd(s, run[0], n);
      RunTowardsEnd(Next(s, run[0]), run[1..], if IsHandlerEvent(run[0]) then n - 1 else n);
    }
  }

  /** With a final chunk at index i of the queue, a streaming handler is done after at
      most 2 * (i + 1) steps of its own, whatever the reader adds in the meantime, and
      until then it always has a chunk to take or a write to finish. */
  lemma FinalEndsStream(s: State, run: seq<Event>, i: nat)
    requires s.handler.Streaming? && FinalAt(s, i) && ValidRun(s, run)
    ensures var t := After(s, run);
            && HandlerSteps(run) <= 2 * (i + 1)
            && (HandlerSteps(run) == 2 * (i + 1) ==> t.handler.Finished?)
            && (t.handler.Finished? || Enabled(t, TakeChunk) || Enabled(t, WriteDone(true)))
  {
    RunTowardsEnd(s, run, 2 * (i + 1));
  }
}
