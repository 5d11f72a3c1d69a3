/** Sending a browser's request body to the agent in bounded chunks, and the
    binary envelope the chunks travel in. */
module RequestStream {

  type Bytes = seq<bv8>

  const CHUNK_SIZE: nat := 65536
  const MAX_BODY: nat := 16777216

  // ---- the body as a reader delivers it ----

  datatype ReadEnd = More | EndOfFile | Broken

  /** One result of Read: some bytes, possibly none, and whether the reader has ended. */
  datatype Read = Read(data: Bytes, end: ReadEnd)

  /** Everything the reader delivers up to its first end. */
  function Content(script: seq<Read>): Bytes {
    if script == [] then []
    else script[0].data + (if script[0].end.More? then Content(script[1..]) else [])
  }

  function Ending(script: seq<Read>): ReadEnd {
    if script == [] then EndOfFile
    else if script[0].end.More? then Ending(script[1..]) else script[0].end
  }

  /** One Read took `read` off `rest` and left `next`. */
  ghost predicate Took(rest: seq<Read>, read: Read, next: seq<Read>) {
    if rest == [] then read == Read([], EndOfFile) && next == []
    else read == rest[0] && next == rest[1..]
  }

  class Body {
    var script: seq<Read>

    constructor (script: seq<Read>)
      ensures this.script == script
    {
      this.script := script;
    }

    method Next() returns (r: Read)
      modifies this
      ensures Took(old(script), r, script)
    {
      if script == [] { return Read([], EndOfFile); }
      r := script[0];
      script := script[1..];
    }
  }

  // ---- the messages ----

  datatype EndError = NoError | TooLarge | StreamFailed | ReadFailed

  datatype Message = Whole | Start | Chunk(data: Bytes) | End(error: EndError)

  /** The connection to the agent: it may refuse any message. */
  class Link {
    ghost var attempted: seq<Message>
    ghost var accepted: seq<bool>  // the answer to each attempt

    ghost predicate Valid() reads this { |accepted| == |attempted| }

    constructor ()
      ensures Valid() && attempted == []
    {
      attempted, accepted := [], [];
    }

    method Send(m: Message) returns (ok: bool)
      requires Valid()
      modifies this
      ensures Valid()
      ensures attempted == old(attempted) + [m]
      ensures accepted == old(accepted) + [ok]
    {
      ok := *;
      attempted, accepted := attempted + [m], accepted + [ok];
    }
  }

  /** The bytes of the chunk messages, in order. */
  function Payload(messages: seq<Message>): Bytes {
    if messages == [] then []
    else
      var m := messages[|messages| - 1];
      Payload(messages[..|messages| - 1]) + (if m.Chunk? then m.data else [])
  }

  lemma PayloadSnoc(messages: seq<Message>, m: Message)
    ensures Payload(messages + [m]) == Payload(messages) + (if m.Chunk? then m.data else [])
  {
    assert (messages + [m])[..|messages|] == messages;
  }

  /** Start, then chunks of 1 to 65536 bytes. */
  ghost predicate OpenStream(messages: seq<Message>) {
    && |messages| > 0 && messages[0] == Start
    && forall i :: 1 <= i < |messages| ==> messages[i].Chunk? && 0 < |messages[i].data| <= 65536
  }

  /** An open stream closed by one end message. */
  ghost predicate ClosedStream(messages: seq<Message>, e: EndError) {
    |messages| > 1 && messages[|messages| - 1] == End(e) && OpenStream(messages[..|messages| - 1])
  }

  datatype Outcome = Sent | SendFailed | BodyTooLarge | BodyBroken

  ghost predicate AllAccepted(accepted: seq<bool>) {
    forall i :: 0 <= i < |accepted| ==> accepted[i]
  }

  /** Every attempt but the last was accepted. */
  ghost predicate AcceptedUntilLast(accepted: seq<bool>) {
    |accepted| > 0 && AllAccepted(accepted[..|accepted| - 1])
  }

  /** The first refusal came one attempt before the last. */
  ghost predicate RefusedBeforeLast(accepted: seq<bool>) {
    && |accepted| > 1
    && !accepted[|accepted| - 2]
    && AllAccepted(accepted[..|accepted| - 2])
  }

  /** What is attempted, and what is returned, for a streamed body. */
  ghost predicate StreamedAs(script: seq<Read>, messages: seq<Message>, accepted: seq<bool>, r: Outcome) {
    && |Payload(messages)| <= 16777216
    && Payload(messages) <= Content(script)
    && match r
       case Sent =>
         && ClosedStream(messages, NoError) && AllAccepted(accepted)
         && Payload(messages) == Content(script) && Ending(script).EndOfFile?
       case BodyTooLarge =>
         && ClosedStream(messages, TooLarge) && AcceptedUntilLast(accepted)
         && |Content(script)| > 16777216 && |Payload(messages)| + 65536 > 16777216
       case BodyBroken =>
         && ClosedStream(messages, ReadFailed) && AcceptedUntilLast(accepted)
         && Payload(messages) == Content(script) && Ending(script).Broken?
       case SendFailed =>
         || (messages == [Start] && accepted == [false])
         || (ClosedStream(messages, StreamFailed) && |messages| > 2 && RefusedBeforeLast(accepted))
         || (ClosedStream(messages, NoError) && AcceptedUntilLast(accepted) && !AllAccepted(accepted)
             && Payload(messages) == Content(script) && Ending(script).EndOfFile?)
  }

  /** A streamed body is reported sent exactly when no attempt was refused, the
      reader ended cleanly and what it delivered is within the limit. */
  lemma SentIff(script: seq<Read>, messages: seq<Message>, accepted: seq<bool>, r: Outcome)
    requires StreamedAs(script, messages, accepted, r)
    ensures r.Sent? <==> AllAccepted(accepted) && Ending(script).EndOfFile? && |Content(script)| <= 16777216
  {
    assert RefusedBeforeLast(accepted) ==> !accepted[|accepted| - 2];
    assert accepted == [false] ==> !accepted[0];
  }

  // ---- one turn of the loop ----

  /** Part of the body is out, the rest is still to be read. */
  ghost predicate Midway(script: seq<Read>, rest: seq<Read>, messages: seq<Message>, accepted: seq<bool>) {
    && OpenStream(messages)
    && AllAccepted(accepted)
    && |Payload(messages)| <= MAX_BODY
    && Content(script) == Payload(messages) + Content(rest)
    && Ending(script) == Ending(rest)
  }

  /** A body that has been read to its end is closed by one end message. */
  lemma Close(messages: seq<Message>, accepted: seq<bool>, e: EndError, ok: bool)
    requires OpenStream(messages)
    ensures ClosedStream(messages + [End(e)], e)
    ensures Payload(messages + [End(e)]) == Payload(messages)
    ensures AllAccepted(accepted) ==> AcceptedUntilLast(accepted + [ok])
    ensures AllAccepted(accepted + [ok]) <==> AllAccepted(accepted) && ok
  {
    PayloadSnoc(messages, End(e));
    assert (messages + [End(e)])[..|messages|] == messages;
    var all := accepted + [ok];
    assert all[..|accepted|] == accepted;
    assert all[|accepted|] == ok;
    assert forall i :: 0 <= i < |accepted| ==> all[i] == accepted[i];
  }

  lemma StartedMidway(script: seq<Read>)
    ensures Midway(script, script, [Start], [true]) && Payload([Start]) == []
  {
    PayloadSnoc([], Start);
    assert [] + [Start] == [Start];
  }

  ghost predicate FitsBuffer(script: seq<Read>) {
    forall i :: 0 <= i < |script| ==> |script[i].data| <= 65536
  }

  lemma TookFits(rest: seq<Read>, read: Read, next: seq<Read>)
    requires Took(rest, read, next) && FitsBuffer(rest)
    ensures FitsBuffer(next) && |read.data| <= CHUNK_SIZE
    ensures read.end.More? ==> |next| < |rest|
  {}

  /** What one Read returned comes next in the body. */
  lemma ReadIsNext(script: seq<Read>, rest: seq<Read>, messages: seq<Message>, accepted: seq<bool>,
                   read: Read, next: seq<Read>)
    requires Midway(script, rest, messages, accepted) && Took(rest, read, next)
    ensures
      var later := if read.end.More? then Content(next) else [];
      Content(script) == (Payload(messages) + read.data) + later && Payload(messages) + read.data <= Content(script)
    ensures Ending(script) == if read.end.More? then Ending(next) else read.end
  {
    var later := if read.end.More? then Content(next) else [];
    assert Content(rest) == read.data + later;
    Regroup(Payload(messages), read.data, later);
  }

  lemma Regroup(a: Bytes, b: Bytes, c: Bytes)
    ensures a + (b + c) == (a + b) + c && a + b <= (a + b) + c && a <= a + (b + c)
  {}

  /** After the turn the loop is midway again, or everything delivered is out. */
  lemma TurnDone(script: seq<Read>, rest: seq<Read>, messages: seq<Message>, accepted: seq<bool>,
                 read: Read, next: seq<Read>, messages': seq<Message>, accepted': seq<bool>)
    requires Midway(script, rest, messages, accepted) && Took(rest, read, next)
    requires OpenStream(messages') && AllAccepted(accepted')
    requires Payload(messages') == Payload(messages) + read.data && |Payload(messages')| <= MAX_BODY
    ensures read.end.More? ==> Midway(script, next, messages', accepted')
    ensures !read.end.More? ==> Payload(messages') == Content(script) && Ending(script) == read.end
  {
    ReadIsNext(script, rest, messages, accepted, read, next);
    assert !read.end.More? ==> (Payload(messages) + read.data) + [] == Payload(messages) + read.data;
  }

  // ---- the four ways out ----

  lemma OutTooLarge(script: seq<Read>, rest: seq<Read>, before: seq<Message>, read: Read, next: seq<Read>,
                    messages: seq<Message>, accepted: seq<bool>)
    requires Took(rest, read, next) && |read.data| <= CHUNK_SIZE && Midway(script, rest, before, [])
    requires |Payload(before)| + |read.data| > MAX_BODY && Payload(messages) == Payload(before)
    requires ClosedStream(messages, TooLarge) && AcceptedUntilLast(accepted)
    ensures StreamedAs(script, messages, accepted, BodyTooLarge)
  {
    ReadIsNext(script, rest, before, [], read, next);
  }

  lemma OutRefused(script: seq<Read>, rest: seq<Read>, before: seq<Message>, read: Read, next: seq<Read>,
                   messages: seq<Message>, accepted: seq<bool>)
    requires Took(rest, read, next) && Midway(script, rest, before, [])
    requires Payload(messages) == Payload(before) + read.data && |Payload(messages)| <= MAX_BODY
    requires ClosedStream(messages, StreamFailed) && |messages| > 2 && RefusedBeforeLast(accepted)
    ensures StreamedAs(script, messages, accepted, SendFailed)
  {
    ReadIsNext(script, rest, before, [], read, next);
  }

  lemma OutEnded(script: seq<Read>, messages: seq<Message>, accepted: seq<bool>, e: EndError, ok: bool)
    requires Payload(messages) == Content(script) && |Content(script)| <= MAX_BODY
    requires ClosedStream(messages, e) && AcceptedUntilLast(accepted) && (AllAccepted(accepted) <==> ok)
    ensures e == NoError && Ending(script).EndOfFile? ==>
              StreamedAs(script, messages, accepted, if ok then Sent else SendFailed)
    ensures e == ReadFailed && Ending(script).Broken? ==> StreamedAs(script, messages, accepted, BodyBroken)
  {
  }

  class Sender {
    /** Close a stream whose attempts were all accepted. */
    static method Finish(link: Link, e: EndError) returns (ok: bool)
      requires link.Valid() && OpenStream(link.attempted) && AllAccepted(link.accepted)
      modifies link
      ensures link.Valid() && ClosedStream(link.attempted, e) && AcceptedUntilLast(link.accepted)
      ensures Payload(link.attempted) == Payload(old(link.attempted))
      ensures AllAccepted(link.accepted) <==> ok
    {
      ghost var messages, accepted := link.attempted, link.accepted;
      ok := link.Send(End(e));
      Close(messages, accepted, e, ok);
    }

    /** Send one chunk; when it is refused, close the stream with an error. */
    static method SendChunk(link: Link, data: Bytes) returns (ok: bool)
      requires link.Valid() && OpenStream(link.attempted) && AllAccepted(link.accepted)
      requires 0 < |data| <= CHUNK_SIZE
      modifies link
      ensures link.Valid()
      ensures Payload(link.attempted) == Payload(old(link.attempted)) + data
      ensures ok ==> link.attempted == old(link.attempted) + [Chunk(data)]
                     && OpenStream(link.attempted) && AllAccepted(link.accepted)
      ensures !ok ==> link.attempted == old(link.attempted) + [Chunk(data), End(StreamFailed)]
                      && ClosedStream(link.attempted, StreamFailed) && |link.attempted| > 2
                      && RefusedBeforeLast(link.accepted)
    {
      ghost var messages, accepted := link.attempted, link.accepted;
      PayloadSnoc(messages, Chunk(data));
      ok := link.Send(Chunk(data));
      assert OpenStream(link.attempted);
      if !ok {
        Close(link.attempted, link.accepted, StreamFailed, true);
        var _ := link.Send(End(StreamFailed));
        assert link.attempted == messages + [Chunk(data), End(StreamFailed)];
        assert link.accepted[..|accepted|] == accepted;
      }
    }

    /** The loop over the body, after the start message has been accepted. */
    static method SendBody(link: Link, body: Body) returns (r: Outcome)
      requires link.Valid() && link.attempted == [Start] && link.accepted == [true]
      requires FitsBuffer(body.script)
      modifies link, body
      ensures link.Valid()
      ensures StreamedAs(old(body.script), link.attempted, link.accepted, r)
    {
      ghost var script := body.script;
      var total := 0;
      StartedMidway(script);
      while true
        invariant link.Valid() && Midway(script, body.script, link.attempted, link.accepted)
        invariant total == |Payload(link.attempted)|
        invariant FitsBuffer(body.script)
        decreases |body.script|
      {
        ghost var rest, messages, accepted := body.script, link.attempted, link.accepted;
        var read := body.Next();
        TookFits(rest, read, body.script);
        if |read.data| > 0 {
          total := total + |read.data|;
          if total > MAX_BODY {
            var _ := Finish(link, TooLarge);
            OutTooLarge(script, rest, messages, read, body.script, link.attempted, link.accepted);
            return BodyTooLarge;
          }
          var ok := SendChunk(link, read.data);
          if !ok {
            OutRefused(script, rest, messages, read, body.script, link.attempted, link.accepted);
            return SendFailed;
          }
        }
        TurnDone(script, rest, messages, accepted, read, body.script, link.attempted, link.accepted);
        if read.end.EndOfFile? { break; }
        if read.end.Broken? {
          var ok := Finish(link, ReadFailed);
          OutEnded(script, link.attempted, link.accepted, ReadFailed, ok);
          return BodyBroken;
        }
      }
      var ok := Finish(link, NoError);
      OutEnded(script, link.attempted, link.accepted, NoError, ok);
      r := if ok then Sent else SendFailed;
    }

    /** Without streaming the request travels whole, in one message. With it, a
        start message, the body if there is one, and one end message. */
    static method SendProxyRequest(link: Link, body: Body?, stream: bool) returns (r: Outcome)
      requires link.Valid() && link.attempted == []
      requires body != null ==> FitsBuffer(body.script)
      modifies link, body
      ensures link.Valid()
      ensures stream ==>
        StreamedAs(if body == null then [] else old(body.script), link.attempted, link.accepted, r)
      ensures !stream ==> link.attempted == [Whole] && link.accepted == [r.Sent?] && (r.Sent? || r.SendFailed?)
      ensures !stream && body != null ==> body.script == old(body.script)
    {
      if !stream {
        var whole := link.Send(Whole);
        return if whole then Sent else SendFailed;
      }
      StartedMidway(if body == null then [] else body.script);
      var started := link.Send(Start);
      assert link.attempted == [Start];
      if !started { return SendFailed; }
      if body == null {
        var ok := Finish(link, NoError);
        return if ok then Sent else SendFailed;
      }
      r := SendBody(link, body);
    }
  }

  // ---- the binary envelope ----

  const NEWLINE: bv8 := 10

  datatype Envelope = Envelope(header: Bytes, payload: Bytes) | Malformed

  function Encode(header: Bytes, payload: Bytes): Bytes {
    header + [NEWLINE] + payload
  }

  /** The index of the first newline, or -1. */
  function FirstNewline(data: Bytes, from: nat := 0): (i: int)
    requires from <= |data|
    ensures i == -1 || from <= i < |data|
    ensures i >= 0 ==> data[i] == NEWLINE && forall k :: from <= k < i ==> data[k] != NEWLINE
    ensures i == -1 ==> forall k :: from <= k < |data| ==> data[k] != NEWLINE
    decreases |data| - from
  {
    if from == |data| then -1
    else if data[from] == NEWLINE then from
    else FirstNewline(data, from + 1)
  }

  function Decode(data: Bytes): Envelope {
    var separator := FirstNewline(data);
    if separator <= 0 then Malformed
    else Envelope(data[..separator], data[separator + 1..])
  }

  /** An envelope decodes to what was encoded exactly when the header is neither
      empty nor holds a newline; the payload may be anything. */
  lemma DecodeEncodeIff(header: Bytes, payload: Bytes)
    ensures Decode(Encode(header, payload)) == Envelope(header, payload)
       <==> header != [] && NEWLINE !in header
  {
    var data := Encode(header, payload);
    var at := FirstNewline(data);
    assert data[|header|] == NEWLINE;
    assert data[..|header|] == header && data[|header| + 1..] == payload;
    assert 0 <= at <= |header|;
    assert forall k :: 0 <= k < |header| ==> data[k] == header[k];
    assert NEWLINE in header <==> at < |header|;
  }

  /** What decodes is a message some sender could have encoded, and no other. */
  lemma EncodeDecode(data: Bytes, header: Bytes, payload: Bytes)
    requires header != [] && NEWLINE !in header
    ensures Decode(data) == Envelope(header, payload) <==> data == Encode(header, payload)
  {
    DecodeEncodeIff(header, payload);
    var at := FirstNewline(data);
    if at > 0 {
      assert data == Encode(data[..at], data[at + 1..]);
    }
  }

  /** A message is refused exactly when it has no newline or starts with one. */
  lemma MalformedIff(data: Bytes)
    ensures Decode(data) == Malformed <==> NEWLINE !in data || data[0] == NEWLINE
  {
    var at := FirstNewline(data);
    assert at == -1 <==> NEWLINE !in data;
  }
}
