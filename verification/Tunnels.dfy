/** Any number of browser WebSocket tunnels over one manager: the state machine of
    each, the bounded channel the agent's reader fills, and the counters. */
module Tunnels {
  import opened Options
  import opened Histories

  type Id = nat

  datatype Message = OpenResult(ok: bool) | Frame(payload: nat) | Close

  const TUNNEL_QUEUE: nat := 32

  datatype Phase =
    | Accepted        // the browser's upgrade has been accepted
    | Registered      // the channel is in the tunnels map
    | Sending         // wsOpenSent counted, the open message is being written
    | Awaiting        // waiting for the open result or the timer
    | Judged(ok: bool)  // the outcome is known, not yet counted
    | Live
    | Returning       // the handler has returned, deferred calls are pending
    | Unregistered    // the channel has been taken out of the map
    | Closed          // wsClosed counted

  datatype Tunnel = Tunnel(
    phase: Phase,
    queue: seq<Message>,       // the buffered channel
    // history
    offered: seq<Message>,     // messages dispatched to this channel
    kept: seq<bool>,           // whether each found room
    consumed: seq<Message>     // messages the handler received
  )

  datatype State = State(
    tunnels: map<Id, Tunnel>,
    nextId: Id,
    reader: Option<(Id, Message)>,  // the reader has looked a channel up and is about to send
    openSent: nat, openAcked: nat, openFailed: nat, closed: nat, dropped: nat
  )

  function Init(): State {
    State(map[], 0, None, 0, 0, 0, 0, 0)
  }

  datatype Event =
    | Accept
    | Register(id: Id)
    | CountSent(id: Id)
    | OpenWritten(id: Id, ok: bool)
    | TakeResult(id: Id)
    | OpenTimeout(id: Id)
    | CountOutcome(id: Id)
    | TakeMessage(id: Id, writeOk: bool)
    | Leave(id: Id)       // browser closed, forwarding failed, heartbeat failed, or context done
    | Unregister(id: Id)
    | CountClosed(id: Id)
    // the reader of the agent connection
    | Lookup(id: Id, m: Message)
    | Dispatch

  predicate InMap(p: Phase) {
    !p.Accepted? && !p.Unregistered? && !p.Closed?
  }

  predicate At(s: State, id: Id, p: Phase) {
    id in s.tunnels && s.tunnels[id].phase == p
  }

  predicate Enabled(s: State, e: Event) {
    match e
    case Accept => true
    case Register(id) => At(s, id, Accepted)
    case CountSent(id) => At(s, id, Registered)
    case OpenWritten(id, _) => At(s, id, Sending)
    case TakeResult(id) => At(s, id, Awaiting) && s.tunnels[id].queue != []
    case OpenTimeout(id) => At(s, id, Awaiting)
    case CountOutcome(id) => id in s.tunnels && s.tunnels[id].phase.Judged?
    case TakeMessage(id, _) => At(s, id, Live) && s.tunnels[id].queue != []
    case Leave(id) => At(s, id, Live)
    case Unregister(id) => At(s, id, Returning)
    case CountClosed(id) => At(s, id, Unregistered)
    case Lookup(_, _) => s.reader.None?
    case Dispatch => s.reader.Some? && s.reader.value.0 in s.tunnels
  }

  /** The tunnel an event changes. */
  function Touched(s: State, e: Event): Option<Id> {
    match e
    case Accept => None
    case Lookup(_, _) => None
    case Dispatch => if s.reader.Some? then Some(s.reader.value.0) else None
    case Register(id) => Some(id)
    case CountSent(id) => Some(id)
    case OpenWritten(id, _) => Some(id)
    case TakeResult(id) => Some(id)
    case OpenTimeout(id) => Some(id)
    case CountOutcome(id) => Some(id)
    case TakeMessage(id, _) => Some(id)
    case Leave(id) => Some(id)
    case Unregister(id) => Some(id)
    case CountClosed(id) => Some(id)
  }

  predicate HasRoom(t: Tunnel) {
    |t.queue| < TUNNEL_QUEUE
  }

  /** dispatchTunnelMessage: queue the message or drop it, never wait. */
  function Offer(t: Tunnel, m: Message): Tunnel {
    t.(queue := if HasRoom(t) then t.queue + [m] else t.queue,
       offered := t.offered + [m], kept := t.kept + [HasRoom(t)])
  }

  function Take(t: Tunnel): Tunnel
    requires t.queue != []
  {
    t.(queue := t.queue[1..], consumed := t.consumed + [t.queue[0]])
  }

  /** What the live loop does with a message: frames are written, anything else but a close is ignored. */
  function AfterMessage(m: Message, writeOk: bool): Phase {
    match m
    case Frame(_) => if writeOk then Live else Returning
    case Close => Returning
    case OpenResult(_) => Live
  }

  function NextTunnel(s: State, t: Tunnel, e: Event): Tunnel {
    match e
    case Register(_) => t.(phase := Registered)
    case CountSent(_) => t.(phase := Sending)
    case OpenWritten(_, ok) => t.(phase := if ok then Awaiting else Judged(false))
    case TakeResult(_) =>
      if t.queue == [] then t else Take(t).(phase := Judged(t.queue[0] == OpenResult(true)))
    case OpenTimeout(_) => t.(phase := Judged(false))
    case CountOutcome(_) => t.(phase := if t.phase.Judged? && t.phase.ok then Live else Returning)
    case TakeMessage(_, ok) =>
      if t.queue == [] then t else Take(t).(phase := AfterMessage(t.queue[0], ok))
    case Leave(_) => t.(phase := Returning)
    case Unregister(_) => t.(phase := Unregistered)
    case CountClosed(_) => t.(phase := Closed)
    case Dispatch => if s.reader.Some? then Offer(t, s.reader.value.1) else t
    case _ => t
  }

  function NextTunnels(s: State, e: Event): map<Id, Tunnel>
    requires Enabled(s, e)
  {
    if e.Accept? then s.tunnels[s.nextId := Tunnel(Accepted, [], [], [], [])]
    else
      match Touched(s, e)
      case None => s.tunnels
      case Some(id) => s.tunnels[id := NextTunnel(s, s.tunnels[id], e)]
  }

  function NextReader(s: State, e: Event): Option<(Id, Message)> {
    match e
    case Lookup(id, m) => if id in s.tunnels && InMap(s.tunnels[id].phase) then Some((id, m)) else None
    case Dispatch => None
    case _ => s.reader
  }

  function Next(s: State, e: Event): State
    requires Enabled(s, e)
  {
    State(
      NextTunnels(s, e),
      if e.Accept? then s.nextId + 1 else s.nextId,
      NextReader(s, e),
      if e.CountSent? then s.openSent + 1 else s.openSent,
      if e.CountOutcome? && s.tunnels[e.id].phase.ok then s.openAcked + 1 else s.openAcked,
      if e.CountOutcome? && !s.tunnels[e.id].phase.ok then s.openFailed + 1 else s.openFailed,
      if e.CountClosed? then s.closed + 1 else s.closed,
      if e.Dispatch? && !HasRoom(s.tunnels[s.reader.value.0]) then s.dropped + 1 else s.dropped)
  }

  predicate ValidRun(s: State, run: seq<Event>)
    decreases |run|
  {
    run == [] || (Enabled(s, run[0]) && ValidRun(Next(s, run[0]), run[1..]))
  }

  function After(s: State, run: seq<Event>): State
    requires ValidRun(s, run)
    decreases |run|
  {
    if run == [] then s else After(Next(s, run[0]), run[1..])
  }

  // ---- the ledger ----

  /** The open message is being sent or its result awaited. */
  predicate Opening(p: Phase) {
    p.Sending? || p.Awaiting? || p.Judged?
  }

  ghost function OpeningTunnels(m: map<Id, Tunnel>): set<Id> {
    set id | id in m && Opening(m[id].phase)
  }

  ghost function OpenTunnels(m: map<Id, Tunnel>): set<Id> {
    set id | id in m && !m[id].phase.Closed?
  }

  /** The messages dropped on the tunnels numbered below n. */
  ghost function DroppedBelow(m: map<Id, Tunnel>, n: nat): nat {
    if n == 0 then 0 else DroppedBelow(m, n - 1) + (if n - 1 in m then Falses(m[n - 1].kept) else 0)
  }

  /** A channel: bounded, and it hands on in order what it kept. */
  ghost predicate ChannelInv(t: Tunnel) {
    |t.queue| <= TUNNEL_QUEUE && |t.offered| == |t.kept| && Kept(t.offered, t.kept) == t.consumed + t.queue
  }

  ghost predicate Balanced(s: State) {
    && s.openSent == s.openAcked + s.openFailed + |OpeningTunnels(s.tunnels)|
    && s.nextId == |OpenTunnels(s.tunnels)| + s.closed
  }

  ghost predicate Inv(s: State) {
    && (forall id: Id :: id in s.tunnels <==> id < s.nextId)
    && (forall id :: id in s.tunnels ==> ChannelInv(s.tunnels[id]))
    && Balanced(s)
    && s.dropped == DroppedBelow(s.tunnels, s.nextId)
    && (s.reader.Some? ==> s.reader.value.0 in s.tunnels)
  }

  lemma OpeningUpdated(m: map<Id, Tunnel>, id: Id, t: Tunnel)
    ensures |OpeningTunnels(m[id := t])| == |OpeningTunnels(m)| +
              (if Opening(t.phase) then 1 else 0) - (if id in m && Opening(m[id].phase) then 1 else 0)
  {
    var n := m[id := t];
    SizeWithout(OpeningTunnels(m), id);
    SizeWithout(OpeningTunnels(n), id);
    assert id in OpeningTunnels(n) <==> Opening(t.phase);
    assert OpeningTunnels(m) - {id} == OpeningTunnels(n) - {id} by {
      forall g: Id | g != id ensures g in OpeningTunnels(m) <==> g in OpeningTunnels(n) { assert g in m <==> g in n; }
    }
  }

  lemma OpenUpdated(m: map<Id, Tunnel>, id: Id, t: Tunnel)
    ensures |OpenTunnels(m[id := t])| == |OpenTunnels(m)| +
              (if t.phase.Closed? then 0 else 1) - (if id in m && !m[id].phase.Closed? then 1 else 0)
  {
    var n := m[id := t];
    SizeWithout(OpenTunnels(m), id);
    SizeWithout(OpenTunnels(n), id);
    assert id in OpenTunnels(n) <==> !t.phase.Closed?;
    assert OpenTunnels(m) - {id} == OpenTunnels(n) - {id} by {
      forall g: Id | g != id ensures g in OpenTunnels(m) <==> g in OpenTunnels(n) { assert g in m <==> g in n; }
    }
  }

  lemma {:induction false} DroppedUpdated(m: map<Id, Tunnel>, id: Id, t: Tunnel, n: nat)
    requires id in m
    ensures DroppedBelow(m[id := t], n) ==
            DroppedBelow(m, n) + (if id < n then Falses(t.kept) - Falses(m[id].kept) else 0)
  {
    if n > 0 { DroppedUpdated(m, id, t, n - 1); }
  }

  lemma {:induction false} DroppedNew(m: map<Id, Tunnel>, id: Id, t: Tunnel, n: nat)
    requires n <= id
    ensures DroppedBelow(m[id := t], n) == DroppedBelow(m, n)
  {
    if n > 0 { DroppedNew(m, id, t, n - 1); }
  }

  lemma OfferKeeps(t: Tunnel, m: Message)
    requires ChannelInv(t)
    ensures ChannelInv(Offer(t, m))
    ensures Falses(Offer(t, m).kept) == Falses(t.kept) + (if HasRoom(t) then 0 else 1)
  {
    KeptSnoc(t.offered, t.kept, m, HasRoom(t));
    var k := t.kept + [HasRoom(t)];
    assert k[..|k| - 1] == t.kept;
    if HasRoom(t) {
      assert t.consumed + (t.queue + [m]) == (t.consumed + t.queue) + [m];
    } else {
      assert Kept(t.offered, t.kept) + [] == Kept(t.offered, t.kept);
    }
  }

  lemma TakeKeeps(t: Tunnel)
    requires ChannelInv(t) && t.queue != []
    ensures ChannelInv(Take(t))
  {
    assert (t.consumed + [t.queue[0]]) + t.queue[1..] == t.consumed + t.queue;
  }

  lemma StepTunnel(s: State, e: Event, t: Tunnel)
    requires ChannelInv(t)
    ensures ChannelInv(NextTunnel(s, t, e))
    ensures Falses(NextTunnel(s, t, e).kept) ==
            Falses(t.kept) + (if e.Dispatch? && s.reader.Some? && !HasRoom(t) then 1 else 0)
  {
    if e.Dispatch? && s.reader.Some? { OfferKeeps(t, s.reader.value.1); }
    if (e.TakeResult? || e.TakeMessage?) && t.queue != [] { TakeKeeps(t); }
  }

  lemma StepChannels(s: State, e: Event)
    requires Inv(s) && Enabled(s, e)
    ensures forall id :: id in Next(s, e).tunnels ==> ChannelInv(Next(s, e).tunnels[id])
  {
    if Touched(s, e).Some? { StepTunnel(s, e, s.tunnels[Touched(s, e).value]); }
  }

  lemma StepDropped(s: State, e: Event)
    requires Enabled(s, e) && s.dropped == DroppedBelow(s.tunnels, s.nextId)
    requires Touched(s, e).Some? ==>
               Touched(s, e).value < s.nextId && ChannelInv(s.tunnels[Touched(s, e).value])
    ensures Next(s, e).dropped == DroppedBelow(Next(s, e).tunnels, Next(s, e).nextId)
  {
    if e.Accept? {
      DroppedNew(s.tunnels, s.nextId, Tunnel(Accepted, [], [], [], []), s.nextId);
    } else if Touched(s, e).Some? {
      var id := Touched(s, e).value;
      StepTunnel(s, e, s.tunnels[id]);
      DroppedUpdated(s.tunnels, id, NextTunnel(s, s.tunnels[id], e), s.nextId);
    }
  }

  lemma StepOpening(s: State, e: Event)
    requires Balanced(s) && s.nextId !in s.tunnels && Enabled(s, e)
    ensures Balanced(Next(s, e))
  {
    if e.Accept? {
      OpeningUpdated(s.tunnels, s.nextId, Tunnel(Accepted, [], [], [], []));
      OpenUpdated(s.tunnels, s.nextId, Tunnel(Accepted, [], [], [], []));
    } else if Touched(s, e).Some? {
      var id := Touched(s, e).value;
      OpeningUpdated(s.tunnels, id, NextTunnel(s, s.tunnels[id], e));
      OpenUpdated(s.tunnels, id, NextTunnel(s, s.tunnels[id], e));
    }
  }

  lemma StepInv(s: State, e: Event)
    requires Inv(s) && Enabled(s, e)
    ensures Inv(Next(s, e))
  {
    StepChannels(s, e);
    StepDropped(s, e);
    StepOpening(s, e);
  }

  lemma {:induction false} RunInv(s: State, run: seq<Event>)
    requires Inv(s) && ValidRun(s, run)
    ensures Inv(After(s, run))
    decreases |run|
  {
    if run != [] {
      StepInv(s, run[0]);
      RunInv(Next(s, run[0]), run[1..]);
    }
  }

  lemma InitInv()
    ensures Inv(Init())
  {
    assert OpeningTunnels(map[]) == {} && OpenTunnels(map[]) == {};
  }

  /** At every point of every interleaving the counters balance: opens sent are
      acknowledged, failed or under way; accepted browsers are open or counted as
      closed; dropped messages are those dropped on some tunnel. */
  lemma TunnelLedger(run: seq<Event>)
    requires ValidRun(Init(), run)
    ensures var s := After(Init(), run);
            && s.openSent == s.openAcked + s.openFailed + |OpeningTunnels(s.tunnels)|
            && s.nextId == |OpenTunnels(s.tunnels)| + s.closed
            && s.dropped == DroppedBelow(s.tunnels, s.nextId)
  {
    InitInv();
    RunInv(Init(), run);
  }

  // ---- the handshake ----

  /** Nothing is received before the open result, and only a success makes a tunnel live. */
  predicate Handshake(t: Tunnel) {
    match t.phase
    case Judged(ok) => ok ==> t.consumed != [] && t.consumed[0] == OpenResult(true)
    case Live => t.consumed != [] && t.consumed[0] == OpenResult(true)
    case Returning => true
    case Unregistered => true
    case Closed => true
    case _ => t.consumed == []
  }

  ghost predicate Handshakes(s: State) {
    forall id :: id in s.tunnels ==> Handshake(s.tunnels[id])
  }

  lemma StepHandshake(s: State, e: Event, id: Id)
    requires Enabled(s, e) && Touched(s, e) == Some(id) && id in s.tunnels && Handshake(s.tunnels[id])
    ensures Handshake(NextTunnel(s, s.tunnels[id], e))
  {
    assert s.tunnels[id].consumed != [] ==>
      forall m: Message :: (s.tunnels[id].consumed + [m])[0] == s.tunnels[id].consumed[0];
  }

  lemma {:induction false} HandshakesRun(s: State, run: seq<Event>)
    requires Handshakes(s) && ValidRun(s, run)
    ensures Handshakes(After(s, run))
    decreases |run|
  {
    if run != [] {
      if Touched(s, run[0]).Some? { StepHandshake(s, run[0], Touched(s, run[0]).value); }
      HandshakesRun(Next(s, run[0]), run[1..]);
    }
  }

  /** A tunnel is live only if the first message it received was a successful open
      result; while the open is being sent or awaited it has received nothing. */
  lemma LiveOnlyAfterOpen(run: seq<Event>, id: Id)
    requires ValidRun(Init(), run) && id in After(Init(), run).tunnels
    ensures var t := After(Init(), run).tunnels[id];
            && (t.phase.Live? ==> t.consumed != [] && t.consumed[0] == OpenResult(true))
            && (t.phase.Accepted? || t.phase.Registered? || t.phase.Sending? || t.phase.Awaiting? ==> t.consumed == [])
  {
    HandshakesRun(Init(), run);
    assert Handshake(After(Init(), run).tunnels[id]);
  }

  /** Per tunnel: what was dispatched is consumed, queued or dropped, the queue is
      bounded, and what the handler consumed is an in-order subsequence, a prefix
      as long as nothing was dropped. */
  lemma TunnelChannel(run: seq<Event>, id: Id)
    requires ValidRun(Init(), run) && id in After(Init(), run).tunnels
    ensures var t := After(Init(), run).tunnels[id];
            && |t.kept| == |t.offered|
            && |t.offered| == |t.consumed| + |t.queue| + Falses(t.kept)
            && |t.queue| <= 32
            && Subsequence(t.consumed, t.offered)
            && ((forall i :: 0 <= i < |t.kept| ==> t.kept[i]) ==> t.consumed <= t.offered)
  {
    InitInv();
    RunInv(Init(), run);
    var t := After(Init(), run).tunnels[id];
    KeptPlusDropped(t.offered, t.kept);
    KeptLength(t.offered, t.kept);
    KeptIsSubsequence(t.offered, t.kept, |t.consumed|);
    assert (t.consumed + t.queue)[..|t.consumed|] == t.consumed;
  }
}
