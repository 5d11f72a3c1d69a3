/** The scheduler object and the writer's loops over it, as code.

    The step system of `OutboundModel` covers interleaving; here the loops run
    without interference, so their contracts say exactly what one weighted pass,
    one stay awake and one drain do to the lanes, the connection, the counters
    and the `done` channels. */
module OutboundScheduler {
  import opened OutboundModel
  import opened OutboundInvariants

  function Min(a: nat, b: nat): nat {
    if a < b then a else b
  }

  /** What n passes take from lane p when it holds q, and what they leave. */
  function Share(q: seq<FrameId>, p: Priority, n: nat): seq<FrameId> {
    q[..Min(|q|, n * Weight(p))]
  }

  function Remainder(q: seq<FrameId>, p: Priority, n: nat): seq<FrameId> {
    q[Min(|q|, n * Weight(p))..]
  }

  function Remainders(lanes: PerLane<seq<FrameId>>, n: nat): PerLane<seq<FrameId>> {
    PerLane(Remainder(lanes.critical, Critical, n), Remainder(lanes.interactive, Interactive, n),
            Remainder(lanes.bulk, Bulk, n))
  }

  /** The frames one pass over these lanes writes, in order. */
  function PassOrder(lanes: PerLane<seq<FrameId>>): seq<FrameId> {
    Share(lanes.critical, Critical, 1) + Share(lanes.interactive, Interactive, 1) + Share(lanes.bulk, Bulk, 1)
  }

  /** The log grew from before to after by writes of exactly these frames, in this order. */
  ghost predicate Wrote(before: seq<Attempt>, after: seq<Attempt>, frames: seq<FrameId>) {
    && |after| == |before| + |frames|
    && before <= after
    && forall i :: 0 <= i < |frames| ==> after[|before| + i].frame == frames[i]
  }

  /** The frames n passes one after the other write, in order. */
  function PassOrders(lanes: PerLane<seq<FrameId>>, n: nat): seq<FrameId> {
    if n == 0 then [] else PassOrders(lanes, n - 1) + PassOrder(Remainders(lanes, n - 1))
  }

  /** How many passes the writer makes before it sleeps: a token is worth one more. */
  function Turns(wake: bool): nat {
    if wake then 2 else 1
  }

  /** n passes have been made over these lanes and logged from here on. */
  ghost predicate Passes(lanes: PerLane<seq<FrameId>>, before: seq<Attempt>, n: nat,
                         lanes': PerLane<seq<FrameId>>, after: seq<Attempt>) {
    lanes' == Remainders(lanes, n) && Wrote(before, after, PassOrders(lanes, n))
  }

  lemma NoPass(lanes: PerLane<seq<FrameId>>, log: seq<Attempt>)
    ensures Passes(lanes, log, 0, lanes, log)
  {
  }

  lemma OneMorePass(lanes: PerLane<seq<FrameId>>, before: seq<Attempt>, n: nat,
                    lanes1: PerLane<seq<FrameId>>, log1: seq<Attempt>, log2: seq<Attempt>)
    requires Passes(lanes, before, n, lanes1, log1) && Wrote(log1, log2, PassOrder(lanes1))
    ensures Passes(lanes, before, n + 1, Remainders(lanes1, 1), log2)
  {
    RemaindersAdd(lanes, n);
    WroteMore(before, log1, log2, PassOrders(lanes, n), PassOrder(lanes1));
  }

  lemma WroteMore(a: seq<Attempt>, b: seq<Attempt>, c: seq<Attempt>, x: seq<FrameId>, y: seq<FrameId>)
    requires Wrote(a, b, x) && Wrote(b, c, y)
    ensures Wrote(a, c, x + y)
  {
    forall i | 0 <= i < |x + y| ensures c[|a| + i].frame == (x + y)[i] {
      if i < |x| {
        assert c[|a| + i] == b[|a| + i];
      } else {
        assert c[|b| + (i - |x|)].frame == y[i - |x|];
      }
    }
  }

  function Outcome(ok: bool): Done {
    if ok then Written else Failed
  }

  lemma GetSet<T>(m: PerLane<T>, p: Priority, v: T)
    ensures forall q: Priority :: m.Set(p, v).Get(q) == if q == p then v else m.Get(q)
  {
  }

  lemma SetGet<T>(m: PerLane<T>, p: Priority)
    ensures m.Set(p, m.Get(p)) == m
  {
  }

  lemma SetSet<T>(m: PerLane<T>, p: Priority, v: T, w: T)
    ensures m.Set(p, v).Set(p, w) == m.Set(p, w)
  {
  }

  /** After n passes the lanes are empty exactly if each held at most n passes' worth. */
  lemma EmptiedIff(lanes: PerLane<seq<FrameId>>, n: nat)
    ensures Remainders(lanes, n) == PerLane([], [], []) <==>
            forall p: Priority :: |lanes.Get(p)| <= n * Weight(p)
  {
    var r := Remainders(lanes, n);
    assert forall p: Priority :: r.Get(p) == Remainder(lanes.Get(p), p, n);
    if r == PerLane([], [], []) {
      assert |lanes.Get(Critical)| <= n * Weight(Critical);
      forall p: Priority ensures |lanes.Get(p)| <= n * Weight(p) {
        assert |Remainder(lanes.Get(p), p, n)| == |r.Get(p)| == 0;
      }
    } else {
      assert |r.Get(Critical)| + |r.Get(Interactive)| + |r.Get(Bulk)| > 0;
    }
  }

  /** Two passes after each other leave what one pass twice as long would. */
  lemma RemaindersAdd(lanes: PerLane<seq<FrameId>>, n: nat)
    ensures Remainders(Remainders(lanes, n), 1) == Remainders(lanes, n + 1)
  {
    RemainderAdd(lanes.critical, Critical, n);
    RemainderAdd(lanes.interactive, Interactive, n);
    RemainderAdd(lanes.bulk, Bulk, n);
  }

  lemma RemainderAdd(q: seq<FrameId>, p: Priority, n: nat)
    ensures Remainder(Remainder(q, p, n), p, 1) == Remainder(q, p, n + 1)
  {
    assert (n + 1) * Weight(p) == n * Weight(p) + Weight(p);
  }

  /** Lanes are bounded and hold each frame once; no queued frame has been answered. */
  ghost predicate QueuesOk(lanes: PerLane<seq<FrameId>>, done: map<FrameId, Done>) {
    && (forall p: Priority :: |lanes.Get(p)| <= LANE_CAPACITY && Distinct(lanes.Get(p)))
    && (forall p: Priority, q: Priority, f :: f in lanes.Get(p) && f in lanes.Get(q) ==> p == q)
    && (forall p: Priority, f :: f in lanes.Get(p) ==> f !in done)
  }

  /** Every write was answered with what it did; every other answer comes from drain. */
  ghost predicate AnswersOk(log: seq<Attempt>, done: map<FrameId, Done>) {
    && (forall a :: a in log ==> a.frame in done && done[a.frame] == Outcome(a.ok))
    && (forall f :: f in done && !done[f].Dropped? ==> Attempt(f, done[f].Written?) in log)
  }

  ghost predicate LedgerOk(lanes: PerLane<seq<FrameId>>, enqueued: PerLane<nat>, dequeued: PerLane<nat>,
                           dropped: PerLane<nat>) {
    forall p: Priority :: enqueued.Get(p) == |lanes.Get(p)| + dequeued.Get(p) + dropped.Get(p)
  }

  lemma AnswerHead(lanes: PerLane<seq<FrameId>>, done: map<FrameId, Done>, p: Priority, d: Done)
    requires QueuesOk(lanes, done) && lanes.Get(p) != []
    ensures lanes.Get(p)[0] !in done
    ensures QueuesOk(lanes.Set(p, lanes.Get(p)[1..]), done[lanes.Get(p)[0] := d])
  {
    var q := lanes.Get(p);
    assert Distinct(q);
    GetSet(lanes, p, q[1..]);
  }

  lemma CountHead(lanes: PerLane<seq<FrameId>>, enqueued: PerLane<nat>, dequeued: PerLane<nat>, dropped: PerLane<nat>,
                  p: Priority)
    requires LedgerOk(lanes, enqueued, dequeued, dropped) && lanes.Get(p) != []
    ensures LedgerOk(lanes.Set(p, lanes.Get(p)[1..]), enqueued, dequeued.Set(p, dequeued.Get(p) + 1), dropped)
  {
    GetSet(lanes, p, lanes.Get(p)[1..]);
    GetSet(dequeued, p, dequeued.Get(p) + 1);
  }

  lemma QueueTail(lanes: PerLane<seq<FrameId>>, done: map<FrameId, Done>, p: Priority, f: FrameId)
    requires QueuesOk(lanes, done) && |lanes.Get(p)| < LANE_CAPACITY
    requires f !in done && forall q: Priority :: f !in lanes.Get(q)
    ensures QueuesOk(lanes.Set(p, lanes.Get(p) + [f]), done)
  {
    assert Distinct(lanes.Get(p));
    GetSet(lanes, p, lanes.Get(p) + [f]);
  }

  lemma AnswerWrite(log: seq<Attempt>, done: map<FrameId, Done>, f: FrameId, ok: bool)
    requires AnswersOk(log, done) && f !in done
    ensures AnswersOk(log + [Attempt(f, ok)], done[f := Outcome(ok)])
    ensures FailedWrites(log + [Attempt(f, ok)]) == FailedWrites(log) + (if ok then 0 else 1)
  {
    var log' := log + [Attempt(f, ok)];
    assert log'[..|log'| - 1] == log;
    assert forall a :: a in log' ==> a in log || a == Attempt(f, ok);
    assert log'[|log|] == Attempt(f, ok);
    assert forall a :: a in log ==> a in log';
  }

  /** One frame popped, written with the given outcome, counted and answered. */
  lemma WriteKeeps(lanes: PerLane<seq<FrameId>>, done: map<FrameId, Done>, log: seq<Attempt>, enqueued: PerLane<nat>,
                   dequeued: PerLane<nat>, dropped: PerLane<nat>, p: Priority, ok: bool)
    requires QueuesOk(lanes, done) && AnswersOk(log, done) && LedgerOk(lanes, enqueued, dequeued, dropped)
    requires lanes.Get(p) != []
    ensures var f, rest := lanes.Get(p)[0], lanes.Set(p, lanes.Get(p)[1..]);
            && QueuesOk(rest, done[f := Outcome(ok)]) && AnswersOk(log + [Attempt(f, ok)], done[f := Outcome(ok)])
            && LedgerOk(rest, enqueued, dequeued.Set(p, dequeued.Get(p) + 1), dropped)
            && FailedWrites(log + [Attempt(f, ok)]) == FailedWrites(log) + (if ok then 0 else 1)
  {
    AnswerHead(lanes, done, p, Outcome(ok));
    AnswerWrite(log, done, lanes.Get(p)[0], ok);
    CountHead(lanes, enqueued, dequeued, dropped, p);
  }

  /** One frame popped and answered without a write. */
  lemma DropKeeps(lanes: PerLane<seq<FrameId>>, done: map<FrameId, Done>, log: seq<Attempt>, enqueued: PerLane<nat>,
                  dequeued: PerLane<nat>, dropped: PerLane<nat>, p: Priority)
    requires QueuesOk(lanes, done) && AnswersOk(log, done) && LedgerOk(lanes, enqueued, dequeued, dropped)
    requires lanes.Get(p) != []
    ensures var f, rest := lanes.Get(p)[0], lanes.Set(p, lanes.Get(p)[1..]);
            && f !in done && QueuesOk(rest, done[f := Dropped]) && AnswersOk(log, done[f := Dropped])
            && LedgerOk(rest, enqueued, dequeued, dropped.Set(p, dropped.Get(p) + 1))
  {
    AnswerHead(lanes, done, p, Dropped);
    GetSet(lanes, p, lanes.Get(p)[1..]);
    GetSet(dropped, p, dropped.Get(p) + 1);
  }

  datatype SendOutcome = Accepted | Refused(result: Result)

  class Scheduler {
    var lanes: PerLane<seq<FrameId>>  // the three buffered channels
    var wake: bool
    var stopped: bool
    var stopClosed: bool
    var enqueued: PerLane<nat>
    var dequeued: PerLane<nat>
    var rejected: PerLane<nat>
    var writeErrors: nat
    var done: map<FrameId, Done>      // what has been sent on the frames' done channels
    ghost var log: seq<Attempt>       // conn.Write calls, in order

    ghost var dropped: PerLane<nat>   // frames answered by drain

    ghost predicate Valid()
      reads `lanes, `done, `log, `enqueued, `dequeued, `dropped, `writeErrors
    {
      && QueuesOk(lanes, done) && AnswersOk(log, done)
      && LedgerOk(lanes, enqueued, dequeued, dropped)
      && writeErrors == FailedWrites(log)
    }

    constructor ()
      ensures Valid() && lanes == PerLane([], [], []) && !wake && !stopped && !stopClosed
      ensures enqueued == dequeued == rejected == dropped == PerLane(0, 0, 0) && done == map[] && log == []
    {
      lanes := PerLane([], [], []);
      wake, stopped, stopClosed := false, false, false;
      enqueued, dequeued, rejected := PerLane(0, 0, 0), PerLane(0, 0, 0), PerLane(0, 0, 0);
      writeErrors, done, log, dropped := 0, map[], [], PerLane(0, 0, 0);
    }

    /** enqueue up to the end of its first select.  Among the ready cases Go picks
        any; `default` runs only if none is ready. */
    method TrySend(f: FrameId, p: Priority, cancelled: bool) returns (r: SendOutcome)
      requires Valid() && f !in done && forall q: Priority :: f !in lanes.Get(q)
      modifies this
      ensures Valid()
      ensures r.Accepted? ==>
                && !old(stopped) && |old(lanes).Get(p)| < 64
                && lanes == old(lanes).Set(p, old(lanes).Get(p) + [f])
                && enqueued == old(enqueued).Set(p, old(enqueued).Get(p) + 1) && wake && rejected == old(rejected)
      ensures r.Refused? ==> lanes == old(lanes) && enqueued == old(enqueued) && wake == old(wake)
      ensures r == Refused(QueueFull) <==>
                !old(stopped) && |old(lanes).Get(p)| >= 64 && !cancelled && !stopClosed
      ensures r.Refused? ==>
                && (r.result == Closed ==> old(stopped) || stopClosed)
                && (r.result == Cancelled ==> cancelled)
                && (r.result == QueueFull || r.result == Closed || r.result == Cancelled)
                && rejected ==
                     if r.result == QueueFull then old(rejected).Set(p, old(rejected).Get(p) + 1) else old(rejected)
      ensures unchanged(`stopped, `stopClosed, `dequeued, `writeErrors, `done, `log, `dropped)
    {
      if stopped { return Refused(Closed); }
      var hasRoom := |lanes.Get(p)| < LANE_CAPACITY;
      if {
        case hasRoom =>
          QueueTail(lanes, done, p, f);
          GetSet(lanes, p, lanes.Get(p) + [f]);
          GetSet(enqueued, p, enqueued.Get(p) + 1);
          lanes := lanes.Set(p, lanes.Get(p) + [f]);
          enqueued := enqueued.Set(p, enqueued.Get(p) + 1);
          wake := true;
          r := Accepted;
        case cancelled => r := Refused(Cancelled);
        case stopClosed => r := Refused(Closed);
        case !hasRoom && !cancelled && !stopClosed =>
          rejected := rejected.Set(p, rejected.Get(p) + 1);
          r := Refused(QueueFull);
      }
    }

    /** Receive the head of lane p, write it, count it and answer its caller;
        the connection decides whether the write succeeds. */
    method PopAndWrite(p: Priority) returns (ok: bool, sent: bool)
      requires Valid()
      modifies `lanes, `dequeued, `writeErrors, `done, `log
      ensures Valid()
      ensures ok <==> old(lanes).Get(p) != []
      ensures !ok ==> unchanged(`lanes, `dequeued, `writeErrors, `done, `log)
      ensures ok ==>
                && lanes == old(lanes).Set(p, old(lanes).Get(p)[1..])
                && log == old(log) + [Attempt(old(lanes).Get(p)[0], sent)]
                && done == old(done)[old(lanes).Get(p)[0] := Outcome(sent)]
                && dequeued == old(dequeued).Set(p, old(dequeued).Get(p) + 1)
    {
      sent := *;
      var q := lanes.Get(p);
      if q == [] { return false, sent; }
      var f := q[0];
      WriteKeeps(lanes, done, log, enqueued, dequeued, dropped, p, sent);
      lanes := lanes.Set(p, q[1..]);
      log := log + [Attempt(f, sent)];
      if !sent { writeErrors := writeErrors + 1; }
      dequeued := dequeued.Set(p, dequeued.Get(p) + 1);
      done := done[f := Outcome(sent)];
      ok := true;
    }

    /** The inner loop of a pass: up to the lane's weight, stopping early on an empty lane. */
    method ServeLane(p: Priority)
      requires Valid()
      modifies `lanes, `dequeued, `writeErrors, `done, `log
      ensures Valid()
      ensures lanes == old(lanes).Set(p, Remainder(old(lanes).Get(p), p, 1))
      ensures Wrote(old(log), log, Share(old(lanes).Get(p), p, 1))
    {
      var n := 0;
      ghost var start, q := lanes, lanes.Get(p);
      SetGet(start, p);
      while n < Weight(p)
        invariant Valid() && n <= Weight(p) && n <= |q|
        invariant lanes == start.Set(p, q[n..])
        invariant Wrote(old(log), log, q[..n])
      {
        ghost var before := log;
        assert lanes.Get(p) == q[n..] by { GetSet(start, p, q[n..]); }
        var ok, sent := PopAndWrite(p);
        if !ok { break; }
        WroteMore(old(log), before, log, q[..n], [q[n]]);
        assert q[..n] + [q[n]] == q[..n + 1];
        SetSet(start, p, q[n..], q[n..][1..]);
        n := n + 1;
      }
    }

    /** One weighted pass, critical first. */
    method RunPass()
      requires Valid()
      modifies `lanes, `dequeued, `writeErrors, `done, `log
      ensures Valid()
      ensures lanes == Remainders(old(lanes), 1)
      ensures Wrote(old(log), log, PassOrder(old(lanes)))
    {
      ghost var all := lanes;
      ServeLane(Critical);
      ghost var log1 := log;
      ServeLane(Interactive);
      ghost var log2 := log;
      WroteMore(old(log), log1, log2, Share(all.critical, Critical, 1), Share(all.interactive, Interactive, 1));
      ServeLane(Bulk);
      WroteMore(old(log), log2, log, Share(all.critical, Critical, 1) + Share(all.interactive, Interactive, 1),
                Share(all.bulk, Bulk, 1));
    }

    /** One more pass after n of them. */
    method RunPassAfter(ghost lanes0: PerLane<seq<FrameId>>, ghost log0: seq<Attempt>, ghost n: nat)
      requires Valid() && Passes(lanes0, log0, n, lanes, log)
      modifies `lanes, `dequeued, `writeErrors, `done, `log
      ensures Valid() && Passes(lanes0, log0, n + 1, lanes, log)
    {
      ghost var lanes1, log1 := lanes, log;
      RunPass();
      OneMorePass(lanes0, log0, n, lanes1, log1, log);
    }

    /** Answer one lane's frames without writing them. */
    method DrainLane(p: Priority)
      requires Valid()
      modifies `lanes, `done, `dropped
      ensures Valid()
      ensures lanes == old(lanes).Set(p, [])
      ensures forall f :: f in old(done) ==> f in done && done[f] == old(done)[f]
      ensures forall f :: f in done <==> f in old(done) || f in old(lanes).Get(p)
      ensures forall f :: f in old(lanes).Get(p) ==> done[f] == Dropped
    {
      ghost var q := lanes.Get(p);
      ghost var n := 0;
      while lanes.Get(p) != []
        invariant Valid() && n <= |q|
        invariant lanes == old(lanes).Set(p, q[n..])
        invariant forall f :: f in old(done) ==> f in done && done[f] == old(done)[f]
        invariant forall f :: f in done <==> f in old(done) || f in q[..n]
        invariant forall f :: f in q[..n] ==> done[f] == Dropped
        decreases |lanes.Get(p)|
      {
        var rest := lanes.Get(p);
        DropKeeps(lanes, done, log, enqueued, dequeued, dropped, p);
        GetSet(lanes, p, rest[1..]);
        SetSet(old(lanes), p, rest, rest[1..]);
        done := done[rest[0] := Dropped];
        lanes := lanes.Set(p, rest[1..]);
        dropped := dropped.Set(p, dropped.Get(p) + 1);
        n := n + 1;
        assert q[..n] == q[..n - 1] + [rest[0]];
      }
    }

    /** drain: every queued frame is answered with an error, none is written. */
    method Drain()
      requires Valid()
      modifies `lanes, `done, `dropped
      ensures Valid()
      ensures lanes == PerLane([], [], [])
      ensures forall f :: f in old(done) ==> f in done && done[f] == old(done)[f]
      ensures forall p: Priority, f :: f in old(lanes).Get(p) ==> f in done && done[f] == Dropped
    {
      DrainLane(Critical);
      DrainLane(Interactive);
      DrainLane(Bulk);
    }

    /** One turn of the writer's loop up to the stop check: after the pass it leaves,
        with nothing left and nothing more written, or goes on. */
    method PassOrLeave(ghost lanes0: PerLane<seq<FrameId>>, ghost log0: seq<Attempt>, ghost n: nat) returns (left: bool)
      requires Valid() && Passes(lanes0, log0, n, lanes, log)
      modifies `lanes, `dequeued, `writeErrors, `done, `log, `dropped
      ensures Valid() && left == stopClosed
      ensures left ==> lanes == PerLane([], [], []) && Wrote(log0, log, PassOrders(lanes0, n + 1))
      ensures !left ==> Passes(lanes0, log0, n + 1, lanes, log)
    {
      RunPassAfter(lanes0, log0, n);
      left := stopClosed;
      if left { Drain(); }
    }

    /** The writer's loop, from the start of a pass until it parks or has shut down.
        With no token a lane loses one pass's worth, with a token two; by EmptiedIff
        it comes to rest with empty lanes exactly if each lane fits into that. */
    method Run() returns (exited: bool)
      requires Valid()
      modifies `lanes, `wake, `dequeued, `writeErrors, `done, `log, `dropped
      ensures Valid()
      ensures exited <==> stopClosed
      ensures exited ==> lanes == PerLane([], [], []) && Wrote(old(log), log, PassOrders(old(lanes), Turns(false)))
      ensures !exited ==> !wake && Passes(old(lanes), old(log), Turns(old(wake)), lanes, log)
    {
      ghost var n := 0;
      NoPass(lanes, log);
      while true
        invariant Valid()
        invariant n + Turns(wake) == Turns(old(wake))
        invariant n > 0 ==> !stopClosed
        invariant Passes(old(lanes), old(log), n, lanes, log)
        decreases wake
      {
        exited := PassOrLeave(old(lanes), old(log), n);
        if exited { return; }
        if wake {
          wake := false;
        } else {
          return false;
        }
        n := n + 1;
      }
    }

    /** close: later calls of enqueue are refused and the writer will shut down. */
    method Close()
      requires Valid()
      modifies `stopped, `stopClosed
      ensures Valid() && stopped && (old(stopped) || stopClosed)
      ensures old(stopped) ==> stopClosed == old(stopClosed)
    {
      if !stopped {
        stopped := true;
        stopClosed := true;
      }
    }
  }
}
