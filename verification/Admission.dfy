/** The per-agent limit on requests in flight: a counter read and swapped by any
    number of requests at once, without a lock. */
module Admission {

  const LIMIT: nat := 16

  /** Where one request stands. `Loaded` remembers the value it read and how often
      the counter had changed by then. */
  datatype Phase =
    | Loading
    | Loaded(seen: int, changesThen: nat)
    | Holding
    | Refused(seen: int)
    | Released

  /** One request, and how often its swap has failed. */
  datatype Caller = Caller(at: Phase, failures: nat)

  datatype State = State(
    active: int,           // the shared counter
    callers: seq<Caller>,  // every request that ever arrived
    acquired: nat,         // successful swaps
    released: nat)
  {
    function Changes(): nat { acquired + released }
  }

  datatype Event =
    | Arrive
    | Load(who: nat)
    | Swap(who: nat)
    | Release(who: nat)

  const START: State := State(0, [], 0, 0)

  predicate Enabled(s: State, e: Event) {
    match e
    case Arrive => true
    case Load(i) => i < |s.callers| && s.callers[i].at.Loading?
    case Swap(i) => i < |s.callers| && s.callers[i].at.Loaded?
    case Release(i) => i < |s.callers| && s.callers[i].at.Holding?
  }

  /** One atomic step of one request. */
  function Next(s: State, e: Event): State
    requires Enabled(s, e)
  {
    match e
    case Arrive => s.(callers := s.callers + [Caller(Loading, 0)])
    case Load(i) =>
      var phase := if s.active >= LIMIT then Refused(s.active) else Loaded(s.active, s.Changes());
      s.(callers := s.callers[i := s.callers[i].(at := phase)])
    case Swap(i) =>
      if s.active == s.callers[i].at.seen
      then s.(active := s.active + 1, acquired := s.acquired + 1,
              callers := s.callers[i := s.callers[i].(at := Holding)])
      else s.(callers := s.callers[i := Caller(Loading, s.callers[i].failures + 1)])
    case Release(i) =>
      s.(active := s.active - 1, callers := s.callers[i := s.callers[i].(at := Released)], released := s.released + 1)
  }

  /** How many requests hold a place. */
  function Holders(callers: seq<Caller>): nat {
    if callers == [] then 0
    else Holders(callers[..|callers| - 1]) + (if callers[|callers| - 1].at.Holding? then 1 else 0)
  }

  lemma {:induction false} HoldersUpdate(callers: seq<Caller>, i: nat, c: Caller)
    requires i < |callers|
    ensures Holders(callers[i := c])
         == Holders(callers) - (if callers[i].at.Holding? then 1 else 0) + (if c.at.Holding? then 1 else 0)
  {
    var n := |callers| - 1;
    var updated := callers[i := c];
    if i == n {
      assert updated[..n] == callers[..n];
    } else {
      assert updated[..n] == callers[..n][i := c];
      HoldersUpdate(callers[..n], i, c);
    }
  }

  lemma HoldersSnoc(callers: seq<Caller>, c: Caller)
    ensures Holders(callers + [c]) == Holders(callers) + (if c.at.Holding? then 1 else 0)
  {
    assert (callers + [c])[..|callers|] == callers;
  }

  // ---- the invariant ----

  /** What is known of one request, given the counter and its number of changes. */
  ghost predicate CallerInv(c: Caller, active: int, changes: nat) {
    match c.at
    case Loaded(seen, then_) =>
      && 0 <= seen < LIMIT
      && c.failures <= then_ <= changes
      && (then_ == changes ==> seen == active)
    case Refused(seen) => seen == LIMIT && c.failures <= changes
    case _ => c.failures <= changes
  }

  ghost predicate CounterInv(s: State) {
    s.active == Holders(s.callers) <= LIMIT && s.acquired == s.released + s.active
  }

  ghost predicate Inv(s: State) {
    && CounterInv(s)
    && forall i :: 0 <= i < |s.callers| ==> CallerInv(s.callers[i], s.active, s.Changes())
  }

  lemma StepInv(s: State, e: Event)
    requires Inv(s) && Enabled(s, e)
    ensures Inv(Next(s, e))
  {
    match e
    case Arrive => HoldersSnoc(s.callers, Caller(Loading, 0));
    case Load(i) => HoldersUpdate(s.callers, i, Next(s, e).callers[i]);
    case Swap(i) =>
      assert CallerInv(s.callers[i], s.active, s.Changes());
      HoldersUpdate(s.callers, i, Next(s, e).callers[i]);
    case Release(i) => HoldersUpdate(s.callers, i, Next(s, e).callers[i]);
  }

  // ---- runs ----

  predicate ValidRun(s: State, run: seq<Event>)
    decreases |run|
  {
    run == [] || (Enabled(s, run[0]) && ValidRun(Next(s, run[0]), run[1..]))
  }

  function After(s: State, run: seq<Event>): State
    requires ValidRun(s, run)
    decreases |run|
  {
    if run == [] then s else After(Next(s, run[0]), run[1..])
  }

  /** Some interleaving of any number of requests leads to s. */
  ghost predicate Reachable(s: State) {
    exists run :: ValidRun(START, run) && After(START, run) == s
  }

  lemma {:induction false} RunInv(s: State, run: seq<Event>)
    requires Inv(s) && ValidRun(s, run)
    ensures Inv(After(s, run))
    decreases |run|
  {
    if run != [] {
      StepInv(s, run[0]);
      RunInv(Next(s, run[0]), run[1..]);
    }
  }

  lemma ReachableInv(s: State)
    requires Reachable(s)
    ensures Inv(s)
  {
    var run :| ValidRun(START, run) && After(START, run) == s;
    RunInv(START, run);
  }

  lemma {:induction false} RunSnoc(s: State, run: seq<Event>, e: Event)
    requires ValidRun(s, run) && Enabled(After(s, run), e)
    ensures ValidRun(s, run + [e]) && After(s, run + [e]) == Next(After(s, run), e)
    decreases |run|
  {
    if run == [] {
      assert [] + [e] == [e] && [e][0] == e && [e][1..] == [];
      assert ValidRun(Next(s, e), []) && After(Next(s, e), []) == Next(s, e);
    } else {
      assert (run + [e])[0] == run[0] && (run + [e])[1..] == run[1..] + [e];
      RunSnoc(Next(s, run[0]), run[1..], e);
    }
  }

  lemma StepReachable(s: State, e: Event)
    requires Reachable(s) && Enabled(s, e)
    ensures Reachable(Next(s, e))
  {
    var run :| ValidRun(START, run) && After(START, run) == s;
    RunSnoc(START, run, e);
  }

  /** The counter counts the requests in flight, never above the limit, and every
      place taken was given back or is still held. */
  lemma CounterCountsHolders(s: State)
    requires Reachable(s)
    ensures s.active == Holders(s.callers) <= 16 && s.acquired == s.released + s.active
  {
    ReachableInv(s);
  }

  /** A request is turned away by a load exactly when that load finds every place held. */
  lemma RefusedIffFull(s: State, i: nat)
    requires Reachable(s) && Enabled(s, Load(i))
    ensures Next(s, Load(i)).callers[i].at.Refused? <==> Holders(s.callers) == 16
  {
    ReachableInv(s);
  }

  /** Every request that was ever refused saw a full counter. */
  lemma RefusedSawLimit(s: State, i: nat)
    requires Reachable(s) && i < |s.callers| && s.callers[i].at.Refused?
    ensures s.callers[i].at.seen == 16
  {
    ReachableInv(s);
    assert CallerInv(s.callers[i], s.active, s.Changes());
  }

  /** A swap takes a place exactly if the counter is still what the request has read;
      otherwise the request loads again. It never refuses. */
  lemma SwapTakesIffUnchanged(s: State, i: nat)
    requires Enabled(s, Swap(i))
    ensures var c := Next(s, Swap(i)).callers[i];
            if s.active == s.callers[i].at.seen
            then c.at == Holding && Next(s, Swap(i)).active == s.active + 1
            else c.at == Loading && Next(s, Swap(i)).active == s.active && c.failures == s.callers[i].failures + 1
  {
  }

  /** A swap can only fail when some request has acquired or released since the
      load, so no request retries more often than the counter has changed. */
  lemma RetriesNeedProgress(s: State, i: nat)
    requires Reachable(s) && i < |s.callers|
    ensures s.callers[i].failures <= s.acquired + s.released
    ensures
      var c := s.callers[i].at;
      c.Loaded? && c.seen != s.active ==> c.changesThen < s.acquired + s.released
  {
    ReachableInv(s);
    assert CallerInv(s.callers[i], s.active, s.Changes());
  }

  /** A request that loads while a place is free, and is not interrupted, gets it. */
  lemma UncontendedGetsAPlace(s: State, i: nat)
    requires Reachable(s) && Enabled(s, Load(i)) && Holders(s.callers) < 16
    ensures Enabled(Next(s, Load(i)), Swap(i))
    ensures var t := Next(Next(s, Load(i)), Swap(i));
            && Reachable(t) && t.callers == s.callers[i := s.callers[i].(at := Holding)]
            && Holders(t.callers) == Holders(s.callers) + 1
  {
    assert CounterInv(s) by { ReachableInv(s); }
    HoldersUpdate(s.callers, i, s.callers[i].(at := Holding));
    StepReachable(s, Load(i));
    StepReachable(Next(s, Load(i)), Swap(i));
  }
}
