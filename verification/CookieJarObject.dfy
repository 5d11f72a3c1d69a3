/** The jar as code: the nested map, the loop over Set-Cookie records, and the
    loops of requestHeader over Go's unordered maps. */
module CookieJarObject {
  import opened Options
  import opened GoStrings
  import opened CookiePaths
  import opened CookieHeader
  import opened CookieJar

  /** The parser's answer to one Set-Cookie line is used only if it names a cookie
      that is not the manager's own. */
  predicate Accepted(c: Option<SetCookie>) {
    c.Some? && c.value.name != "" && !IsManagerName(c.value.name)
  }

  /** What the parser guarantees of a name and a value. */
  predicate WellParsed(c: SetCookie) {
    Trimmed(c.name) && !Contains(c.name, '=') && !Contains(c.name, ';') && !Contains(c.value, ';')
  }

  function Accept(records: seq<Option<SetCookie>>, now: int, requestPath: string): seq<Event> {
    if records == [] then []
    else
      var n := |records| - 1;
      Accept(records[..n], now, requestPath) +
      (if Accepted(records[n]) then [Event(now, requestPath, records[n].value)] else [])
  }

  ghost predicate LogOk(log: seq<Event>) {
    forall i :: 0 <= i < |log| ==> WellParsed(log[i].cookie) && Accepted(Some(log[i].cookie))
  }

  type Values = map<string, map<string, Cookie>>

  function Slot(values: Values, name: string): map<string, Cookie> {
    if name in values then values[name] else map[]
  }

  /** The nested map says what the log says; a name without cookies is not kept. */
  ghost predicate Refines(values: Values, log: seq<Event>) {
    && (forall name :: Slot(values, name) == Replay(log, name))
    && (forall name :: name in values ==> values[name] != map[])
  }

  /** One accepted record, as the loop body of apply treats it. */
  function Step(values: Values, e: Event): Values {
    var byPath := Slot(values, e.cookie.name);
    if Deletes(e) then
      var rest := byPath - {EffectivePath(e)};
      if rest == map[] then values - {e.cookie.name} else values[e.cookie.name := rest]
    else values[e.cookie.name := byPath[EffectivePath(e) := Stored(e)]]
  }

  lemma StepRefines(values: Values, log: seq<Event>, e: Event)
    requires Refines(values, log)
    ensures Refines(Step(values, e), log + [e])
  {
    var after := Step(values, e);
    assert (log + [e])[..|log|] == log;
    forall name ensures Slot(after, name) == Replay(log + [e], name) {
      assert Slot(values, name) == Replay(log, name);
    }
    if !Deletes(e) {
      assert EffectivePath(e) in after[e.cookie.name];
    }
  }

  /** A cookie stored in the log's replay came from an accepted record. */
  lemma {:induction false} ReplayFromLog(log: seq<Event>, name: string, path: string)
    requires LogOk(log) && path in Replay(log, name)
    ensures Clean(Pair(name, Trim(Replay(log, name)[path].value)))
  {
    var n := |log| - 1;
    var e := log[n];
    if Writes(e, name, path) && !Deletes(e) {
      TrimLacks(e.cookie.value, ';');
      var _, _ := TrimSplits(e.cookie.value);
    } else {
      ReplayFromLog(log[..n], name, path);
    }
  }

  // ---- the accumulators of requestHeader: a map and an order of first appearance ----

  ghost predicate Ordered(order: seq<string>, values: map<string, string>) {
    && (forall n :: n in order <==> n in values)
    && (forall i, j :: 0 <= i < j < |order| ==> order[i] != order[j])
  }

  /** The pairs the accumulators stand for. */
  function PairsOf(order: seq<string>, values: map<string, string>): seq<Pair>
    requires forall i :: 0 <= i < |order| ==> order[i] in values
  {
    if order == [] then []
    else [Pair(order[0], values[order[0]])] + PairsOf(order[1..], values)
  }

  lemma {:induction false} PairsOfAt(order: seq<string>, values: map<string, string>)
    requires forall i :: 0 <= i < |order| ==> order[i] in values
    ensures |PairsOf(order, values)| == |order|
    ensures forall i :: 0 <= i < |order| ==> PairsOf(order, values)[i] == Pair(order[i], values[order[i]])
  {
    if order != [] { PairsOfAt(order[1..], values); }
  }

  lemma PutKnown(order: seq<string>, values: map<string, string>, n: string, v: string)
    requires Ordered(order, values) && n in values
    ensures PairsOf(order, values[n := v]) == Put(PairsOf(order, values), n, v)
  {
    PairsOfAt(order, values);
    PairsOfAt(order, values[n := v]);
    var before, after := PairsOf(order, values), PairsOf(order, values[n := v]);
    var j :| 0 <= j < |order| && order[j] == n;
    assert before[j].name == n;
    var i := Position(before, n, 0);
    assert order[i] == before[i].name == n;
    assert i == j;
    assert after == before[i := Pair(n, v)];
  }

  lemma PutNew(order: seq<string>, values: map<string, string>, n: string, v: string)
    requires Ordered(order, values) && n !in values
    ensures Ordered(order + [n], values[n := v])
    ensures PairsOf(order + [n], values[n := v]) == Put(PairsOf(order, values), n, v)
  {
    PairsOfAt(order, values);
    PairsOfAt(order + [n], values[n := v]);
    var before, after := PairsOf(order, values), PairsOf(order + [n], values[n := v]);
    assert forall i :: 0 <= i < |order| ==> before[i].name == order[i] != n;
    assert Position(before, n, 0) == |before|;
    assert after == before + [Pair(n, v)];
  }

  /** The closure `add`. */
  method AddTo(order: seq<string>, values: map<string, string>, name: string, value: string)
    returns (order': seq<string>, values': map<string, string>)
    requires Ordered(order, values)
    ensures Ordered(order', values') && PairsOf(order', values') == AddPair(PairsOf(order, values), name, value)
  {
    var n := Trim(name);
    order', values' := order, values;
    if n == "" || IsManagerName(n) { return; }
    if n in values {
      PutKnown(order, values, n, Trim(value));
    } else {
      PutNew(order, values, n, Trim(value));
      order' := order + [n];
    }
    values' := values[n := Trim(value)];
  }

  method ParseInto(header: string) returns (order: seq<string>, values: map<string, string>)
    ensures Ordered(order, values) && PairsOf(order, values) == Parse(header)
  {
    var parts := Split(header, ';');
    order, values := [], map[];
    assert parts[0..] == parts;
    for k := 0 to |parts|
      invariant Ordered(order, values) && AddParts(PairsOf(order, values), parts[k..]) == Parse(header)
    {
      assert parts[k..][0] == parts[k] && parts[k..][1..] == parts[k + 1..];
      var c := Cut(parts[k], '=');
      if c.found { order, values := AddTo(order, values, c.before, c.after); }
    }
  }

  lemma {:induction false} TextsAt(pairs: seq<Pair>, parts: seq<string>)
    requires |parts| == |pairs| && forall i :: 0 <= i < |pairs| ==> parts[i] == PairText(pairs[i])
    ensures parts == Texts(pairs)
  {
    if pairs != [] {
      TextsAt(pairs[1..], parts[1..]);
      assert parts == [parts[0]] + parts[1..];
    }
  }

  method PrintFrom(order: seq<string>, values: map<string, string>) returns (header: string)
    requires Ordered(order, values)
    ensures header == Print(PairsOf(order, values))
  {
    var parts := Lines(order, values);
    PairsOfAt(order, values);
    TextsAt(PairsOf(order, values), parts);
    header := Join(parts, "; ");
  }

  method Lines(order: seq<string>, values: map<string, string>) returns (parts: seq<string>)
    requires forall i :: 0 <= i < |order| ==> order[i] in values
    ensures |parts| == |order|
    ensures forall i :: 0 <= i < |order| ==> parts[i] == PairText(Pair(order[i], values[order[i]]))
  {
    parts := [];
    for k := 0 to |order|
      invariant |parts| == k
      invariant forall i :: 0 <= i < k ==> parts[i] == PairText(Pair(order[i], values[order[i]]))
    {
      parts := parts + [order[k] + "=" + values[order[k]]];
    }
  }

  // ---- sort.Strings on the jar's names ----

  function Insert(names: seq<string>, n: string): seq<string> {
    if names == [] || StrLess(n, names[0]) then [n] + names else [names[0]] + Insert(names[1..], n)
  }

  lemma {:induction false} InsertMembers(names: seq<string>, n: string, m: string)
    ensures m in Insert(names, n) <==> m == n || m in names
  {
    if !(names == [] || StrLess(n, names[0])) {
      InsertMembers(names[1..], n, m);
      assert m in names <==> m == names[0] || m in names[1..];
    }
  }

  lemma {:induction false} InsertAscending(names: seq<string>, n: string)
    requires Ascending(names) && n !in names
    ensures Ascending(Insert(names, n))
  {
    if names == [] {
    } else if StrLess(n, names[0]) {
      forall j | 0 <= j < |names| ensures StrLess(n, names[j]) {
        if j > 0 { StrLessTransitive(n, names[0], names[j]); }
      }
    } else {
      StrLessTotal(n, names[0]);
      InsertAscending(names[1..], n);
      var rest := Insert(names[1..], n);
      forall j | 0 <= j < |rest| ensures StrLess(names[0], rest[j]) {
        InsertMembers(names[1..], n, rest[j]);
        if rest[j] != n { var i :| 0 <= i < |names[1..]| && names[1..][i] == rest[j]; }
      }
    }
  }

  method SortedNames(keys: set<string>) returns (names: seq<string>)
    ensures Ascending(names) && forall n :: n in names <==> n in keys
  {
    names := [];
    var rest := keys;
    while rest != {}
      invariant rest <= keys && Ascending(names) && forall n :: n in names <==> n in keys - rest
      decreases rest
    {
      var n :| n in rest;
      InsertAscending(names, n);
      forall m ensures m in Insert(names, n) <==> m == n || m in names { InsertMembers(names, n, m); }
      names := Insert(names, n);
      rest := rest - {n};
    }
  }

  lemma {:induction false} AddAllSnoc(pairs: seq<Pair>, jar: seq<Pair>, p: Pair)
    ensures AddAll(pairs, jar + [p]) == AddPair(AddAll(pairs, jar), p.name, p.value)
    decreases |jar|
  {
    if jar == [] {
      assert [] + [p] == [p];
      assert AddAll(pairs, [p]) == AddAll(AddPair(pairs, p.name, p.value), []);
    } else {
      assert (jar + [p])[1..] == jar[1..] + [p];
      AddAllSnoc(AddPair(pairs, jar[0].name, jar[0].value), jar[1..], p);
    }
  }

  class ProxyCookieJar {
    var values: Values
    ghost var log: seq<Event>

    ghost predicate Valid()
      reads this
    {
      Refines(values, log) && LogOk(log)
    }

    constructor ()
      ensures Valid() && values == map[] && log == []
    {
      values, log := map[], [];
    }

    /** The loop body of apply for a record that is used. */
    method ApplyOne(cookie: SetCookie, requestPath: string, now: int)
      modifies `values
      ensures values == Step(old(values), Event(now, requestPath, cookie))
    {
      var path := Normalize(cookie.path);
      if cookie.path == "" { path := DefaultPath(requestPath); }
      var byPath := if cookie.name in values then values[cookie.name] else map[];
      if cookie.maxAge < 0 || (cookie.expires.Some? && cookie.expires.value < now) {
        byPath := byPath - {path};
        values := if byPath == map[] then values - {cookie.name} else values[cookie.name := byPath];
        return;
      }
      var expiresAt := None;
      if cookie.maxAge > 0 {
        expiresAt := Some(now + cookie.maxAge);
      } else if cookie.expires.Some? {
        expiresAt := cookie.expires;
      }
      byPath := byPath[path := Cookie(cookie.value, path, expiresAt)];
      values := values[cookie.name := byPath];
    }

    /** apply: every accepted record is added to the log, in order, at one time. */
    method Apply(records: seq<Option<SetCookie>>, requestPath: string, now: int)
      requires Valid()
      requires forall k :: 0 <= k < |records| && Accepted(records[k]) ==> WellParsed(records[k].value)
      modifies this
      ensures Valid() && log == old(log) + Accept(records, now, requestPath)
    {
      for k := 0 to |records|
        invariant Refines(values, log) && LogOk(log)
        invariant log == old(log) + Accept(records[..k], now, requestPath)
      {
        AcceptStep(records, k, now, requestPath);
        if Accepted(records[k]) {
          StepRefines(values, log, Event(now, requestPath, records[k].value));
          ApplyOne(records[k].value, requestPath, now);
          log := log + [Event(now, requestPath, records[k].value)];
        }
      }
      assert records[..|records|] == records;
    }

    /** requestHeader: the browser's pairs, updated and completed with the longest
        live match of every name in the jar, and nothing else. */
    method RequestHeader(requestPath: string, browserHeader: string, now: int) returns (header: string)
      requires Valid()
      ensures Sends(log, requestPath, now, browserHeader, header)
    {
      var order, vals := ParseInto(browserHeader);
      ghost var jar;
      order, vals, jar := AddJar(values, log, requestPath, now, order, vals);
      header := PrintFrom(order, vals);
    }
  }

  /** One pass over the paths of a name, in whatever order the map gives them. */
  method SelectBest(byPath: map<string, Cookie>, requestPath: string, now: int) returns (best: Option<Cookie>)
    requires PathsOk(byPath)
    ensures best.Some? ==> IsBest(byPath, requestPath, now, best.value)
    ensures best.None? ==> forall c :: !IsBest(byPath, requestPath, now, c)
  {
    best := None;
    var rest := byPath.Keys;
    while rest != {}
      invariant rest <= byPath.Keys
      invariant best.Some? ==>
                  Candidate(byPath, best.value.path, requestPath, now) && byPath[best.value.path] == best.value
      invariant forall q :: Candidate(byPath, q, requestPath, now) && q !in rest ==>
                  best.Some? && |q| <= |best.value.path|
      decreases rest
    {
      var path :| path in rest;
      rest := rest - {path};
      var cookie := byPath[path];
      if cookie.expiresAt.Some? && now >= cookie.expiresAt.value { continue; }
      if !PathMatches(path, requestPath) || (best.Some? && |path| <= |best.value.path|) { continue; }
      best := Some(cookie);
    }
  }

  lemma PrefixAscending(names: seq<string>, k: nat)
    requires Ascending(names) && k < |names|
    ensures names[..k + 1] == names[..k] + [names[k]] && Ascending(names[..k] + [names[k]])
  {
  }

  /** The second half of requestHeader: every name of the jar, in order. */
  method AddJar(values: Values, ghost log: seq<Event>, requestPath: string, now: int,
                order: seq<string>, vals: map<string, string>)
    returns (order': seq<string>, vals': map<string, string>, ghost jar: seq<Pair>)
    requires Refines(values, log) && LogOk(log) && Ordered(order, vals)
    ensures JarPairs(log, requestPath, now, jar) && CleanList(jar)
    ensures Ordered(order', vals') && PairsOf(order', vals') == AddAll(PairsOf(order, vals), jar)
  {
    order', vals', jar := order, vals, [];
    var names := SortedNames(values.Keys);
    for k := 0 to |names|
      invariant Ordered(order', vals') && PairsOf(order', vals') == AddAll(PairsOf(order, vals), jar)
      invariant Collected(log, requestPath, now, names[..k], jar)
    {
      assert names[k] in names;
      PrefixAscending(names, k);
      order', vals', jar := AddName(values, log, requestPath, now, names[k], order', vals',
                                      PairsOf(order, vals), names[..k], jar);
    }
    assert names[..|names|] == names;
    CollectedAll(values, log, requestPath, now, names, jar);
  }

  /** One name of the jar, after the names seen so far. */
  method AddName(values: Values, ghost log: seq<Event>, requestPath: string, now: int, name: string,
                 order: seq<string>, vals: map<string, string>,
                 ghost browser: seq<Pair>, ghost names: seq<string>, ghost jar: seq<Pair>)
    returns (order': seq<string>, vals': map<string, string>, ghost jar': seq<Pair>)
    requires Refines(values, log) && LogOk(log) && name in values
    requires Collected(log, requestPath, now, names, jar) && Ascending(names + [name])
    requires Ordered(order, vals) && PairsOf(order, vals) == AddAll(browser, jar)
    ensures Ordered(order', vals') && PairsOf(order', vals') == AddAll(browser, jar')
    ensures Collected(log, requestPath, now, names + [name], jar')
  {
    assert values[name] == Replay(log, name) by { assert values[name] == Slot(values, name); }
    ReplayPaths(log, name);
    var best := SelectBest(values[name], requestPath, now);
    CollectName(log, requestPath, now, names, jar, name, best);
    jar' := jar + Offered(name, best);
    order', vals' := AddOffered(order, vals, name, best, browser, jar);
  }

  method AddOffered(order: seq<string>, vals: map<string, string>, name: string, best: Option<Cookie>,
                    ghost browser: seq<Pair>, ghost jar: seq<Pair>)
    returns (order': seq<string>, vals': map<string, string>)
    requires Ordered(order, vals) && PairsOf(order, vals) == AddAll(browser, jar)
    ensures Ordered(order', vals') && PairsOf(order', vals') == AddAll(browser, jar + Offered(name, best))
  {
    order', vals' := order, vals;
    if best.Some? {
      TrimTwice(PairsOf(order, vals), name, best.value.value);
      AddAllSnoc(browser, jar, Pair(name, Trim(best.value.value)));
      order', vals' := AddTo(order, vals, name, best.value.value);
    } else {
      assert jar + [] == jar;
    }
  }

  /** header is what a jar with this log makes of the browser's header. */
  ghost predicate Sends(log: seq<Event>, requestPath: string, now: int, browserHeader: string, header: string) {
    exists jar :: JarPairs(log, requestPath, now, jar) && CleanList(jar) && header == Header(browserHeader, jar)
  }

  /** The log, the request and the time determine the header: the order in which
      Go's maps are read cannot be seen in it. */
  lemma HeaderIsDetermined(log: seq<Event>, requestPath: string, now: int, browserHeader: string, a: string, b: string)
    requires Sends(log, requestPath, now, browserHeader, a) && Sends(log, requestPath, now, browserHeader, b)
    ensures a == b
  {
    var x :| JarPairs(log, requestPath, now, x) && CleanList(x) && a == Header(browserHeader, x);
    var y :| JarPairs(log, requestPath, now, y) && CleanList(y) && b == Header(browserHeader, y);
    JarPairsUnique(log, requestPath, now, x, y);
  }

  /** Sending the header through the jar again, at the same time and path, changes
      nothing; nor does the target cookie the manager adds before. */
  lemma ResendIsFixedPoint(log: seq<Event>, requestPath: string, now: int, browserHeader: string, session: string,
                           sent: string, resent: string, withTarget: string)
    requires Sends(log, requestPath, now, browserHeader, sent)
    requires Sends(log, requestPath, now, sent, resent)
    requires !Contains(session, ';')
    requires Sends(log, requestPath, now, Join(Kept(Split(browserHeader, ';')) + ["dsh-target=" + session], "; "),
                   withTarget)
    ensures resent == sent && withTarget == sent
  {
    var x :| JarPairs(log, requestPath, now, x) && CleanList(x) && sent == Header(browserHeader, x);
    var y :| JarPairs(log, requestPath, now, y) && CleanList(y) && resent == Header(sent, y);
    var h := Join(Kept(Split(browserHeader, ';')) + ["dsh-target=" + session], "; ");
    var z :| JarPairs(log, requestPath, now, z) && CleanList(z) && withTarget == Header(h, z);
    JarPairsUnique(log, requestPath, now, x, y);
    JarPairsUnique(log, requestPath, now, x, z);
    HeaderFixedPoint(browserHeader, x);
    TargetCookieInvisible(browserHeader, session, x);
  }

  /** The jar's pairs for the names seen so far. */
  ghost predicate Collected(log: seq<Event>, requestPath: string, now: int, names: seq<string>, jar: seq<Pair>) {
    && Ascending(names) && Ascending(Names(jar)) && CleanList(jar)
    && forall p :: p in jar <==> p.name in names && Offers(log, requestPath, now, p)
  }

  lemma TrimTwice(pairs: seq<Pair>, name: string, value: string)
    ensures AddPair(pairs, name, value) == AddPair(pairs, name, Trim(value))
  {
    var _, _ := TrimSplits(value);
    TrimTrimmed(Trim(value));
  }

  /** What the jar has for the next name: its best cookie's value, or nothing. */
  function Offered(name: string, best: Option<Cookie>): seq<Pair> {
    if best.Some? then [Pair(name, Trim(best.value.value))] else []
  }

  ghost predicate Selects(log: seq<Event>, requestPath: string, now: int, name: string, best: Option<Cookie>) {
    && (best.Some? ==> IsBest(Replay(log, name), requestPath, now, best.value))
    && (best.None? ==> forall c :: !IsBest(Replay(log, name), requestPath, now, c))
  }

  /** A name offers exactly the one pair selected for it. */
  lemma OffersSelected(log: seq<Event>, requestPath: string, now: int, best: Option<Cookie>, p: Pair)
    requires Selects(log, requestPath, now, p.name, best)
    ensures Offers(log, requestPath, now, p) <==> p in Offered(p.name, best)
  {
    ReplayPaths(log, p.name);
    if c :| IsBest(Replay(log, p.name), requestPath, now, c) && p.value == Trim(c.value) {
      BestUnique(Replay(log, p.name), requestPath, now, c, best.value);
    }
  }

  lemma LastIsGreatest(names: seq<string>, name: string, n: string)
    requires Ascending(names + [name]) && n in names
    ensures StrLess(n, name) && n != name && Ascending(names)
  {
    var all := names + [name];
    var j :| 0 <= j < |names| && names[j] == n;
    assert StrLess(all[j], all[|names|]);
    StrLessIrreflexive(name);
    forall i, k | 0 <= i < k < |names| ensures StrLess(names[i], names[k]) { assert StrLess(all[i], all[k]); }
  }

  lemma AscendingSnoc(names: seq<string>, name: string)
    requires Ascending(names) && forall n :: n in names ==> StrLess(n, name)
    ensures Ascending(names + [name])
  {
    var all := names + [name];
    forall i, j | 0 <= i < j < |all| ensures StrLess(all[i], all[j]) {
      if j == |names| { assert names[i] in names; }
    }
  }

  lemma NamesSnoc(jar: seq<Pair>, p: Pair)
    ensures Names(jar + [p]) == Names(jar) + [p.name]
  {
    NamesAt(jar);
    NamesAt(jar + [p]);
  }

  /** A pair whose name is greater than all in a clean list can be appended. */
  lemma AppendGreatest(jar: seq<Pair>, p: Pair)
    requires Ascending(Names(jar)) && CleanList(jar) && Clean(p)
    requires forall q :: q in jar ==> StrLess(q.name, p.name) && q.name != p.name
    ensures Ascending(Names(jar + [p])) && CleanList(jar + [p])
  {
    NamesAt(jar);
    NamesSnoc(jar, p);
    forall n | n in Names(jar) ensures StrLess(n, p.name) {
      var i :| 0 <= i < |jar| && Names(jar)[i] == n;
      assert jar[i] in jar;
    }
    AscendingSnoc(Names(jar), p.name);
    forall i | 0 <= i < |jar| ensures jar[i].name != p.name { assert jar[i] in jar; }
  }

  lemma CollectName(log: seq<Event>, requestPath: string, now: int, names: seq<string>, jar: seq<Pair>,
                    name: string, best: Option<Cookie>)
    requires Collected(log, requestPath, now, names, jar) && Ascending(names + [name]) && LogOk(log)
    requires Selects(log, requestPath, now, name, best)
    ensures Collected(log, requestPath, now, names + [name], jar + Offered(name, best))
  {
    var more := Offered(name, best);
    if best.Some? {
      ReplayFromLog(log, name, best.value.path);
      forall q | q in jar ensures StrLess(q.name, name) && q.name != name { LastIsGreatest(names, name, q.name); }
      AppendGreatest(jar, more[0]);
    } else {
      assert jar + more == jar;
    }
    forall p ensures p in jar + more <==> p.name in names + [name] && Offers(log, requestPath, now, p) {
      CollectMember(log, requestPath, now, names, jar, name, best, p);
    }
  }

  lemma CollectMember(log: seq<Event>, requestPath: string, now: int, names: seq<string>, jar: seq<Pair>,
                      name: string, best: Option<Cookie>, p: Pair)
    requires p in jar <==> p.name in names && Offers(log, requestPath, now, p)
    requires Ascending(names + [name]) && Selects(log, requestPath, now, name, best)
    ensures p in jar + Offered(name, best) <==> p.name in names + [name] && Offers(log, requestPath, now, p)
  {
    if p.name in names { LastIsGreatest(names, name, p.name); }
    if p.name == name { OffersSelected(log, requestPath, now, best, p); }
  }

  /** Once every name of the map has been seen, the pairs are the jar's pairs for the request. */
  lemma CollectedAll(values: Values, log: seq<Event>, requestPath: string, now: int, names: seq<string>, jar: seq<Pair>)
    requires Refines(values, log) && Collected(log, requestPath, now, names, jar)
    requires forall n :: n in names <==> n in values
    ensures JarPairs(log, requestPath, now, jar)
  {
    forall p | Offers(log, requestPath, now, p) ensures p.name in names {
      assert Slot(values, p.name) == Replay(log, p.name);
    }
  }

  lemma AcceptStep(records: seq<Option<SetCookie>>, k: nat, now: int, requestPath: string)
    requires k < |records|
    ensures Accept(records[..k + 1], now, requestPath) ==
            Accept(records[..k], now, requestPath) +
            (if Accepted(records[k]) then [Event(now, requestPath, records[k].value)] else [])
  {
    assert records[..k + 1][..k] == records[..k];
  }
}
