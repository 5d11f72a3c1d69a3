/** The per-session cookie jar: a two-level map read by longest path match, against
    the log of the Set-Cookie records it has been given. */
module CookieJar {
  import opened Options
  import opened GoStrings
  import opened CookiePaths
  import opened CookieHeader

  /** What is stored; a missing expiry is a session cookie. */
  datatype Cookie = Cookie(value: string, path: string, expiresAt: Option<int>)

  /** A parsed Set-Cookie record; an absent Path is "", an absent Max-Age is 0. Times in seconds. */
  datatype SetCookie = SetCookie(name: string, value: string, path: string, maxAge: int, expires: Option<int>)

  // ---- the log and what it means ----

  /** A record that reached the jar, when, and for which request. */
  datatype Event = Event(now: int, requestPath: string, cookie: SetCookie)

  function EffectivePath(e: Event): string {
    if e.cookie.path == "" then DefaultPath(e.requestPath) else Normalize(e.cookie.path)
  }

  /** A negative Max-Age or a past Expires removes; unlike section 5.3 of RFC 6265,
      a past Expires does so even when Max-Age is positive. */
  predicate Deletes(e: Event) {
    e.cookie.maxAge < 0 || (e.cookie.expires.Some? && e.cookie.expires.value < e.now)
  }

  function Expiry(e: Event): Option<int> {
    if e.cookie.maxAge > 0 then Some(e.now + e.cookie.maxAge) else e.cookie.expires
  }

  function Stored(e: Event): Cookie {
    Cookie(e.cookie.value, EffectivePath(e), Expiry(e))
  }

  predicate Writes(e: Event, name: string, path: string) {
    e.cookie.name == name && EffectivePath(e) == path
  }

  /** The cookies of one name after the log, by path: every record replayed in order. */
  function Replay(log: seq<Event>, name: string): map<string, Cookie> {
    if log == [] then map[]
    else
      var before, e := Replay(log[..|log| - 1], name), log[|log| - 1];
      if e.cookie.name != name then before
      else if Deletes(e) then before - {EffectivePath(e)}
      else before[EffectivePath(e) := Stored(e)]
  }

  /** Event i is the last one to write this name and path. */
  ghost predicate LastWrite(log: seq<Event>, name: string, path: string, i: nat) {
    i < |log| && Writes(log[i], name, path) && forall j :: i < j < |log| ==> !Writes(log[j], name, path)
  }

  lemma LastWriteBefore(log: seq<Event>, name: string, path: string, i: nat)
    requires log != [] && !Writes(log[|log| - 1], name, path)
    ensures LastWrite(log, name, path, i) <==> LastWrite(log[..|log| - 1], name, path, i)
  {
    var n := |log| - 1;
    assert i < n ==> log[..n][i] == log[i];
    assert forall j :: i < j < n ==> log[..n][j] == log[j];
  }

  /** Replay in plain words: a path holds a cookie exactly if the last record
      written to that name and path did not delete, and then holds that record. */
  lemma {:induction false} ReplayIsLastWrite(log: seq<Event>, name: string, path: string)
    ensures path in Replay(log, name) <==> exists i: nat :: LastWrite(log, name, path, i) && !Deletes(log[i])
    ensures forall i: nat :: LastWrite(log, name, path, i) && !Deletes(log[i]) ==>
              path in Replay(log, name) && Replay(log, name)[path] == Stored(log[i])
  {
    if log != [] {
      var n := |log| - 1;
      var before := log[..n];
      ReplayIsLastWrite(before, name, path);
      if Writes(log[n], name, path) {
        assert LastWrite(log, name, path, n);
        assert forall i: nat :: LastWrite(log, name, path, i) ==> i == n;
      } else {
        forall i: nat ensures LastWrite(log, name, path, i) <==> LastWrite(before, name, path, i)
                      ensures LastWrite(log, name, path, i) ==> log[i] == before[i]
        {
          LastWriteBefore(log, name, path, i);
        }
      }
    }
  }

  ghost predicate PathsOk(byPath: map<string, Cookie>) {
    forall p :: p in byPath ==> Normal(p) && byPath[p].path == p
  }

  lemma EffectivePathNormal(e: Event)
    ensures Normal(EffectivePath(e))
  {
    DefaultMatches(e.requestPath);
    NormalizeNormal(e.cookie.path);
  }

  /** Stored paths stay normal. */
  lemma {:induction false} ReplayPaths(log: seq<Event>, name: string)
    ensures PathsOk(Replay(log, name))
  {
    if log != [] {
      ReplayPaths(log[..|log| - 1], name);
      EffectivePathNormal(log[|log| - 1]);
    }
  }

  // ---- selection ----

  predicate Live(c: Cookie, now: int) {
    c.expiresAt.Some? ==> now < c.expiresAt.value
  }

  predicate Candidate(byPath: map<string, Cookie>, p: string, requestPath: string, now: int) {
    p in byPath && Live(byPath[p], now) && PathMatches(p, requestPath)
  }

  /** c is stored under the longest path that matches the request and has not expired. */
  ghost predicate IsBest(byPath: map<string, Cookie>, requestPath: string, now: int, c: Cookie) {
    Candidate(byPath, c.path, requestPath, now) && byPath[c.path] == c
    && forall q :: Candidate(byPath, q, requestPath, now) ==> |q| <= |c.path|
  }

  lemma BestUnique(byPath: map<string, Cookie>, requestPath: string, now: int, c: Cookie, d: Cookie)
    requires PathsOk(byPath) && IsBest(byPath, requestPath, now, c) && IsBest(byPath, requestPath, now, d)
    ensures c == d
  {
    LongestMatchUnique(c.path, d.path, requestPath);
  }

  function Purge(byPath: map<string, Cookie>, t: int): map<string, Cookie> {
    map p | p in byPath && Live(byPath[p], t) :: byPath[p]
  }

  /** Keeping expired cookies until they are overwritten never shows: dropping all
      that have expired by t changes no selection at t or later. */
  lemma ExpiredNeverShow(byPath: map<string, Cookie>, requestPath: string, t: int, now: int, c: Cookie)
    requires t <= now
    ensures IsBest(byPath, requestPath, now, c) <==> IsBest(Purge(byPath, t), requestPath, now, c)
  {
    forall q ensures Candidate(byPath, q, requestPath, now) <==> Candidate(Purge(byPath, t), q, requestPath, now) {
    }
  }

  // ---- string order ----

  /** The order of sort.Strings. */
  predicate StrLess(a: string, b: string) {
    b != "" && (a == "" || a[0] < b[0] || (a[0] == b[0] && StrLess(a[1..], b[1..])))
  }

  lemma {:induction false} StrLessTotal(a: string, b: string)
    ensures StrLess(a, b) || a == b || StrLess(b, a)
    ensures !(StrLess(a, b) && StrLess(b, a)) && !StrLess(a, a)
  {
    if a != "" && b != "" && a[0] == b[0] {
      StrLessTotal(a[1..], b[1..]);
      assert a == [a[0]] + a[1..] && b == [b[0]] + b[1..];
    }
    if a != "" { StrLessIrreflexive(a); }
  }

  lemma {:induction false} StrLessIrreflexive(a: string)
    ensures !StrLess(a, a)
  {
    if a != "" { StrLessIrreflexive(a[1..]); }
  }

  lemma {:induction false} StrLessTransitive(a: string, b: string, c: string)
    requires StrLess(a, b) && StrLess(b, c)
    ensures StrLess(a, c)
  {
    if a != "" && a[0] == b[0] == c[0] { StrLessTransitive(a[1..], b[1..], c[1..]); }
  }

  /** One text comes before another if it is a proper prefix of it, or has the smaller
      character where they first differ. */
  lemma {:induction false} StrLessIff(a: string, b: string)
    ensures StrLess(a, b) <==> exists k: nat :: FirstDifference(a, b, k)
    decreases |a|
  {
    if b != "" && a != "" && a[0] == b[0] {
      StrLessIff(a[1..], b[1..]);
      if k: nat :| FirstDifference(a[1..], b[1..], k) {
        assert a[..k + 1] == [a[0]] + a[1..][..k] && b[..k + 1] == [b[0]] + b[1..][..k];
        assert FirstDifference(a, b, k + 1);
      }
      if k: nat :| FirstDifference(a, b, k) {
        assert k > 0;
        assert a[1..][..k - 1] == a[..k][1..] && b[1..][..k - 1] == b[..k][1..];
        assert FirstDifference(a[1..], b[1..], k - 1);
      }
    } else if StrLess(a, b) {
      assert FirstDifference(a, b, 0);
    } else {
      forall k: nat | k > 0 ensures FirstDifference(a, b, k) ==> a != "" && b != "" && a[0] == b[0] {
        SharedHead(a, b, k);
      }
    }
  }

  lemma SharedHead(a: string, b: string, k: nat)
    ensures k > 0 && FirstDifference(a, b, k) ==> a != "" && b != "" && a[0] == b[0]
  {
    assert 0 < k <= |a| && k <= |b| ==> a[0] == a[..k][0] && b[0] == b[..k][0];
  }

  predicate FirstDifference(a: string, b: string, k: nat) {
    k <= |a| && k < |b| && a[..k] == b[..k] && (k == |a| || a[k] < b[k])
  }

  // ---- the jar's pairs for one request ----

  ghost predicate Ascending(names: seq<string>) {
    forall i, j :: 0 <= i < j < |names| ==> StrLess(names[i], names[j])
  }

  function Names(pairs: seq<Pair>): seq<string> {
    if pairs == [] then [] else [pairs[0].name] + Names(pairs[1..])
  }

  /** The jar holds p for this request: p's name has a best cookie with p's value. */
  ghost predicate Offers(log: seq<Event>, requestPath: string, now: int, p: Pair) {
    exists c :: IsBest(Replay(log, p.name), requestPath, now, c) && p.value == Trim(c.value)
  }

  /** One pair for every name that has a live matching cookie, in name order. */
  ghost predicate JarPairs(log: seq<Event>, requestPath: string, now: int, jar: seq<Pair>) {
    Ascending(Names(jar)) && forall p :: p in jar <==> Offers(log, requestPath, now, p)
  }

  lemma {:induction false} NamesAt(pairs: seq<Pair>)
    ensures |Names(pairs)| == |pairs| && forall i :: 0 <= i < |pairs| ==> Names(pairs)[i] == pairs[i].name
  {
    if pairs != [] { NamesAt(pairs[1..]); }
  }

  /** The pairs are determined by the log: no choice of map order can change them. */
  lemma {:induction false} AscendingUnique(a: seq<Pair>, b: seq<Pair>)
    requires Ascending(Names(a)) && Ascending(Names(b)) && forall p :: p in a <==> p in b
    ensures a == b
    decreases |a|
  {
    NamesAt(a);
    NamesAt(b);
    if a == [] {
      if b != [] { HeadIsMember(b); }
    } else {
      assert a[0] in b && b[0] in a;
      HeadsEqual(a, b);
      NamesAt(a[1..]);
      NamesAt(b[1..]);
      forall p ensures p in a[1..] <==> p in b[1..] {
        HeadOnlyOnce(a, p);
        HeadOnlyOnce(b, p);
      }
      AscendingUnique(a[1..], b[1..]);
    }
  }

  lemma HeadsEqual(a: seq<Pair>, b: seq<Pair>)
    requires a != [] && b != [] && Ascending(Names(a)) && Ascending(Names(b)) && a[0] in b && b[0] in a
    ensures a[0] == b[0]
  {
    NamesAt(a);
    NamesAt(b);
    var i :| 0 <= i < |b| && b[i] == a[0];
    var j :| 0 <= j < |a| && a[j] == b[0];
    StrLessTotal(a[0].name, b[0].name);
  }

  lemma HeadIsMember(b: seq<Pair>)
    requires b != []
    ensures exists p :: p in b
  {
    assert b[0] in b;
  }

  lemma HeadOnlyOnce(a: seq<Pair>, p: Pair)
    requires a != [] && Ascending(Names(a))
    ensures p in a[1..] <==> p in a && p != a[0]
  {
    NamesAt(a);
    if p in a[1..] {
      var i :| 0 <= i < |a[1..]| && a[1..][i] == p;
      assert StrLess(Names(a)[0], Names(a)[i + 1]);
      StrLessTotal(p.name, p.name);
    }
  }

  lemma JarPairsUnique(log: seq<Event>, requestPath: string, now: int, a: seq<Pair>, b: seq<Pair>)
    requires JarPairs(log, requestPath, now, a) && JarPairs(log, requestPath, now, b)
    ensures a == b
  {
    AscendingUnique(a, b);
  }
}
