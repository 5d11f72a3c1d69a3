/** The jar against RFC 6265: path matching agrees with section 5.1.4; the default
    path, a Path without a leading slash, Expires beside Max-Age, and the choice among
    several matching paths do not.
    For each departure, exactly when it shows, and an input on which it does. */
module CookieStandard {
  import opened Options
  import opened GoStrings
  import opened CookiePaths
  import opened CookieHeader
  import opened CookieJar

  // ---- section 5.1.4: path-match ----

  /** Path-match of section 5.1.4, on the texts as they are. */
  predicate RfcMatches(p: string, r: string)
    requires p != ""
  {
    p == r || (p <= r && (p[|p| - 1] == '/' || (|r| > |p| && r[|p|] == '/')))
  }

  lemma MatchesAsInRfc(p: string, r: string)
    requires Normal(p) && Normal(r)
    ensures PathMatches(p, r) <==> RfcMatches(p, r)
  {
    MatchesNormal(p, r);
    assert p <= r && |r| == |p| ==> p == r;
  }

  // ---- section 5.1.4: default-path ----

  /** The default-path algorithm of section 5.1.4: up to, but not including, the last slash. */
  function RfcDefaultPath(uriPath: string): (d: string)
    ensures d != "" && d[0] == '/'
  {
    if uriPath == "" || uriPath[0] != '/' then "/"
    else
      var i := LastIndex(uriPath, '/', |uriPath|);
      if i <= 0 then "/" else uriPath[..i]
  }

  /** Where the last slash of the normalised request path is. */
  function LastSlash(requestPath: string): (i: int)
    ensures i < |Normalize(requestPath)|
  {
    LastIndex(Normalize(requestPath), '/', |Normalize(requestPath)|)
  }

  lemma LastIndexIs(s: string, c: char, i: nat)
    ensures LastIndex(s, c, |s|) == i <==> i < |s| && s[i] == c && forall j :: i < j < |s| ==> s[j] != c
  {
  }

  /** Spaces around a slash-led path do not move its last slash. */
  lemma LastSlashOfRaw(requestPath: string)
    requires requestPath != "" && requestPath[0] == '/'
    ensures LastIndex(requestPath, '/', |requestPath|) == LastSlash(requestPath) >= 0
    ensures Normalize(requestPath) <= requestPath
  {
    var l, r := TrimSplits(requestPath);
    var t := Trim(requestPath);
    SlashLed(requestPath, l, t, r);
    assert Normalize(requestPath) == t;
    LastIndexPadded(t, r);
  }

  lemma LastIndexPadded(t: string, r: string)
    requires t != "" && t[0] == '/' && AllSpace(r)
    ensures LastIndex(t + r, '/', |t + r|) == LastIndex(t, '/', |t|) >= 0
  {
    var s, i := t + r, LastIndex(t, '/', |t|);
    forall j | i < j < |s| ensures s[j] != '/' {
      if j >= |t| { assert s[j] == r[j - |t|]; }
    }
    LastIndexIs(s, '/', i);
  }

  /** The default path is that of the standard if and only if no slash follows the
      first one; otherwise it has one slash more. */
  lemma DefaultPathAgreesIff(requestPath: string)
    ensures DefaultPath(requestPath) == RfcDefaultPath(requestPath) <==> LastSlash(requestPath) <= 0
    ensures LastSlash(requestPath) > 0 && requestPath[0] == '/' ==>
              DefaultPath(requestPath) == RfcDefaultPath(requestPath) + "/"
  {
    var n, i := Normalize(requestPath), LastSlash(requestPath);
    NormalizeNormal(requestPath);
    if requestPath != "" && requestPath[0] == '/' {
      LastSlashOfRaw(requestPath);
      if i > 0 { assert n[..i + 1] == n[..i] + "/" && n[..i] == requestPath[..i]; }
    } else if i > 0 {
      assert |DefaultPath(requestPath)| == i + 1 && |RfcDefaultPath(requestPath)| == 1;
    }
  }

  /** A request that falls between the two default paths: it is the shorter one
      itself, or the shorter one ends in a slash and the request goes on with something else. */
  predicate Between(f: string, n: string)
    requires f != ""
  {
    f <= n && (n == f || (f[|f| - 1] == '/' && |n| > |f| && n[|f|] != '/'))
  }

  /** Where the two default paths differ, the jar's matches no more requests than the
      standard's, and it misses exactly those in between. */
  lemma DefaultPathMisses(requestPath: string, q: string)
    requires requestPath != "" && requestPath[0] == '/' && LastSlash(requestPath) > 0
    ensures PathMatches(DefaultPath(requestPath), q) ==> RfcMatches(RfcDefaultPath(requestPath), Normalize(q))
    ensures (PathMatches(DefaultPath(requestPath), q) <==> RfcMatches(RfcDefaultPath(requestPath), Normalize(q)))
            <==> !Between(RfcDefaultPath(requestPath), Normalize(q))
  {
    var d, f, n := DefaultPath(requestPath), RfcDefaultPath(requestPath), Normalize(q);
    DefaultPathAgreesIff(requestPath);
    DefaultMatches(requestPath);
    NormalizeNormal(q);
    NormalizeNormal(d);
    MatchesViaNormal(d, q);
    MatchesNormal(d, n);
    SlashPrefix(f, n);
  }

  lemma SlashPrefix(f: string, n: string)
    ensures f + "/" <= n <==> f <= n && |n| > |f| && n[|f|] == '/'
  {
    if f <= n && |n| > |f| && n[|f|] == '/' { assert n[..|f| + 1] == f + "/"; }
    if f + "/" <= n { assert n[|f|] == (f + "/")[|f|] && n[..|f|] == (f + "/")[..|f|]; }
  }

  /** Set for /a/b, a cookie without a Path goes to /a by the standard, and not from this jar. */
  lemma DefaultPathWitness()
    ensures DefaultPath("/a/b") == "/a/" && RfcDefaultPath("/a/b") == "/a"
    ensures RfcMatches(RfcDefaultPath("/a/b"), "/a") && !PathMatches(DefaultPath("/a/b"), "/a")
  {
    var r := "/a/b";
    LastIndexIs(r, '/', 2);
    assert Normal(r) && Normal("/a") && Normal("/a/");
    NormalizeNormal(r);
    assert r[..2] == "/a" && r[..3] == "/a/";
    MatchesNormal("/a/", "/a");
  }

  // ---- section 5.2.4: the Path attribute ----

  /** An empty value, or one that does not start with a slash, stands for the default path. */
  function RfcCookiePath(e: Event): string {
    var p := Trim(e.cookie.path);
    if p == "" || p[0] != '/' then DefaultPath(e.requestPath) else p
  }

  /** Given the default path, the jar stores under the path the standard asks for if
      and only if the attribute is absent or starts with a slash, or the default path is "/". */
  lemma SlashlessPathIff(e: Event)
    ensures EffectivePath(e) == RfcCookiePath(e) <==>
            e.cookie.path == "" || SlashLedText(Trim(e.cookie.path)) || DefaultPath(e.requestPath) == "/"
  {
    if e.cookie.path == "" { assert Trim("") == ""; }
  }

  predicate SlashLedText(p: string) {
    p != "" && p[0] == '/'
  }

  /** Path=x set for /a/b: stored under "/" and not under the default path. */
  lemma SlashlessPathWitness()
    ensures var e := Event(0, "/a/b", SetCookie("a", "1", "x", 0, None));
            EffectivePath(e) == "/" && RfcCookiePath(e) == "/a/"
  {
    DefaultPathWitness();
    TrimTrimmed("x");
  }

  // ---- section 5.3, step 3: Max-Age before Expires ----

  /** With a Max-Age its sign decides, and only without one the Expires date. */
  predicate RfcExpired(e: Event) {
    if e.cookie.maxAge != 0 then e.cookie.maxAge < 0
    else e.cookie.expires.Some? && e.cookie.expires.value < e.now
  }

  predicate PastExpiresBesideMaxAge(e: Event) {
    e.cookie.maxAge > 0 && e.cookie.expires.Some? && e.cookie.expires.value < e.now
  }

  lemma DeletesAgreesIff(e: Event)
    ensures (Deletes(e) <==> RfcExpired(e)) <==> !PastExpiresBesideMaxAge(e)
  {
  }

  /** The log replayed as the standard asks. */
  function RfcReplay(log: seq<Event>, name: string): map<string, Cookie> {
    if log == [] then map[]
    else
      var before, e := RfcReplay(log[..|log| - 1], name), log[|log| - 1];
      if e.cookie.name != name then before
      else if RfcExpired(e) then before - {EffectivePath(e)}
      else before[EffectivePath(e) := Stored(e)]
  }

  function At(byPath: map<string, Cookie>, path: string): Option<Cookie> {
    if path in byPath then Some(byPath[path]) else None
  }

  /** The last record for this name and path had both a Max-Age to live and a past Expires. */
  ghost predicate LastDeparts(log: seq<Event>, name: string, path: string) {
    exists i: nat :: LastWrite(log, name, path, i) && PastExpiresBesideMaxAge(log[i])
  }

  /** After any log the jar holds for a name and path what the standard asks for, if
      and only if the last record for them did not have a past Expires beside a
      positive Max-Age. */
  lemma {:induction false} MaxAgeFirstIff(log: seq<Event>, name: string, path: string)
    ensures At(Replay(log, name), path) == At(RfcReplay(log, name), path) <==> !LastDeparts(log, name, path)
  {
    if log != [] {
      var n := |log| - 1;
      if Writes(log[n], name, path) {
        LastIsLast(log, name, path);
        DeletesAgreesIff(log[n]);
      } else {
        MaxAgeFirstIff(log[..n], name, path);
        LastUnchanged(log, name, path);
      }
    }
  }

  lemma LastIsLast(log: seq<Event>, name: string, path: string)
    requires log != [] && Writes(log[|log| - 1], name, path)
    ensures LastDeparts(log, name, path) <==> PastExpiresBesideMaxAge(log[|log| - 1])
  {
    var n := |log| - 1;
    assert LastWrite(log, name, path, n);
    assert forall i: nat :: LastWrite(log, name, path, i) ==> i == n;
  }

  lemma LastUnchanged(log: seq<Event>, name: string, path: string)
    requires log != [] && !Writes(log[|log| - 1], name, path)
    ensures LastDeparts(log, name, path) <==> LastDeparts(log[..|log| - 1], name, path)
  {
    var before := log[..|log| - 1];
    forall i: nat ensures LastWrite(log, name, path, i) <==> LastWrite(before, name, path, i)
                  ensures LastWrite(log, name, path, i) ==> log[i] == before[i]
    {
      LastWriteBefore(log, name, path, i);
    }
  }

  /** At second 10, a minute to live beside an Expires of second 0: the standard
      keeps the cookie, the jar does not. */
  lemma MaxAgeFirstWitness()
    ensures var log := [Event(10, "/", SetCookie("a", "1", "/", 60, Some(0)))];
            && "/" !in Replay(log, "a")
            && IsBest(RfcReplay(log, "a"), "/", 10, Cookie("1", "/", Some(70)))
  {
    var e := Event(10, "/", SetCookie("a", "1", "/", 60, Some(0)));
    var log := [e];
    assert log[..|log| - 1] == [] && log[|log| - 1] == e;
    assert Normal("/");
    NormalizeNormal("/");
    assert EffectivePath(e) == "/" && Stored(e) == Cookie("1", "/", Some(70));
    var c := RfcReplay(log, "a");
    assert !RfcExpired(e) && RfcReplay([], "a") == map[];
    assert c == map["/" := Stored(e)];
    assert PathMatches("/", "/");
    assert Candidate(c, "/", "/", 10);
  }

  // ---- section 5.4: every cookie that matches ----

  /** The paths under which the standard would send the name: one pair for each. */
  ghost function Candidates(byPath: map<string, Cookie>, requestPath: string, now: int): set<string> {
    set p | p in byPath && Candidate(byPath, p, requestPath, now)
  }

  /** How many pairs of this name are sent. */
  function Count(pairs: seq<Pair>, name: string): nat {
    if pairs == [] then 0 else (if pairs[0].name == name then 1 else 0) + Count(pairs[1..], name)
  }

  lemma {:induction false} LongestExists(paths: set<string>) returns (longest: string)
    requires paths != {}
    ensures longest in paths && forall q :: q in paths ==> |q| <= |longest|
    decreases |paths|
  {
    longest :| longest in paths;
    var rest := paths - {longest};
    if rest != {} {
      var other := LongestExists(rest);
      if |other| > |longest| { longest := other; }
    }
  }

  lemma BestExistsIff(byPath: map<string, Cookie>, requestPath: string, now: int)
    requires PathsOk(byPath)
    ensures Candidates(byPath, requestPath, now) != {} <==> exists c :: IsBest(byPath, requestPath, now, c)
  {
    var all := Candidates(byPath, requestPath, now);
    if all != {} {
      var p := LongestExists(all);
      assert forall q :: Candidate(byPath, q, requestPath, now) ==> q in all;
      assert IsBest(byPath, requestPath, now, byPath[p]);
    }
    if c :| IsBest(byPath, requestPath, now, c) { assert c.path in all; }
  }

  lemma {:induction false} CountOfAscending(pairs: seq<Pair>, name: string)
    requires Ascending(Names(pairs))
    ensures Count(pairs, name) == if exists p :: p in pairs && p.name == name then 1 else 0
    decreases |pairs|
  {
    if pairs != [] {
      NamesAt(pairs);
      NamesAt(pairs[1..]);
      CountOfAscending(pairs[1..], name);
      assert pairs == [pairs[0]] + pairs[1..];
      if p :| p in pairs[1..] && p.name == name {
        HeadIsLess(pairs, p);
        assert p in pairs;
      }
    }
  }

  lemma HeadIsLess(pairs: seq<Pair>, p: Pair)
    requires pairs != [] && Ascending(Names(pairs)) && p in pairs[1..]
    ensures pairs[0].name != p.name
  {
    NamesAt(pairs);
    var i :| 0 <= i < |pairs[1..]| && pairs[1..][i] == p;
    assert StrLess(Names(pairs)[0], Names(pairs)[i + 1]);
    StrLessTotal(p.name, p.name);
  }

  /** A name that has any live matching cookie is sent once... */
  lemma SentOnce(log: seq<Event>, requestPath: string, now: int, jar: seq<Pair>, name: string)
    requires JarPairs(log, requestPath, now, jar)
    ensures Count(jar, name) == if Candidates(Replay(log, name), requestPath, now) == {} then 0 else 1
  {
    var byPath := Replay(log, name);
    ReplayPaths(log, name);
    BestExistsIff(byPath, requestPath, now);
    CountOfAscending(jar, name);
    if c :| IsBest(byPath, requestPath, now, c) {
      assert Offers(log, requestPath, now, Pair(name, Trim(c.value)));
    }
    if p :| p in jar && p.name == name { assert Offers(log, requestPath, now, p); }
  }

  /** ... so as many pairs of a name are sent as the standard asks for if and only if
      at most one of its paths matches. */
  lemma EveryMatchSentIff(log: seq<Event>, requestPath: string, now: int, jar: seq<Pair>, name: string)
    requires JarPairs(log, requestPath, now, jar)
    ensures Count(jar, name) == |Candidates(Replay(log, name), requestPath, now)|
            <==> forall p, q ::
                   && Candidate(Replay(log, name), p, requestPath, now)
                   && Candidate(Replay(log, name), q, requestPath, now)
                   ==> p == q
  {
    var byPath := Replay(log, name);
    var all := Candidates(byPath, requestPath, now);
    SentOnce(log, requestPath, now, jar, name);
    assert forall p :: Candidate(byPath, p, requestPath, now) <==> p in all;
    AtMostOne(all);
  }

  lemma AtMostOne(all: set<string>)
    ensures |all| <= 1 <==> forall p, q :: p in all && q in all ==> p == q
  {
    if all != {} {
      var x :| x in all;
      var rest := all - {x};
      assert |all| == |rest| + 1;
      if rest != {} {
        var y :| y in rest;
        assert y in all && x != y;
      }
    }
  }

  /** Set for / and for /x, a name has two values for a request to /x; one is sent. */
  lemma EveryMatchWitness()
    ensures var log := [Event(0, "/", SetCookie("a", "1", "/", 0, None)),
                        Event(0, "/", SetCookie("a", "2", "/x", 0, None))];
            && Candidates(Replay(log, "a"), "/x", 0) == {"/", "/x"}
            && IsBest(Replay(log, "a"), "/x", 0, Cookie("2", "/x", None))
            && forall jar :: JarPairs(log, "/x", 0, jar) ==> Count(jar, "a") == 1
  {
    var e1, e2 := Event(0, "/", SetCookie("a", "1", "/", 0, None)), Event(0, "/", SetCookie("a", "2", "/x", 0, None));
    var log := [e1, e2];
    assert log[..1] == [e1] && [e1][..0] == [];
    assert Normal("/") && Normal("/x");
    NormalizeNormal("/");
    NormalizeNormal("/x");
    assert EffectivePath(e1) == "/" && EffectivePath(e2) == "/x";
    var byPath := Replay(log, "a");
    assert Replay([e1], "a") == map["/" := Cookie("1", "/", None)];
    assert byPath == map["/" := Cookie("1", "/", None), "/x" := Cookie("2", "/x", None)];
    MatchesNormal("/x", "/x");
    assert PathMatches("/", "/x");
    assert Candidate(byPath, "/", "/x", 0) && Candidate(byPath, "/x", "/x", 0);
    var all := Candidates(byPath, "/x", 0);
    assert all == {"/", "/x"};
    forall jar | JarPairs(log, "/x", 0, jar) ensures Count(jar, "a") == 1 {
      SentOnce(log, "/x", 0, jar, "a");
    }
  }
}
