/** How long a cookie takes part, told from the fields of the Set-Cookie record that
    stored it, up to the header that is sent. */
module CookieLifetime {
  import opened Options
  import opened GoStrings
  import opened CookiePaths
  import opened CookieHeader
  import opened CookieJar
  import opened CookieJarObject

  /** The record, received at t, removes: a negative Max-Age, or an Expires before t. */
  predicate Removes(c: SetCookie, t: int) {
    c.maxAge < 0 || (c.expires.Some? && c.expires.value < t)
  }

  /** A record received at t that does not remove has not run out at now: Max-Age
      seconds have not passed, or, without a Max-Age, Expires is absent or still to come. */
  predicate LivesAt(c: SetCookie, t: int, now: int) {
    || (c.maxAge > 0 && now < t + c.maxAge)
    || (c.maxAge == 0 && (c.expires.None? || now < c.expires.value))
  }

  /** The last record for a name and path decides alone: its value takes part in the
      selection for a request exactly if it did not remove, the path matches, and it
      has not run out. */
  lemma TakesPartIff(log: seq<Event>, name: string, path: string, i: nat, requestPath: string, now: int)
    requires LastWrite(log, name, path, i)
    ensures Candidate(Replay(log, name), path, requestPath, now) <==>
            && !Removes(log[i].cookie, log[i].now)
            && PathMatches(path, requestPath) && LivesAt(log[i].cookie, log[i].now, now)
    ensures !Removes(log[i].cookie, log[i].now) ==>
            path in Replay(log, name) && Replay(log, name)[path].value == log[i].cookie.value
                                      && Replay(log, name)[path].path == path
  {
    ReplayIsLastWrite(log, name, path);
    OneLastWrite(log, name, path, i);
  }

  lemma OneLastWrite(log: seq<Event>, name: string, path: string, i: nat)
    requires LastWrite(log, name, path, i)
    ensures forall j: nat :: LastWrite(log, name, path, j) ==> j == i
  {
  }

  /** Every record for the name so far was for this path. */
  ghost predicate OnlyPath(log: seq<Event>, name: string, path: string) {
    forall j :: 0 <= j < |log| && log[j].cookie.name == name ==> EffectivePath(log[j]) == path
  }

  lemma {:induction false} OtherPathsEmpty(log: seq<Event>, name: string, path: string)
    requires OnlyPath(log, name, path)
    ensures forall q :: q in Replay(log, name) ==> q == path
  {
    if log != [] {
      OtherPathsEmpty(log[..|log| - 1], name, path);
    }
  }

  /** What the jar offers for a name with one path. */
  lemma OffersIff(log: seq<Event>, name: string, path: string, i: nat, requestPath: string, now: int, p: Pair)
    requires LastWrite(log, name, path, i) && OnlyPath(log, name, path) && p.name == name
    ensures Offers(log, requestPath, now, p) <==>
            && !Removes(log[i].cookie, log[i].now)
            && PathMatches(path, requestPath) && LivesAt(log[i].cookie, log[i].now, now)
            && p.value == Trim(log[i].cookie.value)
  {
    var byPath := Replay(log, name);
    TakesPartIff(log, name, path, i, requestPath, now);
    OtherPathsEmpty(log, name, path);
    if Candidate(byPath, path, requestPath, now) {
      assert IsBest(byPath, requestPath, now, byPath[path]);
      ReplayPaths(log, name);
      forall c | IsBest(byPath, requestPath, now, c) ensures c == byPath[path] {
        BestUnique(byPath, requestPath, now, c, byPath[path]);
      }
    }
  }

  /** Pairs whose name the jar does not mention are the browser's own. */
  lemma {:induction false} AddAllOthers(pairs: seq<Pair>, jar: seq<Pair>, p: Pair)
    requires CleanList(pairs) && CleanList(jar) && forall i :: 0 <= i < |jar| ==> jar[i].name != p.name
    ensures p in AddAll(pairs, jar) <==> p in pairs
    decreases |jar|
  {
    if jar != [] {
      var next := Put(pairs, jar[0].name, jar[0].value);
      AddPairClean(pairs, jar[0]);
      PutClean(pairs, jar[0]);
      TailClean(jar);
      PutOthers(pairs, jar[0], p);
      assert forall i :: 0 <= i < |jar[1..]| ==> jar[1..][i] == jar[i + 1];
      AddAllOthers(next, jar[1..], p);
    }
  }

  lemma PutOthers(pairs: seq<Pair>, q: Pair, p: Pair)
    requires p.name != q.name
    ensures p in Put(pairs, q.name, q.value) <==> p in pairs
  {
    var i, next := Position(pairs, q.name, 0), Put(pairs, q.name, q.value);
    if p in pairs { PutHas(pairs, q, p); }
    if p in next {
      var j :| 0 <= j < |next| && next[j] == p;
      assert j < |pairs| && pairs[j] == p;
    }
  }

  /** A cookie that is the only one of its name: while it lives, and its path matches,
      the header sent on carries its value; before and after, what the browser sent. */
  lemma SentWhileItLives(log: seq<Event>, name: string, path: string, i: nat, requestPath: string, now: int,
                         browserHeader: string, header: string)
    requires LastWrite(log, name, path, i) && OnlyPath(log, name, path)
    requires Sends(log, requestPath, now, browserHeader, header)
    ensures var c: SetCookie := log[i].cookie;
            var t := log[i].now;
            if !Removes(c, t) && PathMatches(path, requestPath) && LivesAt(c, t, now)
            then Pair(name, Trim(c.value)) in Parse(header)
            else forall v: string :: Pair(name, v) in Parse(header) <==> Pair(name, v) in Parse(browserHeader)
  {
    var jar: seq<Pair> :| JarPairs(log, requestPath, now, jar)
                          && CleanList(jar) && header == Header(browserHeader, jar);
    HeaderParses(browserHeader, jar);
    ParseClean(browserHeader);
    var c: SetCookie := log[i].cookie;
    var t := log[i].now;
    var p := Pair(name, Trim(c.value));
    OffersIff(log, name, path, i, requestPath, now, p);
    if !Removes(c, t) && PathMatches(path, requestPath) && LivesAt(c, t, now) {
      AddAllHas(Parse(browserHeader), jar, p);
    } else {
      forall k: nat | k < |jar| ensures jar[k].name != name {
        NotOffered(log, name, path, i, requestPath, now, jar, k);
      }
      forall v: string ensures Pair(name, v) in Parse(header) <==> Pair(name, v) in Parse(browserHeader) {
        AddAllOthers(Parse(browserHeader), jar, Pair(name, v));
      }
    }
  }

  lemma NotOffered(log: seq<Event>, name: string, path: string, i: nat, requestPath: string, now: int,
                   jar: seq<Pair>, k: nat)
    requires LastWrite(log, name, path, i) && OnlyPath(log, name, path)
    requires JarPairs(log, requestPath, now, jar) && k < |jar|
    requires !(!Removes(log[i].cookie, log[i].now) && PathMatches(path, requestPath)
               && LivesAt(log[i].cookie, log[i].now, now))
    ensures jar[k].name != name
  {
    assert jar[k] in jar;
    if jar[k].name == name { OffersIff(log, name, path, i, requestPath, now, jar[k]); }
  }

  /** Set at 0 with Expires 100, asked for at 200: the cookie is not sent. */
  lemma ExpiresWitness(header: string)
    requires Sends([Event(0, "/", SetCookie("a", "1", "/", 0, Some(100)))], "/", 200, "", header)
    ensures forall v: string :: Pair("a", v) !in Parse(header)
  {
    var e := Event(0, "/", SetCookie("a", "1", "/", 0, Some(100)));
    assert Normal("/");
    NormalizeNormal("/");
    assert LastWrite([e], "a", "/", 0);
    assert OnlyPath([e], "a", "/");
    SentWhileItLives([e], "a", "/", 0, "/", 200, "", header);
    EmptyHeader();
  }

  lemma EmptyHeader()
    ensures Parse("") == []
  {
    assert !Contains("", ';') && !Contains("", '=');
    SplitOne("", ';');
    assert [""][1..] == [];
    assert AddParts([], [""]) == AddParts(AddPart([], ""), []);
  }
}
