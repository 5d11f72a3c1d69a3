/** Cookie paths: normalisation, matching, and the /dsh/<session> scope. */
module CookiePaths {
  import opened GoStrings

  function Normalize(path: string): string {
    var p := Trim(path);
    if p == "" || p[0] != '/' then "/" else p
  }

  predicate Normal(p: string) {
    p != "" && p[0] == '/' && Trimmed(p)
  }

  /** Everything up to and including the last slash. */
  function DefaultPath(requestPath: string): string {
    var p := Normalize(requestPath);
    var i := LastIndex(p, '/', |p|);
    if p == "/" || i <= 0 then "/" else p[..i + 1]
  }

  /** Whether a cookie stored for path is sent with a request for requestPath. */
  predicate PathMatches(path: string, requestPath: string) {
    var p, r := Normalize(path), Normalize(requestPath);
    p == "/" || r == p || (p <= r && (p[|p| - 1] == '/' || (|r| > |p| && r[|p|] == '/')))
  }

  const PREFIX: string := "/dsh/"

  function ScopePath(session: string, path: string): string {
    var prefix, p := PREFIX + session, Trim(path);
    if p == "" || p == "/" then prefix + "/"
    else
      var q := if p[0] == '/' then p else "/" + p;
      if q == prefix || prefix + "/" <= q then q else prefix + q
  }

  /** The path is the session's own prefix or lies below it. */
  predicate UnderSession(session: string, p: string) {
    p == PREFIX + session || PREFIX + session + "/" <= p
  }

  /** Session ids as the manager makes them: no slash, no spaces around. */
  predicate SessionId(s: string) {
    !Contains(s, '/') && Trimmed(s) && s != ""
  }

  // ---- normal paths ----

  lemma NormalizeNormal(path: string)
    ensures Normal(Normalize(path)) && (Normal(path) ==> Normalize(path) == path)
  {
    var l, r := TrimSplits(path);
    if Normal(path) { TrimTrimmed(path); }
  }

  /** On normal paths a match says: equal, or a prefix that ends at a slash. */
  lemma MatchesNormal(p: string, r: string)
    requires Normal(p) && Normal(r)
    ensures PathMatches(p, r) <==>
            p <= r && (|r| == |p| || p[|p| - 1] == '/' || r[|p|] == '/')
  {
    NormalizeNormal(p);
    NormalizeNormal(r);
    if p == "/" { assert p <= r by { assert r[..1] == "/"; } }
  }

  // ---- path matching is a partial order on normal paths ----

  lemma MatchesReflexive(p: string)
    requires Normal(p)
    ensures PathMatches(p, p)
  {
    MatchesNormal(p, p);
  }

  lemma MatchesAntisymmetric(p: string, q: string)
    requires Normal(p) && Normal(q) && PathMatches(p, q) && PathMatches(q, p)
    ensures p == q
  {
    MatchesNormal(p, q);
    MatchesNormal(q, p);
  }

  lemma MatchesTransitive(p: string, q: string, r: string)
    requires Normal(p) && Normal(q) && Normal(r) && PathMatches(p, q) && PathMatches(q, r)
    ensures PathMatches(p, r)
  {
    MatchesNormal(p, q);
    MatchesNormal(q, r);
    MatchesNormal(p, r);
    assert p <= r by { assert r[..|p|] == q[..|p|]; }
  }

  /** Two stored paths of one length that match the same request are the same path:
      the longest match is unique, whatever order the map is read in. */
  lemma LongestMatchUnique(p: string, q: string, r: string)
    requires Normal(p) && Normal(q) && PathMatches(p, r) && PathMatches(q, r) && |p| == |q|
    ensures p == q
  {
    NormalizeNormal(p);
    NormalizeNormal(q);
    NormalizeNormal(r);
    var n := Normalize(r);
    assert p <= n by { if p == "/" { assert n[..1] == "/"; } }
    assert q <= n by { if q == "/" { assert n[..1] == "/"; } }
    assert p == n[..|p|] == q;
  }

  /** A path set for a request by default matches that request. */
  lemma DefaultMatches(requestPath: string)
    ensures Normal(DefaultPath(requestPath)) && PathMatches(DefaultPath(requestPath), requestPath)
  {
    NormalizeNormal(requestPath);
    var d := DefaultPath(requestPath);
    assert Normal(d);
    NormalizeNormal(d);
  }

  // ---- scoping ----

  lemma PadFirst(l: string, x: string)
    ensures l != "" && AllSpace(l) ==> IsSpace((l + x)[0])
  {
    assert l != "" ==> (l + x)[0] == l[0];
  }

  /** Trimming after a slash-led prefix only reaches the end of what follows. */
  lemma TrimAfterPrefix(prefix: string, q: string)
    requires prefix != "" && prefix[0] == '/' && q != "" && q[0] == '/'
    ensures Trim(prefix + q) == prefix + Trim(q) && Trim(q) != "" && Trim(q)[0] == '/'
  {
    var l, r := TrimSplits(q);
    var t := Trim(q);
    SlashLed(q, l, t, r);
    assert prefix + q == "" + (prefix + t) + r;
    NormalPrefixed(prefix, t);
    TrimOf("", prefix + t, r);
  }

  lemma SlashLed(q: string, l: string, t: string, r: string)
    requires q == l + t + r && q != "" && q[0] == '/' && AllSpace(l) && AllSpace(r) && Trimmed(t)
    ensures l == "" && q == t + r && Normal(t)
  {
    assert q == l + (t + r) && r == r + "";
    if l != "" { PadFirst(l, t + r); }
    if t == "" { PadFirst(r, ""); }
  }

  lemma NormalizeScoped(session: string, q: string)
    requires q != "" && q[0] == '/'
    ensures Normalize(PREFIX + session + q) == PREFIX + session + Normalize(q)
  {
    TrimAfterPrefix(PREFIX + session, q);
  }

  /** The scoped form of a slash-led path. */
  lemma ScopeForm(session: string, p: string)
    requires p != "" && p[0] == '/'
    ensures ScopePath(session, p) ==
            (if UnderSession(session, Normalize(p)) then Normalize(p) else PREFIX + session + Normalize(p))
  {
    TrimAfterPrefix("/", p);
    var n := Normalize(p);
    assert n == Trim(p);
    if n == "/" {
      assert |PREFIX + session| > 1;
    }
  }

  /** Scoping prefixes both sides of a match with the same text. */
  lemma MatchesPrefixed(prefix: string, p: string, r: string)
    requires Normal(p) && Normal(r) && prefix != "" && prefix[0] == '/'
    ensures PathMatches(prefix + p, prefix + r) <==> PathMatches(p, r)
  {
    NormalPrefixed(prefix, p);
    NormalPrefixed(prefix, r);
    MatchesNormal(p, r);
    MatchesNormal(prefix + p, prefix + r);
    PrefixBoth(prefix, p, r);
  }

  lemma NormalPrefixed(prefix: string, p: string)
    requires Normal(p) && prefix != "" && prefix[0] == '/'
    ensures Normal(prefix + p)
  {
    assert (prefix + p)[|prefix + p| - 1] == p[|p| - 1];
  }

  lemma PrefixBoth(prefix: string, p: string, r: string)
    ensures p <= r <==> prefix + p <= prefix + r
  {
    if prefix + p <= prefix + r {
      assert p == (prefix + r)[|prefix|..|prefix| + |p|] == r[..|p|];
    }
    if p <= r { assert (prefix + r)[..|prefix| + |p|] == prefix + r[..|p|]; }
  }

  /** Below the prefix, the scoped path matches exactly what the path itself matches. */
  lemma MatchesBelow(session: string, p: string, q: string)
    requires p != "" && p[0] == '/' && q != "" && q[0] == '/'
    requires !UnderSession(session, Normalize(p))
    ensures PathMatches(ScopePath(session, p), PREFIX + session + q) <==> PathMatches(p, q)
  {
    ScopeForm(session, p);
    NormalizeScoped(session, q);
    NormalizeNormal(p);
    NormalizeNormal(q);
    var prefix := PREFIX + session;
    MatchesPrefixed(prefix, Normalize(p), Normalize(q));
    MatchesViaNormal(p, q);
    MatchesViaNormal(prefix + Normalize(p), prefix + q);
    NormalizeScoped(session, Normalize(p));
    MatchesViaNormal(prefix + Normalize(p), prefix + Normalize(q));
    NormalizeScoped(session, Normalize(q));
  }

  /** What the router makes of a request path under the session: the path behind the
      prefix, and "/" for the prefix itself. */
  function Stripped(session: string, path: string): string {
    var prefix := PREFIX + session;
    var rest := if prefix <= path then path[|prefix|..] else path;
    if rest == "" then "/" else rest
  }

  lemma StrippedOf(session: string, rest: string)
    requires rest == "" || rest[0] == '/'
    ensures UnderSession(session, PREFIX + session + rest)
    ensures Stripped(session, PREFIX + session + rest) == (if rest == "" then "/" else rest)
  {
    var prefix := PREFIX + session;
    assert (prefix + rest)[..|prefix|] == prefix && (prefix + rest)[|prefix|..] == rest;
    if rest != "" { assert (prefix + rest)[..|prefix| + 1] == prefix + "/"; }
  }

  /** Every request path under the session is the prefix and what the router strips it to. */
  lemma UnderIsPrefixed(session: string, r: string) returns (rest: string)
    requires UnderSession(session, r)
    ensures r == PREFIX + session + rest && (rest == "" || rest[0] == '/')
  {
    var prefix := PREFIX + session;
    rest := r[|prefix|..];
    assert r[..|prefix|] == prefix;
    if r != prefix { assert rest[0] == (prefix + "/")[|prefix|]; }
  }

  /** Requests under the session's prefix, for a cookie path that is not already
      there: the browser sends the scoped cookie exactly if the path matches the
      request behind the proxy, but for one case. A cookie for "/" is scoped to
      /dsh/<id>/, which does not match the request for /dsh/<id>. */
  lemma ScopingPreserves(session: string, p: string, r: string)
    requires SessionId(session) && p != "" && p[0] == '/' && UnderSession(session, r)
    requires !UnderSession(session, Normalize(p))
    ensures (PathMatches(ScopePath(session, p), r) <==> PathMatches(p, Stripped(session, r)))
            <==> !(Normalize(p) == "/" && r == PREFIX + session)
  {
    var rest := UnderIsPrefixed(session, r);
    StrippedOf(session, rest);
    if rest == "" {
      assert r == PREFIX + session;
      MatchesPrefixItself(session, p);
    } else {
      MatchesBelow(session, p, rest);
    }
  }

  /** The scoped path never matches the bare prefix; the path matches "/" only if it is "/". */
  lemma MatchesPrefixItself(session: string, p: string)
    requires SessionId(session) && p != "" && p[0] == '/' && !UnderSession(session, Normalize(p))
    ensures !PathMatches(ScopePath(session, p), PREFIX + session)
    ensures PathMatches(p, "/") <==> Normalize(p) == "/"
  {
    var prefix, n := PREFIX + session, Normalize(p);
    ScopeForm(session, p);
    NormalizeNormal(p);
    NormalizeNormal("/");
    assert Normal(prefix) by { assert prefix[|prefix| - 1] == session[|session| - 1]; }
    NormalPrefixed(prefix, n);
    MatchesNormal(prefix + n, prefix);
    MatchesViaNormal(p, "/");
    MatchesNormal(n, "/");
  }

  /** Matching only looks at the normal forms. */
  lemma MatchesViaNormal(p: string, q: string)
    ensures PathMatches(p, q) <==> PathMatches(Normalize(p), Normalize(q))
  {
    NormalizeNormal(p);
    NormalizeNormal(q);
    NormalizeNormal(Normalize(p));
    NormalizeNormal(Normalize(q));
  }

  /** Scoping preserves matching for all requests under the session if and only if the
      path is neither "/" nor already under the session's prefix. */
  lemma ScopingPreservesIff(session: string, p: string)
    requires SessionId(session) && p != "" && p[0] == '/'
    ensures (forall r: string :: UnderSession(session, r) ==>
              (PathMatches(ScopePath(session, p), r) <==> PathMatches(p, Stripped(session, r))))
            <==> !UnderSession(session, Normalize(p)) && Normalize(p) != "/"
  {
    if UnderSession(session, Normalize(p)) {
      ScopedTwiceDiffers(session, p);
    } else {
      forall r: string | UnderSession(session, r)
        ensures (PathMatches(ScopePath(session, p), r) <==> PathMatches(p, Stripped(session, r)))
                <==> !(Normalize(p) == "/" && r == PREFIX + session)
      {
        ScopingPreserves(session, p, r);
      }
      assert UnderSession(session, PREFIX + session);
    }
  }

  /** A path already under the prefix is left as it is: the browser sends the cookie
      with the request for that very path, although the path does not match it behind the proxy. */
  lemma ScopedTwiceDiffers(session: string, p: string)
    requires p != "" && p[0] == '/' && UnderSession(session, Normalize(p))
    ensures exists r: string :: UnderSession(session, r)
              && PathMatches(ScopePath(session, p), r) && !PathMatches(p, Stripped(session, r))
  {
    var prefix, n := PREFIX + session, Normalize(p);
    var q := if n == prefix then "/" else n[|prefix|..];
    NormalizeNormal(p);
    ScopeForm(session, p);
    assert Normal(q) by { if n != prefix { assert n[|prefix|] == (prefix + "/")[|prefix|]; } }
    NormalizeNormal(q);
    MatchesViaNormal(p, q);
    MatchesNormal(n, q);
    NormalizeNormal(n);
    assert Normalize(n) == n && Normalize(q) == q;
    assert prefix + q == if n == prefix then n + "/" else n;
    assert Normal(prefix + q);
    MatchesNormal(n, prefix + q);
    StrippedOf(session, q);
  }

  lemma ScopedIsUnder(session: string, path: string)
    ensures UnderSession(session, ScopePath(session, path))
  {
    var prefix, p := PREFIX + session, Trim(path);
    if !(p == "" || p == "/") {
      var q := if p[0] == '/' then p else "/" + p;
      if !(q == prefix || prefix + "/" <= q) { assert (prefix + q)[..|prefix| + 1] == prefix + "/"; }
    }
  }

  /** Scoping a scoped path changes nothing. */
  lemma ScopeIdempotent(session: string, path: string)
    requires SessionId(session)
    ensures ScopePath(session, ScopePath(session, path)) == ScopePath(session, path)
    ensures Trimmed(ScopePath(session, path))
  {
    var prefix, s := PREFIX + session, ScopePath(session, path);
    var l, r := TrimSplits(path);
    ScopedIsUnder(session, path);
    assert Trimmed(s) by {
      assert s[0] == '/';
      var p := Trim(path);
      if p != "" && p != "/" {
        assert s[|s| - 1] == p[|p| - 1];
      }
    }
    TrimTrimmed(s);
    assert |s| > 1 && s[0] == '/';
  }

  /** The session id at the head of a path: sessionIDFromPath. */
  function SessionIdFromPath(path: string): string {
    if !(PREFIX <= path) then ""
    else
      var rest := path[|PREFIX|..];
      Trim(rest[..IndexByte(rest, '/')])
  }

  /** The router finds the session of every path under the session's prefix. */
  lemma SessionIdRoundTrip(session: string, rest: string)
    requires SessionId(session) && (rest == "" || rest[0] == '/')
    ensures SessionIdFromPath(PREFIX + session + rest) == session
  {
    var path := PREFIX + session + rest;
    var tail := path[|PREFIX|..];
    assert path[..|PREFIX|] == PREFIX && tail == session + rest;
    IndexIs(tail, '/', |session|);
    assert tail[..|session|] == session;
    TrimTrimmed(session);
  }

  /** A path outside /dsh/ names no session. */
  lemma NoSessionOutside(path: string)
    ensures (|path| < 5 || path[..5] != "/dsh/") ==> SessionIdFromPath(path) == ""
  {
  }

  lemma UnderSessionId(session: string, p: string)
    requires SessionId(session) && UnderSession(session, p)
    ensures SessionIdFromPath(p) == session
  {
    var prefix := PREFIX + session;
    var rest := p[|prefix|..];
    assert p == PREFIX + session + rest;
    if p != prefix { assert rest[0] == (prefix + "/")[|prefix|]; }
    SessionIdRoundTrip(session, rest);
  }

  /** If a path under a session matches a request, the request is under the same session. */
  lemma MatchStaysUnder(session: string, p: string, r: string)
    requires SessionId(session) && UnderSession(session, p) && Normal(p) && Normal(r) && PathMatches(p, r)
    ensures UnderSession(session, r)
  {
    MatchesNormal(p, r);
    var prefix := PREFIX + session;
    assert r[..|p|] == p;
    if p == prefix {
      assert prefix[|prefix| - 1] != '/' by {
        assert prefix[|prefix| - 1] == session[|session| - 1];
        LastNotSlash(session);
      }
      if |r| > |p| { assert r[..|prefix| + 1] == prefix + "/"; }
    } else {
      assert r[..|prefix| + 1] == p[..|prefix| + 1];
    }
  }

  lemma LastNotSlash(session: string)
    ensures SessionId(session) ==> session[|session| - 1] != '/'
  {
    assert !Contains(session, '/') ==> IndexByte(session, '/') == |session|;
  }

  /** No cookie scoped to one session is ever sent with a request under another:
      for distinct ids s and t, whatever path the cookie asks for. */
  lemma SessionsAreSeparate(s: string, t: string, path: string, rest: string)
    requires SessionId(s) && SessionId(t) && s != t && (rest == "" || rest[0] == '/')
    ensures !PathMatches(ScopePath(s, path), PREFIX + t + rest)
  {
    ScopedIsUnder(s, path);
    ScopeIdempotent(s, path);
    UnderIsSeparate(s, t, ScopePath(s, path), rest);
  }

  /** A path under one session's prefix matches no request under another's. */
  lemma UnderIsSeparate(s: string, t: string, c: string, rest: string)
    requires SessionId(s) && SessionId(t) && s != t && (rest == "" || rest[0] == '/')
    requires UnderSession(s, c) && Trimmed(c)
    ensures !PathMatches(c, PREFIX + t + rest)
  {
    var r := PREFIX + t + rest;
    var n := Normalize(r);
    NormalizeNormal(c);
    NormalizeNormal(r);
    assert n == PREFIX + t + (if rest == "" then "" else Normalize(rest)) by {
      if rest == "" {
        assert r == PREFIX + t && r[|r| - 1] == t[|t| - 1];
        TrimTrimmed(r);
      } else {
        NormalizeScoped(t, rest);
      }
    }
    NormalizeNormal(rest);
    SessionIdRoundTrip(t, if rest == "" then "" else Normalize(rest));
    if PathMatches(c, r) {
      MatchesViaNormal(c, r);
      MatchStaysUnder(s, c, n);
      UnderSessionId(s, n);
    }
  }
}
