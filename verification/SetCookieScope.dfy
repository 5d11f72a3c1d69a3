/** Rewriting a Set-Cookie line so that the browser keeps it under /dsh/<session>. */
module SetCookieScope {
  import opened GoStrings
  import opened CookiePaths
  import opened CookieHeader

  /** The cookie name at the head of a line: proxySetCookieName. */
  function SetCookieName(raw: string): string {
    var c := Cut(Trim(Cut(raw, ';').before), '=');
    if c.found then Trim(c.before) else ""
  }

  predicate IsPathPart(part: string) {
    EqualFold(Trim(Cut(Trim(part), '=').before), "path")
  }

  /** The value of a Path attribute; one without a value stands for "/". */
  function PathValue(part: string): string {
    var c := Cut(Trim(part), '=');
    if c.found then c.after else "/"
  }

  function ScopePart(session: string, part: string): string {
    if IsPathPart(part) then " Path=" + ScopePath(session, PathValue(part)) else part
  }

  function ScopeAll(session: string, parts: seq<string>): seq<string> {
    seq(|parts|, i requires 0 <= i < |parts| => if i == 0 then parts[0] else ScopePart(session, parts[i]))
  }

  ghost predicate HasPath(parts: seq<string>) {
    exists i :: 1 <= i < |parts| && IsPathPart(parts[i])
  }

  ghost predicate HasPathBelow(parts: seq<string>, n: nat)
    requires n <= |parts|
  {
    exists i :: 1 <= i < n && IsPathPart(parts[i])
  }

  lemma HasPathStep(parts: seq<string>, n: nat)
    requires 1 <= n < |parts|
    ensures HasPathBelow(parts, n + 1) <==> HasPathBelow(parts, n) || IsPathPart(parts[n])
  {
  }

  function DefaultPart(session: string, requestPath: string): string {
    " Path=" + ScopePath(session, DefaultPath(requestPath))
  }

  /** The parts of the rewritten line. */
  ghost function ScopedParts(session: string, requestPath: string, parts: seq<string>): seq<string> {
    ScopeAll(session, parts) + (if HasPath(parts) then [] else [DefaultPart(session, requestPath)])
  }

  ghost function ScopedLine(raw: string, session: string, requestPath: string): string {
    if IsManagerName(SetCookieName(raw)) then ""
    else if session == "" then raw
    else Join(ScopedParts(session, requestPath, Split(raw, ';')), ";")
  }

  method ScopeSetCookie(raw: string, session: string, requestPath: string) returns (line: string)
    ensures line == ScopedLine(raw, session, requestPath)
  {
    if IsManagerName(SetCookieName(raw)) { return ""; }
    if session == "" { return raw; }
    var split := Split(raw, ';');
    var parts, foundPath := RewriteParts(split, session);
    if !foundPath {
      parts := parts + [" Path=" + ScopePath(session, DefaultPath(requestPath))];
    } else {
      assert parts + [] == parts;
    }
    line := Join(parts, ";");
  }

  /** The body of the loop over the attributes. */
  method RewritePart(part: string, session: string) returns (scoped: string, isPath: bool)
    ensures scoped == ScopePart(session, part) && (isPath <==> IsPathPart(part))
  {
    var c := Cut(Trim(part), '=');
    if !EqualFold(Trim(c.before), "path") { return part, false; }
    var value := c.after;
    if !c.found { value := "/"; }
    return " Path=" + ScopePath(session, value), true;
  }

  method RewriteParts(split: seq<string>, session: string) returns (parts: seq<string>, foundPath: bool)
    requires |split| > 0
    ensures parts == ScopeAll(session, split) && (foundPath <==> HasPath(split))
  {
    parts, foundPath := split, false;
    ghost var scoped := ScopeAll(session, split);
    for i := 1 to |split|
      invariant |parts| == |split|
      invariant forall k :: 0 <= k < i ==> parts[k] == scoped[k]
      invariant forall k :: i <= k < |split| ==> parts[k] == split[k]
      invariant foundPath <==> HasPathBelow(split, i)
    {
      HasPathStep(split, i);
      var part, isPath := RewritePart(parts[i], session);
      parts := parts[i := part];
      foundPath := foundPath || isPath;
    }
    assert parts == scoped;
  }

  /** A Path attribute, in any case and with any spaces, whose value is not already
      under the session, becomes the value behind /dsh/<session>; one without a value,
      or with "/", becomes /dsh/<session>/. */
  lemma ScopePartOf(session: string, l: string, name: string, m: string, value: string, r: string)
    requires AllSpace(l) && AllSpace(m) && AllSpace(r) && LowerAll(name) == "path" && Trimmed(name)
    requires value != "" && value[0] == '/' && Trimmed(value) && !UnderSession(session, value)
    ensures ScopePart(session, l + (name + "=" + m + value) + r) == " Path=/dsh/" + session + value
  {
    NamedPathRead(l, name, m, value, r);
    ScopePadded(session, m, value);
    assert " Path=" + (PREFIX + session + value) == " Path=/dsh/" + session + value;
  }

  lemma NamedPathRead(l: string, name: string, m: string, value: string, r: string)
    requires AllSpace(l) && AllSpace(m) && AllSpace(r) && LowerAll(name) == "path" && Trimmed(name)
    requires value != "" && Trimmed(value)
    ensures var part := l + (name + "=" + m + value) + r; IsPathPart(part) && PathValue(part) == m + value
  {
    var part := name + "=" + m + value;
    PathName(name);
    assert part == name + ['='] + (m + value);
    assert Trimmed(part) by { assert part[0] == name[0] && part[|part| - 1] == value[|value| - 1]; }
    TrimOf(l, part, r);
    CutOf(name, '=', m + value);
    TrimTrimmed(name);
  }

  lemma ScopePadded(session: string, m: string, value: string)
    requires AllSpace(m) && value != "" && value[0] == '/' && Trimmed(value) && !UnderSession(session, value)
    ensures ScopePath(session, m + value) == PREFIX + session + value
  {
    TrimOf(m, value, "");
    assert m + value + "" == m + value;
  }

  lemma BarePathPart(session: string, l: string, name: string, r: string)
    requires AllSpace(l) && AllSpace(r) && LowerAll(name) == "path" && Trimmed(name)
    ensures ScopePart(session, l + name + r) == " Path=/dsh/" + session + "/"
  {
    PathName(name);
    TrimOf(l, name, r);
    TrimTrimmed(name);
    assert Trim("/") == "/" by { TrimTrimmed("/"); }
    assert " Path=" + (PREFIX + session + "/") == " Path=/dsh/" + session + "/";
  }

  /** A name spelled like path, in any case, has four letters and no '='. */
  lemma PathName(name: string)
    requires LowerAll(name) == "path"
    ensures name != "" && !Contains(name, '=') && EqualFold(name, "path")
  {
    assert LowerAll("path") == "path";
    assert forall i :: 0 <= i < |name| ==> Lower(name[i]) == LowerAll(name)[i] == "path"[i];
    assert |name| == 4;
    NotContained(name, '=');
  }

  /** Every other attribute, and every attribute but those named path, is left alone. */
  lemma OtherPartKept(session: string, part: string)
    ensures LowerAll(Trim(Cut(Trim(part), '=').before)) != "path" ==> ScopePart(session, part) == part
  {
    assert LowerAll("path") == "path";
  }

  /** Without a session nothing is rewritten. */
  lemma NoSessionNoScope(raw: string, requestPath: string)
    requires !IsManagerName(SetCookieName(raw))
    ensures ScopedLine(raw, "", requestPath) == raw
  {
  }

  // ---- what the rewritten line looks like ----

  /** A part that pins the cookie below the session's prefix. */
  ghost predicate PinsPath(session: string, part: string) {
    exists p :: part == " Path=" + p && UnderSession(session, p) && Trimmed(p)
  }

  lemma ScopePathLacks(session: string, path: string, c: char)
    requires !Contains(session, c) && !Contains(path, c) && !Contains("/", c) && !Contains(PREFIX, c)
    ensures !Contains(ScopePath(session, path), c)
  {
    var prefix, p := PREFIX + session, Trim(path);
    TrimLacks(path, c);
    ConcatLacks(PREFIX, session, c);
    ConcatLacks("/", p, c);
    ConcatLacks(prefix, "/", c);
    ConcatLacks(prefix, p, c);
    ConcatLacks(prefix, "/" + p, c);
  }

  lemma PathPartPins(session: string, path: string)
    requires SessionId(session)
    ensures PinsPath(session, " Path=" + ScopePath(session, path))
  {
    ScopedIsUnder(session, path);
    ScopeIdempotent(session, path);
  }

  lemma PathPartLacks(session: string, path: string)
    requires !Contains(session, ';') && !Contains(path, ';')
    ensures !Contains(" Path=" + ScopePath(session, path), ';')
  {
    assert !Contains(PREFIX, ';') && !Contains("/", ';') && !Contains(" Path=", ';');
    ScopePathLacks(session, path, ';');
    ConcatLacks(" Path=", ScopePath(session, path), ';');
  }

  /** Spaces behind the value are not part of it. */
  lemma PathTextRead(p: string, r: string)
    requires p != "" && Trimmed(p) && AllSpace(r)
    ensures Cut(Trim(" Path=" + (p + r)), '=') == CutResult("Path", p, true)
  {
    var text := "Path=" + p;
    assert Trimmed(text) by { assert text[|text| - 1] == p[|p| - 1]; }
    TrimOf(" ", text, r);
    assert " Path=" + (p + r) == " " + text + r;
    assert text == "Path" + ['='] + p && !Contains("Path", '=');
    CutOf("Path", '=', p);
  }

  lemma ScopedStays(session: string, p: string)
    requires UnderSession(session, p) && Trimmed(p)
    ensures p != "" && ScopePath(session, p) == p
  {
    TrimTrimmed(p);
    var prefix := PREFIX + session;
    assert |prefix| >= 5 && prefix[0] == '/';
    assert |p| >= |prefix| && p[0] == prefix[0];
  }

  /** A pinned part is read as a Path attribute and rewritten to itself. */
  lemma PinnedPartRead(session: string, part: string)
    requires PinsPath(session, part)
    ensures IsPathPart(part) && ScopePart(session, part) == part
  {
    var p :| part == " Path=" + p && UnderSession(session, p) && Trimmed(p);
    ScopedStays(session, p);
    PathTextRead(p, "");
    assert p + "" == p;
    TrimTrimmed("Path");
  }

  lemma PathValueLacks(part: string)
    requires !Contains(part, ';')
    ensures !Contains(PathValue(part), ';')
  {
    TrimLacks(part, ';');
    var t := Trim(part);
    var i := IndexByte(t, '=');
    if i < |t| {
      SliceLacks(t, i + 1, |t|, ';');
      assert t[i + 1..|t|] == t[i + 1..];
    }
  }

  /** One rewritten part: a Path attribute becomes a pinned one, anything else keeps its text. */
  lemma ScopePartFacts(session: string, part: string)
    requires SessionId(session) && !Contains(session, ';') && !Contains(part, ';')
    ensures var s := ScopePart(session, part);
            && !Contains(s, ';')
            && (if IsPathPart(part) then PinsPath(session, s) && IsPathPart(s) else s == part)
  {
    if IsPathPart(part) {
      PathPartPins(session, PathValue(part));
      PinnedPartRead(session, ScopePart(session, part));
      PathValueLacks(part);
      PathPartLacks(session, PathValue(part));
    }
  }

  // ---- the default path, when it is appended ----

  /** The default path cut at its semicolons: decoded request paths may hold some. */
  function Segments(requestPath: string): (g: seq<string>)
    ensures |g| > 0
  {
    Split(DefaultPath(requestPath), ';')
  }

  /** The scoped form of the default path up to its first semicolon. */
  function ScopedHead(session: string, head: string): string {
    if PREFIX + session + "/" <= head then head else PREFIX + session + head
  }

  lemma DefaultPathEnds(requestPath: string)
    ensures var d := DefaultPath(requestPath); Normal(d) && d[|d| - 1] == '/'
  {
    DefaultMatches(requestPath);
  }

  lemma ScopedDefault(session: string, requestPath: string)
    requires SessionId(session)
    ensures ScopePath(session, DefaultPath(requestPath)) == ScopedHead(session, DefaultPath(requestPath))
  {
    var d := DefaultPath(requestPath);
    DefaultPathEnds(requestPath);
    ScopeForm(session, d);
    NormalizeNormal(d);
    LastNotSlash(session);
    assert (PREFIX + session)[|PREFIX + session| - 1] == session[|session| - 1];
  }

  /** What comes after the first semicolon does not touch the scoping of what comes before. */
  lemma ScopedHeadCut(session: string, head: string, tail: string)
    requires !Contains(session, ';')
    ensures ScopedHead(session, head + ";" + tail) == ScopedHead(session, head) + ";" + tail
  {
    var p, d := PREFIX + session + "/", head + ";" + tail;
    assert !Contains(p, ';') by {
      assert !Contains(PREFIX, ';') && !Contains("/", ';');
      ConcatLacks(PREFIX, session, ';');
      ConcatLacks(PREFIX + session, "/", ';');
    }
    PrefixBefore(p, head, tail);
  }

  /** A text without a semicolon is a prefix of what comes before one, or of neither. */
  lemma PrefixBefore(p: string, head: string, tail: string)
    requires !Contains(p, ';')
    ensures p <= head + ";" + tail <==> p <= head
  {
    var d := head + ";" + tail;
    NotContained(p, ';');
    assert d[|head|] == ';' && d[..|head|] == head;
    if p <= d {
      assert |p| <= |head|;
      assert p == d[..|p|] == head[..|p|];
    }
    if p <= head { assert d[..|p|] == head[..|p|]; }
  }

  lemma ScopedHeadLacks(session: string, head: string)
    requires !Contains(session, ';') && !Contains(head, ';')
    ensures !Contains(" Path=" + ScopedHead(session, head), ';')
  {
    assert !Contains(PREFIX, ';') && !Contains(" Path=", ';');
    ConcatLacks(PREFIX, session, ';');
    ConcatLacks(PREFIX + session, head, ';');
    ConcatLacks(" Path=", ScopedHead(session, head), ';');
  }

  /** Read back, the appended attribute is a Path attribute and the later segments. */
  lemma DefaultPartSplits(session: string, requestPath: string)
    requires SessionId(session) && !Contains(session, ';')
    ensures var g := Segments(requestPath);
            Split(DefaultPart(session, requestPath), ';') == [" Path=" + ScopedHead(session, g[0])] + g[1..]
  {
    ScopedDefault(session, requestPath);
    ScopedPathSplits(session, DefaultPath(requestPath));
  }

  lemma ScopedPathSplits(session: string, d: string)
    requires !Contains(session, ';')
    ensures var g := Split(d, ';');
            Split(" Path=" + ScopedHead(session, d), ';') == [" Path=" + ScopedHead(session, g[0])] + g[1..]
  {
    var i := IndexByte(d, ';');
    if i < |d| {
      assert d == d[..i] + ";" + d[i + 1..];
      NotContained(d[..i], ';');
      ScopedCutSplits(session, d[..i], d[i + 1..]);
    } else {
      ScopedWholeSplits(session, d);
    }
  }

  lemma ScopedWholeSplits(session: string, d: string)
    requires !Contains(session, ';') && !Contains(d, ';')
    ensures Split(d, ';') == [d] && Split(" Path=" + ScopedHead(session, d), ';') == [" Path=" + ScopedHead(session, d)]
  {
    ScopedHeadLacks(session, d);
    SplitOne(" Path=" + ScopedHead(session, d), ';');
    SplitOne(d, ';');
  }

  lemma ScopedCutSplits(session: string, head: string, tail: string)
    requires !Contains(session, ';') && !Contains(head, ';')
    ensures var g := Split(head + ";" + tail, ';');
            && g == [head] + Split(tail, ';')
            && Split(" Path=" + ScopedHead(session, head + ";" + tail), ';')
                 == [" Path=" + ScopedHead(session, head)] + g[1..]
  {
    SplitCons(head, ';', tail);
    ScopedHeadCut(session, head, tail);
    ScopedHeadLacks(session, head);
    PathPartCut(ScopedHead(session, head), tail);
  }

  lemma PathPartCut(p: string, tail: string)
    requires !Contains(" Path=" + p, ';')
    ensures Split(" Path=" + (p + ";" + tail), ';') == [" Path=" + p] + Split(tail, ';')
  {
    SplitCons(" Path=" + p, ';', tail);
    assert " Path=" + (p + ";" + tail) == " Path=" + p + [';'] + tail;
  }

  // ---- the result as a line ----

  lemma CutIsFirstPart(s: string)
    ensures Cut(s, ';').before == Split(s, ';')[0]
  {
  }

  lemma RawPartsLack(raw: string)
    ensures NoneContains(Split(raw, ';'), ';')
  {
    forall k | 0 <= k < |Split(raw, ';')| ensures !Contains(Split(raw, ';')[k], ';') { SplitParts(raw, ';', k); }
  }

  /** The rewritten line read back: the parts it had, rewritten, and, if none of them
      was a Path attribute, what is appended. */
  ghost function LineParts(session: string, requestPath: string, parts: seq<string>): seq<string> {
    ScopeAll(session, parts) + (if HasPath(parts) then [] else Appended(session, Segments(requestPath)))
  }

  function Appended(session: string, g: seq<string>): seq<string>
    requires |g| > 0
  {
    [" Path=" + ScopedHead(session, g[0])] + g[1..]
  }

  lemma ScopeAllLacks(session: string, parts: seq<string>)
    requires SessionId(session) && !Contains(session, ';') && NoneContains(parts, ';')
    ensures NoneContains(ScopeAll(session, parts), ';')
  {
    forall i | 0 <= i < |parts| ensures !Contains(ScopeAll(session, parts)[i], ';') {
      ScopePartFacts(session, parts[i]);
    }
  }

  /** Split at ';', the rewritten line is the rewritten parts: no attribute is
      lost, reordered or changed except Path. */
  lemma ScopedLineParts(raw: string, session: string, requestPath: string)
    requires SessionId(session) && !Contains(session, ';') && !IsManagerName(SetCookieName(raw))
    ensures Split(ScopedLine(raw, session, requestPath), ';') == LineParts(session, requestPath, Split(raw, ';'))
  {
    var parts := Split(raw, ';');
    var scoped := ScopeAll(session, parts);
    RawPartsLack(raw);
    ScopeAllLacks(session, parts);
    if HasPath(parts) {
      assert scoped + [] == scoped;
      SplitJoin(scoped, ';');
    } else {
      SplitJoinLast(scoped, DefaultPart(session, requestPath), ';');
      DefaultPartSplits(session, requestPath);
    }
  }

  /** The first part and every attribute but Path keep text and place, every Path
      attribute the line had is pinned under the session, and there is at least one
      in the result. */
  lemma LinePartsFacts(session: string, requestPath: string, parts: seq<string>)
    requires SessionId(session) && !Contains(session, ';') && |parts| > 0 && NoneContains(parts, ';')
    ensures var line := LineParts(session, requestPath, parts);
            && |parts| <= |line| && line[0] == parts[0]
            && (forall i :: 1 <= i < |parts| && !IsPathPart(parts[i]) ==> line[i] == parts[i])
            && (forall i :: 1 <= i < |parts| && IsPathPart(parts[i]) ==> PinsPath(session, line[i]))
            && HasPath(line)
  {
    var line := LineParts(session, requestPath, parts);
    forall i | 1 <= i < |parts|
      ensures if IsPathPart(parts[i]) then PinsPath(session, line[i]) && IsPathPart(line[i]) else line[i] == parts[i]
    {
      ScopePartFacts(session, parts[i]);
    }
    if i :| 1 <= i < |parts| && IsPathPart(parts[i]) {
      assert IsPathPart(line[i]);
    } else {
      HeadPart(session, requestPath);
      assert line[|parts|] == Appended(session, Segments(requestPath))[0];
    }
  }

  lemma HeadLed(requestPath: string)
    ensures var head := Segments(requestPath)[0]; head != "" && head[0] == '/'
  {
    DefaultPathEnds(requestPath);
    var d := DefaultPath(requestPath);
    assert IndexByte(d, ';') != 0;
  }

  /** Spaces before the semicolon stay behind the scoped path. */
  lemma ScopedHeadPadded(session: string, t: string, r: string)
    requires SessionId(session) && Normal(t) && AllSpace(r)
    ensures ScopedHead(session, t + r) == ScopedHead(session, t) + r
  {
    PrefixOfPadded(PREFIX + session, t, r);
    assert PREFIX + session + (t + r) == PREFIX + session + t + r;
  }

  lemma ScopedHeadUnder(session: string, t: string)
    requires Normal(t)
    ensures UnderSession(session, ScopedHead(session, t)) && Normal(ScopedHead(session, t))
  {
    var prefix := PREFIX + session;
    NormalPrefixed(prefix, t);
    assert (prefix + t)[..|prefix| + 1] == prefix + "/";
  }

  lemma PrefixOfPadded(prefix: string, t: string, r: string)
    requires AllSpace(r)
    ensures prefix + "/" <= t + r <==> prefix + "/" <= t
  {
    var p, d := prefix + "/", t + r;
    assert p[|p| - 1] == '/';
    assert forall i :: |t| <= i < |d| ==> d[i] == r[i - |t|];
    if p <= d {
      assert |p| <= |t|;
      assert p == d[..|p|] == t[..|p|];
    }
    if p <= t { assert d[..|p|] == t[..|p|]; }
  }

  /** The appended attribute is a Path attribute below the session's prefix; it
      stays as it is if no space comes before its semicolon. */
  lemma HeadPart(session: string, requestPath: string)
    requires SessionId(session)
    ensures var part := Appended(session, Segments(requestPath))[0];
            && IsPathPart(part) && UnderSession(session, PathValue(part)) && Trimmed(PathValue(part))
            && (PinsPath(session, part) <==> Trimmed(Segments(requestPath)[0]))
  {
    var head := Segments(requestPath)[0];
    HeadLed(requestPath);
    var l, r := TrimSplits(head);
    var t := Trim(head);
    SlashLed(head, l, t, r);
    ScopedHeadPadded(session, t, r);
    ScopedHeadUnder(session, t);
    PaddedIsTrimmed(t, r);
    PaddedPathPart(session, ScopedHead(session, t), r);
  }

  lemma PaddedPathPart(session: string, p: string, r: string)
    requires UnderSession(session, p) && Normal(p) && AllSpace(r)
    ensures var part := " Path=" + (p + r);
            IsPathPart(part) && PathValue(part) == p && (PinsPath(session, part) <==> r == "")
  {
    PathTextRead(p, r);
    TrimTrimmed("Path");
    PinsIff(session, p + r);
    PaddedIsTrimmed(p, r);
    if r == "" { assert p + r == p; }
  }

  lemma PaddedIsTrimmed(t: string, r: string)
    requires t != "" && Trimmed(t) && AllSpace(r)
    ensures Trimmed(t + r) <==> r == ""
  {
    if r == "" {
      assert t + r == t;
    } else {
      assert (t + r)[|t + r| - 1] == r[|r| - 1];
    }
  }

  lemma PinsIff(session: string, p: string)
    ensures PinsPath(session, " Path=" + p) <==> UnderSession(session, p) && Trimmed(p)
  {
    if q :| " Path=" + p == " Path=" + q && UnderSession(session, q) && Trimmed(q) {
      assert p == (" Path=" + p)[6..] == (" Path=" + q)[6..] == q;
    }
  }

  // ---- rewriting twice ----

  /** Nothing in the default path would be rewritten again: no space before its first
      semicolon, and no Path attribute behind one that is not already pinned. */
  ghost predicate StableDefault(session: string, requestPath: string) {
    var g := Segments(requestPath);
    Trimmed(g[0]) && AllPinned(session, g)
  }

  ghost predicate AllPinned(session: string, parts: seq<string>) {
    forall i :: 1 <= i < |parts| ==> Pinned(session, parts[i])
  }

  lemma WithoutSemicolonIsStable(session: string, requestPath: string)
    requires !Contains(requestPath, ';')
    ensures StableDefault(session, requestPath)
  {
    DefaultPathEnds(requestPath);
    WithoutSemicolon(requestPath);
  }

  lemma WithoutSemicolon(requestPath: string)
    requires !Contains(requestPath, ';')
    ensures Segments(requestPath) == [DefaultPath(requestPath)]
  {
    var p := Normalize(requestPath);
    TrimLacks(requestPath, ';');
    var i := LastIndex(p, '/', |p|);
    if i > 0 { SliceLacks(p, 0, i + 1, ';'); }
    SplitOne(DefaultPath(requestPath), ';');
  }

  /** Every Path attribute of the rewritten line is pinned under the session if and
      only if the line had one, or the default path it is given is stable. */
  lemma LinePinnedIff(session: string, requestPath: string, parts: seq<string>)
    requires SessionId(session) && !Contains(session, ';') && |parts| > 0 && NoneContains(parts, ';')
    ensures AllPinned(session, LineParts(session, requestPath, parts)) <==>
            HasPath(parts) || StableDefault(session, requestPath)
  {
    var scoped := ScopeAll(session, parts);
    forall i | 1 <= i < |parts| && IsPathPart(scoped[i]) ensures PinsPath(session, scoped[i]) {
      ScopePartFacts(session, parts[i]);
    }
    if HasPath(parts) {
      assert scoped + [] == scoped;
    } else {
      PinnedConcat(session, scoped, Appended(session, Segments(requestPath)));
      AppendedPinnedIff(session, requestPath);
    }
  }

  ghost predicate Pinned(session: string, part: string) {
    IsPathPart(part) ==> PinsPath(session, part)
  }

  lemma PinnedConcat(session: string, a: seq<string>, b: seq<string>)
    requires a != []
    ensures AllPinned(session, a + b) <==> AllPinned(session, a) && forall k :: 0 <= k < |b| ==> Pinned(session, b[k])
  {
    var c := a + b;
    assert forall i :: 0 <= i < |a| ==> c[i] == a[i];
    assert forall k :: 0 <= k < |b| ==> c[|a| + k] == b[k];
    assert forall i :: |a| <= i < |c| ==> c[i] == b[i - |a|];
  }

  lemma AppendedPinnedIff(session: string, requestPath: string)
    requires SessionId(session)
    ensures var b := Appended(session, Segments(requestPath));
            (forall k :: 0 <= k < |b| ==> Pinned(session, b[k])) <==> StableDefault(session, requestPath)
  {
    HeadPart(session, requestPath);
    AppendedAt(session, Segments(requestPath));
    PinnedTail(session, Appended(session, Segments(requestPath)), Segments(requestPath));
  }

  lemma PinnedTail(session: string, b: seq<string>, g: seq<string>)
    requires 0 < |b| == |g| && forall k :: 1 <= k < |g| ==> b[k] == g[k]
    ensures (forall k :: 0 <= k < |b| ==> Pinned(session, b[k])) <==> Pinned(session, b[0]) && AllPinned(session, g)
  {
  }

  lemma AppendedAt(session: string, g: seq<string>)
    requires |g| > 0
    ensures |Appended(session, g)| == |g| && forall k :: 1 <= k < |g| ==> Appended(session, g)[k] == g[k]
  {
  }

  lemma StablePartIff(session: string, part: string)
    requires SessionId(session)
    ensures ScopePart(session, part) == part <==> Pinned(session, part)
  {
    if IsPathPart(part) { PathPartPins(session, PathValue(part)); }
    if PinsPath(session, part) { PinnedPartRead(session, part); }
  }

  /** A line that has a Path attribute stays as it is if and only if all of them are pinned. */
  lemma StableLineIff(line: string, session: string, requestPath: string)
    requires SessionId(session) && !Contains(session, ';') && !IsManagerName(SetCookieName(line))
    requires HasPath(Split(line, ';'))
    ensures ScopedLine(line, session, requestPath) == line <==> AllPinned(session, Split(line, ';'))
  {
    var parts := Split(line, ';');
    var scoped := ScopeAll(session, parts);
    assert ScopedLine(line, session, requestPath) == Join(scoped, ";") by { assert scoped + [] == scoped; }
    RawPartsLack(line);
    ScopeAllLacks(session, parts);
    SplitJoin(scoped, ';');
    JoinSplit(line, ';');
    ScopeAllStableIff(session, parts);
  }

  lemma ScopeAllStableIff(session: string, parts: seq<string>)
    requires SessionId(session)
    ensures ScopeAll(session, parts) == parts <==> AllPinned(session, parts)
  {
    var scoped := ScopeAll(session, parts);
    forall i | 1 <= i < |parts| ensures scoped[i] == parts[i] <==> Pinned(session, parts[i]) {
      StablePartIff(session, parts[i]);
    }
    assert scoped == parts <==> forall i :: 1 <= i < |parts| ==> scoped[i] == parts[i];
  }

  /** Rewriting twice is rewriting once if and only if the line had a Path attribute,
      or the default path it is given is stable. */
  lemma ScopeSetCookieIdempotent(raw: string, session: string, requestPath: string)
    requires SessionId(session) && !Contains(session, ';') && !IsManagerName(SetCookieName(raw))
    ensures ScopedLine(ScopedLine(raw, session, requestPath), session, requestPath)
              == ScopedLine(raw, session, requestPath)
            <==> HasPath(Split(raw, ';')) || StableDefault(session, requestPath)
    ensures !Contains(requestPath, ';') ==> StableDefault(session, requestPath)
  {
    var line, parts := ScopedLine(raw, session, requestPath), Split(raw, ';');
    RawPartsLack(raw);
    ScopedLineParts(raw, session, requestPath);
    LinePartsFacts(session, requestPath, parts);
    LinePinnedIff(session, requestPath, parts);
    CutIsFirstPart(raw);
    CutIsFirstPart(line);
    StableLineIff(line, session, requestPath);
    if !Contains(requestPath, ';') { WithoutSemicolonIsStable(session, requestPath); }
  }

  // ---- where the cookie goes ----

  /** A cookie with this Path attribute goes to the request /dsh/<t><rest>. */
  predicate SentTo(part: string, t: string, rest: string) {
    PathMatches(PathValue(part), PREFIX + t + rest)
  }

  /** Whichever of the Path attributes is heeded, the cookie goes to no request under another session. */
  ghost predicate StaysWithin(session: string, parts: seq<string>) {
    forall i :: 1 <= i < |parts| ==> Within(session, parts[i])
  }

  ghost predicate Within(session: string, part: string) {
    IsPathPart(part) ==> forall t, rest :: OtherRequest(session, t, rest) ==> !SentTo(part, t, rest)
  }

  predicate OtherRequest(session: string, t: string, rest: string) {
    SessionId(t) && t != session && (rest == "" || rest[0] == '/')
  }

  /** A normal path that matches requests under other sessions: one above them all, or
      one under the prefix of another. */
  predicate Reaches(session: string, n: string) {
    n == "/" || n == "/dsh" || n == "/dsh/" || NamesOther(session, n)
  }

  predicate NamesOther(session: string, n: string) {
    PREFIX <= n &&
    var rest := n[|PREFIX|..];
    var id := rest[..IndexByte(rest, '/')];
    SessionId(id) && id != session
  }

  lemma NamesOtherOf(session: string, t: string, rest: string)
    requires OtherRequest(session, t, rest)
    ensures NamesOther(session, PREFIX + t + rest)
  {
    var n := PREFIX + t + rest;
    assert n[..|PREFIX|] == PREFIX && n[|PREFIX|..] == t + rest;
    IndexIs(t + rest, '/', |t|);
    assert (t + rest)[..|t|] == t;
  }

  lemma OtherRequestNormal(session: string, t: string, rest: string) returns (rest': string)
    requires OtherRequest(session, t, rest)
    ensures OtherRequest(session, t, rest') && Normalize(PREFIX + t + rest) == PREFIX + t + rest'
  {
    var r := PREFIX + t + rest;
    if rest == "" {
      rest' := "";
      assert r == PREFIX + t && r[|r| - 1] == t[|t| - 1];
      TrimTrimmed(r);
    } else {
      rest' := Normalize(rest);
      NormalizeScoped(t, rest);
      NormalizeNormal(rest);
    }
  }

  /** A normal path that matches a normal request under another session reaches it. */
  lemma MatchReaches(session: string, n: string, t: string, rest: string)
    requires OtherRequest(session, t, rest) && Normal(n) && Normal(PREFIX + t + rest)
    requires PathMatches(n, PREFIX + t + rest)
    ensures Reaches(session, n)
  {
    var head, r := PREFIX + t, PREFIX + t + rest;
    MatchesNormal(n, r);
    if |n| >= |head| {
      LongerNamesOther(session, n, t, rest);
    } else {
      SlashesOf(t);
      assert n == head[..|n|] by { assert n == r[..|n|]; }
      assert head[|n| - 1] == '/' || head[|n|] == '/';
      assert n == head[..1] || n == head[..4] || n == head[..5];
    }
  }

  lemma LongerNamesOther(session: string, n: string, t: string, rest: string)
    requires OtherRequest(session, t, rest) && n <= PREFIX + t + rest && |n| >= |PREFIX + t|
    ensures NamesOther(session, n)
  {
    var head, r := PREFIX + t, PREFIX + t + rest;
    var more := n[|head|..];
    assert r[|head|..] == rest && r[..|head|] == head;
    assert more == rest[..|more|] by { assert n == r[..|n|]; }
    assert n == PREFIX + t + more by { assert n[..|head|] == r[..|head|]; }
    NamesOtherOf(session, t, more);
  }

  /** The slashes of /dsh/<t>. */
  lemma SlashesOf(t: string)
    requires SessionId(t)
    ensures forall k :: 0 <= k < |PREFIX + t| ==> ((PREFIX + t)[k] == '/' <==> k == 0 || k == 4)
    ensures (PREFIX + t)[..1] == "/" && (PREFIX + t)[..4] == "/dsh" && (PREFIX + t)[..5] == "/dsh/"
  {
    NotContained(t, '/');
    assert forall k :: 5 <= k < |PREFIX + t| ==> (PREFIX + t)[k] == t[k - 5];
  }

  lemma ReachesMatch(session: string, n: string) returns (t: string, rest: string)
    requires Normal(n) && Reaches(session, n)
    ensures OtherRequest(session, t, rest) && PathMatches(n, PREFIX + t + rest)
  {
    if NamesOther(session, n) {
      var more := n[|PREFIX|..];
      var k := IndexByte(more, '/');
      t, rest := more[..k], more[k..];
      assert n == PREFIX + t + rest;
      MatchesReflexive(n);
    } else {
      t, rest := if session == "a" then "b" else "a", "";
      var r := PREFIX + t + rest;
      assert Normal(r) && SessionId(t) by { assert !Contains("a", '/') && !Contains("b", '/'); }
      SlashesOf(t);
      assert r == PREFIX + t;
      assert n <= r && (n[|n| - 1] == '/' || r[|n|] == '/');
      MatchesNormal(n, r);
    }
  }

  /** Which Path values let a cookie out of its session. */
  lemma WithinIff(session: string, part: string)
    ensures Within(session, part) <==> !Outside(session, part)
  {
    var v := PathValue(part);
    NormalizeNormal(v);
    if t, rest :| OtherRequest(session, t, rest) && SentTo(part, t, rest) {
      var rest' := OtherRequestNormal(session, t, rest);
      NormalizeNormal(PREFIX + t + rest);
      MatchesViaNormal(v, PREFIX + t + rest);
      MatchReaches(session, Normalize(v), t, rest');
    }
    if Reaches(session, Normalize(v)) {
      var t, rest := ReachesMatch(session, Normalize(v));
      MatchesViaNormal(v, PREFIX + t + rest);
      MatchesViaNormal(Normalize(v), PREFIX + t + rest);
      NormalizeNormal(Normalize(v));
      assert SentTo(part, t, rest);
    }
  }

  /** Some Path attribute behind a semicolon of the default path leads out of the session. */
  ghost predicate Escapes(session: string, requestPath: string) {
    var g := Segments(requestPath);
    exists j :: 1 <= j < |g| && Outside(session, g[j])
  }

  predicate Outside(session: string, part: string) {
    IsPathPart(part) && Reaches(session, Normalize(PathValue(part)))
  }

  lemma UnderStays(session: string, part: string)
    requires SessionId(session) && UnderSession(session, PathValue(part)) && Trimmed(PathValue(part))
    ensures Within(session, part)
  {
    forall t, rest | OtherRequest(session, t, rest) ensures !SentTo(part, t, rest) {
      UnderIsSeparate(session, t, PathValue(part), rest);
    }
  }

  lemma PinnedStays(session: string, part: string)
    requires SessionId(session) && PinsPath(session, part)
    ensures Within(session, part)
  {
    var p :| part == " Path=" + p && UnderSession(session, p) && Trimmed(p);
    ScopedStays(session, p);
    PathTextRead(p, "");
    assert p + "" == p;
    UnderStays(session, part);
  }

  lemma PartsStayIff(session: string, requestPath: string, parts: seq<string>)
    requires SessionId(session) && !Contains(session, ';') && |parts| > 0 && NoneContains(parts, ';')
    ensures StaysWithin(session, LineParts(session, requestPath, parts)) <==>
            HasPath(parts) || !Escapes(session, requestPath)
  {
    var scoped := ScopeAll(session, parts);
    forall i | 1 <= i < |parts| ensures Within(session, scoped[i]) {
      ScopePartFacts(session, parts[i]);
      if IsPathPart(parts[i]) { PinnedStays(session, scoped[i]); }
    }
    if HasPath(parts) {
      assert scoped + [] == scoped;
    } else {
      WithinConcat(session, scoped, Appended(session, Segments(requestPath)));
      AppendedWithinIff(session, requestPath);
    }
  }

  lemma WithinConcat(session: string, a: seq<string>, b: seq<string>)
    requires a != []
    ensures StaysWithin(session, a + b) <==>
            StaysWithin(session, a) && forall k :: 0 <= k < |b| ==> Within(session, b[k])
  {
    var c := a + b;
    assert forall i :: 0 <= i < |a| ==> c[i] == a[i];
    assert forall k :: 0 <= k < |b| ==> c[|a| + k] == b[k];
    assert forall i :: |a| <= i < |c| ==> c[i] == b[i - |a|];
  }

  lemma AppendedWithinIff(session: string, requestPath: string)
    requires SessionId(session)
    ensures var b := Appended(session, Segments(requestPath));
            (forall k :: 0 <= k < |b| ==> Within(session, b[k])) <==> !Escapes(session, requestPath)
  {
    var b := Appended(session, Segments(requestPath));
    assert Within(session, b[0]) by {
      HeadPart(session, requestPath);
      UnderStays(session, b[0]);
    }
    AppendedAt(session, Segments(requestPath));
    WithinTail(session, b, Segments(requestPath));
  }

  lemma WithinTail(session: string, b: seq<string>, g: seq<string>)
    requires 0 < |b| == |g| && forall k :: 1 <= k < |g| ==> b[k] == g[k]
    ensures (forall k :: 0 <= k < |b| ==> Within(session, b[k])) <==>
            Within(session, b[0]) && forall k :: 1 <= k < |g| ==> !Outside(session, g[k])
  {
    forall k | 1 <= k < |g| ensures Within(session, g[k]) <==> !Outside(session, g[k]) {
      WithinIff(session, g[k]);
    }
  }

  /** The rewritten line has a Path attribute, and however many it has and whichever
      of them is heeded, the cookie goes to no request under another session, if and
      only if the line had a Path attribute of its own or no Path attribute behind a
      semicolon of the request path leads out. */
  lemma LinesAreSeparateIff(raw: string, session: string, requestPath: string)
    requires SessionId(session) && !Contains(session, ';') && !IsManagerName(SetCookieName(raw))
    ensures HasPath(Split(ScopedLine(raw, session, requestPath), ';'))
    ensures StaysWithin(session, Split(ScopedLine(raw, session, requestPath), ';')) <==>
            HasPath(Split(raw, ';')) || !Escapes(session, requestPath)
    ensures !Contains(requestPath, ';') ==> !Escapes(session, requestPath)
  {
    var parts := Split(raw, ';');
    RawPartsLack(raw);
    ScopedLineParts(raw, session, requestPath);
    LinePartsFacts(session, requestPath, parts);
    PartsStayIff(session, requestPath, parts);
    if !Contains(requestPath, ';') { WithoutSemicolon(requestPath); }
  }

  // ---- two request paths on which rewriting goes wrong ----

  lemma PlainLine()
    ensures Split("a=1", ';') == ["a=1"] && !HasPath(["a=1"]) && !IsManagerName(SetCookieName("a=1"))
  {
    assert !Contains("a=1", ';');
    SplitOne("a=1", ';');
    TrimTrimmed("a=1");
    assert "a=1" == "a" + ['='] + "1" && !Contains("a", '=');
    CutOf("a", '=', "1");
    TrimTrimmed("a");
  }

  lemma SegmentsOf(head: string, tail: string)
    requires Normal(head + ";" + tail) && tail != "" && tail[|tail| - 1] == '/'
    requires !Contains(head, ';') && !Contains(tail, ';')
    ensures Segments(head + ";" + tail) == [head, tail]
  {
    DefaultIsItself(head + ";" + tail);
    SplitCons(head, ';', tail);
    SplitOne(tail, ';');
  }

  lemma DefaultIsItself(p: string)
    requires Normal(p) && p[|p| - 1] == '/'
    ensures DefaultPath(p) == p
  {
    NormalizeNormal(p);
    assert p[..|p|] == p;
  }

  lemma PlainPathPart(value: string)
    requires value != "" && Trimmed(value)
    ensures IsPathPart("path=" + value) && PathValue("path=" + value) == value
  {
    var part := "path=" + value;
    assert part[|part| - 1] == value[|value| - 1];
    TrimTrimmed(part);
    assert part == "path" + ['='] + value && !Contains("path", '=');
    CutOf("path", '=', value);
    TrimTrimmed("path");
  }

  const SEMICOLON_PATH: string := "/;path=/dsh/y/"

  lemma SemicolonSegments()
    ensures SessionId("x") && !Contains("x", ';') && Segments(SEMICOLON_PATH) == ["/", "path=/dsh/y/"]
  {
    assert SessionId("x") && !Contains("x", ';') by { assert !Contains("x", '/'); }
    var last := "path=/dsh/y/";
    assert SEMICOLON_PATH == "/" + ";" + last && Normal(SEMICOLON_PATH) && !Contains("/", ';') && !Contains(last, ';');
    SegmentsOf("/", last);
  }

  lemma SemicolonLine()
    ensures Split(ScopedLine("a=1", "x", SEMICOLON_PATH), ';') == ["a=1", " Path=/dsh/x/", "path=/dsh/y/"]
  {
    PlainLine();
    SemicolonSegments();
    ScopedLineParts("a=1", "x", SEMICOLON_PATH);
    OnePart("x", SEMICOLON_PATH, "a=1");
    SemicolonAppended();
  }

  lemma SemicolonAppended()
    ensures Appended("x", ["/", "path=/dsh/y/"]) == [" Path=/dsh/x/", "path=/dsh/y/"]
  {
    assert ScopedHead("x", "/") == "/dsh/x/";
    assert " Path=" + "/dsh/x/" == " Path=/dsh/x/";
  }

  lemma OnePart(session: string, requestPath: string, first: string)
    ensures LineParts(session, requestPath, [first]) == [first] + Appended(session, Segments(requestPath))
  {
    assert ScopeAll(session, [first]) == [first];
  }

  lemma SemicolonEscapes()
    ensures IsPathPart("path=/dsh/y/") && SentTo("path=/dsh/y/", "y", "/z")
  {
    assert Trimmed("/dsh/y/") && "path=/dsh/y/" == "path=" + "/dsh/y/";
    PlainPathPart("/dsh/y/");
    assert Normal("/dsh/y/") && Normal("/dsh/y/z") && PREFIX + "y" + "/z" == "/dsh/y/z";
    MatchesNormal("/dsh/y/", "/dsh/y/z");
  }

  /** A cookie without a Path, set in session x for a request to /;path=/dsh/y/ (the
      path as decoded), gets a second Path attribute from the request: it goes to
      session y, and rewriting the line again changes it. */
  lemma SemicolonWitness()
    ensures var line := ScopedLine("a=1", "x", SEMICOLON_PATH);
            && Split(line, ';') == ["a=1", " Path=/dsh/x/", "path=/dsh/y/"]
            && IsPathPart("path=/dsh/y/") && SentTo("path=/dsh/y/", "y", "/z")
            && ScopedLine(line, "x", SEMICOLON_PATH) != line
  {
    SemicolonLine();
    SemicolonEscapes();
    assert !StableDefault("x", SEMICOLON_PATH) by {
      SemicolonSegments();
      var g := Segments(SEMICOLON_PATH);
      assert g[1][0] == 'p';
      assert !Pinned("x", g[1]);
    }
    PlainLine();
    SemicolonSegments();
    ScopeSetCookieIdempotent("a=1", "x", SEMICOLON_PATH);
  }

  /** A space before the semicolon is enough for the second rewriting to differ. */
  lemma SpaceWitness()
    ensures var path := "/a ;/"; var line := ScopedLine("a=1", "x", path); ScopedLine(line, "x", path) != line
  {
    var path := "/a ;/";
    PlainLine();
    assert SessionId("x") && !Contains("x", ';') by { assert !Contains("x", '/'); }
    assert path == "/a " + ";" + "/" && Normal(path) && !Contains("/a ", ';') && !Contains("/", ';');
    SegmentsOf("/a ", "/");
    assert !Trimmed("/a ");
    ScopeSetCookieIdempotent("a=1", "x", path);
  }
}
