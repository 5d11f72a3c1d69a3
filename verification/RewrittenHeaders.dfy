/** The headers of a cached script: which are kept with it, and which a served copy carries. */
module RewrittenHeaders {
  import opened GoStrings

  /** A header name without regard to case; the names the cache treats specially have their own. */
  datatype HeaderName =
    | ContentLength | ContentEncoding | ETag | ContentMD5 | Digest | SetCookie
    | CacheControl | Vary | Other(lower: string)

  function NameOf(s: string): HeaderName {
    if EqualFold(s, "content-length") then ContentLength
    else if EqualFold(s, "content-encoding") then ContentEncoding
    else if EqualFold(s, "etag") then ETag
    else if EqualFold(s, "content-md5") then ContentMD5
    else if EqualFold(s, "digest") then Digest
    else if EqualFold(s, "set-cookie") then SetCookie
    else if EqualFold(s, "cache-control") then CacheControl
    else if EqualFold(s, "vary") then Vary
    else Other(LowerAll(s))
  }

  /** Headers that belong to one connection: isHopHeader. */
  predicate IsHop(s: string) {
    || EqualFold(s, "connection") || EqualFold(s, "keep-alive") || EqualFold(s, "proxy-authenticate")
    || EqualFold(s, "proxy-authorization") || EqualFold(s, "te") || EqualFold(s, "trailer")
    || EqualFold(s, "transfer-encoding") || EqualFold(s, "upgrade") || EqualFold(s, "host")
  }

  predicate IsBodyName(n: HeaderName) {
    n.ContentLength? || n.ContentEncoding? || n.ETag? || n.ContentMD5? || n.Digest?
  }

  /** Names that describe one body or one client, or belong to the connection, are not cached. */
  predicate IsSafe(s: string) {
    !IsBodyName(NameOf(s)) && !NameOf(s).SetCookie? && !IsHop(s)
  }

  /** Exactly these names, in any case, are not kept with a script. */
  predicate IsDropped(lower: string) {
    || lower == "content-length" || lower == "content-encoding" || lower == "etag" || lower == "content-md5"
    || lower == "digest" || lower == "set-cookie"
    || lower == "connection" || lower == "keep-alive" || lower == "proxy-authenticate"
    || lower == "proxy-authorization" || lower == "te" || lower == "trailer"
    || lower == "transfer-encoding" || lower == "upgrade" || lower == "host"
  }

  lemma SafeIff(s: string)
    ensures IsSafe(s) <==> !IsDropped(LowerAll(s))
  {
    BodyNameIff(s);
    HopIff(s);
  }

  lemma HopIff(s: string)
    ensures var l := LowerAll(s);
            IsHop(s) <==> l == "connection" || l == "keep-alive" || l == "proxy-authenticate"
                          || l == "proxy-authorization" || l == "te" || l == "trailer"
                          || l == "transfer-encoding" || l == "upgrade" || l == "host"
  {
    assert LowerAll("connection") == "connection";
    assert LowerAll("keep-alive") == "keep-alive";
    assert LowerAll("proxy-authenticate") == "proxy-authenticate";
    assert LowerAll("proxy-authorization") == "proxy-authorization";
    assert LowerAll("te") == "te";
    assert LowerAll("trailer") == "trailer";
    assert LowerAll("transfer-encoding") == "transfer-encoding";
    assert LowerAll("upgrade") == "upgrade";
    assert LowerAll("host") == "host";
  }

  lemma BodyNameIff(s: string)
    ensures var l := LowerAll(s);
            IsBodyName(NameOf(s)) || NameOf(s).SetCookie? <==>
            l == "content-length" || l == "content-encoding" || l == "etag" || l == "content-md5"
            || l == "digest" || l == "set-cookie"
  {
    assert LowerAll("content-length") == "content-length";
    assert LowerAll("content-encoding") == "content-encoding";
    assert LowerAll("etag") == "etag";
    assert LowerAll("content-md5") == "content-md5";
    assert LowerAll("digest") == "digest";
    assert LowerAll("set-cookie") == "set-cookie";
  }

  /** Two names stand for one header if and only if they differ at most by case. */
  lemma SameHeaderIff(a: string, b: string)
    ensures NameOf(a) == NameOf(b) <==> LowerAll(a) == LowerAll(b)
  {
    NameText(a);
    NameText(b);
  }

  /** The lower-case text a name stands for. */
  function TextOf(n: HeaderName): string {
    match n
    case ContentLength => "content-length"
    case ContentEncoding => "content-encoding"
    case ETag => "etag"
    case ContentMD5 => "content-md5"
    case Digest => "digest"
    case SetCookie => "set-cookie"
    case CacheControl => "cache-control"
    case Vary => "vary"
    case Other(l) => l
  }

  lemma NameText(s: string)
    ensures TextOf(NameOf(s)) == LowerAll(s)
  {
    assert LowerAll("content-length") == "content-length";
    assert LowerAll("content-encoding") == "content-encoding";
    assert LowerAll("etag") == "etag";
    assert LowerAll("content-md5") == "content-md5";
    assert LowerAll("digest") == "digest";
    assert LowerAll("set-cookie") == "set-cookie";
    assert LowerAll("cache-control") == "cache-control";
    assert LowerAll("vary") == "vary";
  }

  /** safeCachedHeaders keeps exactly the safe headers, as they are. */
  method SafeCachedHeaders(headers: map<string, string>) returns (result: map<string, string>)
    ensures result == map n | n in headers && IsSafe(n) :: headers[n]
  {
    result := map[];
    var left := headers.Keys;
    while left != {}
      invariant left <= headers.Keys
      invariant result == map n | n in headers && n !in left && IsSafe(n) :: headers[n]
      decreases |left|
    {
      var n :| n in left;
      left := left - {n};
      if IsSafe(n) { result := result[n := headers[n]]; }
    }
  }

  // ---- the response's header ----

  type Header = map<HeaderName, seq<string>>

  /** One of the cached values for this name. */
  ghost predicate CachedValue(cached: map<string, string>, n: HeaderName, value: seq<string>) {
    exists s :: s in cached && NameOf(s) == n && value == [cached[s]]
  }

  ghost predicate HasCached(cached: map<string, string>, n: HeaderName) {
    exists s :: s in cached && NameOf(s) == n
  }

  /** The header after all cached headers have been set on it, in whatever order the
      map gives them: where names differ only by case, one of the values is set. */
  ghost predicate Merged(base: Header, cached: map<string, string>, h: Header) {
    forall n :: if HasCached(cached, n) then n in h && CachedValue(cached, n, h[n])
                else (n in h <==> n in base) && (n in h ==> h[n] == base[n])
  }

  lemma MergeOne(base: Header, cached: map<string, string>, h: Header, s: string, value: string)
    requires Merged(base, cached, h) && s !in cached
    ensures Merged(base, cached[s := value], h[NameOf(s) := [value]])
  {
    var more, g := cached[s := value], h[NameOf(s) := [value]];
    forall n ensures if HasCached(more, n) then n in g && CachedValue(more, n, g[n])
                     else (n in g <==> n in base) && (n in g ==> g[n] == base[n])
    {
      if n == NameOf(s) {
        assert s in more && more[s] == value;
      } else if HasCached(cached, n) {
        var t :| t in cached && NameOf(t) == n && h[n] == [cached[t]];
        assert t in more && more[t] == cached[t];
      } else {
        assert forall t :: t in more && NameOf(t) == n ==> t in cached;
      }
    }
  }

  method SetOne(h: Header, s: string, value: string, ghost base: Header, ghost done: map<string, string>)
    returns (h': Header)
    requires Merged(base, done, h) && s !in done
    ensures Merged(base, done[s := value], h')
  {
    MergeOne(base, done, h, s, value);
    h' := h[NameOf(s) := [value]];
  }

  method MergeCached(base: Header, cached: map<string, string>) returns (h: Header)
    ensures Merged(base, cached, h)
  {
    h := base;
    var left := cached.Keys;
    ghost var done: map<string, string> := map[];
    NothingMerged(base);
    while left != {}
      invariant left <= cached.Keys && Merged(base, done, h)
      invariant done == map s | s in cached && s !in left :: cached[s]
      decreases |left|
    {
      var s :| s in left;
      h := SetOne(h, s, cached[s], base, done);
      done := done[s := cached[s]];
      left := left - {s};
    }
    assert done == cached;
  }

  lemma NothingMerged(base: Header)
    ensures Merged(base, map[], base)
  {
  }

  /** A Vary value already names this header. */
  predicate Names(values: seq<string>, name: string) {
    exists i :: 0 <= i < |values| && NamesIn(Split(values[i], ','), name)
  }

  predicate NamesIn(items: seq<string>, name: string) {
    exists j :: 0 <= j < |items| && EqualFold(Trim(items[j]), name)
  }

  const ACCEPT_ENCODING: string := "Accept-Encoding"

  /** addVaryHeader: add the name unless it is there. */
  function AddVary(values: seq<string>): seq<string> {
    if Names(values, ACCEPT_ENCODING) then values else values + [ACCEPT_ENCODING]
  }

  lemma AddVaryNames(values: seq<string>)
    ensures Names(AddVary(values), ACCEPT_ENCODING)
  {
    if !Names(values, ACCEPT_ENCODING) {
      NamesItself();
      var more := values + [ACCEPT_ENCODING];
      assert more[|values|] == ACCEPT_ENCODING;
    }
  }

  lemma NamesItself()
    ensures NamesIn(Split(ACCEPT_ENCODING, ','), ACCEPT_ENCODING)
  {
    assert !Contains(ACCEPT_ENCODING, ',') by {
      assert forall i :: 0 <= i < |ACCEPT_ENCODING| ==> ACCEPT_ENCODING[i] != ',';
      NotContained(ACCEPT_ENCODING, ',');
    }
    assert Trimmed(ACCEPT_ENCODING);
    NamesAlone(ACCEPT_ENCODING);
  }

  /** A name alone in a list is found in it. */
  lemma NamesAlone(name: string)
    ensures !Contains(name, ',') && Trimmed(name) ==> NamesIn(Split(name, ','), name)
  {
    SplitOne(name, ',');
    TrimTrimmed(name);
    var items := [name];
    assert Trim(name) == name ==> EqualFold(Trim(items[0]), name);
  }

  function Values(h: Header, n: HeaderName): seq<string> {
    if n in h then h[n] else []
  }

  function Digit(d: nat): char
    requires d < 10
  {
    ('0' as int + d) as char
  }

  /** strconv.Itoa on a length. */
  function Itoa(n: nat): string {
    if n < 10 then [Digit(n)] else Itoa(n / 10) + [Digit(n % 10)]
  }

  /** What a reader makes of decimal digits. */
  function ReadDecimal(s: string): int {
    if s == "" then 0 else 10 * ReadDecimal(s[..|s| - 1]) + (s[|s| - 1] as int - '0' as int)
  }

  /** The digits read back give the number; they are digits, and none leads in vain. */
  lemma {:induction false} ItoaReadsBack(n: nat)
    ensures ReadDecimal(Itoa(n)) == n && Itoa(n) != ""
    ensures forall i :: 0 <= i < |Itoa(n)| ==> '0' <= Itoa(n)[i] <= '9'
    ensures n > 0 ==> Itoa(n)[0] != '0'
  {
    if n < 10 {
      assert [Digit(n)][..0] == "";
    } else {
      ItoaReadsBack(n / 10);
      var s := Itoa(n / 10) + [Digit(n % 10)];
      assert s[..|s| - 1] == Itoa(n / 10);
    }
  }

  const IMMUTABLE: string := "public, max-age=31536000, immutable"

  /** What a served copy tells the browser: the length and encoding of the variant that
      is sent and nothing left over from another body, a lifetime, that the answer
      depends on Accept-Encoding, and otherwise the cached headers over those there were. */
  ghost predicate Describes(base: Header, cached: map<string, string>, gzipped: bool, length: nat, h: Header) {
    && Values(h, ContentLength) == [Itoa(length)]
    && Values(h, ContentEncoding) == (if gzipped then ["gzip"] else [])
    && ETag !in h && ContentMD5 !in h && Digest !in h
    && Values(h, CacheControl) == ["public, max-age=31536000, immutable"]
    && Names(Values(h, Vary), "Accept-Encoding")
    && exists m :: Merged(base, cached, m)
         && Values(m, Vary) <= Values(h, Vary) && |Values(h, Vary)| <= |Values(m, Vary)| + 1
         && (Names(Values(m, Vary), "Accept-Encoding") ==> Values(h, Vary) == Values(m, Vary))
         && forall n :: !IsBodyName(n) && !n.CacheControl? && !n.Vary? ==> Values(h, n) == Values(m, n)
  }

  method ServedHeader(base: Header, cached: map<string, string>, gzipped: bool, length: nat) returns (h: Header)
    ensures Describes(base, cached, gzipped, length, h)
  {
    var m := MergeCached(base, cached);
    var vary := AddVary(Values(m, Vary));
    AddVaryNames(Values(m, Vary));
    h := Finish(m, gzipped, Itoa(length), vary);
  }

  /** The headers that do not come from the cache. */
  method Finish(m: Header, gzipped: bool, length: string, vary: seq<string>) returns (h: Header)
    ensures Values(h, ContentLength) == [length]
    ensures Values(h, ContentEncoding) == (if gzipped then ["gzip"] else [])
    ensures ETag !in h && ContentMD5 !in h && Digest !in h
    ensures Values(h, CacheControl) == [IMMUTABLE] && Values(h, Vary) == vary
    ensures forall n :: !IsBodyName(n) && !n.CacheControl? && !n.Vary? ==> Values(h, n) == Values(m, n)
  {
    h := m - {ContentLength, ContentEncoding, ETag, ContentMD5, Digest};
    if gzipped { h := h[ContentEncoding := ["gzip"]]; } else { h := h - {ContentEncoding}; }
    h := h[ContentLength := [length]];
    h := h[CacheControl := [IMMUTABLE]];
    h := h[Vary := vary];
  }

  /** Whether the client takes gzip: an item of Accept-Encoding names it, whatever
      quality value follows the name. */
  ghost predicate TakesGzip(acceptEncoding: string) {
    exists i :: 0 <= i < |Split(acceptEncoding, ',')| && IsGzipItem(Split(acceptEncoding, ',')[i])
  }

  predicate IsGzipItem(item: string) {
    EqualFold(Trim(Split(Trim(item), ';')[0]), "gzip")
  }

  /** An item names gzip exactly if what comes before its first semicolon, without
      spaces, is "gzip" in any case. */
  lemma GzipItemIff(l: string, name: string, r: string, parameters: string)
    requires AllSpace(l) && AllSpace(r) && Trimmed(name) && name != "" && !Contains(name, ';')
    ensures IsGzipItem(l + name + r) <==> LowerAll(name) == "gzip"
    ensures Trimmed(";" + parameters) ==> (IsGzipItem(l + name + ";" + parameters) <==> LowerAll(name) == "gzip")
  {
    TrimOf(l, name, r);
    SplitOne(name, ';');
    TrimTrimmed(name);
    assert LowerAll("gzip") == "gzip";
    if Trimmed(";" + parameters) {
      var item := name + ";" + parameters;
      assert item[|item| - 1] == (";" + parameters)[|parameters|] && item[0] == name[0];
      TrimOf(l, item, "");
      assert l + item + "" == l + name + ";" + parameters;
      assert item == name + [';'] + parameters;
      SplitCons(name, ';', parameters);
    }
  }

  method AcceptsGzip(acceptEncoding: string) returns (yes: bool)
    ensures yes <==> TakesGzip(acceptEncoding)
  {
    var items := Split(acceptEncoding, ',');
    for i := 0 to |items|
      invariant forall j :: 0 <= j < i ==> !IsGzipItem(items[j])
    {
      if IsGzipItem(items[i]) { return true; }
    }
    return false;
  }
}
