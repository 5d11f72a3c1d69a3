/** What a cached script looks like from outside: the bodies that were added are the
    bodies that are served, and all bodies held together stay within the limit. */
module RewrittenBodies {
  import opened Options
  import opened RewrittenHeaders
  import opened RewrittenCache

  /** Add a script and ask for it: a client that takes gzip gets the compressed body,
      any other the plain one, and each is told what it gets; HEAD gets no body, but is
      told the same. */
  method AddThenServe(c: Cache, key: Key, headers: map<string, string>, identity: Bytes, gzip: Bytes,
                      verb: Verb, acceptEncoding: string, base: Header) returns (r: Response)
    requires c.Valid() && identity != [] && |identity| + |gzip| <= c.maxBytes && !verb.Other?
    modifies c
    ensures c.Valid() && r.Served?
    ensures verb == Head ==> r.body == []
    ensures TakesGzip(acceptEncoding) && gzip != [] ==>
              && r.gzipped && (verb == Get ==> r.body == gzip)
              && Values(r.header, ContentEncoding) == ["gzip"] && Values(r.header, ContentLength) == [Itoa(|gzip|)]
    ensures !TakesGzip(acceptEncoding) || gzip == [] ==>
              && !r.gzipped && (verb == Get ==> r.body == identity)
              && Values(r.header, ContentEncoding) == [] && Values(r.header, ContentLength) == [Itoa(|identity|)]
  {
    c.Add(key, headers, identity, Some(gzip));
    assert c.lru[IndexOf(c.lru, key)] == c.lru[0];
    r := c.Serve(verb, acceptEncoding, base, key);
  }

  /** A script of a cache that has only been filled by adds. */
  datatype Script = Script(key: Key, headers: map<string, string>, identity: Bytes, gzip: Option<Bytes>)

  /** However many scripts are added, the bodies held never exceed the limit. */
  method AddAllScripts(scripts: seq<Script>, limit: int) returns (c: Cache)
    ensures fresh(c) && c.Valid() && Measured(c.lru)
    ensures BodyBytes(c.lru, |c.lru|) <= (if limit <= 0 then 32 * 1024 * 1024 else limit)
  {
    c := new Cache(limit);
    for i := 0 to |scripts|
      invariant fresh(c) && c.Valid() && Measured(c.lru)
    {
      c.Add(scripts[i].key, scripts[i].headers, scripts[i].identity, scripts[i].gzip);
    }
    MeasuredBodies(c.lru, |c.lru|);
  }
}
