/** The byte-bounded LRU cache of rewritten scripts. */
module RewrittenCache {
  import opened Options
  import opened RewrittenHeaders

  type Bytes = seq<bv8>

  datatype Key = Key(text: string)

  /** A stored script: its key, its two bodies, and their common size. */
  datatype Entry = Entry(key: Key, headers: map<string, string>, identity: Bytes, gzip: Bytes, bytes: nat)

  // ---- recency orders: entries, most recently used first ----

  /** The sizes of the first n entries together. */
  function Sum(r: seq<Entry>, n: nat): nat
    requires n <= |r|
  {
    if n == 0 then 0 else Sum(r, n - 1) + r[n - 1].bytes
  }

  function Total(r: seq<Entry>): nat {
    Sum(r, |r|)
  }

  ghost predicate DistinctKeys(r: seq<Entry>) {
    forall i, j :: 0 <= i < j < |r| ==> r[i].key != r[j].key
  }

  function IndexFrom(r: seq<Entry>, k: Key, from: nat): (i: nat)
    requires from <= |r|
    ensures from <= i <= |r| && (i < |r| ==> r[i].key == k)
    ensures forall j :: from <= j < i ==> r[j].key != k
    decreases |r| - from
  {
    if from == |r| || r[from].key == k then from else IndexFrom(r, k, from + 1)
  }

  /** Where the entry for k is; |r| if there is none. */
  function IndexOf(r: seq<Entry>, k: Key): nat {
    IndexFrom(r, k, 0)
  }

  predicate Holds(r: seq<Entry>, k: Key) {
    IndexOf(r, k) < |r|
  }

  function Lookup(r: seq<Entry>, k: Key): Entry
    requires Holds(r, k)
  {
    r[IndexOf(r, k)]
  }

  /** The order without the entry for k. */
  function Without(r: seq<Entry>, k: Key): seq<Entry> {
    var i := IndexOf(r, k);
    if i < |r| then r[..i] + r[i + 1..] else r
  }

  function FitFrom(r: seq<Entry>, from: nat, room: int): (n: nat)
    requires from <= |r|
    ensures from <= n <= |r|
    decreases |r| - from
  {
    if from == |r| || r[from].bytes > room then from else FitFrom(r, from + 1, room - r[from].bytes)
  }

  /** Length of the longest prefix whose sizes sum to at most room. */
  function FitLength(r: seq<Entry>, room: int): (n: nat)
    ensures n <= |r|
  {
    FitFrom(r, 0, room)
  }

  function Fit(r: seq<Entry>, room: int): seq<Entry> {
    r[..FitLength(r, room)]
  }

  lemma {:induction false} SumPrefix(a: seq<Entry>, b: seq<Entry>, n: nat)
    requires n <= |a| && n <= |b| && a[..n] == b[..n]
    ensures Sum(a, n) == Sum(b, n)
  {
    if n > 0 {
      assert a[..n - 1] == a[..n][..n - 1] == b[..n][..n - 1] == b[..n - 1];
      assert a[n - 1] == a[..n][n - 1] == b[..n][n - 1] == b[n - 1];
      SumPrefix(a, b, n - 1);
    }
  }

  lemma {:induction false} SumConcat(a: seq<Entry>, b: seq<Entry>, n: nat)
    requires n <= |b|
    ensures Sum(a + b, |a| + n) == Total(a) + Sum(b, n)
  {
    if n == 0 {
      assert (a + b)[..|a|] == a[..|a|];
      SumPrefix(a + b, a, |a|);
    } else {
      SumConcat(a, b, n - 1);
    }
  }

  lemma TotalConcat(a: seq<Entry>, b: seq<Entry>)
    ensures Total(a + b) == Total(a) + Total(b)
  {
    SumConcat(a, b, |b|);
  }

  lemma {:induction false} SumMonotone(r: seq<Entry>, m: nat, n: nat)
    requires m <= n <= |r|
    ensures Sum(r, m) <= Sum(r, n)
  {
    if m < n { SumMonotone(r, m, n - 1); }
  }

  lemma {:induction false} FitFromLongest(r: seq<Entry>, from: nat, room: int, n: nat)
    requires from <= n <= |r| && room >= 0
    ensures Sum(r, n) - Sum(r, from) <= room <==> n <= FitFrom(r, from, room)
    decreases |r| - from
  {
    if from < n {
      SumMonotone(r, from + 1, n);
      if r[from].bytes <= room { FitFromLongest(r, from + 1, room - r[from].bytes, n); }
    }
  }

  /** Fit is the longest prefix within the room: a prefix fits if and only if it is no longer. */
  lemma FitIsLongest(r: seq<Entry>, room: int, n: nat)
    requires room >= 0 && n <= |r|
    ensures Total(r[..n]) <= room <==> n <= FitLength(r, room)
  {
    FitFromLongest(r, 0, room, n);
    SumPrefix(r[..n], r, n);
  }

  // ---- the operations on recency orders ----

  /** A hit moves the entry to the front. */
  function Touch(r: seq<Entry>, k: Key): seq<Entry>
    requires Holds(r, k)
  {
    [Lookup(r, k)] + Without(r, k)
  }

  /** An accepted add replaces an entry with the same key and evicts from the
      back until the new entry fits; an entry larger than the cache is ignored. */
  function Added(r: seq<Entry>, e: Entry, cap: nat): seq<Entry> {
    if e.bytes > cap then r else [e] + Fit(Without(r, e.key), cap - e.bytes)
  }

  lemma WithoutMembers(r: seq<Entry>, k: Key, e: Entry)
    requires DistinctKeys(r)
    ensures e in Without(r, k) <==> e in r && e.key != k
  {
    var i, w := IndexOf(r, k), Without(r, k);
    if e in r && e.key != k {
      var j :| 0 <= j < |r| && r[j] == e;
      assert j != i;
      assert w[if j < i then j else j - 1] == e;
    }
    if e in w {
      var j :| 0 <= j < |w| && w[j] == e;
      assert e == r[if j < i then j else j + 1];
    }
  }

  lemma WithoutDistinct(r: seq<Entry>, k: Key)
    requires DistinctKeys(r)
    ensures DistinctKeys(Without(r, k)) && !Holds(Without(r, k), k)
  {
    var i, w := IndexOf(r, k), Without(r, k);
    forall j | 0 <= j < |w| ensures w[j] == r[if j < i then j else j + 1] && w[j].key != k {
      if i < |r| { assert r[i].key == k; }
    }
  }

  lemma WithoutTotal(r: seq<Entry>, k: Key)
    ensures Total(Without(r, k)) == Total(r) - (if Holds(r, k) then Lookup(r, k).bytes else 0)
  {
    if Holds(r, k) { RemoveTotal(r, IndexOf(r, k)); }
  }

  lemma RemoveTotal(r: seq<Entry>, i: nat)
    requires i < |r|
    ensures Total(r[..i] + r[i + 1..]) == Total(r) - r[i].bytes
  {
    assert r == (r[..i] + [r[i]]) + r[i + 1..];
    TotalConcat(r[..i] + [r[i]], r[i + 1..]);
    TotalConcat(r[..i], [r[i]]);
    TotalConcat(r[..i], r[i + 1..]);
    assert Total([r[i]]) == Sum([r[i]], 1) == Sum([r[i]], 0) + r[i].bytes;
  }

  // ---- the cache object ----

  /** The map that holds exactly the first n entries. */
  ghost function Indexed(r: seq<Entry>, n: nat): map<Key, Entry>
    requires n <= |r|
  {
    if n == 0 then map[] else Indexed(r, n - 1)[r[n - 1].key := r[n - 1]]
  }

  /** Map and list hold the same entries, each key once. */
  ghost predicate Agree(entries: map<Key, Entry>, lru: seq<Entry>) {
    DistinctKeys(lru) && entries == Indexed(lru, |lru|)
  }

  lemma {:induction false} IndexedKey(r: seq<Entry>, n: nat, k: Key)
    requires n <= |r| && DistinctKeys(r)
    ensures k in Indexed(r, n) <==> IndexOf(r, k) < n
    ensures k in Indexed(r, n) ==> Indexed(r, n)[k] == r[IndexOf(r, k)]
  {
    if n > 0 {
      IndexedKey(r, n - 1, k);
      var i := IndexOf(r, r[n - 1].key);
      assert i == n - 1;
    }
  }

  /** What Agree means: the map knows a key exactly if the list does, and points to the same entry. */
  lemma AgreeLookup(entries: map<Key, Entry>, lru: seq<Entry>, k: Key)
    requires Agree(entries, lru)
    ensures k in entries <==> Holds(lru, k)
    ensures k in entries ==> Lookup(lru, k) == entries[k] && entries[k] in lru && entries[k].key == k
  {
    IndexedKey(lru, |lru|, k);
  }

  lemma AgreeWithout(entries: map<Key, Entry>, lru: seq<Entry>, k: Key)
    requires Agree(entries, lru)
    ensures Agree(entries - {k}, Without(lru, k))
  {
    var w := Without(lru, k);
    WithoutDistinct(lru, k);
    forall j ensures j in entries - {k} <==> j in Indexed(w, |w|)
             ensures j in entries - {k} ==> (entries - {k})[j] == Indexed(w, |w|)[j]
    {
      IndexedKey(lru, |lru|, j);
      IndexedKey(w, |w|, j);
      if j in entries - {k} {
        WithoutMembers(lru, k, entries[j]);
        IndexOfMember(w, entries[j]);
      }
      if j in Indexed(w, |w|) {
        WithoutMembers(lru, k, Lookup(w, j));
        IndexOfMember(lru, Lookup(w, j));
      }
    }
  }

  lemma AgreeFront(entries: map<Key, Entry>, lru: seq<Entry>, e: Entry)
    requires Agree(entries, lru) && !Holds(lru, e.key)
    ensures Agree(entries[e.key := e], [e] + lru)
  {
    var l := [e] + lru;
    assert DistinctKeys(l) by {
      assert forall j :: 1 <= j < |l| ==> l[j] == lru[j - 1];
    }
    forall k ensures k in entries[e.key := e] <==> k in Indexed(l, |l|)
             ensures k in entries[e.key := e] ==> entries[e.key := e][k] == Indexed(l, |l|)[k]
    {
      IndexedKey(lru, |lru|, k);
      IndexedKey(l, |l|, k);
      FrontIndex(lru, e, k);
    }
  }

  lemma FrontIndex(r: seq<Entry>, e: Entry, k: Key)
    requires DistinctKeys([e] + r)
    ensures IndexOf([e] + r, k) == if k == e.key then 0 else 1 + IndexOf(r, k)
  {
    var l, i := [e] + r, IndexOf([e] + r, k);
    if i == 0 {
      assert l[0].key == k;
    } else {
      assert l[0].key != k;
      forall j | 0 <= j < i - 1 ensures r[j].key != k { assert l[j + 1] == r[j]; }
      if i < |l| { assert l[i] == r[i - 1]; }
      if IndexOf(r, k) < |r| { assert l[IndexOf(r, k) + 1] == r[IndexOf(r, k)]; }
    }
  }

  datatype Verb = Get | Head | Other

  datatype Response =
    | NotServed
    | Served(header: Header, gzipped: bool, body: Bytes)

  const DEFAULT_BYTES: nat := 33554432

  class Cache {
    var entries: map<Key, Entry>
    var lru: seq<Entry>  // the linked list, front first
    const maxBytes: nat
    var usedBytes: int
    var hits: nat
    var misses: nat
    var evictions: nat
    ghost var accepted: nat      // adds that stored an entry
    ghost var replacements: nat  // of these, those that replaced one

    /** Map and list hold the same entries, each key once; the byte total is exact
        and within the limit; every accepted entry is present, evicted or replaced. */
    ghost predicate Valid()
      reads `entries, `lru, `usedBytes, `evictions, `accepted, `replacements
    {
      && Linked()
      && usedBytes <= maxBytes
      && accepted == |lru| + evictions + replacements
    }

    constructor (limit: int)
      ensures Valid() && lru == [] && maxBytes == (if limit <= 0 then 32 * 1024 * 1024 else limit)
      ensures hits == misses == evictions == accepted == replacements == 0
    {
      entries, lru, usedBytes := map[], [], 0;
      maxBytes := if limit <= 0 then DEFAULT_BYTES else limit;
      hits, misses, evictions, accepted, replacements := 0, 0, 0, 0, 0;
    }

    /** Map and list agree and the byte total is exact; kept between the steps of an add. */
    ghost predicate Linked()
      reads `entries, `lru, `usedBytes
    {
      Agree(entries, lru) && usedBytes == Total(lru)
    }

    /** Take an entry out of the map and the list; the caller accounts for it. */
    method Remove(e: Entry)
      requires Linked() && e in lru
      modifies `entries, `lru, `usedBytes
      ensures Linked() && lru == Without(old(lru), e.key)
    {
      AgreeWithout(entries, lru, e.key);
      WithoutTotal(lru, e.key);
      IndexOfMember(lru, e);
      var i := IndexOf(lru, e.key);
      entries := entries - {e.key};
      lru := lru[..i] + lru[i + 1..];
      usedBytes := usedBytes - e.bytes;
    }

    /** Evict from the back until size more bytes fit: what stays is the longest
        prefix of the recency order that leaves the room. */
    method MakeRoom(size: nat)
      requires Linked() && size <= maxBytes
      modifies `entries, `lru, `usedBytes, `evictions
      ensures Linked() && lru == Fit(old(lru), maxBytes - size)
      ensures usedBytes + size <= maxBytes
      ensures evictions == old(evictions) + |old(lru)| - |lru|
    {
      ghost var start, room, n := lru, maxBytes - size, |lru|;
      assert start[..n] == start;
      while usedBytes + size > maxBytes && |lru| > 0
        invariant 0 <= n <= |start| && lru == start[..n] && Linked()
        invariant FitLength(start, room) <= n
        invariant evictions == old(evictions) + |start| - n
        decreases n
      {
        FitIsLongest(start, room, n);
        EvictLast(start, n);
        Remove(lru[|lru| - 1]);
        evictions := evictions + 1;
        n := n - 1;
      }
      FitExact(start, room, n);
    }

    /** Take out a previous entry for the key, if there is one. */
    method Replace(k: Key)
      requires Linked()
      modifies `entries, `lru, `usedBytes, `replacements
      ensures Linked() && lru == Without(old(lru), k)
      ensures replacements == old(replacements) + |old(lru)| - |lru|
    {
      AgreeLookup(entries, lru, k);
      if k in entries {
        Remove(entries[k]);
        replacements := replacements + 1;
      }
    }

    method AddEntry(e: Entry)
      requires Valid()
      modifies this
      ensures Valid() && lru == Added(old(lru), e, maxBytes)
      ensures e.bytes > maxBytes ==> unchanged(this)
      ensures e.bytes <= maxBytes ==>
                && accepted == old(accepted) + 1
                && replacements == old(replacements) + |old(lru)| - |Without(old(lru), e.key)|
      ensures hits == old(hits) && misses == old(misses)
    {
      if e.bytes > maxBytes { return; }
      ghost var start := lru;
      Replace(e.key);
      ghost var rest := lru;
      MakeRoom(e.bytes);
      assert Agree(entries[e.key := e], [e] + lru) && Total([e] + lru) == e.bytes + Total(lru) by {
        WithoutDistinct(start, e.key);
        PrefixLacks(rest, e.key, |lru|);
        AgreeFront(entries, lru, e);
        FrontTotal(lru, e);
      }
      lru := [e] + lru;
      entries := entries[e.key := e];
      usedBytes := usedBytes + e.bytes;
      accepted := accepted + 1;
    }

    /** add: nothing is stored for an empty body or when compression fails (gzip
        is the compressor's output); otherwise the safe headers and both bodies are,
        and the entry's size is that of the bodies. */
    method Add(key: Key, headers: map<string, string>, identity: Bytes, gzip: Option<Bytes>)
      requires Valid()
      modifies this
      ensures Valid()
      ensures identity == [] || gzip.None? ==> unchanged(this)
      ensures identity != [] && gzip.Some? ==>
                lru == Added(old(lru), NewEntry(key, headers, identity, gzip.value), maxBytes)
      ensures identity != [] && gzip.Some? && |identity| + |gzip.value| <= maxBytes ==>
                && |lru| > 0 && lru[0].key == key && lru[0].identity == identity && lru[0].gzip == gzip.value
                && lru[0].headers.Keys <= headers.Keys
                && forall n :: n in headers ==>
                     if IsSafe(n) then n in lru[0].headers && lru[0].headers[n] == headers[n] else n !in lru[0].headers
      ensures identity != [] && gzip.Some? && |identity| + |gzip.value| > maxBytes ==> unchanged(this)
      ensures Measured(old(lru)) ==> Measured(lru)
      ensures hits == old(hits) && misses == old(misses)
    {
      if |identity| == 0 || gzip.None? { return; }
      var safe := SafeCachedHeaders(headers);
      MeasuredAdded(lru, Entry(key, safe, identity, gzip.value, |identity| + |gzip.value|), maxBytes);
      AddEntry(Entry(key, safe, identity, gzip.value, |identity| + |gzip.value|));
    }

    method MoveToFront(key: Key)
      requires Valid() && Holds(lru, key)
      modifies `lru
      ensures Valid() && lru == Touch(old(lru), key)
    {
      ghost var before := lru;
      AgreeTouch(entries, lru, key);
      var i := IndexOf(lru, key);
      lru := [lru[i]] + (lru[..i] + lru[i + 1..]);
      assert lru == Touch(before, key);
      assert Linked();
      assert |lru| == |before|;
    }

    /** serve, once the entry has been found. */
    method Hit(verb: Verb, acceptEncoding: string, base: Header, key: Key) returns (r: Response)
      requires Valid() && key in entries
      modifies `lru, `hits
      ensures Valid() && hits == old(hits) + 1 && Holds(old(lru), key) && lru == Touch(old(lru), key)
      ensures Answers(Lookup(old(lru), key), verb, acceptEncoding, base, r)
    {
      AgreeLookup(entries, lru, key);
      var e := entries[key];
      hits := hits + 1;
      MoveToFront(key);
      r := Respond(e, verb, acceptEncoding, base);
    }

    /** serve: a hit moves the entry to the front and answers with the variant the
        client accepts, described by the header; a HEAD request gets no body. */
    method Serve(verb: Verb, acceptEncoding: string, base: Header, key: Key) returns (r: Response)
      requires Valid()
      modifies `lru, `hits, `misses
      ensures Valid()
      ensures Measured(old(lru)) ==> Measured(lru)
      ensures verb.Other? ==> r == NotServed && unchanged(this)
      ensures !verb.Other? && !Holds(old(lru), key) ==>
                r == NotServed && lru == old(lru) && misses == old(misses) + 1 && hits == old(hits)
      ensures !verb.Other? && Holds(old(lru), key) ==>
                && lru == Touch(old(lru), key) && hits == old(hits) + 1 && misses == old(misses)
                && Answers(Lookup(old(lru), key), verb, acceptEncoding, base, r)
    {
      if verb.Other? { return NotServed; }
      AgreeLookup(entries, lru, key);
      if key !in entries {
        misses := misses + 1;
        return NotServed;
      }
      MeasuredTouched(lru, key);
      r := Hit(verb, acceptEncoding, base, key);
    }
  }

  // ---- sizes of the stored bodies ----

  /** Every entry's size is the length of its two bodies together. */
  ghost predicate Measured(r: seq<Entry>) {
    forall i :: 0 <= i < |r| ==> r[i].bytes == |r[i].identity| + |r[i].gzip|
  }

  lemma MeasuredAdded(r: seq<Entry>, e: Entry, cap: nat)
    requires e.bytes == |e.identity| + |e.gzip|
    ensures Measured(r) ==> Measured(Added(r, e, cap))
  {
    var w := Without(r, e.key);
    assert Measured(r) ==> Measured(w);
    assert forall i :: 0 <= i < |Fit(w, cap - e.bytes)| ==> Fit(w, cap - e.bytes)[i] == w[i];
  }

  lemma MeasuredTouched(r: seq<Entry>, k: Key)
    ensures Measured(r) && Holds(r, k) ==> Measured(Touch(r, k))
  {
  }

  /** The bytes of the first n entries' bodies. */
  function BodyBytes(r: seq<Entry>, n: nat): nat
    requires n <= |r|
  {
    if n == 0 then 0 else BodyBytes(r, n - 1) + |r[n - 1].identity| + |r[n - 1].gzip|
  }

  lemma {:induction false} MeasuredBodies(r: seq<Entry>, n: nat)
    requires Measured(r) && n <= |r|
    ensures BodyBytes(r, n) == Sum(r, n)
  {
    if n > 0 { MeasuredBodies(r, n - 1); }
  }

  /** Of the headers only the safe ones are stored. */
  function NewEntry(key: Key, headers: map<string, string>, identity: Bytes, gzip: Bytes): Entry {
    Entry(key, map n | n in headers && IsSafe(n) :: headers[n], identity, gzip, |identity| + |gzip|)
  }

  /** r carries the variant the client accepts, and a header that describes that
      variant; HEAD omits only the body. */
  ghost predicate Answers(e: Entry, verb: Verb, acceptEncoding: string, base: Header, r: Response) {
    && r.Served?
    && (r.gzipped <==> TakesGzip(acceptEncoding) && |e.gzip| > 0)
    && var variant := if r.gzipped then e.gzip else e.identity;
    && r.body == (if verb.Head? then [] else variant)
    && Describes(base, e.headers, r.gzipped, |variant|, r.header)
  }

  method Respond(e: Entry, verb: Verb, acceptEncoding: string, base: Header) returns (r: Response)
    ensures Answers(e, verb, acceptEncoding, base, r)
  {
    var accepts := AcceptsGzip(acceptEncoding);
    var gzipped := accepts && |e.gzip| > 0;
    var variant := if gzipped then e.gzip else e.identity;
    var header := ServedHeader(base, e.headers, gzipped, |variant|);
    r := Served(header, gzipped, if verb.Head? then [] else variant);
  }

  lemma AgreeTouch(entries: map<Key, Entry>, lru: seq<Entry>, k: Key)
    requires Agree(entries, lru) && Holds(lru, k)
    ensures Agree(entries, Touch(lru, k)) && Total(Touch(lru, k)) == Total(lru) && |Touch(lru, k)| == |lru|
  {
    var e := Lookup(lru, k);
    AgreeLookup(entries, lru, k);
    AgreeWithout(entries, lru, k);
    WithoutDistinct(lru, k);
    AgreeFront(entries - {k}, Without(lru, k), e);
    assert (entries - {k})[k := e] == entries;
    WithoutTotal(lru, k);
    FrontTotal(Without(lru, k), e);
  }

  lemma FitExact(r: seq<Entry>, room: nat, n: nat)
    requires FitLength(r, room) <= n <= |r| && (Total(r[..n]) <= room || n == 0)
    ensures r[..n] == Fit(r, room) && Total(r[..n]) <= room
  {
    FitIsLongest(r, room, n);
  }

  lemma FrontTotal(r: seq<Entry>, e: Entry)
    ensures Total([e] + r) == e.bytes + Total(r)
  {
    TotalConcat([e], r);
    assert Total([e]) == Sum([e], 1) == Sum([e], 0) + e.bytes;
  }

  lemma PrefixLacks(r: seq<Entry>, k: Key, n: nat)
    requires n <= |r| && !Holds(r, k)
    ensures !Holds(r[..n], k)
  {
    forall j | 0 <= j < n ensures r[..n][j].key != k {
      assert r[..n][j] == r[j];
    }
  }

  lemma EvictLast(r: seq<Entry>, n: nat)
    requires 0 < n <= |r| && DistinctKeys(r[..n])
    ensures var p := r[..n]; p[n - 1] in p && Without(p, p[n - 1].key) == r[..n - 1]
  {
    var p := r[..n];
    assert IndexOf(p, p[n - 1].key) == n - 1;
    assert p[..n - 1] + p[n..] == r[..n - 1];
  }

  lemma IndexOfMember(r: seq<Entry>, e: Entry)
    requires DistinctKeys(r) && e in r
    ensures Holds(r, e.key) && Lookup(r, e.key) == e
  {
    var j :| 0 <= j < |r| && r[j] == e;
  }
}
