/** The cache as a function of its requests: what it holds is always the longest
    prefix of the unbounded recency order that fits, so a larger cache holds
    everything a smaller one does and never has fewer hits. */
module RewrittenCacheInclusion {
  import opened RewrittenCache

  /** One request for the script e: serve, and on a miss add and serve what was stored. */
  function Request(c: seq<Entry>, e: Entry, cap: nat): seq<Entry> {
    if Holds(c, e.key) then Touch(c, e.key)
    else
      var a := Added(c, e, cap);
      if Holds(a, e.key) then Touch(a, e.key) else a
  }

  function Contents(requests: seq<Entry>, cap: nat): seq<Entry> {
    if requests == [] then []
    else
      var n := |requests| - 1;
      Request(Contents(requests[..n], cap), requests[n], cap)
  }

  /** The distinct scripts requested so far, most recent first: an LRU order nothing is evicted from. */
  function Recency(requests: seq<Entry>): seq<Entry> {
    if requests == [] then []
    else
      var n := |requests| - 1;
      [requests[n]] + Without(Recency(requests[..n]), requests[n].key)
  }

  function Hits(requests: seq<Entry>, cap: nat): nat {
    if requests == [] then 0
    else
      var n := |requests| - 1;
      Hits(requests[..n], cap) + (if Holds(Contents(requests[..n], cap), requests[n].key) then 1 else 0)
  }

  /** A key always stands for a script of the same size; what else is stored may differ. */
  ghost predicate SameSizes(requests: seq<Entry>) {
    forall i, j :: 0 <= i < j < |requests| && requests[i].key == requests[j].key
                   ==> requests[i].bytes == requests[j].bytes
  }

  /** A key always stands for the same script, headers and all. */
  ghost predicate Consistent(requests: seq<Entry>) {
    forall i, j :: 0 <= i < j < |requests| && requests[i].key == requests[j].key ==> requests[i] == requests[j]
  }

  ghost predicate AllFit(requests: seq<Entry>, cap: nat) {
    forall i :: 0 <= i < |requests| ==> requests[i].bytes <= cap
  }

  lemma {:induction false} RecencyFacts(requests: seq<Entry>)
    ensures DistinctKeys(Recency(requests))
    ensures forall e :: e in Recency(requests) ==> e in requests
  {
    if requests != [] {
      var n := |requests| - 1;
      var prefix, e := requests[..n], requests[n];
      var r := Recency(prefix);
      RecencyFacts(prefix);
      WithoutDistinct(r, e.key);
      FrontDistinct(Without(r, e.key), e);
      forall x | x in Recency(requests) ensures x in requests {
        if x != e {
          assert x in Without(r, e.key);
          WithoutMembers(r, e.key, x);
        }
      }
    }
  }

  lemma FrontDistinct(r: seq<Entry>, e: Entry)
    requires DistinctKeys(r) && !Holds(r, e.key)
    ensures DistinctKeys([e] + r)
  {
    var l := [e] + r;
    assert forall j :: 1 <= j < |l| ==> l[j] == r[j - 1];
  }

  /** Moving what is already in front changes nothing. */
  lemma TouchFront(r: seq<Entry>, e: Entry)
    ensures Holds([e] + r, e.key) && Touch([e] + r, e.key) == [e] + r
  {
    var l := [e] + r;
    assert l[0].key == e.key;
    assert l[..0] + l[1..] == r;
  }

  lemma FitLengthFrom(r: seq<Entry>, room: nat, n: nat)
    requires n <= |r| && Total(r[..n]) <= room && (n < |r| ==> Total(r[..n + 1]) > room)
    ensures FitLength(r, room) == n
  {
    FitIsLongest(r, room, n);
    if n < |r| { FitIsLongest(r, room, n + 1); }
  }

  lemma RemoveInside(r: seq<Entry>, i: nat, n: nat)
    requires i < n <= |r|
    ensures var w := r[..i] + r[i + 1..];
            r[..n][..i] + r[..n][i + 1..] == w[..n - 1] && Total(w[..n - 1]) == Total(r[..n]) - r[i].bytes
  {
    var w := r[..i] + r[i + 1..];
    assert r[..n][..i] + r[..n][i + 1..] == w[..n - 1];
    RemoveTotal(r[..n], i);
  }

  /** The entry asked for is in the cache: it moves to the front and what fits stays the same. */
  lemma FitAfterHit(r: seq<Entry>, k: Key, cap: nat)
    requires DistinctKeys(r) && Holds(Fit(r, cap), k)
    ensures Holds(r, k) && Lookup(Fit(r, cap), k) == Lookup(r, k) && Lookup(r, k).bytes <= cap
    ensures Fit(Without(r, k), cap - Lookup(r, k).bytes) == Without(Fit(r, cap), k)
  {
    var n, i := FitLength(r, cap), IndexOf(r, k);
    PrefixIndex(r, k, n);
    FitIsLongest(r, cap, n);
    RemoveInside(r, i, n);
    if n < |r| {
      FitIsLongest(r, cap, n + 1);
      RemoveInside(r, i, n + 1);
    }
    FitLengthFrom(Without(r, k), cap - r[i].bytes, n - 1);
  }

  lemma PrefixIndex(r: seq<Entry>, k: Key, n: nat)
    requires n <= |r|
    ensures IndexOf(r[..n], k) == if IndexOf(r, k) < n then IndexOf(r, k) else n
  {
    var i, j := IndexOf(r, k), IndexOf(r[..n], k);
    if j < n { assert r[j].key == r[..n][j].key == k; }
    if i < n { assert r[..n][i].key == k; }
  }

  /** Without e the unbounded order still has no more than the cached prefix that fits beside e. */
  lemma NothingMoreFits(r: seq<Entry>, e: Entry, cap: nat)
    requires DistinctKeys(r) && !Holds(Fit(r, cap), e.key) && e.bytes <= cap
    requires Holds(r, e.key) ==> Lookup(r, e.key) == e
    ensures FitLength(Without(r, e.key), cap - e.bytes) <= FitLength(r, cap)
  {
    var n, w, i := FitLength(r, cap), Without(r, e.key), IndexOf(r, e.key);
    PrefixIndex(r, e.key, n);
    if n < |w| {
      FitIsLongest(r, cap, n + 1);
      if i > n {
        assert w[..n + 1] == r[..n + 1];
      } else {
        assert r[..n + 1] == r[..n] + [e] && w[..n] == r[..n];
        TotalConcat(r[..n], [e]);
        SingleTotal(e);
        assert w[..n + 1] == w[..n] + [w[n]];
        TotalConcat(w[..n], [w[n]]);
      }
      FitIsLongest(w, cap - e.bytes, n + 1);
    }
  }

  /** The entry asked for is not in the cache: making room for it in the unbounded
      order leaves exactly what making room in the cache leaves. */
  lemma FitAfterMiss(r: seq<Entry>, e: Entry, cap: nat)
    requires DistinctKeys(r) && !Holds(Fit(r, cap), e.key) && e.bytes <= cap
    requires Holds(r, e.key) ==> Lookup(r, e.key) == e
    ensures Fit(Without(r, e.key), cap - e.bytes) == Fit(Fit(r, cap), cap - e.bytes)
  {
    var n, room := FitLength(r, cap), cap - e.bytes;
    var c, w := r[..n], Without(r, e.key);
    PrefixIndex(r, e.key, n);
    NothingMoreFits(r, e, cap);
    assert w[..n] == c;
    var m := FitLength(w, room);
    FitIsLongest(w, room, m);
    assert w[..m] == c[..m];
    if m < n {
      FitIsLongest(w, room, m + 1);
      assert w[..m + 1] == c[..m + 1];
    }
    FitLengthFrom(c, room, m);
  }

  lemma SingleTotal(e: Entry)
    ensures Total([e]) == e.bytes
  {
    assert Sum([e], 1) == Sum([e], 0) + [e][0].bytes;
  }

  lemma FitFront(r: seq<Entry>, e: Entry, cap: nat)
    requires e.bytes <= cap
    ensures Fit([e] + r, cap) == [e] + Fit(r, cap - e.bytes)
  {
    var l, m := [e] + r, FitLength(r, cap - e.bytes);
    FitIsLongest(r, cap - e.bytes, m);
    assert l[..m + 1] == [e] + r[..m];
    FrontTotal(r[..m], e);
    if m < |r| {
      FitIsLongest(r, cap - e.bytes, m + 1);
      assert l[..m + 2] == [e] + r[..m + 1];
      FrontTotal(r[..m + 1], e);
    }
    FitLengthFrom(l, cap, m + 1);
  }

  /** One request for the stored entry itself keeps the cache the longest fitting prefix. */
  lemma RequestOnFit(r: seq<Entry>, e: Entry, cap: nat)
    requires DistinctKeys(r) && e.bytes <= cap
    requires Holds(r, e.key) ==> Lookup(r, e.key) == e
    ensures Request(Fit(r, cap), e, cap) == Fit([e] + Without(r, e.key), cap)
  {
    var c := Fit(r, cap);
    FitFront(Without(r, e.key), e, cap);
    if Holds(c, e.key) {
      FitAfterHit(r, e.key, cap);
    } else {
      FitAfterMiss(r, e, cap);
      TouchFront(Fit(c, cap - e.bytes), e);
    }
  }

  /** If a key always comes with the same entry, the cache holds that prefix itself. */
  lemma {:induction false} EntriesAreFit(requests: seq<Entry>, cap: nat)
    requires Consistent(requests) && AllFit(requests, cap)
    ensures Contents(requests, cap) == Fit(Recency(requests), cap)
  {
    if requests != [] {
      var n := |requests| - 1;
      var prefix, e := requests[..n], requests[n];
      var r := Recency(prefix);
      EntriesAreFit(prefix, cap);
      RecencyFacts(prefix);
      if Holds(r, e.key) {
        assert Lookup(r, e.key) in r;
        assert Lookup(r, e.key) == e;
      }
      RequestOnFit(r, e, cap);
    }
  }

  lemma {:induction false} FitMonotone(r: seq<Entry>, small: nat, large: nat)
    requires small <= large
    ensures Fit(r, small) <= Fit(r, large)
  {
    var n := FitLength(r, small);
    FitIsLongest(r, small, n);
    FitIsLongest(r, large, n);
    assert Fit(r, large)[..n] == r[..n];
  }

  // ---- keys and sizes ----

  /** What the replacement policy sees of an entry. */
  function Shape(e: Entry): Entry {
    Entry(e.key, map[], [], [], e.bytes)
  }

  function Shapes(r: seq<Entry>): seq<Entry> {
    seq(|r|, i requires 0 <= i < |r| => Shape(r[i]))
  }

  lemma ShapesIndex(r: seq<Entry>, k: Key)
    ensures IndexOf(Shapes(r), k) == IndexOf(r, k)
  {
    var s, i, j := Shapes(r), IndexOf(Shapes(r), k), IndexOf(r, k);
    assert forall m :: 0 <= m < |r| ==> s[m].key == r[m].key;
    if i < |r| { assert s[i].key == k; }
    if j < |r| { assert s[j].key == k; }
  }

  lemma ShapesLookup(r: seq<Entry>, k: Key)
    ensures Holds(Shapes(r), k) <==> Holds(r, k)
    ensures Holds(r, k) ==> Lookup(Shapes(r), k) == Shape(Lookup(r, k))
  {
    ShapesIndex(r, k);
  }

  lemma ShapesWithout(r: seq<Entry>, k: Key)
    ensures Shapes(Without(r, k)) == Without(Shapes(r), k)
  {
    ShapesIndex(r, k);
  }

  lemma ShapesFront(r: seq<Entry>, e: Entry)
    ensures Shapes([e] + r) == [Shape(e)] + Shapes(r)
  {
  }

  lemma ShapesTouch(r: seq<Entry>, k: Key)
    requires Holds(r, k)
    ensures Holds(Shapes(r), k) && Shapes(Touch(r, k)) == Touch(Shapes(r), k)
  {
    ShapesLookup(r, k);
    ShapesWithout(r, k);
    ShapesFront(Without(r, k), Lookup(r, k));
  }

  lemma {:induction false} ShapesFitFrom(r: seq<Entry>, from: nat, room: int)
    requires from <= |r|
    ensures FitFrom(Shapes(r), from, room) == FitFrom(r, from, room)
    decreases |r| - from
  {
    if from < |r| { ShapesFitFrom(r, from + 1, room - r[from].bytes); }
  }

  lemma ShapesFit(r: seq<Entry>, room: int)
    ensures Shapes(Fit(r, room)) == Fit(Shapes(r), room)
  {
    ShapesFitFrom(r, 0, room);
  }

  lemma ShapesAdded(r: seq<Entry>, e: Entry, cap: nat)
    ensures Shapes(Added(r, e, cap)) == Added(Shapes(r), Shape(e), cap)
  {
    ShapesWithout(r, e.key);
    ShapesFit(Without(r, e.key), cap - e.bytes);
    ShapesFront(Fit(Without(r, e.key), cap - e.bytes), e);
  }

  /** A request does to keys and sizes what it does to the entries. */
  lemma ShapesRequest(c: seq<Entry>, e: Entry, cap: nat)
    ensures Shapes(Request(c, e, cap)) == Request(Shapes(c), Shape(e), cap)
  {
    ShapesLookup(c, e.key);
    if Holds(c, e.key) {
      ShapesTouch(c, e.key);
    } else {
      var a := Added(c, e, cap);
      ShapesAdded(c, e, cap);
      ShapesLookup(a, e.key);
      if Holds(a, e.key) { ShapesTouch(a, e.key); }
    }
  }

  lemma ShapesDistinct(r: seq<Entry>)
    ensures DistinctKeys(Shapes(r)) <==> DistinctKeys(r)
  {
    assert forall i :: 0 <= i < |r| ==> Shapes(r)[i].key == r[i].key;
  }

  // ---- the cache over a run ----

  /** One request keeps keys and sizes of the cache those of the longest prefix of the
      unbounded order r that fits, whatever was stored with the key before. */
  lemma RequestKeepsFit(c: seq<Entry>, r: seq<Entry>, e: Entry, cap: nat)
    requires DistinctKeys(r) && e.bytes <= cap && Shapes(c) == Shapes(Fit(r, cap))
    requires Holds(r, e.key) ==> Lookup(r, e.key).bytes == e.bytes
    ensures Shapes(Request(c, e, cap)) == Shapes(Fit([e] + Without(r, e.key), cap))
  {
    ShapesRequest(c, e, cap);
    ShapesFit(r, cap);
    ShapesDistinct(r);
    ShapesLookup(r, e.key);
    RequestOnFit(Shapes(r), Shape(e), cap);
    ShapesWithout(r, e.key);
    ShapesFront(Without(r, e.key), e);
    ShapesFit([e] + Without(r, e.key), cap);
  }

  /** The requests for scripts that fit into the capacity at all. */
  function Fitting(requests: seq<Entry>, cap: nat): seq<Entry> {
    if requests == [] then []
    else
      var n := |requests| - 1;
      Fitting(requests[..n], cap) + (if requests[n].bytes <= cap then [requests[n]] else [])
  }

  lemma {:induction false} FittingMembers(requests: seq<Entry>, cap: nat)
    ensures forall e :: e in Fitting(requests, cap) ==> e in requests && e.bytes <= cap
    ensures AllFit(requests, cap) ==> Fitting(requests, cap) == requests
  {
    if requests != [] {
      var n := |requests| - 1;
      FittingMembers(requests[..n], cap);
      assert requests == requests[..n] + [requests[n]];
    }
  }

  lemma RecencySnoc(requests: seq<Entry>, e: Entry)
    ensures Recency(requests + [e]) == [e] + Without(Recency(requests), e.key)
  {
    assert (requests + [e])[..|requests|] == requests;
  }

  /** A script that does not fit is not held, and asking for it changes nothing. */
  lemma OversizedIgnored(c: seq<Entry>, r: seq<Entry>, e: Entry, cap: nat)
    requires Shapes(c) == Shapes(Fit(r, cap)) && e.bytes > cap && !Holds(r, e.key)
    ensures Request(c, e, cap) == c
  {
    PrefixLacks(r, e.key, FitLength(r, cap));
    ShapesLookup(c, e.key);
    ShapesLookup(Fit(r, cap), e.key);
  }

  /** What the unbounded order knows of the last request's key. */
  lemma FittingRecency(requests: seq<Entry>, cap: nat)
    requires SameSizes(requests) && requests != []
    ensures var n := |requests| - 1;
            var r := Recency(Fitting(requests[..n], cap));
            && DistinctKeys(r)
            && (Holds(r, requests[n].key) ==> Lookup(r, requests[n].key).bytes == requests[n].bytes <= cap)
  {
    var n := |requests| - 1;
    var fitting := Fitting(requests[..n], cap);
    var r, k := Recency(fitting), requests[n].key;
    RecencyFacts(fitting);
    FittingMembers(requests[..n], cap);
    if Holds(r, k) {
      assert Lookup(r, k) in r;
      var i :| 0 <= i < n && requests[..n][i] == Lookup(r, k);
      assert requests[i].key == k;
    }
  }

  /** After any requests the cache holds the keys and sizes of the longest prefix that
      fits of the unbounded recency order, taken over the scripts that fit at all. */
  lemma {:induction false} ContentsAreFit(requests: seq<Entry>, cap: nat)
    requires SameSizes(requests)
    ensures Shapes(Contents(requests, cap)) == Shapes(Fit(Recency(Fitting(requests, cap)), cap))
  {
    if requests != [] {
      var n := |requests| - 1;
      var prefix, e := requests[..n], requests[n];
      var fitting := Fitting(prefix, cap);
      var r := Recency(fitting);
      ContentsAreFit(prefix, cap);
      FittingRecency(requests, cap);
      if e.bytes <= cap {
        RecencySnoc(fitting, e);
        RequestKeepsFit(Contents(prefix, cap), r, e, cap);
      } else {
        assert fitting + [] == fitting;
        OversizedIgnored(Contents(prefix, cap), r, e, cap);
      }
    }
  }

  lemma ShapesPrefix(a: seq<Entry>, b: seq<Entry>)
    requires a <= b
    ensures Shapes(a) <= Shapes(b)
  {
  }

  /** LRU inclusion: fed the same requests, keys and sizes of the smaller cache are a
      prefix of those of the larger one, and so are the entries if a key always comes
      with the same one. */
  lemma Inclusion(requests: seq<Entry>, small: nat, large: nat)
    requires small <= large && SameSizes(requests) && AllFit(requests, small)
    ensures Shapes(Contents(requests, small)) <= Shapes(Contents(requests, large))
    ensures Consistent(requests) ==> Contents(requests, small) <= Contents(requests, large)
  {
    ContentsAreFit(requests, small);
    ContentsAreFit(requests, large);
    FittingMembers(requests, small);
    FittingMembers(requests, large);
    FitMonotone(Recency(requests), small, large);
    ShapesPrefix(Fit(Recency(requests), small), Fit(Recency(requests), large));
    if Consistent(requests) {
      EntriesAreFit(requests, small);
      EntriesAreFit(requests, large);
    }
  }

  lemma PrefixHolds(a: seq<Entry>, b: seq<Entry>, k: Key)
    requires Shapes(a) <= Shapes(b) && Holds(a, k)
    ensures Holds(b, k)
  {
    ShapesLookup(a, k);
    ShapesLookup(b, k);
    var i := IndexOf(Shapes(a), k);
    assert Shapes(b)[i].key == k;
  }

  /** A larger cache never has fewer hits, if all scripts fit into the smaller one. */
  lemma {:induction false} MoreRoomMoreHits(requests: seq<Entry>, small: nat, large: nat)
    requires small <= large && SameSizes(requests) && AllFit(requests, small)
    ensures Hits(requests, small) <= Hits(requests, large)
  {
    if requests != [] {
      var n := |requests| - 1;
      var prefix, k := requests[..n], requests[n].key;
      MoreRoomMoreHits(prefix, small, large);
      Inclusion(prefix, small, large);
      if Holds(Contents(prefix, small), k) { PrefixHolds(Contents(prefix, small), Contents(prefix, large), k); }
    }
  }

  // ---- scripts that do not fit ----

  function Sized(name: string, bytes: nat): Entry {
    Entry(Key(name), map[], [], [], bytes)
  }

  /** A small script, one that just fills the larger cache, and the small one again. */
  function SmallLargeSmall(large: nat): seq<Entry> {
    [Sized("a", 1), Sized("b", large), Sized("a", 1)]
  }

  /** The larger cache gives up the small script for the large one; the smaller cache,
      which cannot hold the large one, keeps it. */
  lemma MoreRoomCanHurt(small: nat, large: nat)
    requires 0 < small < large
    ensures SameSizes(SmallLargeSmall(large))
    ensures Hits(SmallLargeSmall(large), small) == 1 && Hits(SmallLargeSmall(large), large) == 0
  {
    var a, b := Sized("a", 1), Sized("b", large);
    assert a.key != b.key by { assert "a"[0] != "b"[0]; }
    ThreeHits(a, b, small);
    ThreeHits(a, b, large);
  }

  lemma HitsSnoc(requests: seq<Entry>, e: Entry, cap: nat)
    ensures Hits(requests + [e], cap) ==
            Hits(requests, cap) + (if Holds(Contents(requests, cap), e.key) then 1 else 0)
  {
    assert (requests + [e])[..|requests|] == requests;
  }

  lemma ThreeHits(a: Entry, b: Entry, cap: nat)
    requires a.key != b.key && 0 < a.bytes <= cap && b.bytes >= cap
    ensures Hits([a, b, a], cap) == if b.bytes == cap then 0 else 1
  {
    TwoMisses(a, b, cap);
    SecondRequest(a, b, cap);
    LastHit([a, b], a, cap);
    assert [a, b] + [a] == [a, b, a];
    assert Holds([a], a.key) by { TouchFront([], a); assert [a] + [] == [a]; }
  }

  lemma LastHit(requests: seq<Entry>, e: Entry, cap: nat)
    ensures Hits(requests + [e], cap) > Hits(requests, cap) <==> Holds(Contents(requests, cap), e.key)
    ensures Hits(requests + [e], cap) <= Hits(requests, cap) + 1
    ensures Hits(requests + [e], cap) >= Hits(requests, cap)
  {
    HitsSnoc(requests, e, cap);
  }

  lemma TwoMisses(a: Entry, b: Entry, cap: nat)
    requires a.key != b.key && 0 < a.bytes <= cap && b.bytes >= cap
    ensures Hits([a, b], cap) == 0
  {
    FirstMiss(a, cap);
    FirstRequest(a, cap);
    assert !Holds([a], b.key) by { SecondRequest(a, b, cap); }
    LastHit([a], b, cap);
    assert [a] + [b] == [a, b];
  }

  lemma FirstMiss(a: Entry, cap: nat)
    ensures Hits([a], cap) == 0
  {
    HitsSnoc([], a, cap);
    assert [] + [a] == [a];
  }

  lemma FirstRequest(a: Entry, cap: nat)
    requires a.bytes <= cap
    ensures Contents([a], cap) == [a]
  {
    TouchFront([], a);
    assert [a] + [] == [a] && [a][..0] == [];
    assert Contents([a], cap) == Request([], a, cap);
  }

  lemma SecondRequest(a: Entry, b: Entry, cap: nat)
    requires a.key != b.key && 0 < a.bytes <= cap && b.bytes >= cap
    ensures !Holds([a], b.key) && !Holds([b], a.key)
    ensures Contents([a, b], cap) == if b.bytes == cap then [b] else [a]
  {
    FirstRequest(a, cap);
    assert [a, b][..1] == [a];
    assert Contents([a, b], cap) == Request([a], b, cap);
    assert Without([a], b.key) == [a];
    if b.bytes == cap {
      assert FitFrom([a], 0, 0) == 0 && Added([a], b, cap) == [b];
      TouchFront([], b);
      assert [b] + [] == [b];
    }
  }

  /** More room never costs a hit, whatever is requested, only if there is no more
      room: the condition that every script fits the smaller cache cannot be dropped. */
  lemma MoreRoomIff(small: nat, large: nat)
    requires 0 < small <= large
    ensures (forall requests :: SameSizes(requests) ==> Hits(requests, small) <= Hits(requests, large))
            <==> small == large
  {
    if small < large { MoreRoomCanHurt(small, large); }
  }

  // ---- the cache object follows the specification ----

  /** The requests that find nothing in the cache and bring a script too large for it. */
  function Rejected(requests: seq<Entry>, cap: nat): nat {
    if requests == [] then 0
    else
      var n := |requests| - 1;
      Rejected(requests[..n], cap) +
        (if !Holds(Contents(requests[..n], cap), requests[n].key) && requests[n].bytes > cap then 1 else 0)
  }

  lemma {:induction false} NoneRejected(requests: seq<Entry>, cap: nat)
    requires AllFit(requests, cap)
    ensures Rejected(requests, cap) == 0
  {
    if requests != [] { NoneRejected(requests[..|requests| - 1], cap); }
  }

  /** One GET of a cacheable script: serve it, or fetch it, add it and serve what was
      stored. The second serve counts as well: as a hit if the script was stored. */
  method Handle(c: Cache, e: Entry) returns (hit: bool)
    requires c.Valid()
    modifies c
    ensures c.Valid() && c.lru == Request(old(c.lru), e, c.maxBytes)
    ensures hit <==> Holds(old(c.lru), e.key)
    ensures c.hits == old(c.hits) + (if hit || e.bytes <= c.maxBytes then 1 else 0)
    ensures c.misses == old(c.misses) + (if hit then 0 else if e.bytes <= c.maxBytes then 1 else 2)
  {
    var r := c.Serve(Get, "gzip", map[], e.key);
    hit := r.Served?;
    if !hit {
      c.AddEntry(e);
      if e.bytes <= c.maxBytes { TouchFront(c.lru[1..], e); }
      var _ := c.Serve(Get, "gzip", map[], e.key);
    }
  }

  /** Any requests, one after the other, on a new cache: its contents and its own
      counters are those of the specification. */
  method HandleAll(requests: seq<Entry>, limit: nat) returns (c: Cache, hits: nat)
    requires 0 < limit
    ensures fresh(c) && c.Valid() && c.maxBytes == limit
    ensures c.lru == Contents(requests, limit) && hits == Hits(requests, limit)
    ensures c.hits == |requests| - Rejected(requests, limit)
    ensures c.misses == |requests| - hits + Rejected(requests, limit)
    ensures AllFit(requests, limit) ==> c.hits == |requests| && c.misses == |requests| - hits
  {
    c := new Cache(limit);
    hits := 0;
    for i := 0 to |requests|
      invariant fresh(c) && c.Valid() && c.maxBytes == limit
      invariant c.lru == Contents(requests[..i], limit) && hits == Hits(requests[..i], limit)
      invariant c.hits == i - Rejected(requests[..i], limit)
      invariant c.misses == i - hits + Rejected(requests[..i], limit)
    {
      assert requests[..i + 1][..i] == requests[..i];
      var hit := Handle(c, requests[i]);
      if hit { hits := hits + 1; }
    }
    assert requests[..|requests|] == requests;
    if AllFit(requests, limit) { NoneRejected(requests, limit); }
  }
}
