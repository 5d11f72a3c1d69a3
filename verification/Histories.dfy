/** Small facts about what a bounded queue keeps of what it is offered, and about counting. */
module Histories {

  /** The offered elements whose flag is set, in order. */
  function Kept<T>(offered: seq<T>, kept: seq<bool>): seq<T>
    requires |offered| == |kept|
  {
    if offered == [] then []
    else
      var n := |offered| - 1;
      Kept(offered[..n], kept[..n]) + (if kept[n] then [offered[n]] else [])
  }

  /** a can be obtained from b by leaving elements out. */
  predicate Subsequence<T(==)>(a: seq<T>, b: seq<T>)
    decreases |b|
  {
    a == [] ||
    (b != [] && (Subsequence(a, b[..|b| - 1]) ||
                 (a[|a| - 1] == b[|b| - 1] && Subsequence(a[..|a| - 1], b[..|b| - 1]))))
  }

  lemma KeptSnoc<T>(offered: seq<T>, kept: seq<bool>, c: T, k: bool)
    requires |offered| == |kept|
    ensures Kept(offered + [c], kept + [k]) == Kept(offered, kept) + (if k then [c] else [])
  {
    assert (offered + [c])[..|offered|] == offered && (kept + [k])[..|kept|] == kept;
  }

  /** Any prefix of what was kept is a subsequence of what was offered. */
  lemma {:induction false} KeptIsSubsequence<T>(offered: seq<T>, kept: seq<bool>, n: nat)
    requires |offered| == |kept| && n <= |Kept(offered, kept)|
    ensures Subsequence(Kept(offered, kept)[..n], offered)
    decreases |offered|
  {
    if n > 0 {
      var m := |offered| - 1;
      var before := Kept(offered[..m], kept[..m]);
      if n <= |before| {
        KeptIsSubsequence(offered[..m], kept[..m], n);
        assert Kept(offered, kept)[..n] == before[..n];
      } else {
        KeptIsSubsequence(offered[..m], kept[..m], n - 1);
        assert Kept(offered, kept)[..n][..n - 1] == before[..n - 1];
      }
    }
  }

  /** What was kept is as long as what was offered only if everything was kept. */
  lemma {:induction false} KeptLength<T>(offered: seq<T>, kept: seq<bool>)
    requires |offered| == |kept|
    ensures |Kept(offered, kept)| <= |offered|
    ensures |Kept(offered, kept)| == |offered| <==> forall i :: 0 <= i < |kept| ==> kept[i]
    ensures |Kept(offered, kept)| == |offered| ==> Kept(offered, kept) == offered
    decreases |offered|
  {
    if offered != [] {
      var m := |offered| - 1;
      KeptLength(offered[..m], kept[..m]);
      assert offered == offered[..m] + [offered[m]];
      assert forall i :: 0 <= i < m ==> kept[..m][i] == kept[i];
    }
  }

  /** Where the m-th kept element was offered. */
  lemma {:induction false} KeptPrefix<T>(offered: seq<T>, kept: seq<bool>, m: nat) returns (n: nat)
    requires |offered| == |kept| && 0 < m <= |Kept(offered, kept)|
    ensures 0 < n <= |offered| && kept[n - 1] && Kept(offered[..n], kept[..n]) == Kept(offered, kept)[..m]
    decreases |offered|
  {
    var k := |offered| - 1;
    var before := Kept(offered[..k], kept[..k]);
    if m <= |before| {
      n := KeptPrefix(offered[..k], kept[..k], m);
      assert offered[..k][..n] == offered[..n] && kept[..k][..n] == kept[..n];
      assert Kept(offered, kept)[..m] == before[..m];
    } else {
      n := |offered|;
      assert offered[..n] == offered && kept[..n] == kept && Kept(offered, kept)[..m] == Kept(offered, kept);
    }
  }

  function Falses(kept: seq<bool>): nat {
    if kept == [] then 0 else Falses(kept[..|kept| - 1]) + (if kept[|kept| - 1] then 0 else 1)
  }

  /** Offered is kept plus dropped. */
  lemma {:induction false} KeptPlusDropped<T>(offered: seq<T>, kept: seq<bool>)
    requires |offered| == |kept|
    ensures |offered| == |Kept(offered, kept)| + Falses(kept)
    decreases |offered|
  {
    if offered != [] {
      var m := |offered| - 1;
      KeptPlusDropped(offered[..m], kept[..m]);
    }
  }

  lemma SizeWithout<T>(q: set<T>, x: T)
    ensures |q| == |q - {x}| + (if x in q then 1 else 0)
  {
    if x in q {
      assert q == (q - {x}) + {x};
    } else {
      assert q == q - {x};
    }
  }
}
