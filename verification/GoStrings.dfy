/** The parts of Go's strings package the cookie code uses, on ASCII text. */
module GoStrings {

  predicate IsSpace(c: char) {
    c == ' ' || '\t' <= c <= '\r'
  }

  ghost predicate AllSpace(s: string) {
    forall i :: 0 <= i < |s| ==> IsSpace(s[i])
  }

  function TrimLeft(s: string): string {
    if s != "" && IsSpace(s[0]) then TrimLeft(s[1..]) else s
  }

  function TrimRight(s: string): string {
    if s != "" && IsSpace(s[|s| - 1]) then TrimRight(s[..|s| - 1]) else s
  }

  function Trim(s: string): string {
    TrimRight(TrimLeft(s))
  }

  /** No space at either end. */
  predicate Trimmed(s: string) {
    s != "" ==> !IsSpace(s[0]) && !IsSpace(s[|s| - 1])
  }

  lemma {:induction false} TrimLeftPad(s: string) returns (n: nat)
    ensures n <= |s| && TrimLeft(s) == s[n..] && AllSpace(s[..n])
    ensures TrimLeft(s) != "" ==> !IsSpace(TrimLeft(s)[0])
    decreases |s|
  {
    if s != "" && IsSpace(s[0]) {
      var m := TrimLeftPad(s[1..]);
      n := m + 1;
      assert s[1..][m..] == s[n..] && s[..n] == [s[0]] + s[1..][..m];
    } else {
      n := 0;
    }
  }

  lemma {:induction false} TrimRightPad(s: string) returns (n: nat)
    ensures n <= |s| && TrimRight(s) == s[..n] && AllSpace(s[n..])
    ensures TrimRight(s) != "" ==> !IsSpace(TrimRight(s)[|TrimRight(s)| - 1])
    decreases |s|
  {
    if s != "" && IsSpace(s[|s| - 1]) {
      var t := s[..|s| - 1];
      n := TrimRightPad(t);
      assert t[..n] == s[..n] && s[n..] == t[n..] + [s[|s| - 1]];
    } else {
      n := |s|;
      assert s[..n] == s && s[n..] == "";
    }
  }

  /** Trim cuts s into padding, the trimmed text, and padding. */
  lemma TrimSplits(s: string) returns (l: string, r: string)
    ensures s == l + Trim(s) + r && AllSpace(l) && AllSpace(r) && Trimmed(Trim(s))
  {
    var n := TrimLeftPad(s);
    var t := TrimLeft(s);
    var m := TrimRightPad(t);
    l, r := s[..n], t[m..];
    assert Trim(s) == t[..m];
    assert Trimmed(t[..m]) by { assert t[..m] != "" ==> t[..m][0] == t[0]; }
    Rejoined(s, n, m);
  }

  lemma Rejoined(s: string, n: nat, m: nat)
    requires n <= |s| && m <= |s[n..]|
    ensures s == s[..n] + s[n..][..m] + s[n..][m..]
  {
  }

  lemma {:induction false} TrimLeftOf(l: string, s: string)
    requires AllSpace(l) && (s != "" ==> !IsSpace(s[0]))
    ensures TrimLeft(l + s) == s
    decreases |l|
  {
    if l == "" {
      assert l + s == s;
    } else {
      assert (l + s)[1..] == l[1..] + s;
      TrimLeftOf(l[1..], s);
    }
  }

  lemma {:induction false} TrimRightOf(s: string, r: string)
    requires AllSpace(r) && (s != "" ==> !IsSpace(s[|s| - 1]))
    ensures TrimRight(s + r) == s
    decreases |r|
  {
    if r == "" {
      assert s + r == s;
    } else {
      assert (s + r)[..|s + r| - 1] == s + r[..|r| - 1];
      assert (s + r)[|s + r| - 1] == r[|r| - 1];
      TrimRightOf(s, r[..|r| - 1]);
    }
  }

  /** Trim undoes any padding of a trimmed text. */
  lemma TrimOf(l: string, s: string, r: string)
    requires AllSpace(l) && AllSpace(r) && Trimmed(s)
    ensures Trim(l + s + r) == s
  {
    if s == "" {
      assert AllSpace(l + r) && l + s + r == (l + r) + "";
      TrimLeftOf(l + r, "");
    } else {
      assert l + s + r == l + (s + r) && (s + r)[0] == s[0];
      TrimLeftOf(l, s + r);
      TrimRightOf(s, r);
    }
  }

  lemma TrimTrimmed(s: string)
    ensures Trim(s) == s <==> Trimmed(s)
  {
    if Trimmed(s) { TrimOf("", s, ""); }
    assert "" + s + "" == s;
    var l, r := TrimSplits(s);
  }

  /** Padding around any text does not change what Trim leaves. */
  lemma TrimPadded(l: string, s: string, r: string)
    requires AllSpace(l) && AllSpace(r)
    ensures Trim(l + s + r) == Trim(s)
  {
    var a, b := TrimSplits(s);
    assert AllSpace(l + a) && AllSpace(b + r);
    assert l + s + r == (l + a) + Trim(s) + (b + r);
    TrimOf(l + a, Trim(s), b + r);
  }

  // ---- searching ----

  function IndexFrom(s: string, c: char, from: nat): (i: nat)
    requires from <= |s|
    ensures from <= i <= |s| && (i < |s| ==> s[i] == c) && forall j :: from <= j < i ==> s[j] != c
    decreases |s| - from
  {
    if from == |s| || s[from] == c then from else IndexFrom(s, c, from + 1)
  }

  /** Position of the first c; |s| if there is none. */
  function IndexByte(s: string, c: char): (i: nat)
    ensures i <= |s| && (i < |s| ==> s[i] == c) && forall j :: 0 <= j < i ==> s[j] != c
  {
    IndexFrom(s, c, 0)
  }

  predicate Contains(s: string, c: char) {
    IndexByte(s, c) < |s|
  }

  /** Position of the last c before end; -1 if there is none. */
  function LastIndex(s: string, c: char, end: nat): (i: int)
    requires end <= |s|
    ensures -1 <= i < end && (i >= 0 ==> s[i] == c) && forall j :: i < j < end ==> s[j] != c
  {
    if end == 0 then -1 else if s[end - 1] == c then end - 1 else LastIndex(s, c, end - 1)
  }

  lemma IndexIs(s: string, c: char, i: nat)
    ensures IndexByte(s, c) == i <==> i <= |s| && (i < |s| ==> s[i] == c) && forall j :: 0 <= j < i ==> s[j] != c
  {
  }

  datatype CutResult = CutResult(before: string, after: string, found: bool)

  /** strings.Cut at the first c. */
  function Cut(s: string, c: char): CutResult {
    var i := IndexByte(s, c);
    if i < |s| then CutResult(s[..i], s[i + 1..], true) else CutResult(s, "", false)
  }

  lemma CutOf(a: string, c: char, b: string)
    requires !Contains(a, c)
    ensures Cut(a + [c] + b, c) == CutResult(a, b, true)
  {
    var s := a + [c] + b;
    IndexIs(s, c, |a|);
    assert s[..|a|] == a && s[|a| + 1..] == b;
  }

  lemma NotContained(s: string, c: char)
    ensures !Contains(s, c) <==> forall i :: 0 <= i < |s| ==> s[i] != c
  {
  }

  lemma ConcatLacks(a: string, b: string, c: char)
    ensures Contains(a + b, c) <==> Contains(a, c) || Contains(b, c)
  {
    var s := a + b;
    assert forall i :: 0 <= i < |s| ==> s[i] == if i < |a| then a[i] else b[i - |a|];
    if Contains(a, c) {
      assert s[IndexByte(a, c)] == c;
    } else if Contains(b, c) {
      assert s[|a| + IndexByte(b, c)] == c;
    }
  }

  lemma SliceLacks(s: string, i: nat, j: nat, c: char)
    requires i <= j <= |s| && !Contains(s, c)
    ensures !Contains(s[i..j], c)
  {
    var t := s[i..j];
    forall k | 0 <= k < |t| ensures t[k] != c { assert t[k] == s[i + k]; }
  }

  lemma TrimLacks(s: string, c: char)
    requires !Contains(s, c)
    ensures !Contains(Trim(s), c)
  {
    var l, r := TrimSplits(s);
    SliceLacks(s, |l|, |l| + |Trim(s)|, c);
    assert s[|l|..|l| + |Trim(s)|] == Trim(s);
  }

  // ---- splitting and joining ----

  function Split(s: string, c: char): (parts: seq<string>)
    ensures |parts| > 0
    decreases |s|
  {
    var i := IndexByte(s, c);
    if i == |s| then [s] else [s[..i]] + Split(s[i + 1..], c)
  }

  function Join(parts: seq<string>, sep: string): string {
    if parts == [] then "" else if |parts| == 1 then parts[0] else parts[0] + sep + Join(parts[1..], sep)
  }

  lemma SplitOne(a: string, c: char)
    ensures Split(a, c) == [a] <==> !Contains(a, c)
  {
  }

  lemma SplitCons(a: string, c: char, b: string)
    requires !Contains(a, c)
    ensures Split(a + [c] + b, c) == [a] + Split(b, c)
  {
    var s := a + [c] + b;
    IndexIs(s, c, |a|);
    assert s[..|a|] == a && s[|a| + 1..] == b;
  }

  lemma {:induction false} SplitParts(s: string, c: char, k: nat)
    requires k < |Split(s, c)|
    ensures !Contains(Split(s, c)[k], c)
    decreases |s|
  {
    var i := IndexByte(s, c);
    if i < |s| {
      if k == 0 {
        NotContained(s[..i], c);
      } else {
        SplitParts(s[i + 1..], c, k - 1);
      }
    }
  }

  /** Joining what Split produced with the separator gives the text back. */
  lemma {:induction false} JoinSplit(s: string, c: char)
    ensures Join(Split(s, c), [c]) == s
    decreases |s|
  {
    var i := IndexByte(s, c);
    if i < |s| {
      JoinSplit(s[i + 1..], c);
      assert s == s[..i] + [c] + s[i + 1..];
      NotContained(s[..i], c);
      JoinSplitCons(s[..i], c, s[i + 1..]);
    }
  }

  lemma JoinSplitCons(a: string, c: char, b: string)
    requires !Contains(a, c) && Join(Split(b, c), [c]) == b
    ensures Join(Split(a + [c] + b, c), [c]) == a + [c] + b
  {
    SplitCons(a, c, b);
    JoinCons(a, Split(b, c), [c]);
  }

  lemma JoinCons(a: string, rest: seq<string>, sep: string)
    ensures rest != [] ==> Join([a] + rest, sep) == a + sep + Join(rest, sep)
  {
    assert ([a] + rest)[1..] == rest;
  }

  ghost predicate NoneContains(parts: seq<string>, c: char) {
    forall k :: 0 <= k < |parts| ==> !Contains(parts[k], c)
  }

  /** Splitting gives back what was joined with the separator, when no part contains it. */
  lemma {:induction false} SplitJoin(parts: seq<string>, c: char)
    requires parts != [] && NoneContains(parts, c)
    ensures Split(Join(parts, [c]), c) == parts
    decreases |parts|
  {
    if |parts| == 1 {
      SplitOne(parts[0], c);
    } else {
      SplitJoin(parts[1..], c);
      SplitCons(parts[0], c, Join(parts[1..], [c]));
      assert [parts[0]] + parts[1..] == parts;
    }
  }

  /** When only the last of the joined parts contains the separator, it is split further. */
  lemma {:induction false} SplitJoinLast(parts: seq<string>, last: string, c: char)
    requires NoneContains(parts, c)
    ensures Split(Join(parts + [last], [c]), c) == parts + Split(last, c)
    decreases |parts|
  {
    if parts == [] {
      assert parts + [last] == [last];
    } else {
      var rest := parts[1..];
      assert parts + [last] == [parts[0]] + (rest + [last]);
      SplitJoinLast(rest, last, c);
      JoinCons(parts[0], rest + [last], [c]);
      SplitCons(parts[0], c, Join(rest + [last], [c]));
      assert [parts[0]] + (rest + Split(last, c)) == parts + Split(last, c);
    }
  }

  /** The parts with pad before the first and a space before each other one. */
  function Spaced(pad: string, parts: seq<string>): seq<string>
    decreases |parts|
  {
    if parts == [] then [] else [pad + parts[0]] + Spaced(" ", parts[1..])
  }

  /** A list joined with "; " and split at ';' comes back with a space before all parts but the first. */
  lemma {:induction false} SplitSpaced(pad: string, parts: seq<string>)
    requires parts != [] && NoneContains(parts, ';') && !Contains(pad, ';')
    ensures Split(pad + Join(parts, "; "), ';') == Spaced(pad, parts)
    decreases |parts|
  {
    var first := pad + parts[0];
    ConcatLacks(pad, parts[0], ';');
    if |parts| == 1 {
      SplitOne(first, ';');
    } else {
      var rest := parts[1..];
      assert pad + Join(parts, "; ") == first + [';'] + (" " + Join(rest, "; "));
      assert !Contains(" ", ';');
      SplitSpaced(" ", rest);
      SplitCons(first, ';', " " + Join(rest, "; "));
    }
  }

  // ---- case folding ----

  function Lower(c: char): char {
    if 'A' <= c <= 'Z' then ((c as int) + 32) as char else c
  }

  function LowerAll(s: string): string {
    seq(|s|, i requires 0 <= i < |s| => Lower(s[i]))
  }

  /** Equal up to case. */
  predicate EqualFold(a: string, b: string) {
    LowerAll(a) == LowerAll(b)
  }

  /** A capital letter becomes the small letter at its place in the alphabet; nothing
      else changes. */
  lemma LowerLetters(c: char)
    ensures 'A' <= c <= 'Z' ==>
              'a' <= Lower(c) <= 'z' && Lower(c) as int - 'a' as int == c as int - 'A' as int
    ensures !('A' <= c <= 'Z') ==> Lower(c) == c
  {
  }

  /** Equal up to case: of one length, and letter for letter the same in lower case. */
  lemma EqualFoldIff(a: string, b: string)
    ensures EqualFold(a, b) <==> |a| == |b| && forall i :: 0 <= i < |a| ==> Lower(a[i]) == Lower(b[i])
  {
    if EqualFold(a, b) {
      assert |LowerAll(a)| == |LowerAll(b)|;
      assert forall i :: 0 <= i < |a| ==> Lower(a[i]) == LowerAll(a)[i] == LowerAll(b)[i] == Lower(b[i]);
    }
  }

  lemma SmallText(t: string)
    ensures LowerAll(t) == t <==> forall i :: 0 <= i < |t| ==> !('A' <= t[i] <= 'Z')
  {
    if LowerAll(t) == t { assert forall i :: 0 <= i < |t| ==> Lower(t[i]) == LowerAll(t)[i] == t[i]; }
  }

  /** The ASCII characters strings.TrimSpace removes: tab, line feed, vertical tab,
      form feed, carriage return and space. */
  lemma SpacesAre(c: char)
    ensures IsSpace(c) <==> c == '\t' || c == '\n' || c == '\U{0B}' || c == '\U{0C}' || c == '\r' || c == ' '
  {
  }
}
