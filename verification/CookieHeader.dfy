/** Cookie request headers as ordered lists of pairs: what requestHeader reads
    from the browser, what it writes, and withTargetCookie. */
module CookieHeader {
  import opened GoStrings

  datatype Pair = Pair(name: string, value: string)

  predicate IsManagerName(name: string) {
    EqualFold(name, "dsh-session") || EqualFold(name, "dsh-target")
  }

  /** Position of the pair with this name; |pairs| if there is none. */
  function Position(pairs: seq<Pair>, name: string, from: nat): (i: nat)
    requires from <= |pairs|
    ensures from <= i <= |pairs| && (i < |pairs| ==> pairs[i].name == name)
    ensures forall j :: from <= j < i ==> pairs[j].name != name
    decreases |pairs| - from
  {
    if from == |pairs| || pairs[from].name == name then from else Position(pairs, name, from + 1)
  }

  /** A later value for a name replaces the earlier one in its place. */
  function Put(pairs: seq<Pair>, name: string, value: string): seq<Pair> {
    var i := Position(pairs, name, 0);
    if i < |pairs| then pairs[i := Pair(name, value)] else pairs + [Pair(name, value)]
  }

  /** The closure `add` of requestHeader. */
  function AddPair(pairs: seq<Pair>, name: string, value: string): seq<Pair> {
    var n := Trim(name);
    if n == "" || IsManagerName(n) then pairs else Put(pairs, n, Trim(value))
  }

  function AddPart(pairs: seq<Pair>, part: string): seq<Pair> {
    var c := Cut(part, '=');
    if c.found then AddPair(pairs, c.before, c.after) else pairs
  }

  function AddParts(pairs: seq<Pair>, parts: seq<string>): seq<Pair>
    decreases |parts|
  {
    if parts == [] then pairs else AddParts(AddPart(pairs, parts[0]), parts[1..])
  }

  /** The pairs of a browser's Cookie header, in the order of first appearance. */
  function Parse(header: string): seq<Pair> {
    AddParts([], Split(header, ';'))
  }

  function PairText(p: Pair): string {
    p.name + "=" + p.value
  }

  function Texts(pairs: seq<Pair>): seq<string> {
    if pairs == [] then [] else [PairText(pairs[0])] + Texts(pairs[1..])
  }

  function Print(pairs: seq<Pair>): string {
    Join(Texts(pairs), "; ")
  }

  /** Pairs are written name=value, a semicolon and a space between them. */
  lemma PrintPairs(p: Pair, rest: seq<Pair>)
    ensures Print([]) == "" && Print([p]) == p.name + "=" + p.value
    ensures rest != [] ==> Print([p] + rest) == p.name + "=" + p.value + "; " + Print(rest)
  {
    assert [p][1..] == [] && ([p] + rest)[1..] == rest;
    assert Texts([p]) == [PairText(p)];
    if rest != [] { JoinCons(PairText(p), Texts(rest), "; "); }
  }

  // ---- the pairs that can appear ----

  /** A pair that survives printing and parsing. */
  predicate Clean(p: Pair) {
    && p.name != "" && Trimmed(p.name) && !Contains(p.name, '=') && !Contains(p.name, ';') && !IsManagerName(p.name)
    && Trimmed(p.value) && !Contains(p.value, ';')
  }

  ghost predicate CleanList(pairs: seq<Pair>) {
    && (forall i :: 0 <= i < |pairs| ==> Clean(pairs[i]))
    && (forall i, j :: 0 <= i < j < |pairs| ==> pairs[i].name != pairs[j].name)
  }

  lemma PutClean(pairs: seq<Pair>, p: Pair)
    requires CleanList(pairs) && Clean(p)
    ensures CleanList(Put(pairs, p.name, p.value))
  {
  }

  lemma AddPartClean(pairs: seq<Pair>, part: string)
    requires CleanList(pairs) && !Contains(part, ';')
    ensures CleanList(AddPart(pairs, part))
  {
    var c := Cut(part, '=');
    if c.found {
      var n, v := Trim(c.before), Trim(c.after);
      var _, _ := TrimSplits(c.before);
      var _, _ := TrimSplits(c.after);
      var i := IndexByte(part, '=');
      NotContained(c.before, '=');
      SliceLacks(part, 0, i, ';');
      SliceLacks(part, i + 1, |part|, ';');
      assert part[i + 1..|part|] == c.after;
      TrimLacks(c.before, '=');
      TrimLacks(c.before, ';');
      TrimLacks(c.after, ';');
      if n != "" && !IsManagerName(n) { PutClean(pairs, Pair(n, v)); }
    }
  }

  lemma {:induction false} AddPartsClean(pairs: seq<Pair>, parts: seq<string>)
    requires CleanList(pairs) && NoneContains(parts, ';')
    ensures CleanList(AddParts(pairs, parts))
    decreases |parts|
  {
    if parts != [] {
      AddPartClean(pairs, parts[0]);
      AddPartsClean(AddPart(pairs, parts[0]), parts[1..]);
    }
  }

  /** Whatever the browser sends, the pairs read from it are clean and distinct. */
  lemma ParseClean(header: string)
    ensures CleanList(Parse(header))
  {
    var parts := Split(header, ';');
    forall k | 0 <= k < |parts| ensures !Contains(parts[k], ';') { SplitParts(header, ';', k); }
    AddPartsClean([], parts);
  }

  // ---- printing and parsing ----

  /** One printed pair, with padding before it, is read back as that pair. */
  lemma AddPartText(pairs: seq<Pair>, pad: string, p: Pair)
    requires Clean(p) && AllSpace(pad) && !Contains(pad, '=')
    ensures AddPart(pairs, pad + PairText(p)) == Put(pairs, p.name, p.value)
  {
    var before := pad + p.name;
    assert pad + PairText(p) == before + ['='] + p.value;
    ConcatLacks(pad, p.name, '=');
    CutOf(before, '=', p.value);
    TrimOf(pad, p.name, "");
    assert pad + p.name + "" == before;
    TrimTrimmed(p.value);
  }

  /** A pair that comes later in a clean list is not among the earlier ones. */
  lemma PutFresh(done: seq<Pair>, rest: seq<Pair>)
    requires CleanList(done + rest) && rest != []
    ensures Clean(rest[0]) && Put(done, rest[0].name, rest[0].value) == done + [rest[0]]
  {
    var all, i := done + rest, Position(done, rest[0].name, 0);
    assert all[|done|] == rest[0];
    assert forall j :: 0 <= j < |done| ==> all[j] == done[j];
    assert i == |done|;
  }

  lemma {:induction false} AddTexts(done: seq<Pair>, pad: string, rest: seq<Pair>)
    requires CleanList(done + rest) && (pad == "" || pad == " ")
    ensures AddParts(done, Spaced(pad, Texts(rest))) == done + rest
    decreases |rest|
  {
    if rest != [] {
      var p, tail := rest[0], rest[1..];
      PutFresh(done, rest);
      AddPartText(done, pad, p);
      assert done + rest == (done + [p]) + tail;
      AddTexts(done + [p], " ", tail);
      SpacedTexts(pad, rest);
    } else {
      assert done + rest == done;
    }
  }

  lemma SpacedTexts(pad: string, pairs: seq<Pair>)
    requires pairs != []
    ensures Spaced(pad, Texts(pairs)) == [pad + PairText(pairs[0])] + Spaced(" ", Texts(pairs[1..]))
  {
    assert Texts(pairs)[1..] == Texts(pairs[1..]);
  }

  lemma {:induction false} TextsFacts(pairs: seq<Pair>)
    requires forall i :: 0 <= i < |pairs| ==> Clean(pairs[i])
    ensures |Texts(pairs)| == |pairs| && NoneContains(Texts(pairs), ';')
  {
    if pairs != [] {
      var p := pairs[0];
      TextsFacts(pairs[1..]);
      assert !Contains("=", ';');
      ConcatLacks(p.name, "=", ';');
      ConcatLacks(p.name + "=", p.value, ';');
    }
  }

  /** Parsing what was printed gives the same pairs in the same order. */
  lemma ParsePrint(pairs: seq<Pair>)
    requires CleanList(pairs)
    ensures Parse(Print(pairs)) == pairs
  {
    TextsFacts(pairs);
    if pairs == [] {
      assert Split("", ';') == [""];
      assert AddParts([], [""]) == AddParts(AddPart([], ""), []);
    } else {
      SplitSpaced("", Texts(pairs));
      assert "" + Join(Texts(pairs), "; ") == Print(pairs);
      AddTexts([], "", pairs);
      assert [] + pairs == pairs;
    }
  }

  // ---- adding the jar's pairs ----

  function AddAll(pairs: seq<Pair>, jar: seq<Pair>): seq<Pair>
    decreases |jar|
  {
    if jar == [] then pairs else AddAll(AddPair(pairs, jar[0].name, jar[0].value), jar[1..])
  }

  lemma AddPairClean(pairs: seq<Pair>, p: Pair)
    requires Clean(p)
    ensures AddPair(pairs, p.name, p.value) == Put(pairs, p.name, p.value)
  {
    TrimTrimmed(p.name);
    TrimTrimmed(p.value);
  }

  lemma {:induction false} AddAllClean(pairs: seq<Pair>, jar: seq<Pair>)
    requires CleanList(pairs) && CleanList(jar)
    ensures CleanList(AddAll(pairs, jar))
    decreases |jar|
  {
    if jar != [] {
      AddPairClean(pairs, jar[0]);
      PutClean(pairs, jar[0]);
      AddAllClean(Put(pairs, jar[0].name, jar[0].value), jar[1..]);
    }
  }

  /** Pairs whose names the jar does not mention stay; the jar's pairs are all present. */
  lemma {:induction false} AddAllHas(pairs: seq<Pair>, jar: seq<Pair>, p: Pair)
    requires CleanList(pairs) && CleanList(jar)
    requires p in jar || (p in pairs && forall i :: 0 <= i < |jar| ==> jar[i].name != p.name)
    ensures p in AddAll(pairs, jar)
    decreases |jar|
  {
    if jar != [] {
      var next := Put(pairs, jar[0].name, jar[0].value);
      AddPairClean(pairs, jar[0]);
      PutClean(pairs, jar[0]);
      if p !in jar[1..] {
        PutHas(pairs, jar[0], p);
        assert forall i :: 0 <= i < |jar[1..]| ==> jar[1..][i] == jar[i + 1];
      }
      TailClean(jar);
      AddAllHas(next, jar[1..], p);
    }
  }

  lemma TailClean(jar: seq<Pair>)
    ensures CleanList(jar) && jar != [] ==> CleanList(jar[1..])
  {
  }

  lemma PutHas(pairs: seq<Pair>, q: Pair, p: Pair)
    requires p == q || (p in pairs && p.name != q.name)
    ensures p in Put(pairs, q.name, q.value)
  {
    var i, next := Position(pairs, q.name, 0), Put(pairs, q.name, q.value);
    if p == q {
      assert next[i] == p;
    } else {
      var j :| 0 <= j < |pairs| && pairs[j] == p;
      assert next[j] == p;
    }
  }

  /** Adding pairs that are all there already changes nothing. */
  lemma {:induction false} AddAllPresent(pairs: seq<Pair>, jar: seq<Pair>)
    requires CleanList(pairs) && CleanList(jar) && forall i :: 0 <= i < |jar| ==> jar[i] in pairs
    ensures AddAll(pairs, jar) == pairs
    decreases |jar|
  {
    if jar != [] {
      AddPairClean(pairs, jar[0]);
      var i := Position(pairs, jar[0].name, 0);
      var j :| 0 <= j < |pairs| && pairs[j] == jar[0];
      assert i == j;
      assert pairs[i := jar[0]] == pairs;
      AddAllPresent(pairs, jar[1..]);
    }
  }

  /** The header sent on: the browser's own pairs, updated and completed from the jar. */
  function Header(browser: string, jar: seq<Pair>): string {
    Print(AddAll(Parse(browser), jar))
  }

  /** Reading the header back gives exactly the pairs it was made of. */
  lemma HeaderParses(browser: string, jar: seq<Pair>)
    requires CleanList(jar)
    ensures CleanList(AddAll(Parse(browser), jar))
    ensures Parse(Header(browser, jar)) == AddAll(Parse(browser), jar)
  {
    ParseClean(browser);
    AddAllClean(Parse(browser), jar);
    ParsePrint(AddAll(Parse(browser), jar));
  }

  /** Feeding the header back in as the browser's, with the same jar, changes nothing. */
  lemma HeaderFixedPoint(browser: string, jar: seq<Pair>)
    requires CleanList(jar)
    ensures Header(Header(browser, jar), jar) == Header(browser, jar)
  {
    HeaderParses(browser, jar);
    ParseClean(browser);
    var all := AddAll(Parse(browser), jar);
    forall i | 0 <= i < |jar| ensures jar[i] in all {
      AddAllHas(Parse(browser), jar, jar[i]);
    }
    AddAllPresent(all, jar);
  }

  // ---- withTargetCookie ----

  predicate IsTargetPart(part: string) {
    var c := Cut(Trim(part), '=');
    !c.found || EqualFold(Trim(c.before), "dsh-target")
  }

  /** The parts of a header withTargetCookie keeps, trimmed. */
  function Kept(parts: seq<string>): seq<string> {
    if parts == [] then []
    else (if IsTargetPart(parts[0]) then [] else [Trim(parts[0])]) + Kept(parts[1..])
  }

  method WithTargetCookie(header: string, session: string) returns (r: string)
    ensures r == Join(Kept(Split(header, ';')) + ["dsh-target=" + session], "; ")
  {
    var split := Split(header, ';');
    var parts := CollectParts(split);
    r := Join(parts + ["dsh-target=" + session], "; ");
  }

  method CollectParts(split: seq<string>) returns (parts: seq<string>)
    ensures parts == Kept(split)
  {
    parts := [];
    assert split[0..] == split;
    for k := 0 to |split|
      invariant parts + Kept(split[k..]) == Kept(split)
    {
      var part := Trim(split[k]);
      KeptStep(split, k);
      var c := Cut(part, '=');
      if c.found && !EqualFold(Trim(c.before), "dsh-target") {
        assert parts + ([part] + Kept(split[k + 1..])) == (parts + [part]) + Kept(split[k + 1..]);
        parts := parts + [part];
      } else {
        assert [] + Kept(split[k + 1..]) == Kept(split[k + 1..]);
      }
    }
    assert split[|split|..] == [] && parts + [] == parts;
  }

  lemma KeptStep(parts: seq<string>, k: nat)
    requires k < |parts|
    ensures Kept(parts[k..]) == (if IsTargetPart(parts[k]) then [] else [Trim(parts[k])]) + Kept(parts[k + 1..])
  {
    assert parts[k..][1..] == parts[k + 1..];
  }

  lemma SpacesContain(l: string, c: char)
    ensures AllSpace(l) && !IsSpace(c) ==> !Contains(l, c)
  {
  }

  lemma CutPadded(l: string, t: string, r: string)
    requires AllSpace(l) && AllSpace(r)
    ensures var c, d := Cut(t, '='), Cut(l + t + r, '=');
            d.found == c.found && (c.found ==> d.before == l + c.before && d.after == c.after + r)
  {
    var s, i := l + t + r, IndexByte(t, '=');
    SpacesContain(l, '=');
    SpacesContain(r, '=');
    assert forall j :: 0 <= j < |s| ==>
             s[j] == if j < |l| then l[j] else if j < |l| + |t| then t[j - |l|] else r[j - |l| - |t|];
    if i < |t| {
      IndexIs(s, '=', |l| + i);
      assert s[..|l| + i] == l + t[..i] && s[|l| + i + 1..] == t[i + 1..] + r;
    } else {
      IndexIs(s, '=', |s|);
    }
  }

  /** Spaces around a part do not change what is read from it. */
  lemma AddPartPadded(pairs: seq<Pair>, l: string, t: string, r: string)
    requires AllSpace(l) && AllSpace(r)
    ensures AddPart(pairs, l + t + r) == AddPart(pairs, t)
  {
    CutPadded(l, t, r);
    var c := Cut(t, '=');
    TrimPadded(l, c.before, "");
    TrimPadded("", c.after, r);
    assert l + c.before + "" == l + c.before && "" + c.after + r == c.after + r;
  }

  lemma TrimmedPart(pairs: seq<Pair>, pad: string, part: string)
    requires AllSpace(pad)
    ensures AddPart(pairs, pad + Trim(part)) == AddPart(pairs, part) == AddPart(pairs, Trim(part))
  {
    var l, r := TrimSplits(part);
    AddPartPadded(pairs, l, Trim(part), r);
    AddPartPadded(pairs, pad, Trim(part), "");
    assert pad + Trim(part) + "" == pad + Trim(part);
  }

  lemma TargetPartSkipped(pairs: seq<Pair>, part: string)
    requires IsTargetPart(part)
    ensures AddPart(pairs, part) == pairs
  {
    TrimmedPart(pairs, "", part);
  }

  /** Printed after the kept parts or not, the manager's own cookie is not read. */
  lemma TargetSkipped(pairs: seq<Pair>, pad: string, session: string)
    requires pad == "" || pad == " "
    ensures AddPart(pairs, pad + ("dsh-target=" + session)) == pairs
  {
    var text := "dsh-target=" + session;
    AddPartPadded(pairs, pad, text, "");
    assert pad + text + "" == pad + text;
    TargetName();
    assert text == TARGET + ['='] + session;
    CutOf(TARGET, '=', session);
  }

  const TARGET: string := "dsh-target"

  lemma TargetName()
    ensures IsManagerName(TARGET) && Trim(TARGET) == TARGET && !Contains(TARGET, '=')
  {
    assert Trimmed(TARGET);
    TrimTrimmed(TARGET);
  }

  lemma {:induction false} KeptReadsTheSame(pairs: seq<Pair>, pad: string, parts: seq<string>, session: string)
    requires pad == "" || pad == " "
    ensures AddParts(pairs, Spaced(pad, Kept(parts) + ["dsh-target=" + session])) == AddParts(pairs, parts)
    decreases |parts|
  {
    var target := "dsh-target=" + session;
    if parts == [] {
      TargetSkipped(pairs, pad, session);
      assert Spaced(pad, [target]) == [pad + target];
      assert AddParts(pairs, [pad + target]) == AddParts(AddPart(pairs, pad + target), []);
    } else if IsTargetPart(parts[0]) {
      TargetPartSkipped(pairs, parts[0]);
      assert [] + Kept(parts[1..]) == Kept(parts[1..]);
      KeptReadsTheSame(pairs, pad, parts[1..], session);
    } else {
      var rest := Kept(parts[1..]) + [target];
      assert Kept(parts) + [target] == [Trim(parts[0])] + rest;
      TrimmedPart(pairs, pad, parts[0]);
      KeptReadsTheSame(AddPart(pairs, parts[0]), " ", parts[1..], session);
      assert Spaced(pad, [Trim(parts[0])] + rest) == [pad + Trim(parts[0])] + Spaced(" ", rest);
    }
  }

  /** Exactly the parts that have a name, other than dsh-target in any case, are kept. */
  lemma TargetPartIff(part: string)
    ensures IsTargetPart(part) <==>
            !Contains(Trim(part), '=') || LowerAll(Trim(Cut(Trim(part), '=').before)) == "dsh-target"
  {
    assert LowerAll("dsh-target") == "dsh-target";
  }

  lemma {:induction false} KeptAt(parts: seq<string>, i: nat) returns (j: nat)
    requires i < |Kept(parts)|
    ensures j < |parts| && Kept(parts)[i] == Trim(parts[j]) && !IsTargetPart(parts[j])
    decreases |parts|
  {
    var first := if IsTargetPart(parts[0]) then [] else [Trim(parts[0])];
    assert Kept(parts) == first + Kept(parts[1..]);
    if i < |first| {
      j := 0;
    } else {
      j := KeptAt(parts[1..], i - |first|);
      j := j + 1;
    }
  }

  lemma {:induction false} SpacedAt(pad: string, parts: seq<string>, i: nat)
    requires i < |parts|
    ensures |Spaced(pad, parts)| == |parts|
    ensures Spaced(pad, parts)[i] == (if i == 0 then pad else " ") + parts[i]
    decreases |parts|
  {
    if i > 0 {
      SpacedAt(" ", parts[1..], i - 1);
    } else if |parts| > 1 {
      SpacedAt(" ", parts[1..], 0);
    }
  }

  lemma TargetText(pad: string, session: string)
    requires pad == "" || pad == " "
    ensures IsTargetPart(pad + ("dsh-target=" + session))
  {
    var part := pad + ("dsh-target=" + session);
    var l, r := TrimSplits(part);
    TargetName();
    assert part == (pad + TARGET) + ['='] + session;
    assert !Contains(pad + TARGET, '=') by { ConcatLacks(pad, TARGET, '='); assert !Contains(pad, '='); }
    CutOf(pad + TARGET, '=', session);
    CutPadded(l, Trim(part), r);
    TrimPadded(l, Cut(Trim(part), '=').before, "");
    assert l + Cut(Trim(part), '=').before + "" == pad + TARGET;
    TrimPadded(pad, TARGET, "");
    assert pad + TARGET + "" == pad + TARGET;
  }

  lemma PaddedKept(pad: string, part: string)
    requires (pad == "" || pad == " ") && !IsTargetPart(part)
    ensures !IsTargetPart(pad + Trim(part))
  {
    TrimPadded(pad, Trim(part), "");
    assert pad + Trim(part) + "" == pad + Trim(part);
    var l, r := TrimSplits(part);
    TrimTrimmed(Trim(part));
  }

  /** Whatever target cookies the browser sent, the header sent on has exactly one,
      the last part, and it names the session. */
  lemma OneTargetPart(header: string, session: string)
    requires !Contains(session, ';')
    ensures var parts := Split(Join(Kept(Split(header, ';')) + ["dsh-target=" + session], "; "), ';');
            var n := |parts| - 1;
            && (parts[n] == "dsh-target=" + session || parts[n] == " dsh-target=" + session)
            && IsTargetPart(parts[n])
            && forall i :: 0 <= i < n ==> !IsTargetPart(parts[i])
  {
    var split := Split(header, ';');
    var kept := Kept(split);
    SentParts(header, session);
    var parts := Spaced("", kept + ["dsh-target=" + session]);
    forall i | 0 <= i < |kept| ensures !IsTargetPart(parts[i]) { KeptPart(split, session, i); }
    TargetPart(kept, session);
  }

  /** What the header sent on consists of. */
  lemma SentParts(header: string, session: string)
    requires !Contains(session, ';')
    ensures var all := Kept(Split(header, ';')) + ["dsh-target=" + session];
            Split(Join(all, "; "), ';') == Spaced("", all) && |Spaced("", all)| == |all|
  {
    var split := Split(header, ';');
    var all := Kept(split) + ["dsh-target=" + session];
    forall k | 0 <= k < |split| ensures !Contains(split[k], ';') { SplitParts(header, ';', k); }
    KeptHasNoSemicolon(split);
    assert !Contains("dsh-target=", ';');
    ConcatLacks("dsh-target=", session, ';');
    SplitSpaced("", all);
    assert "" + Join(all, "; ") == Join(all, "; ");
    SpacedAt("", all, 0);
  }

  lemma KeptPart(split: seq<string>, session: string, i: nat)
    requires i < |Kept(split)|
    ensures var parts := Spaced("", Kept(split) + ["dsh-target=" + session]);
            i < |parts| && !IsTargetPart(parts[i])
  {
    SpacedAt("", Kept(split) + ["dsh-target=" + session], i);
    var j := KeptAt(split, i);
    PaddedKept(if i == 0 then "" else " ", split[j]);
  }

  lemma TargetPart(kept: seq<string>, session: string)
    ensures var parts := Spaced("", kept + ["dsh-target=" + session]);
            && |parts| == |kept| + 1 && IsTargetPart(parts[|kept|])
            && (parts[|kept|] == "dsh-target=" + session || parts[|kept|] == " dsh-target=" + session)
  {
    LastSpaced(kept, "dsh-target=" + session);
    TargetText("", session);
    TargetText(" ", session);
    TargetTexts(session);
  }

  lemma LastSpaced(kept: seq<string>, last: string)
    ensures var parts := Spaced("", kept + [last]);
            |parts| == |kept| + 1 && parts[|kept|] == (if |kept| == 0 then "" else " ") + last
  {
    SpacedAt("", kept + [last], |kept|);
  }

  lemma TargetTexts(session: string)
    ensures "" + ("dsh-target=" + session) == "dsh-target=" + session
    ensures " " + ("dsh-target=" + session) == " dsh-target=" + session
  {
  }

  lemma {:induction false} KeptHasNoSemicolon(parts: seq<string>)
    requires NoneContains(parts, ';')
    ensures NoneContains(Kept(parts), ';')
    decreases |parts|
  {
    if parts != [] {
      TrimLacks(parts[0], ';');
      KeptHasNoSemicolon(parts[1..]);
    }
  }

  /** The target cookie the manager adds is invisible behind the proxy: for an id
      without ';' the header sent on is the same with it and without it. */
  lemma TargetCookieInvisible(header: string, session: string, jar: seq<Pair>)
    requires !Contains(session, ';')
    ensures var h := Join(Kept(Split(header, ';')) + ["dsh-target=" + session], "; ");
            Parse(h) == Parse(header) && Header(h, jar) == Header(header, jar)
  {
    var split := Split(header, ';');
    var parts := Kept(split) + ["dsh-target=" + session];
    forall k | 0 <= k < |split| ensures !Contains(split[k], ';') { SplitParts(header, ';', k); }
    KeptHasNoSemicolon(split);
    assert !Contains("dsh-target=", ';');
    ConcatLacks("dsh-target=", session, ';');
    SplitSpaced("", parts);
    assert "" + Join(parts, "; ") == Join(parts, "; ");
    KeptReadsTheSame([], "", split, session);
  }
}
