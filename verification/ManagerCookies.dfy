/** The manager's own cookies, by their names written out: none is sent on to an
    agent, and no agent can set one. */
module ManagerCookies {
  import opened Options
  import opened GoStrings
  import opened CookieHeader
  import opened CookieJar
  import opened CookieJarObject
  import opened SetCookieScope

  /** The browser's login to the manager, and its choice of a target, in any case. */
  predicate IsOwn(name: string) {
    LowerAll(name) == "dsh-session" || LowerAll(name) == "dsh-target"
  }

  lemma ManagerNameIff(name: string)
    ensures IsManagerName(name) <==> IsOwn(name)
  {
    assert LowerAll("dsh-session") == "dsh-session";
    assert LowerAll("dsh-target") == "dsh-target";
  }

  /** Whatever the browser sends and whatever is in the jar, the header sent on names
      neither of the manager's cookies. */
  lemma OwnCookiesStay(log: seq<Event>, requestPath: string, now: int, browserHeader: string, header: string)
    requires Sends(log, requestPath, now, browserHeader, header)
    ensures forall p :: p in Parse(header) ==> !IsOwn(p.name)
  {
    ParseClean(header);
    forall p | p in Parse(header) ensures !IsOwn(p.name) { ManagerNameIff(p.name); }
  }

  /** A browser's pair is read exactly if it has a name and the name is not the
      manager's; then its value is the last one given for that name. */
  lemma PairRead(pairs: seq<Pair>, name: string, value: string)
    requires Trimmed(name) && Trimmed(value)
    ensures name == "" || IsOwn(name) ==> AddPair(pairs, name, value) == pairs
    ensures name != "" && !IsOwn(name) ==> Pair(name, value) in AddPair(pairs, name, value)
  {
    ManagerNameIff(name);
    TrimTrimmed(name);
    TrimTrimmed(value);
    if name != "" && !IsOwn(name) { PutHas(pairs, Pair(name, value), Pair(name, value)); }
  }

  /** The browser's login alone: nothing is read from it. */
  lemma LoginWitness()
    ensures Parse("dsh-session=m") == []
  {
    var part := "dsh-session=m";
    assert part == "dsh-session" + "=" + "m";
    assert LowerAll("dsh-session") == "dsh-session" && !Contains("dsh-session", '=') && !Contains(part, ';');
    OnePart("dsh-session", "m");
    SplitOne(part, ';');
    assert [part][1..] == [];
    assert AddParts([], [part]) == AddParts(AddPart([], part), []);
  }

  lemma OnePart(name: string, value: string)
    requires Trimmed(name) && Trimmed(value) && !Contains(name, '=')
    ensures IsOwn(name) ==> AddPart([], name + "=" + value) == []
  {
    assert name + "=" + value == name + ['='] + value;
    CutOf(name, '=', value);
    PairRead([], name, value);
  }

  // ---- Set-Cookie ----

  /** The name at the head of a Set-Cookie line, as written. */
  lemma HeadName(l: string, name: string, r: string, value: string, attributes: string)
    requires AllSpace(l) && AllSpace(r) && Trimmed(name) && name != ""
    requires !Contains(name, '=') && !Contains(name, ';') && !Contains(value, ';')
    ensures SetCookieName(l + (name + r + "=" + value)) == name
    ensures SetCookieName(l + (name + r + "=" + value) + ";" + attributes) == name
  {
    var pair := name + r + "=" + value;
    var head := l + pair;
    HeadLacks(l, name, r, value);
    HeadRead(l, name, r, value);
    assert Cut(head, ';').before == head by { assert IndexByte(head, ';') == |head|; }
    assert head + ";" + attributes == head + [';'] + attributes;
    CutOf(head, ';', attributes);
  }

  lemma HeadLacks(l: string, name: string, r: string, value: string)
    requires AllSpace(l) && AllSpace(r) && !Contains(name, ';') && !Contains(value, ';')
    ensures !Contains(l + (name + r + "=" + value), ';')
  {
    SpacesContain(l, ';');
    SpacesContain(r, ';');
    ConcatLacks(name, r, ';');
    ConcatLacks(name + r, "=", ';');
    ConcatLacks(name + r + "=", value, ';');
    ConcatLacks(l, name + r + "=" + value, ';');
  }

  lemma HeadRead(l: string, name: string, r: string, value: string)
    requires AllSpace(l) && AllSpace(r) && Trimmed(name) && name != "" && !Contains(name, '=')
    ensures var c := Cut(Trim(l + (name + r + "=" + value)), '='); c.found && Trim(c.before) == name
  {
    var pair := name + r + "=" + value;
    var head := l + pair;
    SpacesContain(l, '=');
    SpacesContain(r, '=');
    ConcatLacks(name, r, '=');
    ConcatLacks(l, name + r, '=');
    assert head == (l + (name + r)) + ['='] + value;
    CutOf(l + (name + r), '=', value);
    var a, b := TrimSplits(head);
    CutPadded(a, Trim(head), b);
    TrimPadded(a, Cut(Trim(head), '=').before, "");
    assert a + Cut(Trim(head), '=').before + "" == l + (name + r);
    TrimOf(l, name, r);
    assert l + name + r == l + (name + r);
  }

  /** A line that sets one of the manager's cookies is dropped, whatever else it says;
      the jar does not keep it either. */
  lemma OwnLinesAreDropped(raw: string, session: string, requestPath: string)
    requires IsOwn(SetCookieName(raw))
    ensures ScopedLine(raw, session, requestPath) == ""
  {
    ManagerNameIff(SetCookieName(raw));
  }

  lemma OwnRecordsAreRefused(c: SetCookie)
    ensures Accepted(Some(c)) <==> c.name != "" && !IsOwn(c.name)
  {
    ManagerNameIff(c.name);
  }
}
