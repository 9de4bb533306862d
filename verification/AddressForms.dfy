/** The address lists that survive a round trip, and what the address machine makes of the text of one. Names are
    printable and single-spaced and have nothing in them that the printer would have to escape or the reader would
    decode; addresses have an atom for a domain and a local part that is quoted just when it has to be. For each
    piece the printer may print, alone or quoted, the lemmas here give the state in which the reader is left: inside
    a name, inside an angle address, or done with it. */
module AddressForms {
  import opened AddressMachine
  import opened AddressParser
  import opened HeaderPhrases
  import opened HeaderText
  import opened HeaderTokens
  import opened WordDecoding
  import opened WordReading

  /** The text that a quoted local part stands for. */
  function RawLocal(local: string): string {
    if |local| >= 2 && local[0] == '"' then Unescape(local[1..|local| - 1]) else local
  }

  /** A quoted string that needs its quotes and is written the one way the parser writes it. */
  predicate IsCanonical(local: string) {
    var raw := RawLocal(local);
    && local == "\"" + Escape(raw) + "\""
    && AnyIn(raw, LOCAL_SPECIALS) && !AllBlank(raw) && IsPrintable(raw)
  }

  predicate GoodLocal(local: string) {
    (IsAtom(local) && !AnyIn(local, LOCAL_SPECIALS)) || IsCanonical(local)
  }

  predicate GoodEmail(email: string) {
    && LastAt(email) >= 0 && !HasMark(email)
    && GoodLocal(LocalPart(email))
    && IsAtom(email[LastAt(email) + 1..])
  }

  /** A name outside ASCII: printed as encoded-words, decoded, and left alone by cleaning and tidying. */
  ghost predicate OtherName(x: Reader, name: string) {
    && ReadsWords(x) && !IsPrintable(name) && name != "" && name[0] != '.'
    && x.clean(name) == name && DisplayName(name, "") == name
  }

  /** The names that survive a round trip; those outside ASCII when they are to be encoded. */
  ghost predicate KnownName(x: Reader, useASCII: bool, name: string) {
    GoodName(name) || (useASCII && OtherName(x, name))
  }

  /** A mailbox with a name, an address, or both. */
  ghost predicate GoodMailbox(x: Reader, useASCII: bool, m: Mailbox) {
    && (m.name == "" || KnownName(x, useASCII, m.name))
    && (m.email == "" || GoodEmail(m.email))
    && (m.name != "" || m.email != "")
  }

  ghost predicate GoodMailboxes(x: Reader, useASCII: bool, mailboxes: seq<Mailbox>) {
    forall i :: 0 <= i < |mailboxes| ==> GoodMailbox(x, useASCII, mailboxes[i])
  }

  ghost predicate GoodEntry(x: Reader, useASCII: bool, entry: Entry) {
    match entry
    case Single(m) => GoodMailbox(x, useASCII, m)
    case Group(name, members) => KnownName(x, useASCII, name) && GoodMailboxes(x, useASCII, members)
  }

  ghost predicate GoodEntries(x: Reader, useASCII: bool, entries: seq<Entry>) {
    forall i :: 0 <= i < |entries| ==> GoodEntry(x, useASCII, entries[i])
  }

  /** The mailbox that has been read ends with the next separator: the list is then addrlist. */
  predicate Finished(p: Parse, results: seq<Entry>, addrlist: seq<Mailbox>, groupName: string) {
    AddToAddrList(p) == Clear(results, addrlist, groupName)
  }

  // Names and addresses at the end of a mailbox

  lemma {:induction false} CollapseKeeps(t: string)
    requires IsSpaced(t)
    ensures CollapseSpace(t) == t && Collapse(t) == t
    decreases |t|
  {
    assert IsNameChar(t[0]) && (|t| > 1 ==> IsNameChar(t[1]));
    NameCharSpace(t[0]);
    if |t| > 1 {
      NameCharSpace(t[1]);
      SpacedTail(t);
      if t[1] != ' ' {
        CollapseKeeps(t[1..]);
        assert [t[0]] + t[1..] == t;
      } else {
        CollapseKeeps(t[2..]);
        assert t[1..][1..] == t[2..];
        assert IsNameChar(t[2]);
        NameCharSpace(t[2]);
        assert t[1..] == " " + t[2..];
        assert [t[0]] + t[1..] == t;
      }
    } else {
      assert t[1..] == "" && [t[0]] == t;
    }
  }

  lemma NameCharSpace(c: char)
    requires IsNameChar(c)
    ensures IsSpace(c) <==> c == ' '
    ensures IsBlank(c) <==> c == ' '
  {
  }

  lemma TrimKeeps(t: string)
    requires IsSpaced(t)
    ensures Trim(t) == t
  {
    assert IsNameChar(t[0]) && IsNameChar(t[|t| - 1]);
    NameCharSpace(t[0]);
    NameCharSpace(t[|t| - 1]);
    hide IsSpace;
    assert TrimRight(t) == t && Indent(t) == 0;
  }

  lemma NameKept(name: string)
    requires name == "" || GoodName(name)
    ensures DisplayName(name, "") == name
  {
    hide Trim, CollapseSpace;
    if name != "" {
      CollapseKeeps(name);
      TrimKeeps(name);
    } else {
      assert Trim(CollapseSpace("")) == "" by {
        NothingDisplayed();
      }
    }
  }

  /** A name that survives is not empty, and is displayed as it is. */
  lemma KnownNameFacts(x: Reader, useASCII: bool, name: string)
    requires KnownName(x, useASCII, name)
    ensures name != "" && DisplayName(name, "") == name
  {
    hide DisplayName, HasMark, ReadsWords;
    if GoodName(name) {
      NameKept(name);
    }
  }

  /** What tidying leaves alone, collapsing blanks leaves alone too, and it has no mark at its beginning. */
  lemma OtherNameFacts(name: string)
    requires name != "" && DisplayName(name, "") == name
    ensures Collapse(name) == name && DropMark(name) == name
  {
    hide IsSpace, CollapseSpace, Collapse, Trim, DropMark;
    CollapseShortens(name);
    TrimmedIsWhole(CollapseSpace(name), name);
    CollapseBlanks(name);
    NoMarkFirst(name);
  }

  lemma TrimmedIsWhole(s: string, t: string)
    requires Trim(s) == t && t != "" && |s| <= |t|
    ensures s == t && !IsSpace(t[0])
  {
    hide IsSpace;
    var r := TrimRight(s);
    assert t == r[Indent(r)..];
    assert |r| <= |s|;
  }

  lemma NoMarkFirst(t: string)
    requires t != "" && !IsSpace(t[0])
    ensures DropMark(t) == t
  {
    MarkIsSpace();
  }

  lemma MarkIsSpace()
    ensures IsSpace('\U{FEFF}')
  {
  }

  lemma {:induction false} CollapseShortens(s: string)
    ensures |CollapseSpace(s)| <= |s|
  {
    if s != "" {
      CollapseShortens(s[1..]);
    }
  }

  lemma {:induction false} CollapseBlanks(s: string)
    requires CollapseSpace(s) == s
    ensures Collapse(s) == s
  {
    hide IsSpace, IsBlank;
    if s != "" {
      BlankIsSpace(s[0]);
      if !IsSpace(s[0]) {
        assert s == [s[0]] + s[1..];
        CollapseBlanks(s[1..]);
      } else if |s| > 1 && IsSpace(s[1]) {
        CollapseShortens(s[1..]);
        assert false;
      } else {
        assert s == " " + s[1..];
        if |s| > 1 {
          BlankIsSpace(s[1]);
        }
        CollapseBlanks(s[1..]);
        SpaceIsBlank();
      }
    }
  }

  lemma BlankIsSpace(c: char)
    ensures IsBlank(c) ==> IsSpace(c)
  {
  }

  lemma SpaceIsBlank()
    ensures IsBlank(' ')
  {
  }

  lemma NothingDisplayed()
    ensures Trim(CollapseSpace("")) == "" && Requoted("") == ""
  {
    assert LastAt("") == -1;
  }

  lemma {:induction false} AtOnly(a: string, dom: string)
    requires '@' !in dom
    ensures LastAt(a + "@" + dom) == |a|
  {
    var s := a + "@" + dom;
    if dom == "" {
      assert s[|s| - 1] == '@';
    } else {
      var k := |dom| - 1;
      assert s[|s| - 1] == dom[k];
      assert s[..|s| - 1] == a + "@" + dom[..k];
      AtOnly(a, dom[..k]);
    }
  }

  lemma AtomHasNoAt(dom: string)
    requires IsAtom(dom)
    ensures '@' !in dom
  {
    forall i | 0 <= i < |dom|
      ensures dom[i] != '@'
    {
      assert IsAtomChar(dom[i]);
    }
  }

  /** Quoting the local part again gives the address as it was written. */
  lemma EmailKept(email: string)
    requires GoodEmail(email)
    ensures var raw, dom := RawLocal(LocalPart(email)), email[LastAt(email) + 1..];
            Requoted(raw + "@" + dom) == email
  {
    hide Escape, Unescape, HasMark, IsAtom, Requoted, IsPrintable;
    var local, dom := LocalPart(email), email[LastAt(email) + 1..];
    var raw := RawLocal(local);
    assert email == local + "@" + dom;
    AtomHasNoAt(dom);
    if !IsCanonical(local) {
      AtomNotQuoted(local);
      assert raw == local;
    }
    SpecKept(local, raw, dom);
  }

  lemma {:induction false} SpecKept(local: string, raw: string, dom: string)
    requires '@' !in dom
    requires local == if AnyIn(raw, LOCAL_SPECIALS) then "\"" + Escape(raw) + "\"" else raw
    ensures Requoted(raw + "@" + dom) == local + "@" + dom
  {
    hide Escape, AnyIn;
    AtOnly(raw, dom);
    var spec := raw + "@" + dom;
    assert spec[..|raw|] == raw && spec[|raw|..] == "@" + dom;
    assert "\"" + Escape(raw) + "\"" + ("@" + dom) == "\"" + Escape(raw) + "\"" + "@" + dom;
  }

  lemma AtomNotQuoted(s: string)
    requires IsAtom(s)
    ensures s != "" ==> s[0] != '"' && IsAtomChar(s[0])
    ensures Quoted(s, "") == s && !StartsWith(s, '"')
    ensures IsPrintable(s)
  {
    assert s != "" ==> IsAtomChar(s[0]);
    forall i | 0 <= i < |s|
      ensures ' ' <= s[i] <= '~'
    {
      assert IsAtomChar(s[i]);
    }
  }

  // Address pieces

  lemma HasMarkPart(a: string, b: string, c: string)
    requires !HasMark(a + b + c)
    ensures !HasMark(b)
  {
    forall i | 0 <= i < |b| - 1
      ensures !(b[i] == '=' && b[i + 1] == '?')
    {
      var s := a + b + c;
      assert s[|a| + i] == b[i] && s[|a| + i + 1] == b[i + 1];
    }
  }

  lemma {:induction false} EscapeBlank(t: string)
    requires AllBlank(Escape(t))
    ensures AllBlank(t)
  {
    if t != "" {
      var e := Escape(t);
      assert IsBlank(e[0]);
      assert e[1..] == Escape(t[1..]);
      forall i | 0 <= i < |t|
        ensures IsBlank(t[i])
      {
        assert AllBlank(Escape(t[1..])) by {
          forall j | 0 <= j < |Escape(t[1..])| ensures IsBlank(Escape(t[1..])[j]) { assert e[j + 1] == e[1..][j]; }
        }
        EscapeBlank(t[1..]);
        if i > 0 {
          assert t[i] == t[1..][i - 1];
        }
      }
    }
  }

  /** The local part is one token, its text unquoted. */
  lemma LocalPiece(x: Reader, m: Machine, email: string)
    requires KeepsPrintable(x.clean) && Idle(m) && GoodEmail(email) && LocalPart(email) != ""
    ensures var local := LocalPart(email);
            var n := Feed(x, m, Quoted(local, LOCAL_SPECIALS));
            Calm(n) && n.run.None? && Shut(x, n) == Machine(NEW_SCANNER, StepText(m.p, RawLocal(local)))
  {
    hide Feed, StepText, HasMark, Escape, StepToken, Unescape, IsAtom, Readable;
    var local := LocalPart(email);
    var raw := RawLocal(local);
    if IsCanonical(local) {
      assert Quoted(local, LOCAL_SPECIALS) == local;
      assert email == "\"" + Escape(raw) + ("\"" + email[|local|..]);
      HasMarkPart("\"", Escape(raw), "\"" + email[|local|..]);
      if AllBlank(Escape(raw)) {
        EscapeBlank(raw);
      }
      FeedQuoted(x, m, raw);
    } else {
      assert email == "" + local + email[|local|..];
      HasMarkPart("", local, email[|local|..]);
      AtomNotQuoted(local);
      AtomIsToken(x, m, local);
    }
  }

  /** What the domain, and the closing bracket if there is one, do to the parse. */
  function AfterDomain(clean: Cleaner, p: Parse, dom: string, close: string): Parse {
    var q := StepAt(p);
    var r := if dom == "" then q else StepText(q, dom);
    if close == ">" then StepToken(clean, r, Delimiter('>')) else r
  }

  lemma DomainPiece(x: Reader, m: Machine, dom: string, close: string)
    requires KeepsPrintable(x.clean) && Calm(m) && IsAtom(dom) && close in ["", ">"] && !HasMark("@" + dom)
    ensures var n := Feed(x, m, "@" + dom + close);
            Calm(n) && n.run.None? && Shut(x, n) == Machine(NEW_SCANNER, AfterDomain(x.clean, Done(x, m).p, dom, close))
  {
    hide Feed, StepText, StepAt, IsAtom, HasMark, Readable;
    MarkParts("@", dom);
    PlainReadable(x, m, "@" + dom);
    FeedDelimiter(x, m, '@');
    FeedAppend(x, m, "@", dom);
    CloseJoins("@" + dom, close);
    FeedAppend(x, m, "@" + dom, close);
    var n := Feed(x, m, "@");
    var r := Feed(x, n, dom);
    if dom == "" {
      FeedNothing(x, n);
      ShutIdle(x, n);
    } else {
      AtomIsToken(x, n, dom);
    }
    assert Calm(r) && r.run.None? && Shut(x, r).p == if dom == "" then n.p else StepText(n.p, dom);
    DoneIsShut(x, r);
    if close == "" {
      FeedNothing(x, r);
    } else {
      FeedDelimiter(x, r, '>');
      ShutIdle(x, Feed(x, r, ">"));
    }
  }

  lemma CloseJoins(a: string, close: string)
    requires close in ["", ">"]
    ensures Joins(a, close)
  {
  }

  // A whole mailbox

  /** The parse after a name, the opening bracket and the local part. */
  lemma {:induction false} AngleRead(clean: Cleaner, p: Parse, m: Mailbox, raw: string, dom: string)
    requires IsClear(p) && m.name != "" && DisplayName(m.name, "") == m.name && Requoted(raw + "@" + dom) == m.email
    requires m.email != ""
    ensures var q := StepLess(Named(p, m.name));
            var r := if raw == "" then q else StepText(q, raw);
            Finished(AfterDomain(clean, r, dom, ">"), p.results, p.addrlist + [m], p.groupName)
  {
    hide Requoted, DisplayName;
    assert "" + raw == raw && raw + "@" + "" == raw + "@";
    var q := StepLess(Named(p, m.name));
    var r := if raw == "" then q else StepText(q, raw);
    assert r == q.(address := raw, needsSpace := r.needsSpace);
    var s := AfterDomain(clean, r, dom, ">");
    assert s.address == raw + "@" + dom && s.name == m.name && s.lastComment == "";
  }

  lemma PlainRead(clean: Cleaner, p: Parse, email: string, raw: string, dom: string)
    requires IsClear(p) && Requoted(raw + "@" + dom) == email && email != ""
    ensures var r := if raw == "" then p else StepText(p, raw);
            Finished(AfterDomain(clean, r, dom, ""), p.results, p.addrlist + [Mailbox("", email)], p.groupName)
  {
    hide Requoted, DisplayName;
    NameKept("");
    assert "" + raw == raw && raw + "@" + "" == raw + "@";
    var r := if raw == "" then p else StepText(p, raw);
    assert r == p.(name := raw, localPart := raw, needsSpace := r.needsSpace);
    var s := AfterDomain(clean, r, dom, "");
    assert s.address == raw + "@" + dom && s.name == "" && s.lastComment == "";
  }

  lemma {:induction false} NameRead(p: Parse, name: string)
    requires IsClear(p) && name != "" && DisplayName(name, "") == name
    ensures Finished(Named(p, name), p.results, p.addrlist + [Mailbox(name, "")], p.groupName)
  {
    hide Requoted, DisplayName;
    NothingDisplayed();
  }

  lemma ClearIsFinished(p: Parse)
    requires IsClear(p)
    ensures Finished(p, p.results, p.addrlist, p.groupName)
  {
    hide Requoted, DisplayName;
    NameKept("");
    NothingDisplayed();
  }

  lemma CommaEnds(clean: Cleaner, p: Parse, results: seq<Entry>, addrlist: seq<Mailbox>, groupName: string)
    requires Finished(p, results, addrlist, groupName)
    ensures StepToken(clean, p, Delimiter(',')) == Clear(results, addrlist, groupName)
  {
    hide AddToAddrList;
  }

  lemma LessBegins(clean: Cleaner, p: Parse, name: string)
    requires IsClear(p)
    ensures StepToken(clean, Named(p, name), Delimiter('<')) == StepLess(Named(p, name))
  {
  }

  lemma ColonBegins(clean: Cleaner, p: Parse, name: string)
    requires IsClear(p)
    ensures StepToken(clean, Named(p, name), Delimiter(':')) == Clear(p.results + Singles(p.addrlist), [], name)
  {
    hide Singles;
  }

  lemma SemicolonEnds(clean: Cleaner, p: Parse, results: seq<Entry>, addrlist: seq<Mailbox>, groupName: string)
    requires Finished(p, results, addrlist, groupName) && groupName != ""
    ensures StepToken(clean, p, Delimiter(';')) == Clear(results + [Group(groupName, addrlist)], [], "")
  {
    hide AddToAddrList, Singles;
  }
}
