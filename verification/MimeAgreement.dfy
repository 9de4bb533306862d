/** The streaming parser delivers the events of the whole text, however the text is cut into packets. For each state
    there is what the parser still owes when a given text is to follow (Rest), read off that text by the definitions of
    MimeTree, and what must be true of the state and of that text for it to keep its word (Ready). Dispatching a packet
    delivers the first of what is owed and leaves the rest owed; so it does at every level of nesting, for a packet
    with a delimiter line and for one without, and at the end of the input nothing is owed any more. */
module MimeAgreement {
  import opened Results
  import opened MimeClean
  import opened MimeText
  import opened MimeTree
  import opened MimeStream

  /** The events still to come from a parser that will be given the text t and then the end of input. */
  function Rest(cls: Classifier, p: Parser, t: string, num: PartNum): seq<Atom>
    decreases p
  {
    match p
    case InHeaders(digest, data) => Tree(cls, data + t, num, digest)
    case InBody => Octets(num, t) + [End(num)]
    case Ignoring => [End(num)]
    case Embedded(sub) => Rest(cls, sub, t, num + [MessageBody]) + [End(num)]
    case Prologue(boundary, digest) =>
      Trees(cls, Sections(t, boundary), num, 1, digest, |t|) + [End(num)]
    case InSection(boundary, digest, saved, k, sub) =>
      Rest(cls, sub, Owed(saved, t, boundary), num + [Child(k)]) + Later(cls, t, boundary, num, k, digest)
  }

  /** The content of the open part that follows what has already been passed on, when the text goes on
      with t: up to the next delimiter line, or to the end. */
  function Owed(saved: string, t: string, boundary: string): string {
    match NextMark(t, boundary)
    case None => KeepTerminated(saved + t)
    case Some(m) => DropEol(saved + t[..m.dashes])
  }

  /** The events after the open part. */
  function Later(cls: Classifier, t: string, boundary: string, num: PartNum, k: nat, digest: bool): seq<Atom> {
    match NextMark(t, boundary)
    case None => [End(num)]
    case Some(m) => Following(cls, m, t, boundary, num, k + 1, digest)
  }

  /** The events after a delimiter line. */
  function Following(cls: Classifier, m: Mark, t: string, boundary: string, num: PartNum, k: nat,
                     digest: bool): seq<Atom>
    requires m.end <= |t|
  {
    if m.closing then [End(num)]
    else Trees(cls, SectionsFrom(t[m.end..], boundary), num, k, digest, |t|) + [End(num)]
  }

  /** The withheld text is passed on whole at the end, less an unterminated last line. */
  ghost predicate MayEnd(saved: string) {
    IsLine(saved) || (saved != "" && saved[|saved| - 1] == LF)
  }

  /** What is withheld of a part that goes on with t. */
  ghost predicate Holds(saved: string, t: string, boundary: string, nested: bool) {
    && Cut(saved, t) && (nested ==> IsLine(saved)) && (t == "" ==> MayEnd(saved))
    && match NextMark(t, boundary)
       case None => CleanPart(saved + t, false, nested)
       case Some(m) => CleanPart(saved + t[..m.dashes], true, nested)
  }

  /** The parts after the open one are clean. */
  ghost predicate LaterClean(cls: Classifier, t: string, boundary: string, digest: bool, nested: bool) {
    match NextMark(t, boundary)
    case None => true
    case Some(m) => m.closing || CleanParts(cls, t[m.end..], boundary, digest, nested)
  }

  /** The parser is at a line start of a text that goes on with t; nested, it reads a part of a multipart. */
  ghost predicate Ready(cls: Classifier, p: Parser, t: string, nested: bool) {
    match p
    case InHeaders(digest, data) => HeaderEnd(data).None? && Cut(data, t) && Clean(cls, data + t, digest, nested)
    case InSection(boundary, digest, saved, _, sub) =>
      && Holds(saved, t, boundary, nested) && Ready(cls, sub, Owed(saved, t, boundary), true)
      && LaterClean(cls, t, boundary, digest, nested)
    case Embedded(sub) => Ready(cls, sub, t, nested)
    case Prologue(boundary, digest) => CleanBody(cls, Multipart(Some(boundary), digest), t, nested)
    case _ => true
  }

  /** Only a part of a multipart is ever given an empty text. */
  predicate Given(p: Parser, x: string, nested: bool) {
    x == "" && p.InSection? ==> nested
  }

  /** What one dispatch must achieve: its events are the first of those the parser owed. */
  ghost predicate Progress(cls: Classifier, p: Parser, num: PartNum, x: string, r: string, s: Step, nested: bool) {
    && Ready(cls, s.p, r, nested)
    && Rest(cls, p, x + r, num) == Atoms(s.events) + Rest(cls, s.p, r, num)
  }

  // Starting a body

  lemma StartBodyRest(cls: Classifier, kind: Kind, body: string, num: PartNum, nested: bool)
    requires CleanBody(cls, kind, body, nested)
    ensures Ready(cls, StartBody(kind), body, nested) && !StartBody(kind).InSection?
    ensures Rest(cls, StartBody(kind), body, num) == BodyTree(cls, kind, body, num) + [End(num)]
  {
    assert "" + body == body;
    assert HeaderEnd("").None?;
  }

  /** The header block of a text is complete. */
  lemma {:induction false} HeadersRest(cls: Classifier, digest: bool, data: string, r: string, num: PartNum,
                                       nested: bool)
    requires Cut(data, r) && Clean(cls, data + r, digest, nested) && HeaderEnd(data).Some?
    ensures var (i, n) := HeaderEnd(data).value;
            var body := data[i + n..] + r;
            && CleanBody(cls, cls(data[..i], digest), body, nested)
            && Cut(data[i + n..], r)
            && Tree(cls, data + r, num, digest)
            == [Start(num, data[..i])] + (BodyTree(cls, cls(data[..i], digest), body, num) + [End(num)])
  {
    hide HeaderEnd, BodyTree, CleanBody;
    var (i, n) := HeaderEnd(data).value;
    HeaderEndStable(data, r);
    var t := data + r;
    assert t[..i] == data[..i];
    assert t[i + n..] == data[i + n..] + r;
    var b := BodyTree(cls, cls(data[..i], digest), data[i + n..] + r, num);
    assert [Start(num, data[..i])] + b + [End(num)] == [Start(num, data[..i])] + (b + [End(num)]);
  }

  // The main induction

  lemma {:induction false} DispatchProgress(cls: Classifier, p: Parser, num: PartNum, x: string, r: string,
                                            nested: bool)
    requires Ready(cls, p, x + r, nested) && Cut(x, r) && Given(p, x, nested)
    ensures Progress(cls, p, num, x, r, Dispatch(cls, p, num, x, true), nested)
    decreases Weight(p) + 2 * |x|, p, 4
  {
    hide Tree, DispatchBody, BodyTree, Rest, HeaderEnd, Clean, CleanBody, CleanParts;
    if p.InHeaders? {
      var data := p.data + x;
      assert p.data + (x + r) == data + r;
      HeaderCut(p.data, x, r);
      if HeaderEnd(data).Some? {
        var (i, n) := HeaderEnd(data).value;
        HeadersRest(cls, p.digest, data, r, num, nested);
        var kind := cls(data[..i], p.digest);
        StartBodyRest(cls, kind, data[i + n..] + r, num, nested);
        BodyProgress(cls, StartBody(kind), num, data[i + n..], r, nested);
      }
      HeadersProgress(cls, p, num, x, r, nested);
    } else {
      BodyProgress(cls, p, num, x, r, nested);
    }
  }

  /** Header text accumulates until its end is seen. */
  lemma HeadersProgress(cls: Classifier, p: Parser, num: PartNum, x: string, r: string, nested: bool)
    requires p.InHeaders? && Cut(p.data + x, r) && Clean(cls, (p.data + x) + r, p.digest, nested)
    requires match HeaderEnd(p.data + x)
             case None => true
             case Some((i, n)) =>
               var data := p.data + x;
               var q := StartBody(cls(data[..i], p.digest));
               && Tree(cls, data + r, num, p.digest) == [Start(num, data[..i])] + Rest(cls, q, data[i + n..] + r, num)
               && Progress(cls, q, num, data[i + n..], r, DispatchBody(cls, q, num, data[i + n..], true), nested)
    ensures Progress(cls, p, num, x, r, Dispatch(cls, p, num, x, true), nested)
  {
    hide Tree, DispatchBody, Ready, HeaderEnd, Clean, Cut;
    var data := p.data + x;
    assert p.data + (x + r) == data + r;
    assert Rest(cls, p, x + r, num) == Tree(cls, data + r, num, p.digest);
    match HeaderEnd(data)
    case None =>
      ReadyHeaders(cls, p.digest, data, r, nested);
      NothingBefore(Tree(cls, data + r, num, p.digest));
    case Some((i, n)) =>
      var s := DispatchBody(cls, StartBody(cls(data[..i], p.digest)), num, data[i + n..], true);
      HeadersDone(num, data[..i], s.events, Rest(cls, s.p, r, num));
  }

  lemma NothingBefore(a: seq<Atom>)
    ensures Atoms([]) + a == [] + a == a
  {
  }

  lemma ReadyHeaders(cls: Classifier, digest: bool, data: string, r: string, nested: bool)
    requires HeaderEnd(data).None? && Cut(data, r) && Clean(cls, data + r, digest, nested)
    ensures Ready(cls, InHeaders(digest, data), r, nested)
  {
  }

  lemma HeadersDone(num: PartNum, headers: string, events: seq<Event>, rest: seq<Atom>)
    ensures Atoms([StartPart(num, headers)] + events) + rest == [Start(num, headers)] + (Atoms(events) + rest)
  {
    var all := [StartPart(num, headers)] + events;
    assert all[1..] == events;
    assert Atoms(all) == [Start(num, headers)] + Atoms(events);
  }

  lemma HeaderCut(data: string, x: string, r: string)
    requires Cut(data, x + r) && Cut(x, r)
    ensures Cut(data + x, r)
  {
    if x == "" {
      assert data + x == data && x + r == r;
    } else if r != "" {
      assert (data + x)[|data + x| - 1] == x[|x| - 1];
    }
  }

  lemma {:induction false} BodyProgress(cls: Classifier, p: Parser, num: PartNum, x: string, r: string, nested: bool)
    requires !p.InHeaders? && Ready(cls, p, x + r, nested) && Cut(x, r) && Given(p, x, nested)
    ensures Progress(cls, p, num, x, r, DispatchBody(cls, p, num, x, true), nested)
    decreases Weight(p) + 2 * |x|, p, 3
  {
    hide Ready, Rest, FindSplit;
    if (p.Prologue? || p.InSection?) && FindSplit(x, p.boundary).Some? {
      SplitProgress(cls, p, num, x, r, nested);
    } else {
      RouteProgress(cls, p, num, x, r, nested);
    }
  }

  /** A packet without a delimiter line. */
  lemma {:induction false} RouteProgress(cls: Classifier, p: Parser, num: PartNum, x: string, r: string, nested: bool)
    requires !p.InHeaders? && Ready(cls, p, x + r, nested) && Cut(x, r) && Given(p, x, nested)
    requires p.Prologue? || p.InSection? ==> FindSplit(x, p.boundary).None?
    ensures Progress(cls, p, num, x, r, Route(cls, p, num, x), nested)
    decreases Weight(p) + 2 * |x|, p, 2
  {
    match p
    case InBody => RouteToEmitter(cls, num, x, r, nested);
    case Ignoring =>
    case Prologue(boundary, digest) => PrologueProgress(cls, p, num, x, r, nested);
    case Embedded(sub) => EmbeddedProgress(cls, p, num, x, r, nested);
    case InSection(_, _, _, _, _) => SectionProgress(cls, p, num, x, r, nested);
  }

  lemma PrologueProgress(cls: Classifier, p: Parser, num: PartNum, x: string, r: string, nested: bool)
    requires p.Prologue? && Ready(cls, p, x + r, nested) && Cut(x, r) && FindSplit(x, p.boundary).None?
    ensures Progress(cls, p, num, x, r, Route(cls, p, num, x), nested)
  {
    hide NextMark, FindSplit, SectionsFrom, CleanParts, Trees;
    PrologueSkips(x, r, p.boundary);
    TreesBound(cls, Sections(r, p.boundary), num, 1, p.digest, |x + r|, |r|);
    SplitIsNextMark(x, p.boundary);
    NextMarkAppend(x, r, p.boundary);
    var m := NextMark(r, p.boundary);
    if m.Some? {
      assert (x + r)[|x| + m.value.end..] == r[m.value.end..];
    }
    NothingBefore(Rest(cls, p, r, num));
  }

  lemma RouteToEmitter(cls: Classifier, num: PartNum, x: string, r: string, nested: bool)
    ensures Progress(cls, InBody, num, x, r, Route(cls, InBody, num, x), nested)
  {
    OctetsAppend(num, x, r);
    var events := [PartData(num, x)];
    assert events[1..] == [];
    assert Atoms(events) == Octets(num, x);
    Regroup(Octets(num, x), Octets(num, r), [End(num)]);
  }

  lemma {:induction false} EmbeddedProgress(cls: Classifier, p: Parser, num: PartNum, x: string, r: string,
                                            nested: bool)
    requires p.Embedded? && Ready(cls, p, x + r, nested) && Cut(x, r)
    ensures Progress(cls, p, num, x, r, Route(cls, p, num, x), nested)
    decreases Weight(p) + 2 * |x|, p, 0
  {
    var n := num + [MessageBody];
    if x != "" {
      DispatchProgress(cls, p.sub, n, x, r, nested);
      var d := Dispatch(cls, p.sub, n, x, true);
      Regroup(Atoms(d.events), Rest(cls, d.p, r, n), [End(num)]);
    } else {
      assert x + r == r;
    }
  }

  lemma {:induction false} PrologueSkips(x: string, r: string, boundary: string)
    requires Cut(x, r) && FindSplit(x, boundary).None?
    ensures Sections(x + r, boundary) == Sections(r, boundary)
  {
    hide NextMark, FindSplit, SectionsFrom;
    SplitIsNextMark(x, boundary);
    NextMarkAppend(x, r, boundary);
    var m := NextMark(r, boundary);
    if m.Some? {
      assert (x + r)[|x| + m.value.end..] == r[m.value.end..];
    }
  }

  /** Text is passed on up to a line boundary. */
  lemma WithholdCuts(t: string)
    ensures var (passed, held) := WithholdLastLine(t); Cut(passed, held) && (held == "" ==> t == "")
  {
    var p := TerminatorStart(t);
    var u := t[..p];
    var (a, rest) := ConditionToEndOnCRLF(u);
    var held := WithholdLastLine(t).1;
    assert held == rest + t[p..];
    if u == "\r" {
      assert t[0] == u[0] == CR && p == 1;
      assert t[p..] != "" && t[p..][0] == t[1];
      ConditionOfCR();
    } else {
      ConditionEnds(u);
      hide ConditionToEndOnCRLF, WithholdLastLine;
      if rest != "" {
        assert held[0] == rest[0] == u[|a|];
      } else {
        assert a + rest == a == u;
      }
    }
  }

  /** What is passed on and what is withheld, given the text still to come. */
  lemma WithholdFacts(saved: string, x: string, rest: string)
    requires Cut(saved, x + rest) && Cut(x, rest)
    ensures var (passed, held) := WithholdLastLine(saved + x);
            && passed + held == saved + x
            && Cut(held, rest)
            && Cut(passed, held + rest)
            && (held == "" ==> passed == "" && saved == "" && x == "")
  {
    hide WithholdLastLine;
    var t := saved + x;
    WithholdCuts(t);
    var (passed, held) := WithholdLastLine(t);
    HeaderCut(saved, x, rest);
    if held != "" {
      assert held[|held| - 1] == t[|t| - 1];
      assert (held + rest)[0] == held[0];
    }
  }

  lemma WithheldIsLine(t: string)
    requires !EndsInTwoCRs(t)
    ensures IsLine(WithholdLastLine(t).1)
  {
    WithholdIsLastLine(t);
    LastLineIsLine(t);
  }

  /** What is withheld in the end. */
  lemma WithheldMayEnd(t: string)
    requires !EndsInCRs(t)
    ensures MayEnd(WithholdLastLine(t).1)
  {
    hide WithholdLastLine, IsLine;
    var held := WithholdLastLine(t).1;
    assert t == WithholdLastLine(t).0 + held;
    if EndsInTwoCRs(t) {
      WithholdCuts(t);
      assert held[|held| - 1] == t[|t| - 1];
    } else {
      WithheldIsLine(t);
    }
  }

  lemma WithheldLineStays(saved: string)
    requires IsLine(saved) && NoDoubleCR(saved)
    ensures WithholdLastLine(saved) == ("", saved)
  {
    WithholdIsLastLine(saved);
    LastLineStartUnique(saved, 0);
  }

  /** The withheld text stays as it must be. */
  lemma HoldsAfter(saved: string, x: string, r: string, boundary: string, nested: bool)
    requires Holds(saved, x + r, boundary, nested) && Cut(x, r) && NextMark(x, boundary).None?
    ensures Holds(WithholdLastLine(saved + x).1, r, boundary, nested)
  {
    hide NextMark, WithholdLastLine, IsLine, MayEnd, EndsInCRs, EndsInTwoCRs, NoDoubleCR;
    var (passed, held) := WithholdLastLine(saved + x);
    WithholdFacts(saved, x, r);
    NextMarkAppend(x, r, boundary);
    var m := NextMark(r, boundary);
    var rest := if m.Some? then r[..m.value.dashes] else r;
    assert m.Some? ==> (x + r)[..|x| + m.value.dashes] == x + rest;
    assert saved + (x + rest) == (saved + x) + rest == passed + (held + rest);
    CleanPartSuffix(passed, held + rest, m.Some?, nested);
    if nested {
      NoDoubleCRPart(saved + x, rest);
      NoDoubleCREnd(saved + x);
      WithheldIsLine(saved + x);
    }
    if r == "" {
      assert NextMark(r, boundary).None? by {
        NoMark(boundary);
      }
      assert saved + (x + rest) == saved + x;
      WithheldMayEnd(saved + x);
    }
  }

  lemma NoMark(boundary: string)
    ensures NextMark("", boundary).None?
  {
    assert MarkAt("", 0, boundary).None?;
  }

  /** Passing text on early leaves the rest of the part's content owed. */
  lemma OwedContent(saved: string, x: string, rest: string, passed: string, held: string)
    requires passed + held == saved + x && Cut(passed, held + rest) && (held == "" ==> passed == "")
    ensures DropEol(saved + (x + rest)) == passed + DropEol(held + rest)
    ensures KeepTerminated(saved + (x + rest)) == passed + KeepTerminated(held + rest)
  {
    assert saved + (x + rest) == (saved + x) + rest;
    assert passed + (held + rest) == (passed + held) + rest;
    DropEolAppend(passed, held + rest);
    KeepTerminatedAppend(passed, held + rest);
  }

  lemma Regroup(a: seq<Atom>, b: seq<Atom>, c: seq<Atom>)
    ensures (a + b) + c == a + (b + c)
  {
  }

  lemma FollowingShift(cls: Classifier, m: Mark, x: string, r: string, boundary: string, num: PartNum, k: nat,
                       digest: bool)
    requires m.end <= |r|
    ensures Following(cls, Mark(m.dashes + |x|, m.end + |x|, m.closing), x + r, boundary, num, k, digest)
         == Following(cls, m, r, boundary, num, k, digest)
  {
    hide SectionsFrom, Trees;
    var n := |x + r|;
    assert (x + r)[m.end + |x|..] == r[m.end..];
    if !m.closing {
      var parts := SectionsFrom(r[m.end..], boundary);
      TreesBound(cls, parts, num, k, digest, n, |r|) by {
        BoundedMonotone(parts, |r[m.end..]|, n);
        BoundedMonotone(parts, |r[m.end..]|, |r|);
      }
    }
  }

  lemma BoundedMonotone(parts: seq<string>, m: nat, n: nat)
    requires Bounded(parts, m) && m <= n
    ensures Bounded(parts, n)
  {
  }

  /** Text without a delimiter line only adds to the open part. */
  lemma {:induction false} OwedAfter(saved: string, x: string, r: string, boundary: string)
    requires Cut(saved, x + r) && Cut(x, r) && NextMark(x, boundary).None?
    ensures var (passed, held) := WithholdLastLine(saved + x);
            && Owed(saved, x + r, boundary) == passed + Owed(held, r, boundary)
            && Cut(passed, Owed(held, r, boundary))
  {
    hide NextMark, WithholdLastLine, KeepTerminated, DropEol;
    var (passed, held) := WithholdLastLine(saved + x);
    assert saved + x + r == saved + (x + r);
    WithholdFacts(saved, x, r);
    NextMarkAppend(x, r, boundary);
    var m := NextMark(r, boundary);
    var rest := if m.Some? then r[..m.value.dashes] else r;
    assert m.Some? ==> (x + r)[..|x| + m.value.dashes] == x + rest;
    assert held + r == (held + rest) + r[|rest|..];
    CutPrefix(passed, held + rest, r[|rest|..]);
    OwedContent(saved, x, rest, passed, held);
    OwedIsPrefix(held, r, boundary);
    assert held + r == Owed(held, r, boundary) + (held + r)[|Owed(held, r, boundary)|..];
    CutPrefix(passed, Owed(held, r, boundary), (held + r)[|Owed(held, r, boundary)|..]);
  }

  lemma OwedIsPrefix(held: string, r: string, boundary: string)
    ensures Owed(held, r, boundary) <= held + r
  {
    hide NextMark, KeepTerminated, DropEol;
    var m := NextMark(r, boundary);
    var rest := if m.Some? then r[..m.value.dashes] else r;
    KeepTerminatedPrefix(held + rest);
    DropEolPrefix(held + rest);
    PrefixTwice(Owed(held, r, boundary), held + rest, held + r);
  }

  lemma PrefixTwice(a: string, b: string, c: string)
    requires a <= b && b <= c
    ensures a <= c
  {
  }

  lemma LaterAfter(cls: Classifier, x: string, r: string, boundary: string, num: PartNum, k: nat, digest: bool)
    requires Cut(x, r) && NextMark(x, boundary).None?
    ensures Later(cls, x + r, boundary, num, k, digest) == Later(cls, r, boundary, num, k, digest)
    ensures forall nested :: LaterClean(cls, x + r, boundary, digest, nested) ==>
              LaterClean(cls, r, boundary, digest, nested)
  {
    hide NextMark, Following;
    NextMarkAppend(x, r, boundary);
    var m := NextMark(r, boundary);
    if m.Some? {
      assert (x + r)[m.value.end + |x|..] == r[m.value.end..];
      FollowingShift(cls, m.value, x, r, boundary, num, k + 1, digest);
    }
  }

  lemma {:induction false} SectionProgress(cls: Classifier, p: Parser, num: PartNum, x: string, r: string, nested: bool)
    requires p.InSection? && Ready(cls, p, x + r, nested) && Cut(x, r) && FindSplit(x, p.boundary).None?
    requires Given(p, x, nested)
    ensures Progress(cls, p, num, x, r, Route(cls, p, num, x), nested)
    decreases Weight(p) + 2 * |x|, p, 0
  {
    hide NextMark, Later, LaterClean, Owed, FindSplit, WithholdLastLine, Dispatch, IsLine, CleanPart;
    var saved, sub, n := p.saved, p.sub, num + [Child(p.k)];
    var (passed, held) := WithholdLastLine(saved + x);
    SplitIsNextMark(x, p.boundary);
    HoldsAfter(saved, x, r, p.boundary, nested);
    OwedAfter(saved, x, r, p.boundary);
    LaterAfter(cls, x, r, p.boundary, num, p.k, p.digest);
    var owed := Owed(held, r, p.boundary);
    if x != "" {
      assert |passed| + |held| == |saved| + |x|;
      DispatchProgress(cls, sub, n, passed, owed, true);
    } else {
      NothingPassed(saved, r, p.boundary);
      assert saved + x == saved && passed + owed == owed;
    }
    var d := if x != "" then Dispatch(cls, sub, n, passed, true) else Step(sub, []);
    Regroup(Atoms(d.events), Rest(cls, d.p, owed, n), Later(cls, r, p.boundary, num, p.k, p.digest));
  }

  lemma NothingPassed(saved: string, r: string, boundary: string)
    requires Holds(saved, "" + r, boundary, true)
    ensures WithholdLastLine(saved) == ("", saved)
  {
    assert "" + r == r;
    var m := NextMark(r, boundary);
    NoDoubleCRPart(saved, if m.Some? then r[..m.value.dashes] else r);
    WithheldLineStays(saved);
  }

  // A packet with a delimiter line

  /** The open part of a section gets its whole content and ends. */
  lemma {:induction false} CloseSection(cls: Classifier, p: Parser, num: PartNum, x: string, r: string, nested: bool)
    requires p.InSection? && Ready(cls, p, x + r, nested) && Cut(x, r) && FindSplit(x, p.boundary).Some?
    ensures Atoms(AtSplit(cls, p, num, x).events)
         == Rest(cls, p.sub, DropEol(p.saved + x[..FindSplit(x, p.boundary).value.mark.dashes]), num + [Child(p.k)])
    decreases Weight(p) + 2 * |x|, p, 0
  {
    hide FindSplit, NextMark, Dispatch, DispatchEOF, WithholdLastLine, StateAfter, Rest, Atoms, DropEol, HandleSplit,
         LaterClean;
    var split := FindSplit(x, p.boundary).value;
    var saved, sub, n := p.saved, p.sub, num + [Child(p.k)];
    var y, d := x[..split.start], split.mark.dashes;
    SplitTakesLineEnd(x, p.boundary);
    SplitIsNextMark(x, p.boundary);
    NextMarkAppend(x, r, p.boundary);
    assert (x + r)[..d] == x[..d];
    var before := if split.start > 0 then Route(cls, p, num, y) else Step(p, []);
    var (passed, held) := if split.start > 0 then WithholdLastLine(saved + y) else ("", saved);
    var last := if d == 0 then DropEol(held) else held;
    ClosedContent(saved, x, r, split, passed, held);
    assert Owed(saved, x + r, p.boundary) == passed + last;
    assert before.p.InSection? && before.p.saved == held;
    assert Ready(cls, before.p.sub, last, true)
        && Rest(cls, sub, passed + last, n) == Atoms(before.events) + Rest(cls, before.p.sub, last, n) by {
      if split.start > 0 {
        assert |passed| + |held| == |saved| + |y|;
        DropEolPrefix(held);
        DispatchProgress(cls, sub, n, passed, last, true);
      } else {
        assert passed + last == last;
        NoAtoms();
        NothingBefore(Rest(cls, sub, last, n));
      }
    }
    ReleaseAtSplit(cls, before.p, num, split, last);
    AtomsAppend(before.events, HandleSplit(cls, before.p, num, split).events);
  }

  /** At the delimiter line, the open part gets the last of its content and ends. */
  lemma {:induction false} ReleaseAtSplit(cls: Classifier, p: Parser, num: PartNum, split: Split, last: string)
    requires p.InSection? && Ready(cls, p.sub, last, true)
    requires split.start == split.mark.dashes <==> split.mark.dashes == 0
    requires last == if split.mark.dashes == 0 then DropEol(p.saved) else p.saved
    ensures Atoms(HandleSplit(cls, p, num, split).events) == Rest(cls, p.sub, last, num + [Child(p.k)])
    decreases Weight(p), p, 0
  {
    hide Dispatch, DispatchEOF, Rest, Atoms, DropEol, Ready;
    DropEolPrefix(p.saved);
    FinishPart(cls, p.sub, num + [Child(p.k)], last, true);
  }

  /** What is passed on before the delimiter line and what is released at it make up the part's content. */
  lemma ClosedContent(saved: string, x: string, r: string, split: Split, passed: string, held: string)
    requires Cut(saved, x + r) && split.mark.dashes <= |x| && split.start <= |x|
    requires split.start == split.mark.dashes <==> split.mark.dashes == 0
    requires DropEol(x[..split.mark.dashes]) == x[..split.start]
    requires (passed, held) == if split.start > 0 then WithholdLastLine(saved + x[..split.start]) else ("", saved)
    ensures var last := if split.mark.dashes == 0 then DropEol(held) else held;
            && passed + last == DropEol(saved + x[..split.mark.dashes])
            && Cut(passed, last)
  {
    hide DropEol, WithholdLastLine;
    var y, d := x[..split.start], split.mark.dashes;
    if d == 0 {
      assert saved + x[..0] == saved;
      DropEolPrefix(saved);
      assert "" + DropEol(saved) == DropEol(saved);
    } else {
      assert x + r == x[..d] + (x[d..] + r);
      CutPrefix(saved, x[..d], x[d..] + r);
      DropEolAppend(saved, x[..d]);
      if split.start > 0 {
        WithholdCuts(saved + y);
      } else {
        assert saved + y == saved == "" + saved;
      }
    }
  }

  /** The last of a part's content, and its end. */
  lemma {:induction false} FinishPart(cls: Classifier, sub: Parser, n: PartNum, last: string, nested: bool)
    requires Ready(cls, sub, last, nested)
    ensures var s := if last != "" then Dispatch(cls, sub, n, last, true) else Step(sub, []);
            Atoms(s.events + DispatchEOF(cls, s.p, n)) == Rest(cls, sub, last, n)
    decreases Weight(sub) + 2 * |last| + 1, sub, 0
  {
    hide Dispatch, DispatchEOF, Rest, Ready, Atoms;
    assert last + "" == last;
    var s := if last != "" then Dispatch(cls, sub, n, last, true) else Step(sub, []);
    if last != "" {
      DispatchProgress(cls, sub, n, last, "", nested);
    } else {
      NoAtoms();
      NothingBefore(Rest(cls, sub, last, n));
    }
    EofProgress(cls, s.p, n, nested);
    AtomsAppend(s.events, DispatchEOF(cls, s.p, n));
  }

  lemma {:induction false} EofProgress(cls: Classifier, p: Parser, num: PartNum, nested: bool)
    requires Ready(cls, p, "", nested)
    ensures Atoms(DispatchEOF(cls, p, num)) == Rest(cls, p, "", num)
    decreases Weight(p), p, 3
  {
    hide Clean, CleanParts, CleanPart;
    var end := [EndPart(num)];
    assert end[1..] == [] && Atoms(end) == [End(num)];
    match p
    case InHeaders(digest, data) =>
      assert data + "" == data;
      var e := [StartPart(num, data)];
      assert e[1..] == [];
      AtomsAppend(e, end);
    case InBody =>
    case Ignoring =>
    case Prologue(boundary, _) => NoMark(boundary);
    case Embedded(sub) =>
      EofProgress(cls, sub, num + [MessageBody], nested);
      AtomsAppend(DispatchEOF(cls, sub, num + [MessageBody]), end);
    case InSection(boundary, digest, saved, k, sub) =>
      NoMark(boundary);
      assert saved + "" == saved;
      ReleasedAtEnd(saved);
      assert |ConditionToEndOnCRLF(saved).0| + |ConditionToEndOnCRLF(saved).1| == |saved|;
      FinishSection(cls, p, num);
      AtomsAppend(LastEvents(cls, p, num), end);
  }

  lemma ReleasedAtEnd(saved: string)
    requires MayEnd(saved)
    ensures ConditionToEndOnCRLF(saved).0 == KeepTerminated(saved) <= saved
  {
    if IsLine(saved) {
      ConditionReleases(saved);
      LastLineStartUnique(saved, 0);
      assert saved[..0] + Released(saved[0..]) == Released(saved);
    } else {
      var l := LastLineStart(saved);
      assert saved[l..][|saved| - l - 1] == LF;
      assert saved[..l] + saved[l..] == saved;
      ConditionIs(saved, "");
      assert saved + "" == saved;
    }
  }

  lemma {:induction false} FinishSection(cls: Classifier, p: Parser, num: PartNum)
    requires p.InSection? && Ready(cls, p.sub, KeepTerminated(p.saved), true)
    requires ConditionToEndOnCRLF(p.saved).0 == KeepTerminated(p.saved) <= p.saved
    ensures Atoms(LastEvents(cls, p, num)) == Rest(cls, p.sub, KeepTerminated(p.saved), num + [Child(p.k)])
    decreases Weight(p), p, 2
  {
    hide Dispatch, DispatchEOF, Rest, Ready, Atoms;
    var kept, n := KeepTerminated(p.saved), num + [Child(p.k)];
    assert kept + "" == kept;
    var s := if p.saved != "" then Dispatch(cls, p.sub, n, kept, true) else Step(p.sub, []);
    if p.saved != "" {
      DispatchProgress(cls, p.sub, n, kept, "", true);
    } else {
      NoAtoms();
      NothingBefore(Rest(cls, p.sub, kept, n));
    }
    EofProgress(cls, s.p, n, true);
    AtomsAppend(s.events, DispatchEOF(cls, s.p, n));
  }

  lemma FirstPart(t: string, boundary: string)
    ensures var parts, m := SectionsFrom(t, boundary), NextMark(t, boundary);
            && parts != [] && parts[0] == "" + Owed("", t, boundary)
            && parts[1..] == (if m.Some? && !m.value.closing then SectionsFrom(t[m.value.end..], boundary) else [])
  {
    hide NextMark, KeepTerminated, DropEol;
    var m := NextMark(t, boundary);
    assert "" + t == t;
    assert m.Some? ==> "" + t[..m.value.dashes] == t[..m.value.dashes];
    assert "" + Owed("", t, boundary) == Owed("", t, boundary);
  }

  /** A section that has just begun owes the parts that are still to come. */
  lemma {:induction false} FreshSection(cls: Classifier, boundary: string, digest: bool, k: nat, t: string,
                                        num: PartNum)
    ensures Rest(cls, InSection(boundary, digest, "", k, InHeaders(digest, "")), t, num)
         == Trees(cls, SectionsFrom(t, boundary), num, k, digest, |t|) + [End(num)]
  {
    hide NextMark, Tree, Trees, SectionsFrom, Owed, Rest;
    var parts := SectionsFrom(t, boundary);
    FirstPart(t, boundary);
    FreshRest(cls, boundary, digest, k, t, num);
    var first := Tree(cls, parts[0], num + [Child(k)], digest);
    var m := NextMark(t, boundary);
    TreesFirst(cls, parts, num, k, digest, |t|);
    if m.Some? && !m.value.closing {
      Regroup(first, Trees(cls, parts[1..], num, k + 1, digest, |t|), [End(num)]);
    } else {
      Regroup(first, [], [End(num)]);
      NothingBefore([End(num)]);
    }
  }

  lemma FreshRest(cls: Classifier, boundary: string, digest: bool, k: nat, t: string, num: PartNum)
    ensures Rest(cls, InSection(boundary, digest, "", k, InHeaders(digest, "")), t, num)
         == Tree(cls, "" + Owed("", t, boundary), num + [Child(k)], digest) + Later(cls, t, boundary, num, k, digest)
  {
    hide Tree, Owed, Later;
  }

  lemma TreesFirst(cls: Classifier, parts: seq<string>, num: PartNum, k: nat, digest: bool, bound: nat)
    requires Bounded(parts, bound) && parts != []
    ensures Bounded(parts[1..], bound)
    ensures Trees(cls, parts, num, k, digest, bound)
         == Tree(cls, parts[0], num + [Child(k)], digest) + Trees(cls, parts[1..], num, k + 1, digest, bound)
    ensures Trees(cls, [], num, k + 1, digest, bound) == []
  {
  }

  lemma {:induction false} SplitProgress(cls: Classifier, p: Parser, num: PartNum, x: string, r: string, nested: bool)
    requires (p.Prologue? || p.InSection?) && Ready(cls, p, x + r, nested) && Cut(x, r)
    requires FindSplit(x, p.boundary).Some?
    ensures Progress(cls, p, num, x, r, DispatchBody(cls, p, num, x, true), nested)
    decreases Weight(p) + 2 * |x|, p, 2
  {
    hide FindSplit, NextMark, Following, Route, HandleSplit, Rest, Ready, CleanParts, Atoms;
    var split := FindSplit(x, p.boundary).value;
    var at := AtSplit(cls, p, num, x);
    var rest := x[split.mark.end..];
    var later := Following(cls, split.mark, x + r, p.boundary, num, NextPart(p), p.digest);
    SplitRest(cls, p, num, x, r, nested);
    CleanAfterSplit(cls, p, x, r, nested);
    AfterSplit(cls, p.boundary, p.digest, NextPart(p), split.mark, x, r, num, nested);
    if rest != "" {
      assert rest[|rest| - 1] == x[|x| - 1];
      BodyProgress(cls, at.p, num, rest, r, nested);
    } else {
      assert rest + r == r;
      NoAtoms();
      NothingBefore(later);
    }
    var after := if rest != "" then DispatchBody(cls, at.p, num, rest, true) else Step(at.p, []);
    assert DispatchBody(cls, p, num, x, true) == Step(after.p, at.events + after.events);
    assert Atoms(after.events) + Rest(cls, after.p, r, num) == later;
    AtomsAppend(at.events, after.events);
    Regroup(Atoms(at.events), Atoms(after.events), Rest(cls, after.p, r, num));
  }

  /** The number of the part after the delimiter line. */
  function NextPart(p: Parser): nat {
    if p.InSection? then p.k + 1 else 1
  }

  /** The packet up to and including its first delimiter line. */
  function AtSplit(cls: Classifier, p: Parser, num: PartNum, x: string): (s: Step)
    requires (p.Prologue? || p.InSection?) && FindSplit(x, p.boundary).Some?
    ensures s.p == StateAfter(p.boundary, p.digest, NextPart(p), FindSplit(x, p.boundary).value.mark)
  {
    hide FindSplit, Route, HandleSplit, StateAfter;
    var split := FindSplit(x, p.boundary).value;
    var before := if split.start > 0 then Route(cls, p, num, x[..split.start]) else Step(p, []);
    var at := HandleSplit(cls, before.p, num, split);
    StateAtSplit(cls, before.p, num, split);
    Step(at.p, before.events + at.events)
  }

  lemma StateAtSplit(cls: Classifier, p: Parser, num: PartNum, split: Split)
    requires p.Prologue? || p.InSection?
    ensures HandleSplit(cls, p, num, split).p == StateAfter(p.boundary, p.digest, NextPart(p), split.mark)
  {
    hide Dispatch, DispatchEOF, DropEol;
  }

  /** Its events are those of the part it ends. */
  lemma {:induction false} SplitRest(cls: Classifier, p: Parser, num: PartNum, x: string, r: string, nested: bool)
    requires (p.Prologue? || p.InSection?) && Ready(cls, p, x + r, nested) && Cut(x, r)
    requires FindSplit(x, p.boundary).Some?
    ensures Rest(cls, p, x + r, num)
         == Atoms(AtSplit(cls, p, num, x).events)
            + Following(cls, FindSplit(x, p.boundary).value.mark, x + r, p.boundary, num, NextPart(p), p.digest)
    decreases Weight(p) + 2 * |x|, p, 1
  {
    hide FindSplit, NextMark, Dispatch, DispatchEOF, Following, Trees, Sections, Ready, Route, HandleSplit;
    var m := FindSplit(x, p.boundary).value.mark;
    SplitIsNextMark(x, p.boundary);
    NextMarkAppend(x, r, p.boundary);
    if p.InSection? {
      CloseSection(cls, p, num, x, r, nested);
      assert (x + r)[..m.dashes] == x[..m.dashes];
    } else {
      PrologueRest(cls, p, x + r, num);
      var later := Following(cls, m, x + r, p.boundary, num, 1, p.digest);
      PrologueSplit(cls, p, num, x);
      assert [] + later == later;
    }
  }

  lemma PrologueSplit(cls: Classifier, p: Parser, num: PartNum, x: string)
    requires p.Prologue? && FindSplit(x, p.boundary).Some?
    ensures AtSplit(cls, p, num, x).events == []
  {
    hide FindSplit;
  }

  lemma PrologueRest(cls: Classifier, p: Parser, t: string, num: PartNum)
    requires p.Prologue? && NextMark(t, p.boundary).Some?
    ensures Rest(cls, p, t, num) == Following(cls, NextMark(t, p.boundary).value, t, p.boundary, num, 1, p.digest)
  {
    hide NextMark, SectionsFrom, Trees;
    var m := NextMark(t, p.boundary).value;
    if m.closing {
      assert Trees(cls, [], num, 1, p.digest, |t|) == [] by { TreesNone(cls, num, 1, p.digest, |t|); }
      assert [] + [End(num)] == [End(num)];
    }
  }

  lemma TreesNone(cls: Classifier, num: PartNum, k: nat, digest: bool, bound: nat)
    ensures Trees(cls, [], num, k, digest, bound) == []
  {
  }

  /** The state a split leaves behind. */
  function StateAfter(boundary: string, digest: bool, k: nat, m: Mark): Parser {
    if m.closing then Ignoring else InSection(boundary, digest, "", k, InHeaders(digest, ""))
  }

  lemma CleanAfterSplit(cls: Classifier, p: Parser, x: string, r: string, nested: bool)
    requires (p.Prologue? || p.InSection?) && Ready(cls, p, x + r, nested) && Cut(x, r)
    requires FindSplit(x, p.boundary).Some?
    ensures var m := FindSplit(x, p.boundary).value.mark;
            m.closing || CleanParts(cls, x[m.end..] + r, p.boundary, p.digest, nested)
  {
    hide FindSplit, NextMark, CleanParts, Holds, Owed;
    var m := FindSplit(x, p.boundary).value.mark;
    SplitIsNextMark(x, p.boundary);
    NextMarkAppend(x, r, p.boundary);
    assert (x + r)[m.end..] == x[m.end..] + r;
  }

  /** It owes exactly the parts after the delimiter line. */
  lemma AfterSplit(cls: Classifier, boundary: string, digest: bool, k: nat, m: Mark, x: string, r: string, num: PartNum,
                   nested: bool)
    requires m.end <= |x| && (m.closing || CleanParts(cls, x[m.end..] + r, boundary, digest, nested))
    ensures Ready(cls, StateAfter(boundary, digest, k, m), x[m.end..] + r, nested)
    ensures Rest(cls, StateAfter(boundary, digest, k, m), x[m.end..] + r, num)
         == Following(cls, m, x + r, boundary, num, k, digest)
  {
    hide Ready, Rest;
    var t := x[m.end..] + r;
    assert (x + r)[m.end..] == t;
    if !m.closing {
      FreshSection(cls, boundary, digest, k, t, num);
      TreesBound(cls, SectionsFrom(t, boundary), num, k, digest, |t|, |x + r|);
      FreshReady(cls, boundary, digest, k, t, nested);
    } else {
      assert Ready(cls, Ignoring, t, nested) && Rest(cls, Ignoring, t, num) == [End(num)] by {
        NothingOwed(cls, t, num, nested);
      }
    }
  }

  lemma NothingOwed(cls: Classifier, t: string, num: PartNum, nested: bool)
    ensures Ready(cls, Ignoring, t, nested) && Rest(cls, Ignoring, t, num) == [End(num)]
  {
  }

  /** A section that has just begun. */
  lemma FreshReady(cls: Classifier, boundary: string, digest: bool, k: nat, t: string, nested: bool)
    requires CleanParts(cls, t, boundary, digest, nested)
    ensures Ready(cls, InSection(boundary, digest, "", k, InHeaders(digest, "")), t, nested)
  {
    hide NextMark, Clean, CleanPart, KeepTerminated, DropEol, HeaderEnd;
    assert "" + t == t;
    assert HeaderEnd("").None? by {
      NoHeaderEnd();
    }
    var m := NextMark(t, boundary);
    assert m.Some? ==> "" + t[..m.value.dashes] == t[..m.value.dashes];
    assert "" + Owed("", t, boundary) == Owed("", t, boundary);
    var first := InHeaders(digest, "");
    assert Clean(cls, "" + Owed("", t, boundary), digest, true);
    assert Ready(cls, first, Owed("", t, boundary), true);
  }

  lemma NoHeaderEnd()
    ensures HeaderEnd("").None?
  {
  }

  // Whole messages

  /** No buffer makes the text on hand a lone CR whose LF is still to come. */
  ghost predicate KeepsCRLF(hold: string, buffers: seq<string>)
    decreases |buffers|
  {
    buffers == [] ||
    (var text, later := hold + buffers[0], Flatten(buffers[1..]);
     && !(text == "\r" && later != "" && later[0] == LF)
     && KeepsCRLF(ConditionToEndOnCRLF(text).1, buffers[1..]))
  }

  /** What is still owed to the consumer in the middle of a message. */
  function Outstanding(cls: Classifier, s: Session, t: string): seq<Atom> {
    (if s.started then [] else [Begin]) + (Rest(cls, s.p, s.hold + t, []) + [Finish])
  }

  lemma DeliverProgress(cls: Classifier, s: Session, buffer: string, r: string)
    requires Ready(cls, s.p, s.hold + (buffer + r), false)
    requires !(s.hold + buffer == "\r" && r != "" && r[0] == LF)
    ensures var (t, events) := DeliverData(cls, s, buffer);
            && Ready(cls, t.p, t.hold + r, false)
            && Outstanding(cls, s, buffer + r) == Atoms(events) + Outstanding(cls, t, r)
  {
    hide Rest, Ready, Dispatch, Atoms, ConditionToEndOnCRLF, Cut;
    var text := s.hold + buffer;
    var (packet, hold) := ConditionToEndOnCRLF(text);
    ConditionCuts(text, r);
    assert s.hold + (buffer + r) == text + r == packet + (hold + r);
    var (t, events) := DeliverData(cls, s, buffer);
    if packet == "" {
      assert packet + (hold + r) == hold + r;
      assert Atoms([]) == [] by { NoAtoms(); }
      assert [] + Outstanding(cls, t, r) == Outstanding(cls, t, r);
    } else {
      DispatchProgress(cls, s.p, [], packet, hold + r, false);
      var step := Dispatch(cls, s.p, [], packet, true);
      OutstandingAfter(s.started, step.events, Rest(cls, step.p, hold + r, []));
    }
  }

  lemma OutstandingAfter(started: bool, events: seq<Event>, rest: seq<Atom>)
    ensures (if started then [] else [Begin]) + ((Atoms(events) + rest) + [Finish])
         == Atoms((if started then [] else [StartMessage]) + events) + ([] + (rest + [Finish]))
  {
    var first: seq<Event> := if started then [] else [StartMessage];
    AtomsAppend(first, events);
    NoAtoms();
    hide Atoms;
    var a := if started then [] else [Begin];
    Regroup(Atoms(events), rest, [Finish]);
    Regroup(a, Atoms(events), rest + [Finish]);
    assert [] + (rest + [Finish]) == rest + [Finish];
  }

  lemma NoAtoms()
    ensures Atoms([]) == [] && Atoms([StartMessage]) == [Begin] && Atoms([EndMessage]) == [Finish]
  {
    assert [StartMessage][1..] == [] && [EndMessage][1..] == [];
  }

  lemma EofOutstanding(cls: Classifier, s: Session)
    requires Ready(cls, s.p, s.hold + "", false)
    ensures Atoms(DeliverEOF(cls, s)) == Outstanding(cls, s, "")
  {
    hide Rest, Dispatch, DispatchEOF, Atoms;
    assert s.hold + "" == s.hold;
    FinishPart(cls, s.p, [], s.hold, false);
    var step := if s.hold != "" then Dispatch(cls, s.p, [], s.hold, true) else Step(s.p, []);
    var first: seq<Event> := if s.started then [] else [StartMessage];
    var body := step.events + DispatchEOF(cls, step.p, []);
    assert first + step.events + DispatchEOF(cls, step.p, []) + [EndMessage] == first + (body + [EndMessage]);
    AtomsAppend(first, body + [EndMessage]);
    AtomsAppend(body, [EndMessage]);
    NoAtoms();
  }

  lemma {:induction false} RunProgress(cls: Classifier, s: Session, buffers: seq<string>)
    requires Ready(cls, s.p, s.hold + Flatten(buffers), false) && KeepsCRLF(s.hold, buffers)
    ensures Atoms(Run(cls, s, buffers)) == Outstanding(cls, s, Flatten(buffers))
    decreases |buffers|
  {
    hide Rest, Ready, Dispatch, DispatchEOF, Atoms, Outstanding;
    if buffers == [] {
      EofOutstanding(cls, s);
    } else {
      var r := Flatten(buffers[1..]);
      DeliverProgress(cls, s, buffers[0], r);
      var (t, events) := DeliverData(cls, s, buffers[0]);
      RunProgress(cls, t, buffers[1..]);
      AtomsAppend(events, Run(cls, t, buffers[1..]));
    }
  }

  /** Streaming agrees with the definition: the events of a message do not depend on how its text is cut
      into buffers, and are those read off the whole text. */
  lemma StreamingAgrees(cls: Classifier, buffers: seq<string>)
    requires Clean(cls, Flatten(buffers), false, false) && KeepsCRLF("", buffers)
    ensures Atoms(Run(cls, NEW_SESSION, buffers)) == [Begin] + Tree(cls, Flatten(buffers), [], false) + [Finish]
  {
    hide Run, Tree, Flatten, Rest, HeaderEnd, Clean;
    var t := Flatten(buffers);
    NothingReadYet(cls, t);
    RunProgress(cls, NEW_SESSION, buffers);
    assert [] + Tree(cls, t, [], false) == Tree(cls, t, [], false);
    assert [Begin] + (Tree(cls, t, [], false) + [Finish]) == [Begin] + Tree(cls, t, [], false) + [Finish];
  }

  lemma NothingReadYet(cls: Classifier, t: string)
    requires Clean(cls, t, false, false)
    ensures "" + t == t && Ready(cls, InHeaders(false, ""), t, false)
    ensures Rest(cls, InHeaders(false, ""), t, []) == Tree(cls, t, [], false)
  {
    hide Tree, Clean;
    assert "" + t == t;
    assert HeaderEnd("").None?;
  }

  /** Text with LF or CRLF line ends only meets the condition on the text, whatever it contains. */
  lemma PlainLineEnds(cls: Classifier, t: string)
    requires forall i :: 0 <= i < |t| && t[i] == CR ==> i + 1 < |t| && t[i + 1] == LF
    ensures Clean(cls, t, false, false)
  {
    assert NoDoubleCR(t);
    PlainIsClean(cls, t, false, false);
  }
}
