/** Why the conditions of the streaming theorem are there: inputs outside them for which the cutting does matter
    to packages/crypto/src/jsmimeparser/rawMimeParser.js. */
module MimeLimits {
  import opened Results
  import opened MimeText
  import opened MimeTree
  import opened MimeStream

  const FRESH := InHeaders(false, "")
  const PART: PartNum := [Child(1)]
  const LEAF: PartNum := [Child(1), Child(1)]

  function MixedHeader(boundary: string): string {
    "Content-Type: multipart/mixed; boundary=" + boundary
  }

  /** Two multiparts with different boundaries are told from plain text. */
  const KINDS: Classifier := (headers, digest) =>
    if headers == MixedHeader("z") then Multipart(Some("z"), false)
    else if headers == MixedHeader("q") then Multipart(Some("q"), false)
    else Discrete

  function InFirst(boundary: string, saved: string, sub: Parser): Parser {
    InSection(boundary, false, saved, 1, sub)
  }

  // A lone CR

  const AFTER_LINE := Session(InBody, "", true)
  const AFTER_TEXT := Session(InBody, "x", true)
  const OPENING: seq<Event> := [StartMessage, StartPart([], ""), PartData([], "")]
  const ENDING: seq<Event> := [PartData([], "x"), EndPart([]), EndMessage]

  /** A lone CR is passed on at once, so when its LF follows in the next buffer it is taken for a line end of
      its own: here it becomes the first character of the body. */
  lemma LoneCRMatters()
    ensures Flatten(["\r", "\nx"]) == Flatten(["\r\nx"]) == "\r\nx"
    ensures Atoms(Run(KINDS, NEW_SESSION, ["\r\nx"])) == [Begin, Start([], ""), Octet([], 'x'), End([]), Finish]
    ensures Atoms(Run(KINDS, NEW_SESSION, ["\r", "\nx"]))
         == [Begin, Start([], ""), Octet([], '\n'), Octet([], 'x'), End([]), Finish]
  {
    hide DeliverData, Atoms;
    assert DeliverEOF(KINDS, AFTER_TEXT) == ENDING by {
      BodyRead([], "x");
    }
    hide DeliverEOF;
    assert ["\r", "\nx"][1..] == ["\nx"] && ["\nx"][1..] == [] && ["\r\nx"][1..] == [];
    assert "\r" + ("\nx" + "") == "\r\nx" && "\r\nx" + "" == "\r\nx";
    LoneCRRead();
    assert Run(KINDS, NEW_SESSION, ["\r\nx"]) == OPENING + ENDING;
    assert Run(KINDS, NEW_SESSION, ["\r", "\nx"]) == OPENING + ([PartData([], "\n")] + ENDING);
    AtomsOfParts();
    AtomsAppend(OPENING, ENDING);
    AtomsAppend([PartData([], "\n")], ENDING);
    AtomsAppend(OPENING, [PartData([], "\n")] + ENDING);
  }

  lemma AtomsOfParts()
    ensures Atoms(OPENING) == [Begin, Start([], "")]
    ensures Atoms(ENDING) == [Octet([], 'x'), End([]), Finish]
    ensures Atoms([PartData([], "\n")]) == [Octet([], '\n')]
  {
    assert OPENING[1..] == [StartPart([], ""), PartData([], "")] && OPENING[1..][1..] == [PartData([], "")];
    assert ENDING[1..] == [EndPart([]), EndMessage] && ENDING[1..][1..] == [EndMessage];
  }

  lemma LoneCRRead()
    ensures DeliverData(KINDS, NEW_SESSION, "\r\nx") == (AFTER_TEXT, OPENING)
    ensures DeliverData(KINDS, NEW_SESSION, "\r") == (AFTER_LINE, OPENING)
    ensures DeliverData(KINDS, AFTER_LINE, "\nx") == (AFTER_TEXT, [PartData([], "\n")])
  {
    hide ConditionToEndOnCRLF, Dispatch;
    ConditionIs("\r\n", "x");
    ConditionIs("\n", "x");
    ConditionOfCR();
    assert "\r\n" + "x" == "" + "\r\nx" && "\n" + "x" == "" + "\nx" && "" + "\r" == "\r";
    assert "\r\n"[2..] == "" && "\r"[1..] == "";
    LeafBegins([], "\r\n", 2);
    LeafBegins([], "\r", 1);
    BodyRead([], "\n");
    assert [StartMessage] + [StartPart([], ""), PartData([], "")] == OPENING;
    assert [] + [PartData([], "\n")] == [PartData([], "\n")];
  }

  lemma BodyRead(num: PartNum, data: string)
    ensures Dispatch(KINDS, InBody, num, data, true) == DispatchBody(KINDS, InBody, num, data, true)
         == Step(InBody, [PartData(num, data)])
  {
    assert Route(KINDS, InBody, num, data) == Step(InBody, [PartData(num, data)]);
  }

  /** A part without headers begins with a line end of n characters. */
  lemma LeafBegins(num: PartNum, text: string, n: nat)
    requires n <= |text| && HeaderStop(text, 0) == Some(n)
    ensures Dispatch(KINDS, FRESH, num, text, true) == Step(InBody, [StartPart(num, ""), PartData(num, text[n..])])
  {
    assert "" + text == text && text[..0] == "" && HeaderEnd(text) == Some((0, n));
    assert KINDS("", false) == Discrete;
    hide HeaderEnd, DispatchBody;
    BodyRead(num, text[n..]);
    assert [StartPart(num, "")] + [PartData(num, text[n..])] == [StartPart(num, ""), PartData(num, text[n..])];
  }

  // Multiparts

  function Opening(boundary: string, rest: string): string {
    MixedHeader(boundary) + "\n\n" + ("--" + boundary + "\n" + rest)
  }

  /** A multipart begins, and its first part. */
  lemma Opens(boundary: string, num: PartNum, rest: string, s: Step)
    requires boundary == "z" || boundary == "q"
    requires s == if rest == "" then Step(InFirst(boundary, "", FRESH), [])
                  else DispatchBody(KINDS, InFirst(boundary, "", FRESH), num, rest, true)
    ensures Dispatch(KINDS, FRESH, num, Opening(boundary, rest), true)
         == Step(s.p, [StartPart(num, MixedHeader(boundary))] + s.events)
  {
    var h, body := MixedHeader(boundary), "--" + boundary + "\n" + rest;
    HeaderIsLine(boundary);
    HeaderEnds(h, body);
    DelimiterFirst(boundary, rest);
    var data := h + "\n\n" + body;
    assert "" + data == data && data[..|h|] == h && data[|h| + 2..] == body && body[4..] == rest;
    hide HeaderEnd, FindSplit, MixedHeader, Route;
    var split := Split(0, Mark(0, 4, false));
    assert HandleSplit(KINDS, Prologue(boundary, false), num, split) == Step(InFirst(boundary, "", FRESH), []);
    assert DispatchBody(KINDS, Prologue(boundary, false), num, body, true).p == s.p;
    assert [] + [] + s.events == s.events;
  }

  lemma HeaderIsLine(boundary: string)
    requires boundary == "z" || boundary == "q"
    ensures MixedHeader(boundary) != ""
    ensures forall k :: 0 <= k < |MixedHeader(boundary)| ==> !IsEol(MixedHeader(boundary)[k])
    ensures KINDS(MixedHeader(boundary), false) == Multipart(Some(boundary), false)
  {
    assert MixedHeader("z")[40] == 'z' && MixedHeader("q")[40] == 'q';
  }

  /** A header block of one line. */
  lemma HeaderEnds(h: string, body: string)
    requires h != "" && forall k :: 0 <= k < |h| ==> !IsEol(h[k])
    ensures HeaderEnd(h + "\n\n" + body) == Some((|h|, 2))
  {
    var t := h + "\n\n" + body;
    assert forall k :: 0 <= k < |h| ==> t[k] == h[k];
    assert t[|h|] == LF && t[|h| + 1] == LF;
    HeaderStopFromUnique(t, 0, |h|, 2);
  }

  lemma DelimiterFirst(boundary: string, rest: string)
    requires |boundary| == 1 && !IsEol(boundary[0])
    ensures FindSplit("--" + boundary + "\n" + rest, boundary) == Some(Split(0, Mark(0, 4, false)))
  {
    var x := "--" + boundary + "\n" + rest;
    assert x[0] == '-' && x[1] == '-' && x[2] == boundary[0] && x[3] == LF;
    assert ContentEnd(x, 3) == 3 && ContentEnd(x, 2) == 3 && ContentEnd(x, 1) == 3 && ContentEnd(x, 0) == 3;
    assert x[0..3] == "--" + boundary && ("--" + boundary)[3..] == "";
    assert Delimiter("--" + boundary, boundary) == Some(false);
    assert MarkAt(x, 0, boundary) == Some(Mark(0, 4, false));
  }

  lemma OpeningEnds(boundary: string, rest: string)
    ensures var text := Opening(boundary, rest);
            |text| > |rest| && text[|text| - |rest|..] == rest && text[|text| - |rest| - 1] == LF
  {
    var head := MixedHeader(boundary) + "\n\n--" + boundary + "\n";
    assert Opening(boundary, rest) == head + rest;
  }

  lemma Announced(text: string, s: Step)
    requires text != "" && ConditionToEndOnCRLF(text) == (text, "") && Dispatch(KINDS, FRESH, [], text, true) == s
    ensures DeliverData(KINDS, NEW_SESSION, text) == (Session(s.p, "", true), [StartMessage] + s.events)
  {
    hide ConditionToEndOnCRLF, Dispatch;
    assert "" + text == text;
  }

  /** A message that begins with a multipart, up to a line end. */
  lemma OpeningRead(rest: string, s: Step)
    requires rest != "" && rest[|rest| - 1] == LF && DispatchBody(KINDS, InFirst("z", "", FRESH), [], rest, true) == s
    ensures DeliverData(KINDS, NEW_SESSION, Opening("z", rest))
         == (Session(s.p, "", true), [StartMessage, StartPart([], MixedHeader("z"))] + s.events)
  {
    hide DeliverData, ConditionToEndOnCRLF, Dispatch, DispatchBody, Opening, MixedHeader;
    var text := Opening("z", rest);
    Opens("z", [], rest, s);
    OpeningEnds("z", rest);
    ConditionIs(text, "");
    assert text + "" == text;
    Announced(text, Step(s.p, [StartPart([], MixedHeader("z"))] + s.events));
    assert [StartMessage] + ([StartPart([], MixedHeader("z"))] + s.events)
        == [StartMessage, StartPart([], MixedHeader("z"))] + s.events;
  }

  /** Text in a section without a delimiter line. */
  lemma SectionRead(p: Parser, num: PartNum, x: string, passed: string, held: string, s: Step)
    requires p.InSection? && WithholdLastLine(p.saved + x) == (passed, held) && FindSplit(x, p.boundary).None?
    requires s == if x != "" then Dispatch(KINDS, p.sub, num + [Child(p.k)], passed, true) else Step(p.sub, [])
    ensures Dispatch(KINDS, p, num, x, true) == DispatchBody(KINDS, p, num, x, true)
         == Step(InSection(p.boundary, p.digest, held, p.k, s.p), s.events)
  {
    hide WithholdLastLine, FindSplit, Route;
    assert Route(KINDS, p, num, x) == Step(InSection(p.boundary, p.digest, held, p.k, s.p), s.events) by {
      SectionRoute(p, num, x, passed, held, s);
    }
    assert DispatchBody(KINDS, p, num, x, true) == Route(KINDS, p, num, x);
  }

  lemma SectionRoute(p: Parser, num: PartNum, x: string, passed: string, held: string, s: Step)
    requires p.InSection? && WithholdLastLine(p.saved + x) == (passed, held)
    requires s == if x != "" then Dispatch(KINDS, p.sub, num + [Child(p.k)], passed, true) else Step(p.sub, [])
    ensures Route(KINDS, p, num, x) == Step(InSection(p.boundary, p.digest, held, p.k, s.p), s.events)
  {
    hide WithholdLastLine, Dispatch;
  }

  /** A delimiter line has the boundary after its two dashes. */
  lemma NoLetterNoSplit(x: string, boundary: string)
    requires |boundary| == 1 && boundary[0] !in x
    ensures FindSplit(x, boundary).None?
  {
    FindSplitFacts(x, 0, boundary);
    assert ("--" + boundary)[2] == boundary[0];
    forall q | 0 <= q <= |x|
      ensures MarkAt(x, q, boundary).None?
    {
      var line := x[q..ContentEnd(x, q)];
      if |line| >= 3 {
        assert line[2] == x[q + 2] && x[q + 2] in x;
      }
    }
  }

  /** A buffer read inside the first section. */
  lemma PacketRead(s: Session, buffer: string, packet: string, rest: string, passed: string, held: string, sub: Step)
    requires s.started && s.p.InSection? && s.p.k == 1 && s.p.boundary == "z" && 'z' !in packet && packet != ""
    requires ConditionToEndOnCRLF(s.hold + buffer) == (packet, rest)
    requires WithholdLastLine(s.p.saved + packet) == (passed, held)
    requires Dispatch(KINDS, s.p.sub, PART, passed, true) == sub
    ensures Dispatch(KINDS, s.p, [], packet, true) == Step(s.p.(saved := held, sub := sub.p), sub.events)
    ensures DeliverData(KINDS, s, buffer) == (Session(s.p.(saved := held, sub := sub.p), rest, true), sub.events)
  {
    hide ConditionToEndOnCRLF, WithholdLastLine, Dispatch;
    NoLetterNoSplit(packet, "z");
    assert [] + [Child(1)] == PART && [] + sub.events == sub.events;
    SectionRead(s.p, [], packet, passed, held, sub);
  }

  lemma Withheld(a: string, b: string, terminator: string)
    requires a + b != "\r" && (a != "" ==> a[|a| - 1] == LF || (a[|a| - 1] == CR && b != ""))
    requires forall k :: 0 <= k < |b| ==> b[k] != LF && (b[k] == CR ==> k == |b| - 1)
    requires TerminatorStart(a + b + terminator) == |a + b|
    ensures WithholdLastLine(a + b + terminator) == (a, b + terminator)
  {
    ConditionIs(a, b);
    WithholdIs(a, b, terminator);
  }

  lemma RunStep(cls: Classifier, s: Session, buffers: seq<string>)
    requires buffers != []
    ensures var (t, events) := DeliverData(cls, s, buffers[0]);
            Run(cls, s, buffers) == events + Run(cls, t, buffers[1..])
  {
  }

  // Line ends that are single CRs

  const UNCLOSED := Opening("z", "\n\n")
  const BEGUN: seq<Event> := [StartMessage, StartPart([], MixedHeader("z")), StartPart(PART, ""), PartData(PART, "")]
  const CLOSED: seq<Event> := [EndPart(PART), EndPart([]), EndMessage]

  /** The part of the unclosed message, a line withheld. */
  function InPart(saved: string, hold: string): Session {
    Session(InFirst("z", saved, InBody), hold, true)
  }

  function Data(data: string): seq<Event> {
    [PartData(PART, data)]
  }

  /** When a multipart is never closed the text withheld last is dropped; of several CRs in a row, how many are
      withheld together depends on how they arrive. */
  lemma DoubleCRMatters()
    ensures Flatten([UNCLOSED, "\r\r\r"]) == Flatten([UNCLOSED, "\r\r", "\r"])
    ensures Run(KINDS, NEW_SESSION, [UNCLOSED, "\r\r\r"]) == BEGUN + (Data("\n") + (Data("\r") + (Data("\r") + CLOSED)))
    ensures Run(KINDS, NEW_SESSION, [UNCLOSED, "\r\r", "\r"])
         == BEGUN + (Data("\n") + (Data("\r") + (Data("\r") + (Data("\r") + CLOSED))))
  {
    hide DeliverData, DeliverEOF, Run, Opening, MixedHeader;
    var whole, cut := [UNCLOSED, "\r\r\r"], [UNCLOSED, "\r\r", "\r"];
    assert whole[1..] == ["\r\r\r"] && whole[1..][1..] == [];
    assert cut[1..] == ["\r\r", "\r"] && cut[1..][1..] == ["\r"] && cut[1..][1..][1..] == [];
    SameText([UNCLOSED], "\r\r\r", "\r\r", "\r", []);
    assert [UNCLOSED] + ["\r\r\r"] + [] == whole && [UNCLOSED] + ["\r\r", "\r"] + [] == cut;
    UnclosedRead();
    LineEnds();
    LineEndsRead();
    PartEnds("\r\r", "\r", "\r\r");
    PartEnds("\r", "\r", "\r");
    RunStep(KINDS, NEW_SESSION, whole);
    RunStep(KINDS, InPart("\n", ""), whole[1..]);
    RunStep(KINDS, NEW_SESSION, cut);
    RunStep(KINDS, InPart("\n", ""), cut[1..]);
    RunStep(KINDS, InPart("\r", "\r"), cut[1..][1..]);
    RunEnd(KINDS, InPart("\r\r", "\r"));
    RunEnd(KINDS, InPart("\r", "\r"));
  }

  lemma RunEnd(cls: Classifier, s: Session)
    ensures Run(cls, s, []) == DeliverEOF(cls, s)
  {
  }

  lemma UnclosedRead()
    ensures DeliverData(KINDS, NEW_SESSION, UNCLOSED) == (InPart("\n", ""), BEGUN)
  {
    hide DeliverData, Dispatch, DispatchBody, Opening, MixedHeader, WithholdLastLine;
    Withheld("\n", "", "\n");
    assert "\n" + "" + "\n" == "" + "\n\n" && "" + "\n" == "\n" && "\n"[1..] == "";
    LeafBegins(PART, "\n", 1);
    NoLetterNoSplit("\n\n", "z");
    var begun := [StartPart(PART, ""), PartData(PART, "")];
    assert [] + [Child(1)] == PART;
    SectionRead(InFirst("z", "", FRESH), [], "\n\n", "\n", "\n", Step(InBody, begun));
    OpeningRead("\n\n", Step(InFirst("z", "\n", InBody), begun));
    assert [StartMessage, StartPart([], MixedHeader("z"))] + begun == BEGUN;
  }

  lemma LineEnds()
    ensures WithholdLastLine("\r\r" + "\r") == ("\r", "\r\r") && WithholdLastLine("\r" + "\r") == ("\r", "\r")
    ensures WithholdLastLine("\n" + "\r\r") == ("\n", "\r\r") && WithholdLastLine("\n" + "\r") == ("\n", "\r")
    ensures ConditionToEndOnCRLF("" + "\r\r\r") == ("\r\r", "\r") && ConditionToEndOnCRLF("\r") == ("\r", "")
    ensures ConditionToEndOnCRLF("" + "\r\r") == ConditionToEndOnCRLF("\r\r") == ("\r", "\r")
  {
    hide ConditionToEndOnCRLF, WithholdLastLine;
    ConditionIs("\r\r", "\r");
    ConditionIs("\r", "\r");
    ConditionOfCR();
    Withheld("\n", "\r", "\r");
    Withheld("\n", "", "\r");
    Withheld("\r", "\r", "\r");
    assert "\r" + "" == "\r";
    WithholdIs("\r", "", "\r");
    assert "\n" + "\r" + "\r" == "\n" + "\r\r" && "" + "\r\r\r" == "\r\r" + "\r";
    assert "" + "\r\r" == "\r" + "\r" == "\r\r" && "\r" + "\r" + "\r" == "\r\r" + "\r";
    assert "\n" + "" + "\r" == "\n" + "\r" && "\r" + "" + "\r" == "\r" + "\r";
  }

  lemma LineEndsRead()
    ensures DeliverData(KINDS, InPart("\n", ""), "\r\r\r") == (InPart("\r\r", "\r"), Data("\n"))
    ensures DeliverData(KINDS, InPart("\n", ""), "\r\r") == (InPart("\r", "\r"), Data("\n"))
    ensures DeliverData(KINDS, InPart("\r", "\r"), "\r") == (InPart("\r", "\r"), Data("\r"))
  {
    hide DeliverData, Dispatch, DispatchBody, ConditionToEndOnCRLF, WithholdLastLine;
    LineEnds();
    BodyRead(PART, "\n");
    BodyRead(PART, "\r");
    assert "\r" + "\r" == "\r\r";
    PacketRead(InPart("\n", ""), "\r\r\r", "\r\r", "\r", "\n", "\r\r", Step(InBody, Data("\n")));
    PacketRead(InPart("\n", ""), "\r\r", "\r", "\r", "\n", "\r", Step(InBody, Data("\n")));
    PacketRead(InPart("\r", "\r"), "\r", "\r", "\r", "\r", "\r", Step(InBody, Data("\r")));
  }

  /** The end of the message, inside the part. */
  lemma PartEnds(saved: string, passed: string, held: string)
    requires WithholdLastLine(saved + "\r") == (passed, held) && held != "" && ConditionToEndOnCRLF(held).0 == "\r"
    requires ConditionToEndOnCRLF("\r\r") == ("\r", "\r")
    ensures DeliverEOF(KINDS, InPart(saved, "\r")) == Data(passed) + (Data("\r") + CLOSED)
  {
    hide ConditionToEndOnCRLF, WithholdLastLine, Dispatch;
    BodyRead(PART, passed);
    BodyRead(PART, "\r");
    assert "\r" + "\r" == "\r\r" && [] + [Child(1)] == PART;
    PacketRead(InPart(saved, "\r"), "\r", "\r", "\r", passed, held, Step(InBody, Data(passed)));
    var p := InFirst("z", held, InBody);
    assert DispatchEOF(KINDS, InBody, PART) == [] + [EndPart(PART)] == [EndPart(PART)];
    assert DispatchEOF(KINDS, p, []) == Data("\r") + [EndPart(PART)] + [EndPart([])];
    assert [] + Data(passed) + (Data("\r") + [EndPart(PART)] + [EndPart([])]) + [EndMessage]
        == Data(passed) + (Data("\r") + CLOSED);
  }

  // A multipart inside another one

  const NEST := Opening("z", Opening("q", "") + "\n")
  const NEST_BEGUN: seq<Event> :=
    [StartMessage, StartPart([], MixedHeader("z")), StartPart(PART, MixedHeader("q")), StartPart(LEAF, ""),
     PartData(LEAF, "")]

  /** The part in the inner multipart; each multipart has withheld a line. */
  function InLeaf(outer: string, inner: string, hold: string): Session {
    Session(InFirst("z", outer, InFirst("q", inner, InBody)), hold, true)
  }

  function Leaf(data: string): seq<Event> {
    [PartData(LEAF, data)]
  }

  /** A packet that adds no line end is withheld by the outer multipart, which dispatches the empty text to the
      inner one. Of two CRs the inner one has withheld only the last one then stays withheld; the CR let go is not
      passed on, as packages/crypto/src/jsmimeparser/rawMimeParser.js (lines 765-770) dispatches nothing further when
      the text that came in was empty. Where there is no such packet the CR is not lost. Whatever follows, closing
      delimiter lines included, is read alike. */
  lemma NestedLosesCR(later: seq<string>)
    ensures Flatten([NEST, "\r\rx\r\r", "y\n"] + later) == Flatten([NEST, "\r\rx\r\r", "y", "\n"] + later)
    ensures var rest := Run(KINDS, InLeaf("y\n", "x\r\r", ""), later);
            && Run(KINDS, NEW_SESSION, [NEST, "\r\rx\r\r", "y\n"] + later) == NEST_BEGUN + (Leaf("\r\r") + rest)
            && Run(KINDS, NEW_SESSION, [NEST, "\r\rx\r\r", "y", "\n"] + later) == NEST_BEGUN + (Leaf("\r") + rest)
  {
    hide DeliverData, Run, Opening, MixedHeader;
    var s := Session(InFirst("z", "\n", InFirst("q", "", FRESH)), "", true);
    var whole, cut := [NEST, "\r\rx\r\r", "y\n"] + later, [NEST, "\r\rx\r\r", "y", "\n"] + later;
    assert whole[1..][1..][1..] == later && cut[1..][1..][1..][1..] == later;
    SameText([NEST, "\r\rx\r\r"], "y\n", "y", "\n", later);
    assert [NEST, "\r\rx\r\r"] + ["y\n"] + later == whole && [NEST, "\r\rx\r\r"] + ["y", "\n"] + later == cut;
    NestRead();
    LeafRead();
    LeafCut();
    LastLine("x\r", "\r\r", "\r", "y\n");
    RunStep(KINDS, NEW_SESSION, whole);
    RunStep(KINDS, s, whole[1..]);
    RunStep(KINDS, InLeaf("x\r", "\r\r", "\r"), whole[1..][1..]);
    RunStep(KINDS, NEW_SESSION, cut);
    RunStep(KINDS, s, cut[1..]);
    RunStep(KINDS, InLeaf("x\r", "\r\r", "\r"), cut[1..][1..]);
    RunStep(KINDS, InLeaf("x\r\r", "\r", "y"), cut[1..][1..][1..]);
  }

  /** A buffer cut in two. */
  lemma {:induction false} SameText(first: seq<string>, ab: string, a: string, b: string, later: seq<string>)
    requires ab == a + b
    ensures Flatten(first + [ab] + later) == Flatten(first + [a, b] + later)
  {
    var whole, cut := first + [ab] + later, first + [a, b] + later;
    if first == [] {
      assert whole[1..] == later && cut[1..] == [b] + later && cut[1..][1..] == later;
      assert Flatten(cut) == a + (b + Flatten(later)) == ab + Flatten(later);
    } else {
      assert whole[1..] == first[1..] + [ab] + later && cut[1..] == first[1..] + [a, b] + later;
      SameText(first[1..], ab, a, b, later);
    }
  }

  lemma NestRead()
    ensures DeliverData(KINDS, NEW_SESSION, NEST)
         == (Session(InFirst("z", "\n", InFirst("q", "", FRESH)), "", true), NEST_BEGUN[..3])
  {
    hide DeliverData, Dispatch, DispatchBody, Opening, MixedHeader, WithholdLastLine;
    var inner := Opening("q", "");
    var begun := Step(InFirst("q", "", FRESH), [StartPart(PART, MixedHeader("q"))]);
    OpeningEnds("q", "");
    Withheld(inner, "", "\n");
    NoZ();
    Opens("q", PART, "", Step(InFirst("q", "", FRESH), []));
    assert [StartPart(PART, MixedHeader("q"))] + [] == begun.events && [] + [Child(1)] == PART;
    assert inner + "" + "\n" == "" + (inner + "\n") && "" + "\n" == "\n";
    SectionRead(InFirst("z", "", FRESH), [], inner + "\n", inner, "\n", begun);
    OpeningRead(inner + "\n", Step(InFirst("z", "\n", begun.p), begun.events));
    assert [StartMessage, StartPart([], MixedHeader("z"))] + begun.events == NEST_BEGUN[..3];
  }

  lemma NoZ()
    ensures FindSplit(Opening("q", "") + "\n", "z").None?
  {
    assert 'z' !in "Content-Type: multipart/mixed; boundary=" && 'z' !in "\n\n" && 'z' !in "--" + "q" + "\n" + "";
    NoLetterNoSplit(Opening("q", "") + "\n", "z");
  }

  lemma LeafRead()
    ensures DeliverData(KINDS, Session(InFirst("z", "\n", InFirst("q", "", FRESH)), "", true), "\r\rx\r\r")
         == (InLeaf("x\r", "\r\r", "\r"), NEST_BEGUN[3..])
  {
    hide DeliverData, Dispatch, DispatchBody, MixedHeader, WithholdLastLine, ConditionToEndOnCRLF;
    ConditionIs("\r\rx\r", "\r");
    Withheld("\n\r\r", "x", "\r");
    Withheld("\n", "\r", "\r");
    LeafBegins(LEAF, "\n", 1);
    NoLetterNoSplit("\n\r\r", "q");
    var begun := [StartPart(LEAF, ""), PartData(LEAF, "")];
    assert "\n"[1..] == "" && PART + [Child(1)] == LEAF && NEST_BEGUN[3..] == begun;
    assert "\n\r\r" + "x" + "\r" == "\n" + "\r\rx\r" && "\n" + "\r" + "\r" == "" + "\n\r\r";
    assert "" + "\r\rx\r\r" == "\r\rx\r" + "\r" && "x" + "\r" == "x\r" && "\r" + "\r" == "\r\r";
    SectionRead(InFirst("q", "", FRESH), PART, "\n\r\r", "\n", "\r\r", Step(InBody, begun));
    PacketRead(Session(InFirst("z", "\n", InFirst("q", "", FRESH)), "", true), "\r\rx\r\r", "\r\rx\r", "\r",
               "\n\r\r", "x\r", Step(InFirst("q", "\r\r", InBody), begun));
  }

  /** The outer multipart passes nothing on; the CR that the inner one lets go is lost. */
  lemma LeafCut()
    ensures DeliverData(KINDS, InLeaf("x\r", "\r\r", "\r"), "y") == (InLeaf("x\r\r", "\r", "y"), [])
    ensures DeliverData(KINDS, InLeaf("x\r\r", "\r", "y"), "\n") == (InLeaf("y\n", "x\r\r", ""), Leaf("\r"))
  {
    hide DeliverData, Dispatch, DispatchBody, WithholdLastLine, ConditionToEndOnCRLF;
    ConditionIs("\r", "y");
    Withheld("", "x\r", "\r");
    ConditionOfCR();
    assert "\r" + "" == "\r";
    WithholdIs("\r", "", "\r");
    NoLetterNoSplit("", "q");
    assert "" + "x\r" + "\r" == "x\r" + "\r" && "x\r" + "\r" == "x\r\r" && "\r" + "" + "\r" == "\r\r" + "";
    SectionRead(InFirst("q", "\r\r", InBody), PART, "", "\r", "\r", Step(InBody, []));
    PacketRead(InLeaf("x\r", "\r\r", "\r"), "y", "\r", "y", "", "x\r\r", Step(InFirst("q", "\r", InBody), []));
    LastLine("x\r\r", "\r", "y", "\n");
  }

  /** A line end lets the outer multipart pass on the text before the y. */
  lemma LastLine(outer: string, inner: string, hold: string, buffer: string)
    requires (outer, inner, hold, buffer) in {("x\r\r", "\r", "y", "\n"), ("x\r", "\r\r", "\r", "y\n")}
    ensures DeliverData(KINDS, InLeaf(outer, inner, hold), buffer) == (InLeaf("y\n", "x\r\r", ""), Leaf(inner))
  {
    hide DeliverData, Dispatch, DispatchBody, WithholdLastLine, ConditionToEndOnCRLF;
    var packet := hold + buffer;
    ConditionIs(packet, "");
    Withheld("x\r\r", "y", "\n");
    assert packet + "" == packet && "x\r\r" + "y" + "\n" == outer + packet && "y" + "\n" == "y\n";
    LastLineInside(inner);
    PacketRead(InLeaf(outer, inner, hold), buffer, packet, "", "x\r\r", "y\n",
               Step(InFirst("q", "x\r\r", InBody), Leaf(inner)));
  }

  lemma LastLineInside(inner: string)
    requires inner == "\r" || inner == "\r\r"
    ensures Dispatch(KINDS, InFirst("q", inner, InBody), PART, "x\r\r", true)
         == Step(InFirst("q", "x\r\r", InBody), Leaf(inner))
  {
    hide Dispatch, DispatchBody, WithholdLastLine, ConditionToEndOnCRLF;
    Withheld(inner, "x\r", "\r");
    NoLetterNoSplit("x\r\r", "q");
    BodyRead(LEAF, inner);
    assert inner + "x\r" + "\r" == inner + "x\r\r" && "x\r" + "\r" == "x\r\r" && PART + [Child(1)] == LEAF;
    SectionRead(InFirst("q", inner, InBody), PART, "x\r\r", inner, "x\r\r", Step(InBody, Leaf(inner)));
  }
}
