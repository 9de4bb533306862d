/** The streaming parser's events are properly bracketed for every input, nesting and chunking. */
module MimeBrackets {
  import opened Results
  import opened MimeText
  import opened MimeTree
  import opened MimeStream

  /** The parts a parser has announced and not yet ended, outermost first. */
  function OpenParts(p: Parser, num: PartNum): seq<PartNum> {
    match p
    case InHeaders(_, _) => []
    case InSection(_, _, _, k, sub) => [num] + OpenParts(sub, num + [Child(k)])
    case Embedded(sub) => [num] + OpenParts(sub, num + [MessageBody])
    case _ => [num]
  }

  /** Events that turn one stack of open parts into another. */
  ghost predicate Turns(before: seq<PartNum>, events: seq<Event>, after: seq<PartNum>) {
    Nesting(before, Atoms(events)) == Some(after)
  }

  lemma TurnsNone(before: seq<PartNum>)
    ensures Turns(before, [], before)
  {
  }

  lemma TurnsAppend(a: seq<PartNum>, e: seq<Event>, b: seq<PartNum>, f: seq<Event>, c: seq<PartNum>)
    requires Turns(a, e, b) && Turns(b, f, c)
    ensures Turns(a, e + f, c)
  {
    AtomsAppend(e, f);
    NestingAppend(a, Atoms(e), Atoms(f));
  }

  lemma TurnsStart(open: seq<PartNum>, num: PartNum, headers: string)
    requires MayOpen(open, num)
    ensures Turns(open, [StartPart(num, headers)], open + [num])
  {
    assert [StartPart(num, headers)][1..] == [];
    assert Atoms([StartPart(num, headers)]) == [Start(num, headers)];
    assert [Start(num, headers)][1..] == [];
  }

  lemma TurnsEnd(open: seq<PartNum>, num: PartNum)
    ensures Turns(open + [num], [EndPart(num)], open)
  {
    assert [EndPart(num)][1..] == [];
    assert Atoms([EndPart(num)]) == [End(num)];
    assert [End(num)][1..] == [] && (open + [num])[..|open|] == open;
  }

  lemma TurnsData(open: seq<PartNum>, num: PartNum, data: string)
    ensures Turns(open + [num], [PartData(num, data)], open + [num])
  {
    assert [PartData(num, data)][1..] == [];
    assert Atoms([PartData(num, data)]) == Octets(num, data);
    OctetsNest(open + [num], num, data);
  }

  lemma {:induction false} DispatchTurns(cls: Classifier, p: Parser, num: PartNum, x: string, check: bool,
                                         open: seq<PartNum>)
    requires MayOpen(open, num)
    ensures var s := Dispatch(cls, p, num, x, check);
            Turns(open + OpenParts(p, num), s.events, open + OpenParts(s.p, num))
    decreases Weight(p) + 2 * |x|, p, 2
  {
    hide Turns, DispatchBody;
    if p.InHeaders? {
      assert open + [] == open;
      var data := p.data + x;
      match HeaderEnd(data)
      case None => TurnsNone(open);
      case Some((i, n)) =>
        var q := StartBody(cls(data[..i], p.digest));
        BodyTurns(cls, q, num, data[i + n..], check, open);
        assert open + OpenParts(q, num) == open + [num];
        TurnsStart(open, num, data[..i]);
        var s := DispatchBody(cls, q, num, data[i + n..], check);
        TurnsAppend(open, [StartPart(num, data[..i])], open + [num], s.events, open + OpenParts(s.p, num));
    } else {
      BodyTurns(cls, p, num, x, check, open);
    }
  }

  lemma {:induction false} BodyTurns(cls: Classifier, p: Parser, num: PartNum, x: string, check: bool,
                                     open: seq<PartNum>)
    requires MayOpen(open, num) && !p.InHeaders?
    ensures var s := DispatchBody(cls, p, num, x, check);
            Turns(open + OpenParts(p, num), s.events, open + OpenParts(s.p, num))
    decreases Weight(p) + 2 * |x|, p, 1
  {
    hide Turns, FindSplit, Route, HandleSplit, OpenParts;
    if check && (p.Prologue? || p.InSection?) && FindSplit(x, p.boundary).Some? {
      var split := FindSplit(x, p.boundary).value;
      var before := if split.start > 0 then Route(cls, p, num, x[..split.start]) else Step(p, []);
      if split.start > 0 {
        RouteTurns(cls, p, num, x[..split.start], open);
      } else {
        TurnsNone(open + OpenParts(p, num));
      }
      SplitTurns(cls, before.p, num, split, open);
      var at := HandleSplit(cls, before.p, num, split);
      var rest := x[split.mark.end..];
      if rest != "" {
        BodyTurns(cls, at.p, num, rest, true, open);
      } else {
        TurnsNone(open + OpenParts(at.p, num));
      }
      var after := if rest != "" then DispatchBody(cls, at.p, num, rest, true) else Step(at.p, []);
      TurnsAppend(open + OpenParts(p, num), before.events, open + OpenParts(before.p, num), at.events,
                  open + OpenParts(at.p, num));
      TurnsAppend(open + OpenParts(p, num), before.events + at.events, open + OpenParts(at.p, num),
                  after.events, open + OpenParts(after.p, num));
    } else {
      RouteTurns(cls, p, num, x, open);
    }
  }

  lemma {:induction false} RouteTurns(cls: Classifier, p: Parser, num: PartNum, x: string, open: seq<PartNum>)
    requires MayOpen(open, num) && !p.InHeaders?
    ensures var s := Route(cls, p, num, x);
            Turns(open + OpenParts(p, num), s.events, open + OpenParts(s.p, num))
    decreases Weight(p) + 2 * |x|, p, 0
  {
    hide Turns, Dispatch;
    match p
    case InBody => TurnsData(open, num, x);
    case Ignoring => TurnsNone(open + [num]);
    case Prologue(_, _) => TurnsNone(open + [num]);
    case InSection(boundary, digest, saved, k, sub) =>
      var passed := WithholdLastLine(saved + x).0;
      assert |passed| <= |saved| + |x|;
      SubTurns(cls, sub, num, Child(k), passed, x != "", open);
    case Embedded(sub) =>
      SubTurns(cls, sub, num, MessageBody, x, x != "", open);
  }

  /** The sub-parser's events, seen from outside. */
  lemma {:induction false} SubTurns(cls: Classifier, sub: Parser, num: PartNum, seg: Segment, x: string, feed: bool,
                                    open: seq<PartNum>)
    ensures var s := if feed then Dispatch(cls, sub, num + [seg], x, true) else Step(sub, []);
            Turns(open + ([num] + OpenParts(sub, num + [seg])), s.events, open + ([num] + OpenParts(s.p, num + [seg])))
    decreases Weight(sub) + 2 * |x|, sub, 3
  {
    hide Turns, Dispatch;
    var s := if feed then Dispatch(cls, sub, num + [seg], x, true) else Step(sub, []);
    var inner := open + [num];
    assert (num + [seg])[..|num|] == num;
    if feed {
      DispatchTurns(cls, sub, num + [seg], x, true, inner);
    } else {
      TurnsNone(inner + OpenParts(sub, num + [seg]));
    }
    assert open + ([num] + OpenParts(sub, num + [seg])) == inner + OpenParts(sub, num + [seg]);
    assert open + ([num] + OpenParts(s.p, num + [seg])) == inner + OpenParts(s.p, num + [seg]);
  }

  lemma {:induction false} SplitTurns(cls: Classifier, p: Parser, num: PartNum, split: Split, open: seq<PartNum>)
    requires MayOpen(open, num) && (p.Prologue? || p.InSection?)
    ensures var s := HandleSplit(cls, p, num, split);
            && Turns(open + OpenParts(p, num), s.events, open + OpenParts(s.p, num))
    decreases Weight(p), p, 0
  {
    hide Turns, Dispatch, DispatchEOF;
    var s := HandleSplit(cls, p, num, split);
    assert [num] + [] == [num];
    if p.InSection? {
      var saved := if split.start == split.mark.dashes then DropEol(p.saved) else p.saved;
      DropEolPrefix(p.saved);
      CloseTurns(cls, p.sub, num, Child(p.k), saved, saved != "", open);
    } else {
      TurnsNone(open + [num]);
    }
  }

  /** The last of a sub-part's text, and its end. */
  lemma {:induction false} CloseTurns(cls: Classifier, sub: Parser, num: PartNum, seg: Segment, last: string,
                                      feed: bool, open: seq<PartNum>)
    ensures var s := if feed then Dispatch(cls, sub, num + [seg], last, true) else Step(sub, []);
            Turns(open + ([num] + OpenParts(sub, num + [seg])), s.events + DispatchEOF(cls, s.p, num + [seg]),
                  open + [num])
    decreases Weight(sub) + 2 * |last| + 1, sub, 0
  {
    hide Turns, Dispatch, DispatchEOF, OpenParts;
    SubTurns(cls, sub, num, seg, last, feed, open);
    var s := if feed then Dispatch(cls, sub, num + [seg], last, true) else Step(sub, []);
    assert (num + [seg])[..|num|] == num;
    EofTurns(cls, s.p, num + [seg], open + [num]);
    assert open + ([num] + OpenParts(s.p, num + [seg])) == open + [num] + OpenParts(s.p, num + [seg]);
    TurnsAppend(open + ([num] + OpenParts(sub, num + [seg])), s.events, open + [num] + OpenParts(s.p, num + [seg]),
                DispatchEOF(cls, s.p, num + [seg]), open + [num]);
  }

  lemma {:induction false} EofTurns(cls: Classifier, p: Parser, num: PartNum, open: seq<PartNum>)
    requires MayOpen(open, num)
    ensures Turns(open + OpenParts(p, num), DispatchEOF(cls, p, num), open)
    decreases Weight(p), p, 4
  {
    hide Turns, Dispatch;
    TurnsEnd(open, num);
    match p
    case InHeaders(_, data) =>
      assert open + [] == open;
      TurnsStart(open, num, data);
      TurnsAppend(open, [StartPart(num, data)], open + [num], [EndPart(num)], open);
    case InSection(_, _, saved, k, sub) =>
      var kept := ConditionToEndOnCRLF(saved).0;
      assert |kept| + |ConditionToEndOnCRLF(saved).1| == |saved|;
      CloseTurns(cls, sub, num, Child(k), kept, saved != "", open);
      var s := if saved != "" then Dispatch(cls, sub, num + [Child(k)], kept, true) else Step(sub, []);
      TurnsAppend(open + OpenParts(p, num), s.events + DispatchEOF(cls, s.p, num + [Child(k)]), open + [num],
                  [EndPart(num)], open);
    case Embedded(sub) =>
      var s := Step(sub, []);
      CloseTurns(cls, sub, num, MessageBody, "", false, open);
      assert s.events + DispatchEOF(cls, sub, num + [MessageBody]) == DispatchEOF(cls, sub, num + [MessageBody]);
      TurnsAppend(open + OpenParts(p, num), DispatchEOF(cls, sub, num + [MessageBody]), open + [num], [EndPart(num)],
                  open);
    case _ =>
      assert [] + [EndPart(num)] == [EndPart(num)];
  }

  // Whole messages

  /** Passing text on to the outermost part. */
  function Pass(cls: Classifier, p: Parser, x: string): Step {
    if x != "" then Dispatch(cls, p, [], x, true) else Step(p, [])
  }

  /** The events of a message between its first and its last. */
  function Inner(cls: Classifier, s: Session, buffers: seq<string>): seq<Event>
    decreases |buffers|
  {
    if buffers == [] then
      var step := Pass(cls, s.p, s.hold);
      step.events + DispatchEOF(cls, step.p, [])
    else
      var (packet, hold) := ConditionToEndOnCRLF(s.hold + buffers[0]);
      var step := Pass(cls, s.p, packet);
      step.events + Inner(cls, Session(step.p, hold, s.started || packet != ""), buffers[1..])
  }

  function First(s: Session): seq<Event> {
    if s.started then [] else [StartMessage]
  }

  lemma {:induction false} RunIsInner(cls: Classifier, s: Session, buffers: seq<string>)
    ensures Run(cls, s, buffers) == First(s) + Inner(cls, s, buffers) + [EndMessage]
    decreases |buffers|
  {
    hide Dispatch, DispatchEOF, ConditionToEndOnCRLF;
    if buffers == [] {
      var step := Pass(cls, s.p, s.hold);
      Reassociate(First(s), step.events, DispatchEOF(cls, step.p, []), [EndMessage]);
    } else {
      var (t, events) := DeliverData(cls, s, buffers[0]);
      var packet := ConditionToEndOnCRLF(s.hold + buffers[0]).0;
      RunIsInner(cls, t, buffers[1..]);
      Weave(First(s), Pass(cls, s.p, packet).events, Inner(cls, t, buffers[1..]), [EndMessage]);
    }
  }

  lemma Reassociate(a: seq<Event>, b: seq<Event>, c: seq<Event>, d: seq<Event>)
    ensures a + b + c + d == a + (b + c) + d
  {
  }

  lemma Weave(a: seq<Event>, b: seq<Event>, c: seq<Event>, d: seq<Event>)
    ensures (a + b) + ([] + c + d) == a + (b + c) + d
    ensures [] + (a + c + d) == a + ([] + c) + d
  {
    assert [] + c == c;
    assert (a + b) + (c + d) == a + (b + c) + d;
  }

  lemma {:induction false} InnerTurns(cls: Classifier, s: Session, buffers: seq<string>)
    ensures Turns(OpenParts(s.p, []), Inner(cls, s, buffers), [])
    decreases |buffers|
  {
    hide Turns, Dispatch, DispatchEOF, OpenParts, Pass;
    if buffers == [] {
      var step := Pass(cls, s.p, s.hold);
      OuterTurns(cls, s.p, s.hold);
      EofTurns(cls, step.p, [], []);
      assert [] + OpenParts(step.p, []) == OpenParts(step.p, []);
      TurnsAppend(OpenParts(s.p, []), step.events, OpenParts(step.p, []), DispatchEOF(cls, step.p, []), []);
    } else {
      var (packet, hold) := ConditionToEndOnCRLF(s.hold + buffers[0]);
      var step := Pass(cls, s.p, packet);
      var t := Session(step.p, hold, s.started || packet != "");
      OuterTurns(cls, s.p, packet);
      InnerTurns(cls, t, buffers[1..]);
      TurnsAppend(OpenParts(s.p, []), step.events, OpenParts(t.p, []), Inner(cls, t, buffers[1..]), []);
    }
  }

  lemma OuterTurns(cls: Classifier, p: Parser, x: string)
    ensures Turns(OpenParts(p, []), Pass(cls, p, x).events, OpenParts(Pass(cls, p, x).p, []))
  {
    hide Turns, Dispatch, OpenParts;
    if x != "" {
      DispatchTurns(cls, p, [], x, true, []);
      assert [] + OpenParts(p, []) == OpenParts(p, []);
      assert [] + OpenParts(Dispatch(cls, p, [], x, true).p, []) == OpenParts(Dispatch(cls, p, [], x, true).p, []);
    } else {
      TurnsNone(OpenParts(p, []));
    }
  }

  /** One startMessage first, one endMessage last, and in between parts that open as children of the
      innermost open part, receive data only while innermost, and are all closed. */
  lemma WellBracketed(cls: Classifier, buffers: seq<string>)
    ensures exists body :: Run(cls, NEW_SESSION, buffers) == [StartMessage] + body + [EndMessage]
                        && Nesting([], Atoms(body)) == Some([])
  {
    RunIsInner(cls, NEW_SESSION, buffers);
    InnerTurns(cls, NEW_SESSION, buffers);
  }
}
