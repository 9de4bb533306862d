/** packages/crypto/src/jsmimeparser/rawMimeParser.js as a function of its state: packets in, events out. That the
    packets do not matter is shown in MimeAgreement. */
module MimeStream {
  import opened MimeText
  import opened MimeTree

  /** What a parser object is doing, with the sub-parser it feeds. */
  datatype Parser =
    | InHeaders(digest: bool, data: string)
    | InBody
    | Ignoring
    | Prologue(boundary: string, digest: bool)
    | InSection(boundary: string, digest: bool, saved: string, k: nat, sub: Parser)
    | Embedded(sub: Parser)

  /** Twice the text held, plus one for each level: what dispatching can use up. */
  function Weight(p: Parser): nat {
    match p
    case InHeaders(_, data) => 2 * |data|
    case InBody => 0
    case Ignoring => 0
    case Prologue(_, _) => 1
    case InSection(_, _, saved, _, sub) => 2 * |saved| + Weight(sub) + 1
    case Embedded(sub) => Weight(sub) + 1
  }

  datatype Step = Step(p: Parser, events: seq<Event>)

  /** The state in which a body of the given kind is read. */
  function StartBody(kind: Kind): Parser {
    match kind
    case Discrete => InBody
    case Message => Embedded(InHeaders(false, ""))
    case Multipart(None, _) => Ignoring
    case Multipart(Some(boundary), digest) => Prologue(boundary, digest)
  }

  function Dispatch(cls: Classifier, p: Parser, num: PartNum, buffer: string, checkSplit: bool): (s: Step)
    ensures Weight(s.p) <= Weight(p) + 2 * |buffer|
    decreases Weight(p) + 2 * |buffer|, p, 2
  {
    if p.InHeaders? then
      var data := p.data + buffer;
      match HeaderEnd(data)
      case None => Step(InHeaders(p.digest, data), [])
      case Some((i, n)) =>
        var s := DispatchBody(cls, StartBody(cls(data[..i], p.digest)), num, data[i + n..], checkSplit);
        Step(s.p, [StartPart(num, data[..i])] + s.events)
    else DispatchBody(cls, p, num, buffer, checkSplit)
  }

  function DispatchBody(cls: Classifier, p: Parser, num: PartNum, buffer: string, checkSplit: bool): (s: Step)
    requires !p.InHeaders?
    ensures Weight(s.p) <= Weight(p) + 2 * |buffer|
    decreases Weight(p) + 2 * |buffer|, p, 1
  {
    if checkSplit && (p.Prologue? || p.InSection?) then
      match FindSplit(buffer, p.boundary)
      case None => Route(cls, p, num, buffer)
      case Some(split) =>
        var before := if split.start > 0 then Route(cls, p, num, buffer[..split.start]) else Step(p, []);
        var at := HandleSplit(cls, before.p, num, split);
        var rest := buffer[split.mark.end..];
        var after := if rest != "" then DispatchBody(cls, at.p, num, rest, true) else Step(at.p, []);
        Step(after.p, before.events + at.events + after.events)
    else Route(cls, p, num, buffer)
  }

  /** Where the data goes once no split is left in it. */
  function Route(cls: Classifier, p: Parser, num: PartNum, buffer: string): (s: Step)
    requires !p.InHeaders?
    ensures Weight(s.p) <= Weight(p) + 2 * |buffer|
    ensures p.Prologue? || p.InSection? ==>
      (s.p.Prologue? || s.p.InSection?) && s.p.boundary == p.boundary && s.p.digest == p.digest
    ensures p.InSection? <==> s.p.InSection?
    ensures p.InSection? ==> s.p.k == p.k
    decreases Weight(p) + 2 * |buffer|, p, 0
  {
    match p
    case InBody => Step(p, [PartData(num, buffer)])
    case Ignoring => Step(p, [])
    case Prologue(_, _) => Step(p, [])
    case InSection(boundary, digest, saved, k, sub) =>
      var (passed, held) := WithholdLastLine(saved + buffer);
      var s := if buffer != "" then Dispatch(cls, sub, num + [Child(k)], passed, true) else Step(sub, []);
      assert |passed| + |held| == |saved| + |buffer|;
      Step(InSection(boundary, digest, held, k, s.p), s.events)
    case Embedded(sub) =>
      var s := if buffer != "" then Dispatch(cls, sub, num + [MessageBody], buffer, true) else Step(sub, []);
      Step(Embedded(s.p), s.events)
  }

  /** A delimiter line was found: the open part, if any, gets what was withheld and ends. */
  function HandleSplit(cls: Classifier, p: Parser, num: PartNum, split: Split): (s: Step)
    requires p.Prologue? || p.InSection?
    ensures Weight(s.p) <= 1
    ensures !s.p.InHeaders?
    decreases Weight(p), p, 0
  {
    var closed :=
      if p.InSection? then
        var saved := if split.start == split.mark.dashes then DropEol(p.saved) else p.saved;
        DropEolPrefix(p.saved);
        var s := if saved != "" then Dispatch(cls, p.sub, num + [Child(p.k)], saved, true) else Step(p.sub, []);
        s.events + DispatchEOF(cls, s.p, num + [Child(p.k)])
      else [];
    if split.mark.closing then Step(Ignoring, closed)
    else Step(InSection(p.boundary, p.digest, "", if p.InSection? then p.k + 1 else 1, InHeaders(p.digest, "")), closed)
  }

  function DispatchEOF(cls: Classifier, p: Parser, num: PartNum): seq<Event>
    decreases Weight(p), p, 4
  {
    LastEvents(cls, p, num) + [EndPart(num)]
  }

  /** What a part still has to say before it ends. */
  function LastEvents(cls: Classifier, p: Parser, num: PartNum): seq<Event>
    decreases Weight(p), p, 3
  {
    match p
    case InHeaders(_, data) => [StartPart(num, data)]
    case InBody => []
    case Ignoring => []
    case Prologue(_, _) => []
    case InSection(_, _, saved, k, sub) =>
      var s := if saved != "" then Dispatch(cls, sub, num + [Child(k)], ConditionToEndOnCRLF(saved).0, true)
               else Step(sub, []);
      assert |saved| == |ConditionToEndOnCRLF(saved).0| + |ConditionToEndOnCRLF(saved).1|;
      s.events + DispatchEOF(cls, s.p, num + [Child(k)])
    case Embedded(sub) => DispatchEOF(cls, sub, num + [MessageBody])
  }

  // Packets

  /** The parser of a whole message: text not yet passed on, and whether the message has been announced. */
  datatype Session = Session(p: Parser, hold: string, started: bool)

  function DeliverData(cls: Classifier, s: Session, buffer: string): (Session, seq<Event>) {
    var (packet, hold) := ConditionToEndOnCRLF(s.hold + buffer);
    if packet == "" then (s.(hold := hold), [])
    else
      var step := Dispatch(cls, s.p, [], packet, true);
      (Session(step.p, hold, true), (if s.started then [] else [StartMessage]) + step.events)
  }

  function DeliverEOF(cls: Classifier, s: Session): seq<Event> {
    var step := if s.hold != "" then Dispatch(cls, s.p, [], s.hold, true) else Step(s.p, []);
    (if s.started then [] else [StartMessage]) + step.events + DispatchEOF(cls, step.p, []) + [EndMessage]
  }

  /** All the events of a message delivered in the given buffers. */
  function Run(cls: Classifier, s: Session, buffers: seq<string>): seq<Event>
    decreases |buffers|
  {
    if buffers == [] then DeliverEOF(cls, s)
    else
      var (t, events) := DeliverData(cls, s, buffers[0]);
      events + Run(cls, t, buffers[1..])
  }

  const NEW_SESSION := Session(InHeaders(false, ""), "", false)
}
