/** The parser object of packages/crypto/src/jsmimeparser/rawMimeParser.js, proved against MimeStream: each
    method leaves the parser in the state, and its emitter with the calls, that the functions give. */
module MimeParserObject {
  import opened Results
  import opened MimeText
  import opened MimeTree
  import opened MimeStream

  /** The consumer's callbacks, as the list of calls made. */
  class Emitter {
    var log: seq<Event>

    constructor ()
      ensures log == []
    {
      log := [];
    }

    method Call(event: Event)
      modifies this
      ensures log == old(log) + [event]
    {
      log := log + [event];
    }
  }

  datatype State = PARSING_HEADERS | SEND_TO_BLACK_HOLE | SEND_TO_EMITTER | SEND_TO_SUBPARSER

  class MimeParser {
    const emitter: Emitter
    const cls: Classifier
    /** Whether the default content type is message/rfc822. */
    var digestDefault: bool
    var state: State
    var holdData: string
    var headerData: string
    var triggeredCall: bool
    /** The boundary that the splitting expression looks for, while there is one. */
    var splitBoundary: Option<string>
    var subparser: MimeParser?
    var subPartNum: Option<PartNum>
    var savedBuffer: string
    var count: nat
    ghost var Repr: set<object>

    /** The object is consistent as the parser of part num. */
    ghost predicate Valid(num: PartNum)
      reads this, Repr
      decreases Repr
    {
      && this in Repr && emitter !in Repr
      && match state
         case PARSING_HEADERS => splitBoundary.None? && savedBuffer == "" && subPartNum.None?
         case SEND_TO_EMITTER => splitBoundary.None?
         case SEND_TO_BLACK_HOLE => splitBoundary.Some? ==> SubparserOk() && subPartNum.None?
         case SEND_TO_SUBPARSER =>
           && SubparserOk()
           && (splitBoundary.Some? ==> count >= 1)
           && subPartNum == Some(num + [if splitBoundary.Some? then Child(count - 1) else MessageBody])
           && subparser.Repr < Repr && this !in subparser.Repr
           && subparser.Valid(subPartNum.value)
    }

    ghost predicate SubparserOk()
      reads this, Repr
    {
      && subparser != null && subparser in Repr && subparser != this
      && subparser.emitter == emitter && subparser.cls == cls
    }

    /** The state as MimeStream has it. */
    ghost function Value(num: PartNum): Parser
      requires Valid(num)
      reads this, Repr
      decreases Repr
    {
      match state
      case PARSING_HEADERS => InHeaders(digestDefault, headerData)
      case SEND_TO_EMITTER => InBody
      case SEND_TO_BLACK_HOLE =>
        if splitBoundary.Some? then Prologue(splitBoundary.value, subparser.digestDefault) else Ignoring
      case SEND_TO_SUBPARSER =>
        var sub := subparser.Value(subPartNum.value);
        if splitBoundary.Some? then
          InSection(splitBoundary.value, subparser.digestDefault, savedBuffer, count - 1, sub)
        else Embedded(sub)
    }

    lemma Shape(num: PartNum)
      requires Valid(num)
      ensures this in Repr && emitter !in Repr
      ensures state == PARSING_HEADERS <==> Value(num).InHeaders?
      ensures splitBoundary.Some? <==> Value(num).Prologue? || Value(num).InSection?
      ensures splitBoundary.Some? ==> state != SEND_TO_EMITTER && Value(num).boundary == splitBoundary.value
    {
    }

    constructor (emitter: Emitter, cls: Classifier, digestDefault: bool)
      ensures this.emitter == emitter && this.cls == cls && this.digestDefault == digestDefault
      ensures fresh(Repr) && Repr == {this}
      ensures forall num :: Valid(num) && Value(num) == InHeaders(digestDefault, "")
      ensures holdData == "" && !triggeredCall
    {
      this.emitter := emitter;
      this.cls := cls;
      this.digestDefault := digestDefault;
      new;
      ResetParser();
    }

    method ResetParser()
      modifies this
      ensures Repr == {this} && digestDefault == old(digestDefault)
      ensures forall num :: Valid(num) && Value(num) == InHeaders(digestDefault, "")
      ensures holdData == "" && !triggeredCall
    {
      state := PARSING_HEADERS;
      holdData := "";
      headerData := "";
      triggeredCall := false;
      splitBoundary := None;
      subparser := null;
      subPartNum := None;
      savedBuffer := "";
      Repr := {this};
    }

    /** Takes a packet of text. */
    method DispatchData(num: PartNum, buffer: string, checkSplit: bool)
      requires Valid(num)
      modifies Repr, emitter
      ensures Valid(num) && fresh(Repr - old(Repr))
      ensures unchanged(`digestDefault, `holdData, `triggeredCall)
      ensures var s := Dispatch(cls, old(Value(num)), num, buffer, checkSplit);
              Value(num) == s.p && emitter.log == old(emitter.log) + s.events
      decreases Weight(Value(num)) + 2 * |buffer|, Value(num), 2
    {
      hide DispatchBody, HeaderEnd;
      var text := buffer;
      if state == PARSING_HEADERS {
        headerData := headerData + text;
        var result := HeaderEnd(headerData);
        if result.None? {
          return;
        }
        var (i, n) := result.value;
        text := headerData[i + n..];
        headerData := headerData[..i];
        emitter.Call(StartPart(num, headerData));
        BeginBody(num, cls(headerData, digestDefault));
      }
      DispatchText(num, text, checkSplit);
    }

    /** Prepares the state in which the body is read. */
    method BeginBody(num: PartNum, kind: Kind)
      requires Valid(num) && state == PARSING_HEADERS
      modifies this
      ensures Valid(num) && fresh(Repr - old(Repr)) && state != PARSING_HEADERS
      ensures Value(num) == StartBody(kind)
      ensures unchanged(`digestDefault, `holdData, `triggeredCall)
    {
      match kind {
        case Multipart(boundary, digest) =>
          state := SEND_TO_BLACK_HOLE;
          if boundary.None? {
            return;
          }
          splitBoundary := boundary;
          subparser := new MimeParser(emitter, cls, digest);
          Repr := Repr + subparser.Repr;
        case Message =>
          state := SEND_TO_SUBPARSER;
          subPartNum := Some(num + [MessageBody]);
          subparser := new MimeParser(emitter, cls, false);
          Repr := Repr + subparser.Repr;
        case Discrete =>
          state := SEND_TO_EMITTER;
      }
    }

    /** The part of `_dispatchData` that runs once the headers are known. */
    method DispatchText(num: PartNum, buffer: string, checkSplit: bool)
      requires Valid(num) && state != PARSING_HEADERS
      modifies Repr, emitter
      ensures Valid(num) && fresh(Repr - old(Repr))
      ensures unchanged(`digestDefault, `holdData, `triggeredCall)
      ensures var s := DispatchBody(cls, old(Value(num)), num, buffer, checkSplit);
              Value(num) == s.p && emitter.log == old(emitter.log) + s.events
      decreases Weight(Value(num)) + 2 * |buffer|, Value(num), 1
    {
      hide Route, HandleSplit, FindSplit;
      if checkSplit && splitBoundary.Some? {
        var split := FindSplit(buffer, splitBoundary.value);
        if split.Some? {
          DispatchAround(num, buffer, split.value);
          return;
        }
      }
      RouteData(num, buffer);
    }

    /** Deals with the text before a split, the split, and the text after it. */
    method DispatchAround(num: PartNum, buffer: string, split: Split)
      requires Valid(num) && state != PARSING_HEADERS && splitBoundary.Some?
      requires FindSplit(buffer, splitBoundary.value) == Some(split)
      modifies Repr, emitter
      ensures Valid(num) && fresh(Repr - old(Repr))
      ensures unchanged(`digestDefault, `holdData, `triggeredCall)
      ensures var s := DispatchBody(cls, old(Value(num)), num, buffer, true);
              Value(num) == s.p && emitter.log == old(emitter.log) + s.events
      decreases Weight(Value(num)) + 2 * |buffer|, Value(num), 0
    {
      hide Route, HandleSplit, FindSplit, MimeParser.Value, MimeParser.Valid;
      Shape(num);
      ghost var p := Value(num);
      ghost var before := if split.start > 0 then Route(cls, p, num, buffer[..split.start]) else Step(p, []);
      ghost var at := HandleSplit(cls, before.p, num, split);
      ghost var log := emitter.log;
      if split.start > 0 {
        RouteData(num, buffer[..split.start]);
      }
      assert Value(num) == before.p && emitter.log == log + before.events;
      Shape(num);
      WhenMultipart(num, split);
      assert Value(num) == at.p && emitter.log == log + before.events + at.events;
      var rest := buffer[split.mark.end..];
      if rest != "" {
        DispatchText(num, rest, true);
      }
      ghost var after := if rest != "" then DispatchBody(cls, at.p, num, rest, true) else Step(at.p, []);
      Regrouped(log, before.events, at.events, after.events);
    }

    static lemma Regrouped(log: seq<Event>, a: seq<Event>, b: seq<Event>, c: seq<Event>)
      ensures log + a + b + c == log + (a + b + c)
      ensures log + a + [] == log + a
    {
    }

    /** Sends text without a split on to where the state says. */
    method RouteData(num: PartNum, buffer: string)
      requires Valid(num) && state != PARSING_HEADERS
      modifies Repr, emitter
      ensures Valid(num) && fresh(Repr - old(Repr)) && state == old(state)
      ensures unchanged(`digestDefault, `holdData, `triggeredCall, `splitBoundary)
      ensures var s := Route(cls, old(Value(num)), num, buffer);
              Value(num) == s.p && emitter.log == old(emitter.log) + s.events
      decreases Weight(Value(num)) + 2 * |buffer|, Value(num), 0
    {
      hide Dispatch, WithholdLastLine;
      match state {
        case SEND_TO_BLACK_HOLE =>
        case SEND_TO_EMITTER =>
          emitter.Call(PartData(num, buffer));
        case SEND_TO_SUBPARSER =>
          var coerced := ApplyDataConversion(buffer);
          if buffer != "" {
            Feed(num, coerced);
          }
      }
    }

    /** Passes text to the sub-parser. */
    method Feed(num: PartNum, text: string)
      requires Valid(num) && state == SEND_TO_SUBPARSER
      modifies Repr, emitter
      ensures Valid(num) && fresh(Repr - old(Repr))
      ensures unchanged(`digestDefault, `holdData, `triggeredCall, `splitBoundary, `savedBuffer, `subparser,
                        `subPartNum, `count, `state)
      ensures subparser.digestDefault == old(subparser.digestDefault)
      ensures var s := Dispatch(cls, old(subparser.Value(subPartNum.value)), subPartNum.value, text, true);
              subparser.Value(subPartNum.value) == s.p && emitter.log == old(emitter.log) + s.events
      decreases Weight(subparser.Value(subPartNum.value)) + 2 * |text|, subparser.Value(subPartNum.value), 3
    {
      subparser.DispatchData(subPartNum.value, text, true);
      Repr := Repr + subparser.Repr;
    }

    /** Passes on the last text, if there is any, and ends the sub-parser's part. */
    method EndSubparser(num: PartNum, feed: bool, last: string)
      requires Valid(num) && state == SEND_TO_SUBPARSER
      modifies Repr, emitter
      ensures this in Repr && emitter !in Repr && subparser in Repr && fresh(Repr - old(Repr))
      ensures unchanged(`digestDefault, `holdData, `triggeredCall, `splitBoundary, `subparser, `subPartNum, `count,
                        `state)
      ensures subparser.digestDefault == old(subparser.digestDefault)
      ensures var sub, n := old(subparser.Value(subPartNum.value)), subPartNum.value;
              var s := if feed then Dispatch(cls, sub, n, last, true) else Step(sub, []);
              emitter.log == old(emitter.log) + (s.events + MimeStream.DispatchEOF(cls, s.p, n))
      decreases Weight(subparser.Value(subPartNum.value)) + 2 * |last| + 1, subparser.Value(subPartNum.value), 0
    {
      hide Dispatch, MimeStream.DispatchEOF;
      ghost var log := emitter.log;
      ghost var s := if feed then Dispatch(cls, subparser.Value(subPartNum.value), subPartNum.value, last, true)
                     else Step(subparser.Value(subPartNum.value), []);
      if feed {
        Feed(num, last);
      }
      assert emitter.log == log + s.events;
      subparser.DispatchEOF(subPartNum.value);
      Joined(log, s.events, MimeStream.DispatchEOF(cls, s.p, subPartNum.value));
    }

    static lemma Joined(a: seq<Event>, b: seq<Event>, c: seq<Event>)
      ensures (a + b) + c == a + (b + c)
    {
    }

    /** In a multipart, withholds the last line. */
    method ApplyDataConversion(buffer: string) returns (coerced: string)
      modifies `savedBuffer
      ensures splitBoundary.Some? ==> (coerced, savedBuffer) == WithholdLastLine(old(savedBuffer) + buffer)
      ensures splitBoundary.None? ==> coerced == buffer && savedBuffer == old(savedBuffer)
    {
      coerced := buffer;
      if splitBoundary.Some? {
        var (passed, held) := WithholdLastLine(savedBuffer + buffer);
        coerced, savedBuffer := passed, held;
      }
    }

    /** Ends the open part, if any, at a delimiter line, and opens the next one unless the line closes the
        multipart. */
    method WhenMultipart(num: PartNum, split: Split)
      requires Valid(num) && (state == SEND_TO_BLACK_HOLE || state == SEND_TO_SUBPARSER) && splitBoundary.Some?
      modifies Repr, emitter
      ensures Valid(num) && fresh(Repr - old(Repr)) && state != PARSING_HEADERS
      ensures unchanged(`digestDefault, `holdData, `triggeredCall)
      ensures var s := HandleSplit(cls, old(Value(num)), num, split);
              Value(num) == s.p && emitter.log == old(emitter.log) + s.events
      decreases Weight(Value(num)), Value(num), 1
    {
      hide Dispatch, MimeStream.DispatchEOF, DropEol;
      ghost var p := Value(num);
      ghost var closed := HandleSplit(cls, p, num, split).events;
      ghost var log := emitter.log;
      if subPartNum.None? {
        count := 1;
        assert log + [] == log;
      } else {
        CloseOpenPart(num, split);
      }
      assert emitter.log == log + closed;
      assert count == if p.InSection? then p.k + 1 else 1;
      OpenNextPart(num, split.mark.closing);
    }

    /** The text withheld goes to the open part, less its line end if that belongs to the delimiter line. */
    method CloseOpenPart(num: PartNum, split: Split)
      requires Valid(num) && state == SEND_TO_SUBPARSER && splitBoundary.Some?
      modifies Repr, emitter
      ensures this in Repr && emitter !in Repr && SubparserOk() && fresh(Repr - old(Repr))
      ensures unchanged(`digestDefault, `holdData, `triggeredCall, `splitBoundary, `subparser, `count, `state)
      ensures subparser.digestDefault == old(subparser.digestDefault)
      ensures emitter.log == old(emitter.log) + HandleSplit(cls, old(Value(num)), num, split).events
      decreases Weight(Value(num)), Value(num), 0
    {
      hide Dispatch, MimeStream.DispatchEOF, DropEol;
      ghost var p := Value(num);
      ghost var saved := if split.start == split.mark.dashes then DropEol(p.saved) else p.saved;
      DropEolPrefix(savedBuffer);
      if savedBuffer != "" && split.start == split.mark.dashes {
        savedBuffer := DropEol(savedBuffer);
      }
      assert savedBuffer == saved;
      EndSubparser(num, savedBuffer != "", savedBuffer);
    }

    method OpenNextPart(num: PartNum, closing: bool)
      requires this in Repr && emitter !in Repr && SubparserOk() && splitBoundary.Some? && count >= 1
      modifies Repr
      ensures Valid(num) && fresh(Repr - old(Repr)) && state != PARSING_HEADERS
      ensures unchanged(`digestDefault, `holdData, `triggeredCall)
      ensures Value(num) ==
              if closing then Ignoring
              else InSection(old(splitBoundary.value), old(subparser.digestDefault), "", old(count),
                             InHeaders(old(subparser.digestDefault), ""))
    {
      savedBuffer := "";
      if !closing {
        subparser.ResetParser();
        state := SEND_TO_SUBPARSER;
        subPartNum := Some(num + [Child(count)]);
        count := count + 1;
      } else {
        splitBoundary := None;
        state := SEND_TO_BLACK_HOLE;
      }
    }

    /** No more text will come for this part. */
    method DispatchEOF(num: PartNum)
      requires Valid(num)
      modifies Repr, emitter
      ensures unchanged(`digestDefault)
      ensures emitter.log == old(emitter.log) + MimeStream.DispatchEOF(cls, old(Value(num)), num)
      decreases Weight(Value(num)), Value(num), 3
    {
      hide Dispatch, ConditionToEndOnCRLF, MimeStream.DispatchEOF;
      ghost var log, events := emitter.log, LastEvents(cls, Value(num), num);
      ghost var p := Value(num);
      if state == PARSING_HEADERS {
        emitter.Call(StartPart(num, headerData));
      } else if state == SEND_TO_SUBPARSER {
        var last := if splitBoundary.Some? then ConditionToEndOnCRLF(savedBuffer).0 else "";
        assert |last| <= |savedBuffer|;
        assert p.Embedded? ==> [] + MimeStream.DispatchEOF(cls, p.sub, num + [MessageBody]) == events;
        EndSubparser(num, splitBoundary.Some? && savedBuffer != "", last);
        subparser := null;
      } else {
        assert log + [] == log;
      }
      assert emitter.log == log + events;
      emitter.Call(EndPart(num));
      EofIs(cls, p, num);
      Joined(log, events, [EndPart(num)]);
    }

    static lemma EofIs(cls: Classifier, p: Parser, num: PartNum)
      ensures MimeStream.DispatchEOF(cls, p, num) == LastEvents(cls, p, num) + [EndPart(num)]
    {
    }

    /** The parser, as the parser of a whole message, in the terms of MimeStream. */
    ghost function Session(): Session
      requires Valid([])
      reads this, Repr
    {
      MimeStream.Session.Session(Value([]), holdData, triggeredCall)
    }

    /** Takes the next buffer of a message. */
    method DeliverData(buffer: string)
      requires Valid([])
      modifies Repr, emitter
      ensures Valid([]) && fresh(Repr - old(Repr))
      ensures var (s, events) := MimeStream.DeliverData(cls, old(Session()), buffer);
              Session() == s && emitter.log == old(emitter.log) + events
    {
      hide ConditionToEndOnCRLF, Dispatch, MimeParser.Valid, MimeParser.Value;
      var text := holdData + buffer;
      var (packet, hold) := ConditionToEndOnCRLF(text);
      Shape([]);
      Withhold(hold);
      if packet == "" {
        return;
      }
      Announce();
      DispatchData([], packet, true);
    }

    method Withhold(text: string)
      requires Valid([])
      modifies `holdData
      ensures Valid([]) && Value([]) == old(Value([])) && holdData == text
    {
      holdData := text;
    }

    /** Announces the message, once. */
    method Announce()
      requires Valid([])
      modifies `triggeredCall, emitter
      ensures Valid([]) && Value([]) == old(Value([])) && triggeredCall
      ensures emitter.log == old(emitter.log) + if old(triggeredCall) then [] else [StartMessage]
    {
      if !triggeredCall {
        emitter.Call(StartMessage);
        triggeredCall := true;
      }
    }

    /** The message is complete. */
    method DeliverEOF()
      requires Valid([])
      modifies Repr, emitter
      ensures emitter.log == old(emitter.log) + MimeStream.DeliverEOF(cls, old(Session()))
    {
      hide Dispatch, MimeStream.DispatchEOF, MimeParser.Valid, MimeParser.Value;
      Shape([]);
      Announce();
      if holdData != "" {
        DispatchData([], holdData, true);
      }
      DispatchEOF([]);
      emitter.Call(EndMessage);
    }
  }

  /** A whole message through one parser, however it is cut: the calls made are those of Run. */
  method ParseMessage(emitter: Emitter, cls: Classifier, buffers: seq<string>)
    modifies emitter
    ensures emitter.log == old(emitter.log) + Run(cls, NEW_SESSION, buffers)
  {
    hide MimeStream.DeliverData, MimeStream.DeliverEOF, MimeParser.Valid, MimeParser.Value;
    var parser := new MimeParser(emitter, cls, false);
    ghost var log := emitter.log;
    ghost var done: seq<Event> := [];
    for i := 0 to |buffers|
      invariant parser.Valid([]) && parser.emitter == emitter && parser.cls == cls && fresh(parser.Repr)
      invariant emitter.log == log + done
      invariant done + Run(cls, parser.Session(), buffers[i..]) == Run(cls, NEW_SESSION, buffers)
    {
      ghost var (s, events) := MimeStream.DeliverData(cls, parser.Session(), buffers[i]);
      RunOnce(cls, parser.Session(), buffers[i..]);
      parser.DeliverData(buffers[i]);
      assert buffers[i..][1..] == buffers[i + 1..];
      MimeParser.Joined(log, done, events);
      MimeParser.Joined(done, events, Run(cls, s, buffers[i + 1..]));
      done := done + events;
    }
    MimeParser.Joined(log, done, MimeStream.DeliverEOF(cls, parser.Session()));
    parser.DeliverEOF();
  }

  lemma RunOnce(cls: Classifier, s: Session, buffers: seq<string>)
    requires buffers != []
    ensures var (t, events) := MimeStream.DeliverData(cls, s, buffers[0]);
            Run(cls, s, buffers) == events + Run(cls, t, buffers[1..])
  {
  }
}
