/** The meaning of a MIME message as one text: its parts, read off the text by the definitions of section
    5.1.1 of RFC 2046. Nothing here depends on how the text arrives. */
module MimeTree {
  import opened Results
  import opened MimeText

  /** One step of a part number: the k-th child of a multipart, or the body of an embedded message. */
  datatype Segment = Child(k: nat) | MessageBody
  type PartNum = seq<Segment>

  /** What a header block says about its body. */
  datatype Kind = Multipart(boundary: Option<string>, digest: bool) | Message | Discrete

  /** Header text, and whether the default type is message/rfc822, to the kind of the body. */
  type Classifier = (string, bool) -> Kind

  datatype Event =
    | StartMessage
    | EndMessage
    | StartPart(num: PartNum, headers: string)
    | EndPart(num: PartNum)
    | PartData(num: PartNum, data: string)

  /** Events with part data taken octet by octet, so that it does not matter how data is cut up. */
  datatype Atom =
    | Begin
    | Finish
    | Start(num: PartNum, headers: string)
    | End(num: PartNum)
    | Octet(num: PartNum, c: char)

  function Octets(num: PartNum, data: string): (a: seq<Atom>)
    ensures |a| == |data|
  {
    if data == "" then [] else [Octet(num, data[0])] + Octets(num, data[1..])
  }

  function Atoms(events: seq<Event>): seq<Atom> {
    if events == [] then [] else
      (match events[0]
       case StartMessage => [Begin]
       case EndMessage => [Finish]
       case StartPart(num, headers) => [Start(num, headers)]
       case EndPart(num) => [End(num)]
       case PartData(num, data) => Octets(num, data))
      + Atoms(events[1..])
  }

  lemma {:induction false} OctetsAppend(num: PartNum, a: string, b: string)
    ensures Octets(num, a + b) == Octets(num, a) + Octets(num, b)
  {
    if a == "" {
      assert a + b == b;
    } else {
      assert (a + b)[1..] == a[1..] + b;
      OctetsAppend(num, a[1..], b);
    }
  }

  lemma {:induction false} AtomsAppend(a: seq<Event>, b: seq<Event>)
    ensures Atoms(a + b) == Atoms(a) + Atoms(b)
  {
    if a == [] {
      assert a + b == b;
    } else {
      assert (a + b)[1..] == a[1..] + b;
      AtomsAppend(a[1..], b);
    }
  }

  ghost predicate Bounded(parts: seq<string>, n: nat) {
    forall s :: s in parts ==> |s| <= n
  }

  /** The parts of a text that begins just after a delimiter line: each runs to the line end before the next
      delimiter line. Without a closing delimiter the last part keeps its terminated lines. */
  function SectionsFrom(t: string, boundary: string): (parts: seq<string>)
    ensures Bounded(parts, |t|)
    decreases |t|
  {
    match NextMark(t, boundary)
    case None => [KeepTerminated(t)]
    case Some(m) =>
      [DropEol(t[..m.dashes])] + if m.closing then [] else SectionsFrom(t[m.end..], boundary)
  }

  /** The parts of a multipart body; what precedes the first delimiter line is ignored. */
  function Sections(body: string, boundary: string): (parts: seq<string>)
    ensures Bounded(parts, |body|)
  {
    match NextMark(body, boundary)
    case None => []
    case Some(m) => if m.closing then [] else SectionsFrom(body[m.end..], boundary)
  }

  /** The events of a message text. */
  function Tree(cls: Classifier, text: string, num: PartNum, digest: bool): seq<Atom>
    decreases |text|, 1, 0
  {
    match HeaderEnd(text)
    case None => [Start(num, text), End(num)]
    case Some((i, n)) =>
      [Start(num, text[..i])] + BodyTree(cls, cls(text[..i], digest), text[i + n..], num) + [End(num)]
  }

  function BodyTree(cls: Classifier, kind: Kind, body: string, num: PartNum): seq<Atom>
    decreases |body| + 1, 0, 0
  {
    match kind
    case Discrete => Octets(num, body)
    case Message => Tree(cls, body, num + [MessageBody], false)
    case Multipart(None, _) => []
    case Multipart(Some(boundary), digest) => Trees(cls, Sections(body, boundary), num, 1, digest, |body|)
  }

  /** The events of sibling parts, numbered from k. */
  function Trees(cls: Classifier, parts: seq<string>, num: PartNum, k: nat, digest: bool, bound: nat): seq<Atom>
    requires Bounded(parts, bound)
    decreases bound, 2, |parts|
  {
    if parts == [] then []
    else Tree(cls, parts[0], num + [Child(k)], digest) + Trees(cls, parts[1..], num, k + 1, digest, bound)
  }

  lemma {:induction false} TreesBound(cls: Classifier, parts: seq<string>, num: PartNum, k: nat, digest: bool, m: nat,
                                      n: nat)
    requires Bounded(parts, m) && Bounded(parts, n)
    ensures Trees(cls, parts, num, k, digest, m) == Trees(cls, parts, num, k, digest, n)
    decreases |parts|
  {
    if parts != [] {
      TreesBound(cls, parts[1..], num, k + 1, digest, m, n);
    }
  }

  // Brackets

  /** The outermost part has the empty number; any other one extends its parent's by a segment. */
  predicate MayOpen(open: seq<PartNum>, num: PartNum) {
    if open == [] then num == [] else num != [] && num[..|num| - 1] == open[|open| - 1]
  }

  /** The part numbers still open after some events, innermost last; None once an event is out of place:
      a part may only be opened as a child of the innermost open part, and only the innermost open part
      may be closed or receive data. */
  function Nesting(open: seq<PartNum>, atoms: seq<Atom>): Option<seq<PartNum>>
    decreases |atoms|
  {
    if atoms == [] then Some(open)
    else
      match atoms[0]
      case Begin => None
      case Finish => None
      case Start(num, _) =>
        if MayOpen(open, num) then Nesting(open + [num], atoms[1..]) else None
      case End(num) =>
        if open != [] && open[|open| - 1] == num then Nesting(open[..|open| - 1], atoms[1..]) else None
      case Octet(num, _) =>
        if open != [] && open[|open| - 1] == num then Nesting(open, atoms[1..]) else None
  }

  lemma {:induction false} NestingAppend(open: seq<PartNum>, a: seq<Atom>, b: seq<Atom>)
    ensures Nesting(open, a + b)
         == match Nesting(open, a)
            case None => None
            case Some(o) => Nesting(o, b)
    decreases |a|
  {
    if a == [] {
      assert a + b == b;
    } else {
      assert (a + b)[1..] == a[1..] + b;
      match a[0]
      case Begin =>
      case Finish =>
      case Start(num, _) => NestingAppend(open + [num], a[1..], b);
      case End(num) => if open != [] { NestingAppend(open[..|open| - 1], a[1..], b); }
      case Octet(_, _) => NestingAppend(open, a[1..], b);
    }
  }

  lemma {:induction false} OctetsNest(open: seq<PartNum>, num: PartNum, data: string)
    requires open != [] && open[|open| - 1] == num
    ensures Nesting(open, Octets(num, data)) == Some(open)
  {
    if data != "" {
      var a := Octets(num, data);
      assert a[1..] == Octets(num, data[1..]);
      OctetsNest(open, num, data[1..]);
    }
  }

  /** Every message's events are well bracketed inside their parent, whatever the text. */
  lemma {:induction false} TreeNests(cls: Classifier, text: string, num: PartNum, digest: bool, open: seq<PartNum>)
    requires MayOpen(open, num)
    ensures Nesting(open, Tree(cls, text, num, digest)) == Some(open)
    decreases |text|, 1, 0
  {
    hide BodyTree, Trees, Nesting, HeaderEnd;
    match HeaderEnd(text)
    case None =>
      assert Nesting(open + [num], []) == Some(open + [num]) by { NestingNone(open + [num]); }
      Bracketed(open, num, text, []);
      assert [Start(num, text)] + [] + [End(num)] == [Start(num, text), End(num)];
    case Some((i, n)) =>
      BodyNests(cls, cls(text[..i], digest), text[i + n..], num, open + [num]);
      Bracketed(open, num, text[..i], BodyTree(cls, cls(text[..i], digest), text[i + n..], num));
  }

  lemma NestingNone(open: seq<PartNum>)
    ensures Nesting(open, []) == Some(open)
  {
  }

  lemma Bracketed(open: seq<PartNum>, num: PartNum, headers: string, inner: seq<Atom>)
    requires MayOpen(open, num) && Nesting(open + [num], inner) == Some(open + [num])
    ensures Nesting(open, [Start(num, headers)] + inner + [End(num)]) == Some(open)
  {
    var a := [Start(num, headers)] + inner + [End(num)];
    assert a[1..] == inner + [End(num)];
    NestingAppend(open + [num], inner, [End(num)]);
    assert (open + [num])[..|open|] == open;
    assert [End(num)][1..] == [];
    assert Nesting(open + [num], [End(num)]) == Nesting(open, []);
  }

  lemma {:induction false} BodyNests(cls: Classifier, kind: Kind, body: string, num: PartNum, open: seq<PartNum>)
    requires open != [] && open[|open| - 1] == num
    ensures Nesting(open, BodyTree(cls, kind, body, num)) == Some(open)
    decreases |body| + 1, 0, 0
  {
    match kind
    case Discrete => OctetsNest(open, num, body);
    case Message =>
      assert (num + [MessageBody])[..|num|] == num;
      TreeNests(cls, body, num + [MessageBody], false, open);
    case Multipart(None, _) =>
    case Multipart(Some(boundary), digest) =>
      TreesNest(cls, Sections(body, boundary), num, 1, digest, |body|, open);
  }

  lemma {:induction false} TreesNest(cls: Classifier, parts: seq<string>, num: PartNum, k: nat, digest: bool,
                                     bound: nat,
                                     open: seq<PartNum>)
    requires Bounded(parts, bound)
    requires open != [] && open[|open| - 1] == num
    ensures Nesting(open, Trees(cls, parts, num, k, digest, bound)) == Some(open)
    decreases bound, 2, |parts|
  {
    if parts != [] {
      assert (num + [Child(k)])[..|num|] == num;
      TreeNests(cls, parts[0], num + [Child(k)], digest, open);
      TreesNest(cls, parts[1..], num, k + 1, digest, bound, open);
      NestingAppend(open, Tree(cls, parts[0], num + [Child(k)], digest),
                    Trees(cls, parts[1..], num, k + 1, digest, bound));
    }
  }
}
