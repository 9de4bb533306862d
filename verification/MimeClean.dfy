/** The texts that packages/crypto/src/jsmimeparser/rawMimeParser.js reads alike however they are cut: several CRs in a
    row do no harm in headers, in bodies, and in the parts of a multipart that is closed, unless it is itself in a part
    of another multipart. */
module MimeClean {
  import opened MimeText
  import opened MimeTree

  /** The text ends in two CRs, and that is not all. */
  predicate EndsInCRs(t: string) {
    |t| >= 3 && t[|t| - 1] == CR && t[|t| - 2] == CR
  }

  /** The text of a part with the line end before the delimiter line, or up to the end of a multipart that is never
      closed. */
  ghost predicate CleanPart(t: string, ended: bool, nested: bool) {
    (nested ==> NoDoubleCR(t)) && (!ended ==> !EndsInCRs(t))
  }

  /** A message text, or that of a part when nested. */
  ghost predicate Clean(cls: Classifier, text: string, digest: bool, nested: bool)
    decreases |text|, 1, 0
  {
    match HeaderEnd(text)
    case None => true
    case Some((i, n)) => CleanBody(cls, cls(text[..i], digest), text[i + n..], nested)
  }

  ghost predicate CleanBody(cls: Classifier, kind: Kind, body: string, nested: bool)
    decreases |body| + 1, 0, 0
  {
    match kind
    case Discrete => true
    case Message => Clean(cls, body, false, nested)
    case Multipart(None, _) => true
    case Multipart(Some(boundary), digest) =>
      match NextMark(body, boundary)
      case None => true
      case Some(m) => m.closing || CleanParts(cls, body[m.end..], boundary, digest, nested)
  }

  /** The parts of a multipart, from just after a delimiter line. */
  ghost predicate CleanParts(cls: Classifier, t: string, boundary: string, digest: bool, nested: bool)
    decreases |t|, 2, 0
  {
    match NextMark(t, boundary)
    case None => CleanPart(t, false, nested) && Clean(cls, KeepTerminated(t), digest, true)
    case Some(m) =>
      && CleanPart(t[..m.dashes], true, nested) && Clean(cls, DropEol(t[..m.dashes]), digest, true)
      && (m.closing || CleanParts(cls, t[m.end..], boundary, digest, nested))
  }

  lemma CleanPartSuffix(a: string, b: string, ended: bool, nested: bool)
    requires CleanPart(a + b, ended, nested)
    ensures CleanPart(b, ended, nested)
  {
    if nested {
      NoDoubleCRPart(a, b);
    }
    if EndsInCRs(b) {
      assert (a + b)[|a + b| - 1] == b[|b| - 1] && (a + b)[|a + b| - 2] == b[|b| - 2];
    }
  }

  // Sufficient conditions

  lemma PlainPrefix(a: string, t: string)
    requires NoDoubleCR(t) && a <= t
    ensures NoDoubleCR(a)
  {
    assert t == a + t[|a|..];
    NoDoubleCRPart(a, t[|a|..]);
  }

  lemma PlainSuffix(t: string, n: nat)
    requires NoDoubleCR(t) && n <= |t|
    ensures NoDoubleCR(t[n..])
  {
    assert t == t[..n] + t[n..];
    NoDoubleCRPart(t[..n], t[n..]);
  }

  /** Text in which no CR follows another one is clean, whatever is in it. */
  lemma {:induction false} PlainIsClean(cls: Classifier, text: string, digest: bool, nested: bool)
    requires NoDoubleCR(text)
    ensures Clean(cls, text, digest, nested)
    decreases |text|, 1, 0
  {
    hide HeaderEnd, NextMark, NoDoubleCR, KeepTerminated;
    match HeaderEnd(text)
    case None =>
    case Some((i, n)) =>
      PlainSuffix(text, i + n);
      PlainBody(cls, cls(text[..i], digest), text[i + n..], nested);
  }

  lemma {:induction false} PlainBody(cls: Classifier, kind: Kind, body: string, nested: bool)
    requires NoDoubleCR(body)
    ensures CleanBody(cls, kind, body, nested)
    decreases |body| + 1, 0, 0
  {
    hide HeaderEnd, NextMark, NoDoubleCR, KeepTerminated;
    match kind
    case Message => PlainIsClean(cls, body, false, nested);
    case Multipart(Some(boundary), digest) =>
      if NextMark(body, boundary).Some? {
        var m := NextMark(body, boundary).value;
        PlainSuffix(body, m.end);
        PlainParts(cls, body[m.end..], boundary, digest, nested);
      }
    case _ =>
  }

  lemma {:induction false} PlainParts(cls: Classifier, t: string, boundary: string, digest: bool, nested: bool)
    requires NoDoubleCR(t)
    ensures CleanParts(cls, t, boundary, digest, nested)
    decreases |t|, 2, 0
  {
    hide HeaderEnd, NextMark, NoDoubleCR, KeepTerminated, DropEol;
    match NextMark(t, boundary)
    case None =>
      PlainPart(t, false, nested);
      KeepTerminatedPrefix(t);
      PlainPrefix(KeepTerminated(t), t);
      PlainIsClean(cls, KeepTerminated(t), digest, true);
    case Some(m) =>
      var part := t[..m.dashes];
      PlainPrefix(part, t);
      PlainPart(part, true, nested);
      DropEolPrefix(part);
      PlainPrefix(DropEol(part), part);
      PlainIsClean(cls, DropEol(part), digest, true);
      PlainSuffix(t, m.end);
      PlainParts(cls, t[m.end..], boundary, digest, nested);
  }

  lemma PlainPart(t: string, ended: bool, nested: bool)
    requires NoDoubleCR(t)
    ensures CleanPart(t, ended, nested)
  {
    assert |t| >= 2 ==> !(t[|t| - 2] == CR && t[|t| - 2 + 1] == CR);
  }

  lemma KeepTerminatedPrefix(t: string)
    ensures KeepTerminated(t) <= t
  {
    var l := t[LastLineStart(t)..];
    assert t == t[..LastLineStart(t)] + l;
  }

  /** A message without multiparts is clean. */
  lemma {:induction false} WithoutMultiparts(cls: Classifier, text: string, digest: bool, nested: bool)
    requires forall headers, digest :: !cls(headers, digest).Multipart?
    ensures Clean(cls, text, digest, nested)
    decreases |text|
  {
    hide HeaderEnd;
    match HeaderEnd(text)
    case None =>
    case Some((i, n)) =>
      if cls(text[..i], digest).Message? {
        WithoutMultiparts(cls, text[i + n..], false, nested);
      }
  }
}
