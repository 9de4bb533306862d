/** Text scanning behind packages/crypto/src/jsmimeparser/rawMimeParser.js: line boundaries, the end of a
    header block, and multipart delimiter lines (section 5.1.1 of RFC 2046). For each there is what the source
    looks for, a definition in terms of lines, and the fact that a cut between two lines makes no difference: what
    is found in the text before the cut stays found, and nothing is found across it. */
module MimeText {
  import opened Results

  const CR := '\r'
  const LF := '\n'

  predicate IsEol(c: char) {
    c == CR || c == LF
  }

  /** No carriage return is followed by another one. */
  ghost predicate NoDoubleCR(t: string) {
    forall i :: 0 <= i < |t| - 1 ==> !(t[i] == CR && t[i + 1] == CR)
  }

  // Line boundaries

  /** A line begins at p: a CRLF pair is never cut. */
  predicate LineStart(t: string, p: nat)
    requires p <= |t|
  {
    p == 0 || t[p - 1] == LF || (t[p - 1] == CR && !(p < |t| && t[p] == LF))
  }

  /** Cutting a + b between the two falls on a line boundary. */
  predicate Cut(a: string, b: string) {
    a == "" || b == "" || a[|a| - 1] == LF || (a[|a| - 1] == CR && b[0] != LF)
  }

  /** One line, with its terminator if it has one. */
  ghost predicate IsLine(s: string) {
    forall p :: 0 < p < |s| ==> !LineStart(s, p)
  }

  /** The text without a final CRLF, CR or LF. */
  function DropEol(t: string): string {
    if t == "" then ""
    else if t[|t| - 1] == LF then
      if |t| >= 2 && t[|t| - 2] == CR then t[..|t| - 2] else t[..|t| - 1]
    else if t[|t| - 1] == CR then t[..|t| - 1]
    else t
  }

  /** The greatest line start below p, or 0. */
  function LastStartBelow(t: string, p: nat): (q: nat)
    requires p <= |t|
    ensures q == 0 || q < p
  {
    if p == 0 then 0
    else if LineStart(t, p - 1) then p - 1
    else LastStartBelow(t, p - 1)
  }

  function LastLineStart(t: string): (q: nat)
    ensures q <= |t|
    ensures t != "" ==> q < |t|
  {
    LastStartBelow(t, |t|)
  }

  ghost predicate IsLastLineStart(t: string, q: nat)
    requires q <= |t|
  {
    LineStart(t, q) && forall r :: q < r < |t| ==> !LineStart(t, r)
  }

  lemma LastStartBelowFacts(t: string, p: nat)
    requires p <= |t|
    ensures LineStart(t, LastStartBelow(t, p))
    ensures forall r :: LastStartBelow(t, p) < r < p ==> !LineStart(t, r)
  {
  }

  lemma LastLineStartFacts(t: string)
    ensures IsLastLineStart(t, LastLineStart(t))
  {
    LastStartBelowFacts(t, |t|);
  }

  lemma LastLineStartUnique(t: string, q: nat)
    requires q <= |t| && (t != "" ==> q < |t|) && IsLastLineStart(t, q)
    ensures LastLineStart(t) == q
  {
    LastLineStartFacts(t);
    var l := LastLineStart(t);
    assert !(l < q) && !(q < l);
  }

  /** The last occurrence of c at or below index i; like lastIndexOf, a negative i counts as 0. */
  function LastIndex(t: string, c: char, i: int): (r: int)
    ensures -1 <= r < |t|
    decreases if i < 0 then 0 else i + 1
  {
    if t == "" then -1
    else if i <= 0 then (if t[0] == c then 0 else -1)
    else if i >= |t| then LastIndex(t, c, |t| - 1)
    else if t[i] == c then i
    else LastIndex(t, c, i - 1)
  }

  lemma LastIndexFacts(t: string, c: char, i: int)
    ensures LastIndex(t, c, i) >= 0 ==> t[LastIndex(t, c, i)] == c
    ensures i >= 0 ==> LastIndex(t, c, i) <= i
    ensures forall k :: LastIndex(t, c, i) < k < |t| && k <= i ==> t[k] != c
    decreases if i < 0 then 0 else i + 1
  {
  }

  /** Cuts a buffer after its last line end; a final CR is not yet known to be one. */
  function ConditionToEndOnCRLF(buffer: string): (r: (string, string))
    ensures r.0 + r.1 == buffer
  {
    var lastCR := LastIndex(buffer, CR, |buffer| - 2);
    var lastLF := LastIndex(buffer, LF, |buffer| - 1);
    var end := if lastLF > lastCR then lastLF else lastCR;
    (buffer[..end + 1], buffer[end + 1..])
  }

  /** Whatever text follows, the cut never separates a CR from its LF: except when the buffer is a lone CR,
      which is passed on at once. */
  lemma ConditionCuts(buffer: string, next: string)
    ensures Cut(ConditionToEndOnCRLF(buffer).0, ConditionToEndOnCRLF(buffer).1 + next)
       <==> !(buffer == "\r" && next != "" && next[0] == LF)
  {
    LastIndexFacts(buffer, CR, |buffer| - 2);
    LastIndexFacts(buffer, LF, |buffer| - 1);
    var (a, b) := ConditionToEndOnCRLF(buffer);
    if a != "" && b != "" {
      assert (b + next)[0] == b[0] == buffer[|a|];
    }
    if b == "" {
      assert b + next == next;
    }
  }

  predicate IsTerminator(s: string) {
    s == "" || s == [LF] || s == [CR] || s == [CR, LF]
  }

  /** Where the final terminator of a buffer, if any, begins. */
  function TerminatorStart(buffer: string): (p: nat)
    ensures p <= |buffer|
    ensures IsTerminator(buffer[p..])
    ensures buffer != "" && IsEol(buffer[|buffer| - 1]) ==> p < |buffer|
  {
    var n := |buffer|;
    var s := if n > 0 && buffer[n - 1] == LF then n - 1 else n;
    assert s < n ==> buffer[s..] == [LF];
    if s > 0 && buffer[s - 1] == CR then
      assert buffer[s - 1..] == [CR] + buffer[s..];
      s - 1
    else s
  }

  /** The line withheld while more data may follow, as a multipart body cannot yet tell whether its
      terminator belongs to a delimiter. */
  function WithholdLastLine(buffer: string): (r: (string, string))
    ensures r.0 + r.1 == buffer
  {
    var p := TerminatorStart(buffer);
    var (preLF, rest) := ConditionToEndOnCRLF(buffer[..p]);
    assert preLF + (rest + buffer[p..]) == (preLF + rest) + buffer[p..] == buffer;
    (preLF, rest + buffer[p..])
  }

  /** A buffer is cut after its last line end; a final CR is not one, unless it is all there is. */
  lemma ConditionEnds(u: string)
    requires u != "\r"
    ensures var a := ConditionToEndOnCRLF(u).0;
            && a == u[..|a|]
            && (a != "" ==> IsEol(u[|a| - 1]))
            && (|a| == |u| > 0 ==> u[|u| - 1] == LF)
            && forall k :: |a| <= k < |u| ==> u[k] != LF && (u[k] == CR ==> k == |u| - 1)
  {
    LastIndexFacts(u, CR, |u| - 2);
    LastIndexFacts(u, LF, |u| - 1);
    hide LastIndex;
    var lastCR, lastLF := LastIndex(u, CR, |u| - 2), LastIndex(u, LF, |u| - 1);
    assert ConditionToEndOnCRLF(u).0 == u[..(if lastLF > lastCR then lastLF else lastCR) + 1];
  }

  /** The text ends in two CRs, or in two CRs and a LF, and that is not all. */
  predicate EndsInTwoCRs(t: string) {
    (|t| >= 3 && Pair(t, |t| - 2, CR, CR)) || (|t| >= 4 && Pair(t, |t| - 3, CR, CR) && t[|t| - 1] == LF)
  }

  /** Withholding splits exactly at the last line start, except that with two CRs at the end it holds back two
      lines at least. */
  lemma WithholdIsLastLine(t: string)
    ensures WithholdLastLine(t) == (t[..LastLineStart(t)], t[LastLineStart(t)..]) <==> !EndsInTwoCRs(t)
  {
    TerminatorAfterCR(t);
    hide ConditionToEndOnCRLF, LastLineStart, EndsInTwoCRs;
    var p := TerminatorStart(t);
    var u := t[..p];
    var a := ConditionToEndOnCRLF(u).0;
    if p > 0 && t[p - 1] == CR {
      AfterCR(t, p);
      if p == 1 {
        assert u == "\r";
        ConditionOfCR();
        SuffixOf(t, 1, a, WithholdLastLine(t).1);
      } else {
        ConditionEnds(u);
      }
    } else {
      PassedIsLines(t, a);
      SuffixOf(t, |a|, a, WithholdLastLine(t).1);
    }
  }

  lemma ConditionOfCR()
    ensures ConditionToEndOnCRLF("\r") == ("\r", "")
  {
    assert "\r"[..1] == "\r" && "\r"[1..] == "";
  }

  lemma TerminatorAfterCR(t: string)
    ensures var p := TerminatorStart(t); EndsInTwoCRs(t) <==> p >= 2 && t[p - 1] == CR
  {
  }

  /** The final terminator is a line of its own when a CR comes before it. */
  lemma AfterCR(t: string, p: nat)
    requires p == TerminatorStart(t) && p > 0 && t[p - 1] == CR
    ensures LastLineStart(t) == p < |t|
  {
    hide LastLineStart;
    assert p < |t| && t[p] == CR && |t| - p <= 2;
    assert LineStart(t, p);
    LastLineStartUnique(t, p);
  }

  lemma PassedIsLines(t: string, a: string)
    requires var p := TerminatorStart(t); (p > 0 ==> t[p - 1] != CR) && a == ConditionToEndOnCRLF(t[..p]).0
    ensures |a| <= |t| && a == t[..|a|] && LastLineStart(t) == |a|
  {
    var p := TerminatorStart(t);
    hide ConditionToEndOnCRLF, TerminatorStart, LastLineStart, LineStart;
    var u := t[..p];
    ConditionEnds(u);
    var q := |a|;
    assert a == u[..q] == t[..q];
    assert forall k :: q <= k < p ==> t[k] == u[k];
    LastLineStartIs(t, q, p);
  }

  lemma SuffixOf(t: string, q: nat, a: string, b: string)
    requires a + b == t && |a| == q
    ensures b == t[q..]
  {
  }

  /** A cut after e characters: at the last line end, a final CR not being one. */
  lemma ConditionAt(t: string, e: nat)
    requires e <= |t| && t != "\r"
    requires e > 0 ==> t[e - 1] == LF || (t[e - 1] == CR && e < |t|)
    requires forall k :: e <= k < |t| ==> t[k] != LF && (t[k] == CR ==> k == |t| - 1)
    ensures ConditionToEndOnCRLF(t) == (t[..e], t[e..])
  {
    var lastCR, lastLF := LastIndex(t, CR, |t| - 2), LastIndex(t, LF, |t| - 1);
    LastIndexFacts(t, CR, |t| - 2);
    LastIndexFacts(t, LF, |t| - 1);
    hide LastIndex;
    if t == "" {
    } else if e > 0 {
      assert t[e - 1] == LF ==> lastLF == e - 1;
      assert t[e - 1] == CR ==> lastCR == e - 1;
    } else {
      assert lastLF == -1 && lastCR == -1;
    }
  }

  /** What a buffer is cut into, recognized. */
  lemma ConditionIs(a: string, b: string)
    requires a + b != "\r"
    requires a != "" ==> a[|a| - 1] == LF || (a[|a| - 1] == CR && b != "")
    requires forall k :: 0 <= k < |b| ==> b[k] != LF && (b[k] == CR ==> k == |b| - 1)
    ensures ConditionToEndOnCRLF(a + b) == (a, b)
  {
    var t := a + b;
    assert t[..|a|] == a && t[|a|..] == b;
    assert forall k :: |a| <= k < |t| ==> t[k] == b[k - |a|];
    assert a != "" ==> t[|a| - 1] == a[|a| - 1];
    ConditionAt(t, |a|);
  }

  /** What is withheld, recognized. */
  lemma WithholdIs(a: string, b: string, terminator: string)
    requires ConditionToEndOnCRLF(a + b) == (a, b) && TerminatorStart(a + b + terminator) == |a + b|
    ensures WithholdLastLine(a + b + terminator) == (a, b + terminator)
  {
    var t := a + b + terminator;
    assert t[..|a + b|] == a + b && t[|a + b|..] == terminator;
  }

  lemma NoDoubleCREnd(t: string)
    requires NoDoubleCR(t)
    ensures !EndsInTwoCRs(t)
  {
  }

  lemma LastLineStartIs(t: string, q: nat, p: nat)
    requires q <= p <= |t| && IsTerminator(t[p..])
    requires p == |t| && t != "" ==> !IsEol(t[|t| - 1])
    requires q > 0 ==> IsEol(t[q - 1])
    requires p > 0 ==> t[p - 1] != CR
    requires forall k :: q <= k < p ==> !IsEol(t[k])
    ensures LastLineStart(t) == q
  {
    assert |t| - p <= 2;
    assert forall k :: p <= k < |t| ==> t[k] == t[p..][k - p];
    assert LineStart(t, q) || q == |t|;
    forall r | q < r < |t|
      ensures !LineStart(t, r)
    {
      assert r <= p ==> !IsEol(t[r - 1]);
    }
    LastLineStartUnique(t, q);
  }

  /** What is passed on of a withheld line that nothing follows: all of it, unless it lacks a terminator
      or ends in a CR and has text before that. */
  function Released(line: string): string {
    if line == "\r" || (line != "" && line[|line| - 1] == LF) then line else ""
  }

  lemma ConditionReleases(line: string)
    requires IsLine(line)
    ensures ConditionToEndOnCRLF(line).0 == Released(line)
  {
    LastIndexFacts(line, CR, |line| - 2);
    LastIndexFacts(line, LF, |line| - 1);
    var (a, b) := ConditionToEndOnCRLF(line);
    if a != "" && |a| < |line| {
      assert LineStart(line, |a|);
      assert false;
    }
    if line != "" && line[|line| - 1] == LF {
      assert a == line;
    }
  }

  /** All the text but an unterminated last line. */
  function KeepTerminated(t: string): string {
    t[..LastLineStart(t)] + Released(t[LastLineStart(t)..])
  }

  // Properties of cuts

  lemma CutPrefix(a: string, b: string, c: string)
    requires Cut(a, b + c)
    ensures Cut(a, b)
  {
    if b != "" {
      assert (b + c)[0] == b[0];
    }
  }

  lemma NoDoubleCRPart(a: string, b: string)
    requires NoDoubleCR(a + b)
    ensures NoDoubleCR(a) && NoDoubleCR(b)
  {
    forall i | 0 <= i < |a| - 1
      ensures !(a[i] == CR && a[i + 1] == CR)
    {
      assert (a + b)[i] == a[i] && (a + b)[i + 1] == a[i + 1];
    }
    forall i | 0 <= i < |b| - 1
      ensures !(b[i] == CR && b[i + 1] == CR)
    {
      assert (a + b)[|a| + i] == b[i] && (a + b)[|a| + i + 1] == b[i + 1];
    }
  }

  /** Line starts of a + b are those of a and those of b. */
  lemma LineStartsAppend(a: string, b: string, p: nat)
    requires Cut(a, b) && p <= |a| + |b|
    ensures p < |a| || (p == |a| && b == "") ==> (LineStart(a + b, p) <==> LineStart(a, p))
    ensures p >= |a| && b != "" ==> (LineStart(a + b, p) <==> LineStart(b, p - |a|))
  {
    var t := a + b;
    if p < |a| || (p == |a| && b == "") {
      assert p > 0 ==> t[p - 1] == a[p - 1];
      assert p < |a| ==> t[p] == a[p];
    } else if b != "" {
      assert p > |a| ==> t[p - 1] == b[p - |a| - 1];
      assert p < |t| ==> t[p] == b[p - |a|];
      assert p == |a| && p > 0 ==> t[p - 1] == a[p - 1];
    }
  }

  lemma LastLineAppend(a: string, b: string)
    requires Cut(a, b) && b != ""
    ensures LastLineStart(a + b) == |a| + LastLineStart(b)
  {
    var t := a + b;
    var q := |a| + LastLineStart(b);
    LastLineStartFacts(b);
    LineStartsAppend(a, b, q);
    forall r | q < r < |t|
      ensures !LineStart(t, r)
    {
      LineStartsAppend(a, b, r);
    }
    LastLineStartUnique(t, q);
  }

  lemma KeepTerminatedAppend(a: string, b: string)
    requires Cut(a, b) && (b == "" ==> a == "")
    ensures KeepTerminated(a + b) == a + KeepTerminated(b)
  {
    hide LastLineStart, Released;
    var t := a + b;
    if b == "" {
      assert t == b && a + KeepTerminated(b) == KeepTerminated(b);
    } else {
      LastLineAppend(a, b);
      var l := LastLineStart(b);
      assert t[..|a| + l] == a + b[..l];
      assert t[|a| + l..] == b[l..];
      assert (a + b[..l]) + Released(b[l..]) == a + (b[..l] + Released(b[l..]));
    }
  }

  lemma DropEolAppend(a: string, b: string)
    requires Cut(a, b) && (b == "" ==> a == "")
    ensures DropEol(a + b) == a + DropEol(b)
  {
    var t := a + b;
    if b != "" {
      assert t[|t| - 1] == b[|b| - 1];
      if |b| >= 2 {
        assert t[|t| - 2] == b[|b| - 2];
        assert t[..|t| - 2] == a + b[..|b| - 2];
      } else if a != "" {
        assert t[|t| - 2] == a[|a| - 1];
      }
      assert t[..|t| - 1] == a + b[..|b| - 1];
    }
  }

  lemma DropEolPrefix(t: string)
    ensures DropEol(t) <= t
  {
  }

  /** A part of a line that starts where the line does is a line. */
  lemma LastLineIsLine(t: string)
    ensures IsLine(t[LastLineStart(t)..])
    ensures Cut(t[..LastLineStart(t)], t[LastLineStart(t)..])
  {
    LastLineStartFacts(t);
    var q := LastLineStart(t);
    var l := t[q..];
    forall p | 0 < p < |l|
      ensures !LineStart(l, p)
    {
      assert !LineStart(t, q + p);
      assert l[p - 1] == t[q + p - 1] && l[p] == t[q + p];
    }
    if q > 0 && l != "" {
      assert l[0] == t[q];
    }
  }

  // The end of a header block

  predicate Pair(t: string, i: nat, c: char, d: char) {
    i + 2 <= |t| && t[i] == c && t[i + 1] == d
  }

  /** The length of a match of the header terminator at i: at the very start a single line end will do,
      elsewhere it takes two equal ones. */
  function HeaderStop(t: string, i: nat): Option<nat> {
    if i == 0 && Pair(t, 0, CR, LF) then Some(2)
    else if i == 0 && t != "" && IsEol(t[0]) then Some(1)
    else if Pair(t, i, CR, LF) && Pair(t, i + 2, CR, LF) then Some(4)
    else if Pair(t, i, CR, CR) || Pair(t, i, LF, LF) then Some(2)
    else None
  }

  function HeaderStopFrom(t: string, i: nat): (r: Option<(nat, nat)>)
    requires i <= |t|
    ensures r.Some? ==> i <= r.value.0 && r.value.1 >= 1 && r.value.0 + r.value.1 <= |t|
    decreases |t| - i
  {
    match HeaderStop(t, i)
    case Some(n) => Some((i, n))
    case None => if i == |t| then None else HeaderStopFrom(t, i + 1)
  }

  /** Where the header block ends: position and length of the leftmost terminator. */
  function HeaderEnd(t: string): (r: Option<(nat, nat)>)
    ensures r.Some? ==> r.value.1 >= 1 && r.value.0 + r.value.1 <= |t|
  {
    HeaderStopFrom(t, 0)
  }

  ghost predicate IsFirstStop(t: string, from: nat, r: Option<(nat, nat)>) {
    match r
    case None => forall j :: from <= j <= |t| ==> HeaderStop(t, j).None?
    case Some((i, n)) => HeaderStop(t, i) == Some(n) && forall j :: from <= j < i ==> HeaderStop(t, j).None?
  }

  lemma HeaderStopFromFacts(t: string, i: nat)
    requires i <= |t|
    ensures IsFirstStop(t, i, HeaderStopFrom(t, i))
    decreases |t| - i
  {
  }

  lemma HeaderStopFromUnique(t: string, i: nat, k: nat, n: nat)
    requires i <= k <= |t| && IsFirstStop(t, i, Some((k, n)))
    ensures HeaderStopFrom(t, i) == Some((k, n))
    decreases |t| - i
  {
  }

  /** A header terminator once seen stays the first one when more text arrives. */
  lemma HeaderEndStable(x: string, r: string)
    requires Cut(x, r) && HeaderEnd(x).Some?
    ensures HeaderEnd(x + r) == HeaderEnd(x)
  {
    var (i, n) := HeaderEnd(x).value;
    HeaderStopFromFacts(x, 0);
    HeaderStopStable(x, r, i, n);
    forall j | 0 <= j < i
      ensures HeaderStop(x + r, j).None?
    {
      assert HeaderStop(x, j).None?;
      NoEarlierStop(x, r, i, n, j);
    }
    HeaderStopFromUnique(x + r, 0, i, n);
  }

  lemma HeaderStopStable(x: string, r: string, i: nat, n: nat)
    requires Cut(x, r) && i + n <= |x| && HeaderStop(x, i) == Some(n)
    ensures HeaderStop(x + r, i) == Some(n)
  {
    var t := x + r;
    assert forall k :: 0 <= k < |x| ==> t[k] == x[k];
    assert |x| < |t| ==> t[|x|] == r[0];
  }

  lemma NoEarlierStop(x: string, r: string, i: nat, n: nat, j: nat)
    requires j < i && i + n <= |x| && HeaderStop(x, i) == Some(n) && HeaderStop(x, j).None?
    ensures HeaderStop(x + r, j).None?
  {
    assert forall k :: 0 <= k < |x| ==> (x + r)[k] == x[k];
  }

  // Delimiter lines

  predicate IsBlank(s: string) {
    forall i :: 0 <= i < |s| ==> s[i] == ' ' || s[i] == '\t'
  }

  /** A line's content is a delimiter (`Some(false)`) or the closing delimiter (`Some(true)`). */
  function Delimiter(content: string, boundary: string): Option<bool> {
    var dash := "--" + boundary;
    if !(dash <= content) then None
    else
      var tail := content[|dash|..];
      if "--" <= tail && IsBlank(tail[2..]) then Some(true)
      else if IsBlank(tail) then Some(false)
      else None
  }

  /** The first line-end character at or after p. */
  function ContentEnd(t: string, p: nat): (e: nat)
    requires p <= |t|
    ensures p <= e <= |t|
    decreases |t| - p
  {
    if p == |t| || IsEol(t[p]) then p else ContentEnd(t, p + 1)
  }

  lemma ContentEndFacts(t: string, p: nat)
    requires p <= |t|
    ensures forall k :: p <= k < ContentEnd(t, p) ==> !IsEol(t[k])
    ensures ContentEnd(t, p) < |t| ==> IsEol(t[ContentEnd(t, p)])
    decreases |t| - p
  {
  }

  /** Past the terminator of the line whose content ends at e. */
  function LineEnd(t: string, e: nat): (q: nat)
    requires e <= |t|
    ensures e <= q <= |t|
    ensures e < |t| ==> e < q
  {
    if e == |t| then e
    else if t[e] == CR && e + 1 < |t| && t[e + 1] == LF then e + 2
    else e + 1
  }

  /** A delimiter line: `dashes` is where its content begins, `end` where the next line does. */
  datatype Mark = Mark(dashes: nat, end: nat, closing: bool)

  function MarkAt(t: string, q: nat, boundary: string): (m: Option<Mark>)
    requires q <= |t|
    ensures m.Some? ==> m.value.dashes == q && q + 2 <= m.value.end <= |t|
  {
    var e := ContentEnd(t, q);
    match Delimiter(t[q..e], boundary)
    case None => None
    case Some(closing) =>
      assert "--" + boundary <= t[q..e];
      assert |"--" + boundary| >= 2;
      Some(Mark(q, LineEnd(t, e), closing))
  }

  function NextMarkFrom(t: string, p: nat, boundary: string): (m: Option<Mark>)
    requires p <= |t|
    ensures m.Some? ==> p <= m.value.dashes && m.value.dashes + 2 <= m.value.end <= |t|
    decreases |t| - p
  {
    if LineStart(t, p) && MarkAt(t, p, boundary).Some? then MarkAt(t, p, boundary)
    else if p == |t| then None
    else NextMarkFrom(t, p + 1, boundary)
  }

  /** The first delimiter line of a text that begins at a line start. */
  function NextMark(t: string, boundary: string): (m: Option<Mark>)
    ensures m.Some? ==> m.value.dashes + 2 <= m.value.end <= |t|
  {
    NextMarkFrom(t, 0, boundary)
  }

  ghost predicate IsFirstMark(t: string, from: nat, boundary: string, m: Option<Mark>) {
    && (m.Some? ==> m.value.dashes <= |t| && LineStart(t, m.value.dashes) && MarkAt(t, m.value.dashes, boundary) == m)
    && forall k :: from <= k <= |t| && (m.Some? ==> k < m.value.dashes) && LineStart(t, k)
        ==> MarkAt(t, k, boundary).None?
  }

  lemma NextMarkFromFacts(t: string, p: nat, boundary: string)
    requires p <= |t|
    ensures IsFirstMark(t, p, boundary, NextMarkFrom(t, p, boundary))
    decreases |t| - p
  {
  }

  lemma NextMarkFacts(t: string, boundary: string)
    ensures IsFirstMark(t, 0, boundary, NextMark(t, boundary))
  {
    NextMarkFromFacts(t, 0, boundary);
  }

  lemma NextMarkUnique(t: string, boundary: string, m: Option<Mark>)
    requires IsFirstMark(t, 0, boundary, m)
    ensures NextMark(t, boundary) == m
  {
    NextMarkFacts(t, boundary);
    var n := NextMark(t, boundary);
    if n.Some? && m.Some? {
      assert !(n.value.dashes < m.value.dashes) && !(m.value.dashes < n.value.dashes);
    }
  }

  /** A match of the splitting expression: it starts at `start`, with the line end before the delimiter
      line, or with nothing when the buffer itself starts with that line. */
  datatype Split = Split(start: nat, mark: Mark)

  /** A match that starts at p. */
  function SplitAt(x: string, p: nat, boundary: string): (s: Option<Split>)
    requires p <= |x|
    ensures s.Some? ==> s.value.start == p <= s.value.mark.dashes
    ensures s.Some? ==> s.value.mark.dashes + 2 <= s.value.mark.end <= |x|
  {
    if p + 2 <= |x| && x[p] == CR && x[p + 1] == LF && MarkAt(x, p + 2, boundary).Some? then
      Some(Split(p, MarkAt(x, p + 2, boundary).value))
    else if p < |x| && IsEol(x[p]) && MarkAt(x, p + 1, boundary).Some? then
      Some(Split(p, MarkAt(x, p + 1, boundary).value))
    else if p == 0 && MarkAt(x, 0, boundary).Some? then
      Some(Split(0, MarkAt(x, 0, boundary).value))
    else None
  }

  function FindSplitFrom(x: string, p: nat, boundary: string): (s: Option<Split>)
    requires p <= |x|
    ensures s.Some? ==> p <= s.value.start <= s.value.mark.dashes && s.value.mark.dashes + 2 <= s.value.mark.end <= |x|
    decreases |x| - p
  {
    if SplitAt(x, p, boundary).Some? then SplitAt(x, p, boundary)
    else if p == |x| then None
    else FindSplitFrom(x, p + 1, boundary)
  }

  /** The leftmost match of the splitting expression in a buffer. */
  function FindSplit(x: string, boundary: string): (s: Option<Split>)
    ensures s.Some? ==> s.value.start <= s.value.mark.dashes && s.value.mark.dashes + 2 <= s.value.mark.end <= |x|
  {
    FindSplitFrom(x, 0, boundary)
  }

  ghost predicate IsFirstSplit(x: string, from: nat, boundary: string, s: Option<Split>) {
    && (s.Some? ==> s.value.start <= |x| && SplitAt(x, s.value.start, boundary) == s)
    && forall k :: from <= k <= |x| && (s.Some? ==> k < s.value.start) ==> SplitAt(x, k, boundary).None?
  }

  lemma FindSplitFacts(x: string, p: nat, boundary: string)
    requires p <= |x|
    ensures IsFirstSplit(x, p, boundary, FindSplitFrom(x, p, boundary))
    decreases |x| - p
  {
  }

  /** The line end a match starts with: it is all of the terminator of the line before the delimiter. */
  lemma SplitTakesLineEnd(x: string, boundary: string)
    requires FindSplit(x, boundary).Some?
    ensures var s := FindSplit(x, boundary).value;
            && (s.start == s.mark.dashes <==> s.mark.dashes == 0)
            && DropEol(x[..s.mark.dashes]) == x[..s.start]
  {
    hide FindSplit, MarkAt;
    var s := FindSplit(x, boundary).value;
    var d := s.mark.dashes;
    SplitShape(x, boundary);
    if d > 0 {
      assert x[..d][d - 1] == x[d - 1];
      assert d >= 2 ==> x[..d][d - 2] == x[d - 2];
      assert x[..d][..s.start] == x[..s.start];
    }
  }

  lemma SplitShape(x: string, boundary: string)
    requires FindSplit(x, boundary).Some?
    ensures var s := FindSplit(x, boundary).value;
            var d := s.mark.dashes;
            || (s.start == d == 0)
            || (d == s.start + 2 && Pair(x, s.start, CR, LF))
            || (d == s.start + 1 && IsEol(x[s.start]) && !(s.start > 0 && Pair(x, s.start - 1, CR, LF)))
  {
    hide MarkAt;
    FindSplitFacts(x, 0, boundary);
    var s := FindSplit(x, boundary).value;
    assert SplitAt(x, s.start, boundary) == Some(s);
    assert s.start > 0 ==> SplitAt(x, s.start - 1, boundary).None?;
  }

  /** The splitting expression finds the first delimiter line of the buffer. */
  lemma SplitIsNextMark(x: string, boundary: string)
    ensures match FindSplit(x, boundary)
            case None => NextMark(x, boundary).None?
            case Some(s) => NextMark(x, boundary) == Some(s.mark)
  {
    var f := FindSplit(x, boundary);
    forall q | 0 <= q <= |x| && LineStart(x, q) && MarkAt(x, q, boundary).Some?
      ensures f.Some? && f.value.mark.dashes <= q
    {
      MarkIsMatched(x, q, boundary);
    }
    NextMarkFacts(x, boundary);
    if f.Some? {
      SplitTakesLineEnd(x, boundary);
      SplitStartsLine(x, boundary);
      NextMarkUnique(x, boundary, Some(f.value.mark));
    }
  }

  lemma SplitStartsLine(x: string, boundary: string)
    requires FindSplit(x, boundary).Some?
    ensures var d := FindSplit(x, boundary).value.mark.dashes; LineStart(x, d) && MarkAt(x, d, boundary).Some?
    ensures FindSplit(x, boundary).value.mark == MarkAt(x, FindSplit(x, boundary).value.mark.dashes, boundary).value
  {
    FindSplitFacts(x, 0, boundary);
    MarkHasNoEol(x, FindSplit(x, boundary).value.mark.dashes, boundary);
  }

  /** A delimiter line is matched no later than its own line end. */
  lemma MarkIsMatched(x: string, q: nat, boundary: string)
    requires q <= |x| && LineStart(x, q) && MarkAt(x, q, boundary).Some?
    ensures FindSplit(x, boundary).Some? && FindSplit(x, boundary).value.mark.dashes <= q
  {
    hide MarkAt, FindSplit;
    var p := if q == 0 then 0 else if q >= 2 && Pair(x, q - 2, CR, LF) then q - 2 else q - 1;
    MarkHasNoEol(x, q, boundary);
    assert SplitAt(x, p, boundary) == Some(Split(p, MarkAt(x, q, boundary).value));
    EarliestSplit(x, p, boundary);
    var s := FindSplit(x, boundary).value;
    if s.start < p {
      SplitTakesLineEnd(x, boundary);
      SplitStartsLine(x, boundary);
      MarkHasNoEol(x, s.mark.dashes, boundary);
    }
  }

  lemma EarliestSplit(x: string, p: nat, boundary: string)
    requires p <= |x| && SplitAt(x, p, boundary).Some?
    ensures FindSplit(x, boundary).Some? && FindSplit(x, boundary).value.start <= p
    ensures FindSplit(x, boundary).value.start == p ==> FindSplit(x, boundary) == SplitAt(x, p, boundary)
  {
    FindSplitFacts(x, 0, boundary);
  }

  /** The dashes themselves are not a line end. */
  lemma MarkHasNoEol(t: string, q: nat, boundary: string)
    requires q <= |t| && MarkAt(t, q, boundary).Some?
    ensures q + 2 <= |t| && t[q] == '-' && t[q + 1] == '-'
  {
    var e := ContentEnd(t, q);
    var c := t[q..e];
    assert "--" + boundary <= c;
    assert c[0] == '-' && c[1] == '-';
  }

  // Delimiter lines across a cut

  /** A delimiter line that starts before the cut lies before the cut. */
  lemma MarkBeforeCut(x: string, r: string, q: nat, boundary: string)
    requires Cut(x, r) && q < |x|
    ensures MarkAt(x + r, q, boundary) == MarkAt(x, q, boundary)
  {
    var t := x + r;
    var e := ContentEnd(x, q);
    ContentEndFacts(x, q);
    if r == "" {
      assert t == x;
    } else {
      assert t[|x| - 1] == x[|x| - 1] && IsEol(x[|x| - 1]);
      assert forall k :: 0 <= k < |x| ==> t[k] == x[k];
      assert e < |x|;
      ContentEndUnique(t, q, e);
      assert t[q..e] == x[q..e];
      assert e + 1 == |x| ==> t[|x|] == r[0];
      assert LineEnd(t, e) == LineEnd(x, e);
    }
  }

  lemma ContentEndUnique(t: string, q: nat, e: nat)
    requires q <= e <= |t|
    requires forall k :: q <= k < e ==> !IsEol(t[k])
    requires e < |t| ==> IsEol(t[e])
    ensures ContentEnd(t, q) == e
  {
    ContentEndFacts(t, q);
    var f := ContentEnd(t, q);
    assert !(e < f) && !(f < e);
  }

  lemma MarkAfterCut(x: string, r: string, q: nat, boundary: string)
    requires q <= |r|
    ensures MarkAt(x + r, |x| + q, boundary) == Shift(MarkAt(r, q, boundary), |x|)
  {
    var t := x + r;
    hide Delimiter, ContentEnd;
    var e := ContentEnd(r, q);
    ContentEndFacts(r, q);
    assert forall k :: 0 <= k < |r| ==> t[|x| + k] == r[k];
    ContentEndUnique(t, |x| + q, |x| + e);
    assert t[|x| + q..|x| + e] == r[q..e];
    assert LineEnd(t, |x| + e) == |x| + LineEnd(r, e);
  }

  function Shift(m: Option<Mark>, n: nat): Option<Mark> {
    match m
    case None => None
    case Some(k) => Some(Mark(k.dashes + n, k.end + n, k.closing))
  }

  /** The first delimiter line is found in the text before the cut, or else in the text after it. */
  lemma NextMarkAppend(x: string, r: string, boundary: string)
    requires Cut(x, r)
    ensures NextMark(x + r, boundary)
         == if NextMark(x, boundary).Some? then NextMark(x, boundary) else Shift(NextMark(r, boundary), |x|)
  {
    var t := x + r;
    if r == "" {
      assert t == x;
      assert MarkAt("", 0, boundary).None?;
    } else {
      forall k | 0 <= k < |x|
        ensures LineStart(t, k) <==> LineStart(x, k)
        ensures MarkAt(t, k, boundary) == MarkAt(x, k, boundary)
      {
        LineStartsAppend(x, r, k);
        MarkBeforeCut(x, r, k, boundary);
      }
      forall k | 0 <= k <= |r|
        ensures LineStart(t, |x| + k) <==> LineStart(r, k)
        ensures MarkAt(t, |x| + k, boundary) == Shift(MarkAt(r, k, boundary), |x|)
      {
        LineStartsAppend(x, r, |x| + k);
        MarkAfterCut(x, r, k, boundary);
      }
      NextMarkJoin(t, x, r, boundary);
    }
  }

  lemma NextMarkJoin(t: string, x: string, r: string, boundary: string)
    requires |t| == |x| + |r|
    requires forall k :: 0 <= k < |x| ==> (LineStart(t, k) <==> LineStart(x, k))
    requires forall k :: 0 <= k < |x| ==> MarkAt(t, k, boundary) == MarkAt(x, k, boundary)
    requires forall k :: 0 <= k <= |r| ==> (LineStart(t, |x| + k) <==> LineStart(r, k))
    requires forall k :: 0 <= k <= |r| ==> MarkAt(t, |x| + k, boundary) == Shift(MarkAt(r, k, boundary), |x|)
    ensures NextMark(t, boundary)
         == if NextMark(x, boundary).Some? then NextMark(x, boundary) else Shift(NextMark(r, boundary), |x|)
  {
    NextMarkFacts(x, boundary);
    NextMarkFacts(r, boundary);
    var m, n := NextMark(x, boundary), NextMark(r, boundary);
    if m.Some? {
      assert m.value.dashes < |x|;
      NextMarkUnique(t, boundary, m);
    } else {
      var s := Shift(n, |x|);
      forall k | 0 <= k <= |t| && LineStart(t, k) && (s.Some? ==> k < s.value.dashes)
        ensures MarkAt(t, k, boundary).None?
      {
        if k >= |x| {
          assert MarkAt(t, |x| + (k - |x|), boundary) == Shift(MarkAt(r, k - |x|, boundary), |x|);
          assert LineStart(t, |x| + (k - |x|)) <==> LineStart(r, k - |x|);
        }
      }
      if n.Some? {
        assert LineStart(t, |x| + n.value.dashes);
      }
      NextMarkUnique(t, boundary, s);
    }
  }
}
