/** The line folder of packages/crypto/src/jsmimeparser/headerEmitter.js as a function of its state, and what
    it keeps: the margins, the text, and the preference for some breaks over others. The preferred breakpoints are
    recorded by the number of non-space characters before them, which no later break or trimming changes; the
    invariant says that none of them lies inside a line that has grown beyond the soft margin, and that in the
    current line none lies beyond the one remembered. */
module HeaderFolding {
  import opened HeaderText

  datatype Config = Config(softMargin: nat, hardMargin: nat, useASCII: bool) {
    /** The bounds that the constructor enforces. */
    predicate Valid() {
      30 <= softMargin <= 900 && softMargin <= hardMargin <= 998
    }
  }

  /** The lines delivered, the line being built, its last preferred breakpoint, and a record of the preferred
      breakpoints so far, each as the number of non-space characters before it. */
  datatype Emission = Emission(lines: seq<string>, cur: string, pref: nat, marks: set<nat>)

  /** A state, and whether the call returned rather than threw. */
  datatype Outcome = Outcome(e: Emission, ok: bool) {
    predicate IsFailure() {
      !ok
    }

    function PropagateFailure(): Outcome
      requires IsFailure()
    {
      this
    }

    function Extract(): Emission
      requires !IsFailure()
    {
      e
    }
  }

  const NEW_EMISSION := Emission([], "", 0, {})

  function Clip(s: string, count: nat): nat {
    if count <= |s| then count else |s|
  }

  /** Breaks the current line after count characters; the rest continues on the next line. */
  function Break(e: Emission, count: nat): Emission {
    var k := Clip(e.cur, count);
    Emission(e.lines + [TrimRight(e.cur[..k])], " " + TrimLeft(e.cur[k..]), 0, e.marks)
  }

  /** Ends the header. */
  function Finish(e: Emission): Emission {
    Emission(e.lines + [TrimRight(e.cur)], "", 0, e.marks)
  }

  function Reserve(c: Config, e: Emission, length: nat): Outcome {
    if |e.cur| + length <= c.softMargin then Outcome(e, true)
    else
      var e1 := if e.pref > 0 then Break(e, e.pref) else e;
      if |e1.cur| + length <= c.hardMargin then Outcome(e1, true)
      else
        var e2 := if e1.cur != "" then Break(e1, |e1.cur|) else e1;
        Outcome(e2, |e2.cur| + length <= c.hardMargin)
  }

  predicate EndsWith(s: string, c: char) {
    s != "" && s[|s| - 1] == c
  }

  /** What addText does once there is room. */
  function Append(e: Emission, text: string, mayBreakAfter: bool): Emission {
    var cur := e.cur + text;
    if mayBreakAfter then
      Emission(e.lines, if EndsWith(text, ' ') then cur else cur + " ", |cur|, e.marks + {|Added(e)| + |Ink(text)|})
    else e.(cur := cur)
  }

  function AddText(c: Config, e: Emission, text: string, mayBreakAfter: bool): Outcome {
    var o := Reserve(c, e, |text|);
    if o.ok then Outcome(Append(o.e, text, mayBreakAfter), true) else o
  }

  function AddHeaderName(c: Config, e: Emission, name: string): Outcome {
    var e1 := e.(cur := TrimRight(e.cur));
    AddText(c, if e1.cur != "" then Finish(e1) else e1, name + ": ", false)
  }

  // The text

  function InkOf(lines: seq<string>): string {
    if lines == [] then "" else InkOf(lines[..|lines| - 1]) + Ink(lines[|lines| - 1])
  }

  /** The non-space characters that have been added. */
  function Added(e: Emission): string {
    InkOf(e.lines) + Ink(e.cur)
  }

  lemma InkOfOneMore(lines: seq<string>, line: string)
    ensures InkOf(lines + [line]) == InkOf(lines) + Ink(line)
  {
    assert (lines + [line])[..|lines|] == lines;
  }

  lemma BreakKeepsText(e: Emission, count: nat)
    ensures Added(Break(e, count)) == Added(e)
  {
    hide TrimLeft, TrimRight, InkOf, Ink, IsSpace;
    var k := Clip(e.cur, count);
    var a, b := e.cur[..k], e.cur[k..];
    InkOfOneMore(e.lines, TrimRight(a));
    TrimRightKeepsInk(a);
    TrimLeftKeepsInk(b);
    assert e.cur == a + b;
    InkAppend(a, b);
    InkAppend(" ", TrimLeft(b));
    OneSpace();
    assert (InkOf(e.lines) + Ink(a)) + Ink(b) == InkOf(e.lines) + (Ink(a) + Ink(b));
  }

  lemma OneSpace()
    ensures Ink(" ") == "" && Ink("") == ""
  {
    assert IsSpace(' ');
  }

  lemma FinishKeepsText(e: Emission)
    ensures Added(Finish(e)) == Added(e)
  {
    hide TrimRight, InkOf, Ink;
    InkOfOneMore(e.lines, TrimRight(e.cur));
    TrimRightKeepsInk(e.cur);
    OneSpace();
  }

  lemma ReserveKeepsText(c: Config, e: Emission, length: nat)
    ensures Added(Reserve(c, e, length).e) == Added(e)
  {
    hide Break, Added;
    BreakKeepsText(e, e.pref);
    var e1 := if e.pref > 0 then Break(e, e.pref) else e;
    BreakKeepsText(e1, |e1.cur|);
  }

  lemma AppendText(e: Emission, text: string, mayBreakAfter: bool)
    ensures Added(Append(e, text, mayBreakAfter)) == Added(e) + Ink(text)
  {
    hide InkOf, Ink, EndsWith;
    InkAppend(e.cur, text);
    InkAppend(e.cur + text, " ");
    OneSpace();
    Associative(InkOf(e.lines), Ink(e.cur), Ink(text));
    Associative(Ink(e.cur), Ink(text), "");
  }

  lemma Associative(a: string, b: string, c: string)
    ensures a + b + c == a + (b + c)
    ensures a + b + "" == a + b
  {
  }

  /** Adding text adds exactly its characters, at the end; when it throws, none. */
  lemma AddTextAdds(c: Config, e: Emission, text: string, mayBreakAfter: bool)
    ensures var o := AddText(c, e, text, mayBreakAfter);
            Added(o.e) == Added(e) + if o.ok then Ink(text) else ""
  {
    hide Reserve, Append, Added;
    ReserveKeepsText(c, e, |text|);
    AppendText(Reserve(c, e, |text|).e, text, mayBreakAfter);
  }

  /** What the handler has been given: each line with its CRLF. */
  function Delivered(lines: seq<string>): string {
    if lines == [] then "" else Delivered(lines[..|lines| - 1]) + lines[|lines| - 1] + "\r\n"
  }

  lemma DeliveredMore(lines: seq<string>, line: string)
    ensures Delivered(lines + [line]) == Delivered(lines) + line + "\r\n"
  {
    assert (lines + [line])[..|lines|] == lines;
  }

  // The margins

  /** Every mark lies at or before the position. */
  ghost predicate UpTo(marks: set<nat>, position: int) {
    forall m :: m in marks ==> m <= position
  }

  /** No mark lies strictly inside the stretch. */
  ghost predicate Unmarked(marks: set<nat>, from: int, to: int) {
    forall m :: m in marks ==> !(from < m < to)
  }

  /** Line i is within the hard margin, and beyond the soft one has no preferred breakpoint inside. */
  ghost predicate GoodLine(c: Config, lines: seq<string>, i: nat, marks: set<nat>)
    requires i < |lines|
  {
    && |lines[i]| <= c.hardMargin
    && (|lines[i]| > c.softMargin ==> Unmarked(marks, |InkOf(lines[..i])|, |InkOf(lines[..i + 1])|))
  }

  ghost predicate GoodLines(c: Config, lines: seq<string>, marks: set<nat>) {
    forall i :: 0 <= i < |lines| ==> GoodLine(c, lines, i, marks)
  }

  /** What every call keeps: the delivered lines are within the hard margin, those beyond the soft margin have
      no preferred breakpoint inside, and the current line can still be broken that way. */
  ghost predicate Folded(c: Config, e: Emission) {
    var base := |InkOf(e.lines)|;
    && GoodLines(c, e.lines, e.marks)
    && |e.cur| <= c.hardMargin + 1
    && (|e.cur| == c.hardMargin + 1 ==> e.cur[c.hardMargin] == ' ')
    && UpTo(e.marks, |Added(e)|)
    && (UpTo(e.marks, base) || (0 < e.pref <= |e.cur| && UpTo(e.marks, base + |Ink(e.cur[..e.pref])|)))
    && (|TrimRight(e.cur)| > c.softMargin ==> Unmarked(e.marks, base, base + |Ink(e.cur)|))
  }

  lemma GoodLinesMore(c: Config, lines: seq<string>, line: string, marks: set<nat>)
    requires GoodLines(c, lines, marks) && |line| <= c.hardMargin
    requires |line| > c.softMargin ==> Unmarked(marks, |InkOf(lines)|, |InkOf(lines)| + |Ink(line)|)
    ensures GoodLines(c, lines + [line], marks)
  {
    hide GoodLine;
    var more := lines + [line];
    forall i | 0 <= i < |more|
      ensures GoodLine(c, more, i, marks)
    {
      if i < |lines| {
        assert GoodLine(c, lines, i, marks);
        OldLine(c, lines, line, i, marks);
      } else {
        LastLine(c, lines, line, marks);
      }
    }
  }

  lemma OldLine(c: Config, lines: seq<string>, line: string, i: nat, marks: set<nat>)
    requires i < |lines| && GoodLine(c, lines, i, marks)
    ensures GoodLine(c, lines + [line], i, marks)
  {
    var more := lines + [line];
    assert more[..i] == lines[..i] && more[..i + 1] == lines[..i + 1];
  }

  lemma LastLine(c: Config, lines: seq<string>, line: string, marks: set<nat>)
    requires |line| <= c.hardMargin
    requires |line| > c.softMargin ==> Unmarked(marks, |InkOf(lines)|, |InkOf(lines)| + |Ink(line)|)
    ensures GoodLine(c, lines + [line], |lines|, marks)
  {
    hide InkOf, Ink, Unmarked;
    var more := lines + [line];
    assert more[..|lines|] == lines && more[..|lines| + 1] == more;
    InkOfOneMore(lines, line);
  }

  /** A line cut off at or after the last mark is good. */
  lemma CutLine(c: Config, e: Emission, k: nat)
    requires c.Valid() && Folded(c, e) && k <= |e.cur|
    ensures GoodLines(c, e.lines + [TrimRight(e.cur[..k])], e.marks)
    ensures |InkOf(e.lines + [TrimRight(e.cur[..k])])| == |InkOf(e.lines)| + |Ink(e.cur[..k])|
    ensures |InkOf(e.lines)| + |Ink(e.cur[..k])| <= |Added(e)|
  {
    hide InkOf, Ink, TrimRight, IsSpace, GoodLines;
    var a := e.cur[..k];
    var line := TrimRight(a);
    TrimPrefix(e.cur, k);
    assert e.cur == a + e.cur[k..];
    InkAppend(a, e.cur[k..]);
    if k == c.hardMargin + 1 {
      assert a == e.cur && |line| <= c.hardMargin by {
        SpaceAtEnd(a);
      }
    }
    TrimRightKeepsInk(a);
    GoodLinesMore(c, e.lines, line, e.marks);
    InkOfOneMore(e.lines, line);
  }

  lemma SpaceAtEnd(s: string)
    requires EndsWith(s, ' ')
    ensures |TrimRight(s)| < |s|
  {
    assert IsSpace(' ');
  }

  lemma BreakKeeps(c: Config, e: Emission, count: nat)
    requires c.Valid() && Folded(c, e) && 0 < count
    requires UpTo(e.marks, |InkOf(e.lines)| + |Ink(e.cur[..Clip(e.cur, count)])|)
    ensures Folded(c, Break(e, count))
    ensures UpTo(e.marks, |InkOf(Break(e, count).lines)|)
    ensures Break(e, count).cur != ""
  {
    hide InkOf, Ink, TrimRight, TrimLeft, IsSpace, GoodLines, UpTo, Unmarked, Added;
    var k := Clip(e.cur, count);
    CutLine(c, e, k);
    BreakKeepsText(e, count);
    var next := Break(e, count);
    assert UpTo(e.marks, |InkOf(next.lines)|);
    Continuation(e.cur, k, c.hardMargin);
    NothingInside(e.marks, |InkOf(next.lines)|, |InkOf(next.lines)| + |Ink(next.cur)|);
  }

  /** The rest of a line, moved to the next one, is no longer than the line was. */
  lemma Continuation(cur: string, k: nat, hardMargin: nat)
    requires k <= |cur| <= hardMargin + 1 && 1 <= hardMargin && (k == 0 ==> cur == "")
    requires |cur| == hardMargin + 1 ==> cur[hardMargin] == ' '
    ensures var next := " " + TrimLeft(cur[k..]);
            |next| <= hardMargin + 1 && (|next| == hardMargin + 1 ==> next[hardMargin] == ' ')
  {
    hide IsSpace;
    var next := " " + TrimLeft(cur[k..]);
    if |next| == hardMargin + 1 {
      assert next[hardMargin] == TrimLeft(cur[k..])[hardMargin - 1] == cur[k..][hardMargin - 1];
    }
  }

  lemma NothingInside(marks: set<nat>, from: int, to: int)
    requires UpTo(marks, from)
    ensures Unmarked(marks, from, to)
  {
  }

  lemma FinishKeeps(c: Config, e: Emission)
    requires c.Valid() && Folded(c, e)
    ensures Folded(c, Finish(e))
  {
    hide InkOf, Ink, TrimRight, GoodLines, UpTo, Unmarked;
    CutLine(c, e, |e.cur|);
    assert e.cur[..|e.cur|] == e.cur;
    FinishKeepsText(e);
    OneSpace();
    assert TrimRight("") <= "";
    NothingInside(e.marks, |InkOf(Finish(e).lines)|, |InkOf(Finish(e).lines)|);
  }

  /** Making room keeps the invariant, and leaves no mark in a line that will go beyond the soft margin. */
  lemma ReserveKeeps(c: Config, e: Emission, length: nat)
    requires c.Valid() && Folded(c, e)
    ensures var o := Reserve(c, e, length);
            && Folded(c, o.e)
            && (o.ok ==> |o.e.cur| + length <= c.hardMargin)
            && (|o.e.cur| + length <= c.softMargin || UpTo(o.e.marks, |InkOf(o.e.lines)|))
  {
    hide InkOf, Ink, Break, GoodLines, Unmarked;
    if |e.cur| + length > c.softMargin {
      var e1 := if e.pref > 0 then Break(e, e.pref) else e;
      if e.pref > 0 {
        var base := |InkOf(e.lines)|;
        assert UpTo(e.marks, base + |Ink(e.cur[..Clip(e.cur, e.pref)])|);
        BreakKeeps(c, e, e.pref);
        assert e1.marks == e.marks by {
          BreakKeepsMarks(e, e.pref);
        }
      }
      assert UpTo(e1.marks, |InkOf(e1.lines)|);
      if e1.cur != "" {
        BreakKeeps(c, e1, |e1.cur|);
        BreakKeepsMarks(e1, |e1.cur|);
      }
    }
  }

  lemma BreakKeepsMarks(e: Emission, count: nat)
    ensures Break(e, count).marks == e.marks
  {
  }

  lemma {:induction false} InkOfPrefix(lines: seq<string>, i: nat)
    requires i <= |lines|
    ensures |InkOf(lines[..i])| <= |InkOf(lines)|
  {
    if i < |lines| {
      var n := |lines| - 1;
      assert lines[..n][..i] == lines[..i];
      InkOfPrefix(lines[..n], i);
    } else {
      assert lines[..i] == lines;
    }
  }

  lemma GoodLinesMark(c: Config, lines: seq<string>, marks: set<nat>, mark: nat)
    requires GoodLines(c, lines, marks) && mark >= |InkOf(lines)|
    ensures GoodLines(c, lines, marks + {mark})
  {
    hide InkOf;
    forall i | 0 <= i < |lines|
      ensures GoodLine(c, lines, i, marks + {mark})
    {
      assert GoodLine(c, lines, i, marks);
      InkOfPrefix(lines, i + 1);
    }
  }

  lemma TrimSpace(s: string)
    ensures |TrimRight(s)| <= |s| && TrimRight(s + " ") == TrimRight(s)
  {
    assert (s + " ")[..|s|] == s && IsSpace(' ');
  }

  lemma AppendKeeps(c: Config, e: Emission, text: string, mayBreakAfter: bool)
    requires c.Valid() && Folded(c, e) && |e.cur| + |text| <= c.hardMargin
    requires |e.cur| + |text| <= c.softMargin || UpTo(e.marks, |InkOf(e.lines)|)
    ensures Folded(c, Append(e, text, mayBreakAfter))
  {
    hide InkOf, Ink, TrimRight, GoodLines, UpTo, Unmarked, IsSpace;
    var base, cur, next := |InkOf(e.lines)|, e.cur + text, Append(e, text, mayBreakAfter);
    var mark := |Added(e)| + |Ink(text)|;
    AppendText(e, text, mayBreakAfter);
    InkAppend(e.cur, text);
    InkAppend(cur, " ");
    OneSpace();
    TrimSpace(cur);
    GoodLinesMark(c, e.lines, e.marks, mark);
    MarksAppend(e.marks, base, |Added(e)|, mark);
    assert UpTo(next.marks, |Added(next)|);
    assert |Ink(next.cur)| == mark - base;
    if mayBreakAfter {
      assert next.cur[..|cur|] == cur;
      assert UpTo(next.marks, base + |Ink(next.cur[..next.pref])|);
    } else if !UpTo(e.marks, base) {
      assert cur[..e.pref] == e.cur[..e.pref];
      assert UpTo(next.marks, base + |Ink(next.cur[..next.pref])|);
    }
  }

  lemma MarksAppend(marks: set<nat>, base: nat, last: nat, mark: nat)
    requires UpTo(marks, last) && last <= mark && base <= last
    ensures UpTo(marks, mark) && UpTo(marks + {mark}, mark)
    ensures UpTo(marks, base) ==> Unmarked(marks, base, mark) && Unmarked(marks + {mark}, base, mark)
  {
  }

  lemma AddTextKeeps(c: Config, e: Emission, text: string, mayBreakAfter: bool)
    requires c.Valid() && Folded(c, e)
    ensures Folded(c, AddText(c, e, text, mayBreakAfter).e)
  {
    hide Folded, InkOf, Append, Reserve, UpTo;
    ReserveKeeps(c, e, |text|);
    var o := Reserve(c, e, |text|);
    if o.ok {
      AppendKeeps(c, o.e, text, mayBreakAfter);
    }
  }

  /** Starting a header ends the one before it, or drops the space that was all the line held. */
  lemma AddHeaderNameKeeps(c: Config, e: Emission, name: string)
    requires c.Valid() && Folded(c, e)
    ensures var o := AddHeaderName(c, e, name);
            Folded(c, o.e) && Added(o.e) == Added(e) + if o.ok then Ink(name + ": ") else ""
  {
    hide Folded, AddText, TrimRight, Added;
    var e1 := e.(cur := TrimRight(e.cur));
    var e2 := if e1.cur != "" then Finish(e1) else e1;
    if e1.cur != "" {
      TrimTwice(e.cur);
      FinishKeeps(c, e);
      FinishKeepsText(e);
      assert e2 == Finish(e);
    } else {
      BlankLine(c, e);
    }
    AddTextKeeps(c, e2, name + ": ", false);
    AddTextAdds(c, e2, name + ": ", false);
  }

  lemma TrimTwice(s: string)
    ensures TrimRight(TrimRight(s)) == TrimRight(s)
  {
  }

  lemma BlankLine(c: Config, e: Emission)
    requires c.Valid() && Folded(c, e) && TrimRight(e.cur) == ""
    ensures Folded(c, e.(cur := "")) && Added(e.(cur := "")) == Added(e)
  {
    hide InkOf, Ink, TrimRight, GoodLines, UpTo, Unmarked, IsSpace;
    TrimRightKeepsInk(e.cur);
    OneSpace();
    TrimSpace("");
    NothingInside(e.marks, |InkOf(e.lines)|, |InkOf(e.lines)|);
    if !UpTo(e.marks, |InkOf(e.lines)|) {
      var k := e.pref;
      assert e.cur == e.cur[..k] + e.cur[k..];
      InkAppend(e.cur[..k], e.cur[k..]);
    }
  }
}
