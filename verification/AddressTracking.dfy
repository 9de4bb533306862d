/** Following the emitter's output with the address machine: where the folder may break, the machine does not
    notice more than white space between tokens. Beside the emitter's state stands the state that the machine is in
    after all that has been delivered and the line that is being built. The invariant says
    that the machine is calm at the end of the line and at the breakpoint remembered, that is, outside quotations,
    so that a line end and a space there can do no more than end a token; that the token is ended there anyway,
    because the breakpoint is beside a space, where a run of encoded-words may go on all the same; and that no mark
    has been written but those that begin encoded-words. With these, a break, a reservation and an addition each move
    the machine in the way the text alone would have done. */
module AddressTracking {
  import opened AddressForms
  import opened AddressMachine
  import opened HeaderFolding
  import opened HeaderPhrases
  import opened HeaderText
  import opened HeaderTokens
  import opened WordReading

  /** The delivered lines and y, after the head h. */
  function TextTo(e: Emission, h: string, y: string): string
    requires h <= Delivered(e.lines) + y
  {
    (Delivered(e.lines) + y)[|h|..]
  }

  /** The machine after that text. */
  function At(x: Reader, e: Emission, h: string, y: string): (m: Machine)
    requires h <= Delivered(e.lines) + y
    ensures IsMachine(m)
  {
    Feed(x, NEW_MACHINE, TextTo(e, h, y))
  }

  predicate Anchored(e: Emission, h: string, y: string) {
    h <= Delivered(e.lines) + TrimRight(y)
  }

  /** After y, less the white space at its end, the machine is outside quotations. */
  ghost predicate SafeAt(x: Reader, e: Emission, h: string, y: string) {
    && Anchored(e, h, y) && Readable(x, NEW_MACHINE, TextTo(e, h, TrimRight(y)))
    && Calm(At(x, e, h, TrimRight(y)))
  }

  predicate SpaceAround(s: string, k: nat) {
    0 < k <= |s| && (s[k - 1] == ' ' || (k < |s| && s[k] == ' '))
  }

  /** The emitter is in the middle of a header value that follows the head h, and wherever it can break the line
      the machine is between tokens, or in a run of encoded-words. */
  ghost predicate Tracks(x: Reader, e: Emission, h: string) {
    && IsPrintable(e.cur)
    && SafeAt(x, e, h, e.cur)
    && (e.pref > 0 ==> SpaceAround(e.cur, e.pref) && SafeAt(x, e, h, e.cur[..e.pref]))
  }

  /** The machine after all that has been written. */
  ghost function Now(x: Reader, e: Emission, h: string): (m: Machine)
    requires Tracks(x, e, h)
    ensures IsMachine(m)
  {
    At(x, e, h, e.cur)
  }

  // White space at the end

  lemma BlankTail(y: string)
    requires IsPrintable(y)
    ensures AllBlank(y[|TrimRight(y)|..]) && TrimRight(y) + y[|TrimRight(y)|..] == y
  {
    hide IsSpace, TrimRight;
    var t := TrimRight(y);
    forall i | 0 <= i < |y[|t|..]|
      ensures IsBlank(y[|t|..][i])
    {
      assert IsSpace(y[|t| + i]);
      PrintableSpace(y[|t| + i]);
    }
  }

  lemma PrintableSpace(c: char)
    requires ' ' <= c <= '~' && IsSpace(c)
    ensures c == ' ' && IsBlank(c)
  {
  }

  lemma AtAppend(x: Reader, e: Emission, h: string, y: string, z: string)
    requires h <= Delivered(e.lines) + y && Readable(x, NEW_MACHINE, TextTo(e, h, y)) && Joins(TextTo(e, h, y), z)
    ensures At(x, e, h, y + z) == Feed(x, At(x, e, h, y), z)
    ensures Readable(x, At(x, e, h, y), z) ==> Readable(x, NEW_MACHINE, TextTo(e, h, y + z))
    ensures TextTo(e, h, y + z) == TextTo(e, h, y) + z
  {
    hide Feed, Delivered, Readable, Joins;
    var d := Delivered(e.lines);
    assert (d + (y + z))[|h|..] == (d + y)[|h|..] + z;
    FeedAppend(x, NEW_MACHINE, (d + y)[|h|..], z);
  }

  lemma BlankJoins(a: string, b: string)
    requires (a != "" && IsBlank(a[|a| - 1])) || AllBlank(b) || (b != "" && IsBlank(b[0]))
    ensures Joins(a, b)
  {
    assert AllBlank(b) && b != "" ==> IsBlank(b[0]);
  }

  /** White space at the end of the text only shuts the open token. */
  lemma AtTrimmed(x: Reader, e: Emission, h: string, y: string)
    requires SafeAt(x, e, h, y) && IsPrintable(y)
    ensures var m := At(x, e, h, TrimRight(y));
            At(x, e, h, y) == if TrimRight(y) == y then m else Shut(x, m)
    ensures Calm(At(x, e, h, y)) && Shut(x, At(x, e, h, y)) == Shut(x, At(x, e, h, TrimRight(y)))
    ensures Readable(x, NEW_MACHINE, TextTo(e, h, y))
  {
    hide Feed, At, TrimRight, Shut, Readable, TextTo, Joins;
    BlankTail(y);
    var t := TrimRight(y);
    BlankJoins(TextTo(e, h, t), y[|t|..]);
    AtAppend(x, e, h, t, y[|t|..]);
    FeedBlanks(x, At(x, e, h, t), y[|t|..]);
    ShutTwice(x, At(x, e, h, t));
  }

  // Breaking

  /** The machine after a break: the token open before it is shut, then comes the rest without its indent. */
  lemma AtBreak(x: Reader, e: Emission, h: string, k: nat, z: string)
    requires k <= |e.cur| && SafeAt(x, e, h, e.cur[..k])
    ensures var e1, m := Break(e, k), At(x, e, h, TrimRight(e.cur[..k]));
            && h <= Delivered(e1.lines)
            && At(x, e1, h, "") == Shut(x, m) && Readable(x, NEW_MACHINE, TextTo(e1, h, ""))
            && At(x, e1, h, " " + z) == Feed(x, Shut(x, m), z)
            && (Readable(x, Shut(x, m), z) ==> Readable(x, NEW_MACHINE, TextTo(e1, h, " " + z)))
  {
    hide Feed, TrimRight, Shut, Delivered, Readable, Joins, At;
    var t := TrimRight(e.cur[..k]);
    var e1 := Break(e, k);
    var m := At(x, e, h, t);
    LineRead(x, e, e1, h, t);
    ShutTwice(x, m);
    BlankJoins(TextTo(e1, h, ""), " ");
    AtAppend(x, e1, h, "", " ");
    FeedBlanks(x, Shut(x, m), " ");
    assert "" + " " == " ";
    BlankJoins(TextTo(e1, h, " "), z);
    AtAppend(x, e1, h, " ", z);
  }

  /** The line end shuts the open token. */
  lemma LineRead(x: Reader, e: Emission, e1: Emission, h: string, t: string)
    requires h <= Delivered(e.lines) + t && Readable(x, NEW_MACHINE, TextTo(e, h, t)) && Calm(At(x, e, h, t))
    requires e1.lines == e.lines + [t]
    ensures h <= Delivered(e1.lines)
    ensures TextTo(e1, h, "") == TextTo(e, h, t) + "\r\n"
    ensures At(x, e1, h, "") == Shut(x, At(x, e, h, t)) && Readable(x, NEW_MACHINE, TextTo(e1, h, ""))
  {
    hide Feed, Shut, Delivered, Readable, Joins;
    DeliveredMore(e.lines, t);
    var d := Delivered(e.lines);
    var a := (d + t)[|h|..];
    assert (d + t + "\r\n" + "")[|h|..] == a + "\r\n";
    BlankJoins(a, "\r\n");
    FeedAppend(x, NEW_MACHINE, a, "\r\n");
    FeedBlanks(x, At(x, e, h, t), "\r\n");
  }

  /** Next to a space, the break changes nothing. */
  lemma {:induction false} BreakUnseen(x: Reader, e: Emission, h: string, k: nat, z: string)
    requires k <= |e.cur| && SafeAt(x, e, h, e.cur[..k]) && IsPrintable(e.cur) && IsPrintable(z)
    requires (k > 0 && e.cur[k - 1] == ' ') || (z != "" && z[0] == ' ')
    ensures var m := Shut(x, At(x, e, h, TrimRight(e.cur[..k])));
            && Feed(x, m, TrimLeft(z)) == At(x, e, h, e.cur[..k] + z)
            && (Readable(x, NEW_MACHINE, TextTo(e, h, e.cur[..k] + z)) ==> Readable(x, m, TrimLeft(z)))
  {
    hide Feed, TrimRight, Shut, At, IsSpace, Readable, Joins;
    var y := e.cur[..k];
    var m := At(x, e, h, TrimRight(y));
    AtTrimmed(x, e, h, y);
    var i := Indent(z);
    SpaceIsSpace();
    assert AllBlank(z[..i]) by {
      forall j | 0 <= j < i ensures IsBlank(z[..i][j]) { PrintableSpace(z[j]); }
    }
    SpaceAtCut(e, h, y, z);
    AtAppend(x, e, h, y, z);
    assert z == z[..i] + z[i..];
    BlanksFirst(x, At(x, e, h, y), z[..i], z[i..]);
    ShutTwice(x, m);
    if Readable(x, NEW_MACHINE, TextTo(e, h, y + z)) {
      ReadableAfter(x, e, h, y, z);
    }
    if z == "" || z[0] != ' ' {
      assert y[|y| - 1] == ' ' && TrimRight(y) != y;
    } else {
      assert i > 0;
    }
  }

  lemma SpaceAtCut(e: Emission, h: string, y: string, z: string)
    requires h <= Delivered(e.lines) + TrimRight(y) && ((y != "" && y[|y| - 1] == ' ') || (z != "" && z[0] == ' '))
    ensures Joins(TextTo(e, h, y), z)
    ensures z == "" || IsBlank(z[0]) || TextTo(e, h, y) == "" || IsBlank(TextTo(e, h, y)[|TextTo(e, h, y)| - 1])
  {
    hide TrimRight, Delivered;
    var a := TextTo(e, h, y);
    if a != "" && y != "" {
      assert a[|a| - 1] == y[|y| - 1];
    }
  }

  lemma ReadableAfter(x: Reader, e: Emission, h: string, y: string, z: string)
    requires h <= Delivered(e.lines) + y && Readable(x, NEW_MACHINE, TextTo(e, h, y + z))
    requires z == "" || IsBlank(z[0]) || TextTo(e, h, y) == "" || IsBlank(TextTo(e, h, y)[|TextTo(e, h, y)| - 1])
    ensures Readable(x, At(x, e, h, y), z)
  {
    hide Readable, Feed, Delivered;
    var d := Delivered(e.lines);
    assert (d + (y + z))[|h|..] == (d + y)[|h|..] + z;
    ReadableParts(x, NEW_MACHINE, TextTo(e, h, y), z);
  }

  /** Blanks, and then the rest. */
  lemma BlanksFirst(x: Reader, m: Machine, a: string, b: string)
    requires Calm(m) && AllBlank(a)
    ensures Feed(x, m, a + b) == Feed(x, if a == "" then m else Shut(x, m), b)
    ensures Readable(x, m, a + b) ==> Readable(x, if a == "" then m else Shut(x, m), b)
  {
    hide Feed, Readable, Shut, Joins, AllBlank;
    assert a == "" || IsBlank(a[|a| - 1]) by {
      assert a[..|a|] == a;
      BlanksApart(a, |a|);
    }
    FeedBlanks(x, m, a);
    if a == "" {
      assert a + b == b;
    } else {
      BlankJoins(a, b);
      FeedAppend(x, m, a, b);
      if Readable(x, m, a + b) {
        ReadableParts(x, m, a, b);
      }
    }
  }

  lemma SpaceIsSpace()
    ensures IsSpace(' ')
  {
  }

  lemma TrimRightAppend(a: string, b: string)
    requires TrimRight(b) != ""
    ensures TrimRight(a + b) == a + TrimRight(b)
  {
    hide IsSpace;
    var t, u := TrimRight(b), TrimRight(a + b);
    assert (a + b)[|a| + |t| - 1] == t[|t| - 1];
    assert |u| >= |a| + |t|;
    assert forall i :: |t| <= i < |b| ==> (a + b)[|a| + i] == b[i];
    assert !(|u| > |a| + |t|);
    assert a + t == (a + b)[..|a| + |t|];
  }

  lemma TrimBothWays(z: string)
    requires TrimLeft(z) != ""
    ensures TrimRight(z) != "" && TrimRight(TrimLeft(z)) == TrimLeft(TrimRight(z)) != ""
  {
    hide IsSpace;
    var i := Indent(z);
    assert !IsSpace(z[i]);
    var r := TrimRight(z);
    assert |r| > i;
    assert r[i] == z[i];
    assert Indent(r) == i;
    assert TrimRight(z[i..]) != "";
    assert z == z[..i] + z[i..];
    TrimRightAppend(z[..i], z[i..]);
  }

  lemma MarkJoin(a: string, b: string)
    requires !HasMark(a) && !HasMark(b) && !(EndsWith(a, '=') && StartsWith(b, '?'))
    ensures !HasMark(a + b)
  {
    var s := a + b;
    forall i | 0 <= i < |s| - 1
      ensures !(s[i] == '=' && s[i + 1] == '?')
    {
      if i + 1 < |a| {
        assert s[i] == a[i] && s[i + 1] == a[i + 1];
      } else if i >= |a| {
        assert s[i] == b[i - |a|] && s[i + 1] == b[i - |a| + 1];
      }
    }
  }

  lemma NoMarkInPart(a: string, b: string, c: string)
    requires !HasMark(a + b + c)
    ensures !HasMark(a) && !HasMark(c)
  {
    assert "" + a + (b + c) == a + b + c && (a + b) + c + "" == a + b + c;
    HasMarkPart("", a, b + c);
    HasMarkPart(a + b, c, "");
  }

  /** A break the machine does not see keeps the emitter on track. */
  lemma {:induction false} BreakTracks(x: Reader, e: Emission, h: string, k: nat)
    requires Tracks(x, e, h) && k <= |e.cur| && SafeAt(x, e, h, e.cur[..k]) && (SpaceAround(e.cur, k) || k == |e.cur|)
    ensures Anchored(Break(e, k), h, Break(e, k).cur) && Tracks(x, Break(e, k), h)
    ensures Now(x, Break(e, k), h) == if SpaceAround(e.cur, k) then Now(x, e, h) else Shut(x, Now(x, e, h))
    ensures EndsWith(Break(e, k).cur, '=') ==> EndsWith(e.cur, '=')
  {
    hide Feed, TrimRight, Shut, At, Delivered, IsSpace, Indent, SafeAt, SpaceAround, Break, IsPrintable, EndsWith;
    SafeAfterBreak(x, e, h, k);
    SafeIsAnchored(x, Break(e, k), h, Break(e, k).cur);
    NowAfterBreak(x, e, h, k);
    BreakShape(e, k);
  }

  lemma BreakShape(e: Emission, k: nat)
    requires IsPrintable(e.cur) && k <= |e.cur|
    ensures IsPrintable(Break(e, k).cur) && Break(e, k).pref == 0
    ensures EndsWith(Break(e, k).cur, '=') ==> EndsWith(e.cur, '=')
  {
    hide TrimRight, IsSpace, Indent, IsPrintable, EndsWith;
    var j := k + Indent(e.cur[k..]);
    assert TrimLeft(e.cur[k..]) == e.cur[j..];
    TailShape(e.cur, j);
  }

  lemma TailShape(s: string, j: nat)
    requires IsPrintable(s) && j <= |s|
    ensures IsPrintable(" " + s[j..]) && (EndsWith(" " + s[j..], '=') ==> EndsWith(s, '='))
  {
  }

  lemma SafeIsAnchored(x: Reader, e: Emission, h: string, y: string)
    requires SafeAt(x, e, h, y)
    ensures Anchored(e, h, y)
  {
  }

  lemma {:induction false} NowAfterBreak(x: Reader, e: Emission, h: string, k: nat)
    requires Tracks(x, e, h) && k <= |e.cur| && SafeAt(x, e, h, e.cur[..k]) && (SpaceAround(e.cur, k) || k == |e.cur|)
    ensures h <= Delivered(Break(e, k).lines)
    ensures At(x, Break(e, k), h, Break(e, k).cur)
         == if SpaceAround(e.cur, k) then Now(x, e, h) else Shut(x, Now(x, e, h))
  {
    hide Feed, TrimRight, TrimLeft, Shut, At, Delivered, IsSpace, Calm, Readable;
    var y, z := e.cur[..k], e.cur[k..];
    assert e.cur == y + z;
    AtBreak(x, e, h, k, TrimLeft(z));
    if SpaceAround(e.cur, k) {
      BreakUnseen(x, e, h, k, z);
    } else {
      assert z == "" && y == e.cur;
      TrimLeftNothing();
      AtTrimmed(x, e, h, y);
      FeedNothing(x, Shut(x, At(x, e, h, TrimRight(y))));
    }
  }

  /** The rest of the line ends outside quotations, as it did before the break. */
  lemma {:induction false} SafeAfterBreak(x: Reader, e: Emission, h: string, k: nat)
    requires Tracks(x, e, h) && k <= |e.cur| && SafeAt(x, e, h, e.cur[..k]) && (SpaceAround(e.cur, k) || k == |e.cur|)
    ensures SafeAt(x, Break(e, k), h, Break(e, k).cur)
  {
    hide Feed, TrimRight, TrimLeft, Shut, At, Delivered, IsSpace, Calm, SafeAt, Readable, TextTo;
    var z := e.cur[k..];
    if TrimLeft(z) == "" {
      SafeBlank(x, e, h, k);
    } else {
      assert k < |e.cur| by {
        TrimLeftNothing();
      }
      TrimBothWays(z);
      var v := TrimRight(z);
      assert v[0] == z[0] == e.cur[k];
      CalmBefore(x, e, h, k);
      SafeRest(x, e, h, k, v);
      SafeIs(x, Break(e, k), h, TrimLeft(z), TrimLeft(v));
    }
  }

  lemma TrimLeftNothing()
    ensures TrimLeft("") == ""
  {
  }

  lemma CalmBefore(x: Reader, e: Emission, h: string, k: nat)
    requires SafeAt(x, e, h, e.cur) && k <= |e.cur| && TrimRight(e.cur[k..]) != ""
    ensures h <= Delivered(e.lines) + (e.cur[..k] + TrimRight(e.cur[k..]))
    ensures Calm(At(x, e, h, e.cur[..k] + TrimRight(e.cur[k..])))
    ensures Readable(x, NEW_MACHINE, TextTo(e, h, e.cur[..k] + TrimRight(e.cur[k..])))
  {
    hide TrimRight, At, Delivered, Calm, Readable, TextTo;
    assert e.cur == e.cur[..k] + e.cur[k..];
    TrimRightAppend(e.cur[..k], e.cur[k..]);
  }

  lemma SafeIs(x: Reader, e: Emission, h: string, w: string, v: string)
    requires TrimRight(w) == v != "" && h <= Delivered(e.lines) && Calm(At(x, e, h, " " + v))
    requires Readable(x, NEW_MACHINE, TextTo(e, h, " " + v))
    ensures SafeAt(x, e, h, " " + w)
  {
    hide TrimRight, At, Delivered, Calm, Readable, TextTo;
    TrimRightAppend(" ", w);
  }

  lemma {:induction false} SafeBlank(x: Reader, e: Emission, h: string, k: nat)
    requires k <= |e.cur| && SafeAt(x, e, h, e.cur[..k]) && TrimLeft(e.cur[k..]) == ""
    ensures SafeAt(x, Break(e, k), h, Break(e, k).cur)
  {
    hide TrimRight, TrimLeft, At, Delivered, Feed, Readable, TextTo;
    AtBreak(x, e, h, k, "");
    ShutTwice(x, At(x, e, h, TrimRight(e.cur[..k])));
    TrimOneSpace();
    assert " " + "" == " ";
  }

  lemma {:induction false} SafeRest(x: Reader, e: Emission, h: string, k: nat, v: string)
    requires k <= |e.cur| && SafeAt(x, e, h, e.cur[..k]) && IsPrintable(e.cur) && IsPrintable(v)
    requires (k > 0 && e.cur[k - 1] == ' ') || (v != "" && v[0] == ' ')
    requires Calm(At(x, e, h, e.cur[..k] + v)) && Readable(x, NEW_MACHINE, TextTo(e, h, e.cur[..k] + v))
    ensures h <= Delivered(Break(e, k).lines) && Calm(At(x, Break(e, k), h, " " + TrimLeft(v)))
    ensures Readable(x, NEW_MACHINE, TextTo(Break(e, k), h, " " + TrimLeft(v)))
  {
    hide Feed, TrimRight, TrimLeft, Shut, At, Delivered, IsSpace, Calm, Readable, TextTo;
    AtBreak(x, e, h, k, TrimLeft(v));
    BreakUnseen(x, e, h, k, v);
  }

  lemma TrimOneSpace()
    ensures TrimRight(" ") == "" && TrimRight("") == ""
  {
    SpaceIsSpace();
    assert " "[..0] == "";
  }

  /** Making room may shut the open token, no more. */
  lemma {:induction false} ReserveTracks(x: Reader, c: Config, e: Emission, h: string, length: nat)
    requires Tracks(x, e, h)
    ensures var e1 := Reserve(c, e, length).e;
            && Tracks(x, e1, h)
            && (Now(x, e1, h) == Now(x, e, h) || Now(x, e1, h) == Shut(x, Now(x, e, h)))
            && (EndsWith(e1.cur, '=') ==> EndsWith(e.cur, '='))
  {
    hide Feed, Shut, At, IsPrintable, Break, SpaceAround, SafeAt;
    ShutTwice(x, Now(x, e, h)) by {
      NowIsCalm(x, e, h);
    }
    if |e.cur| + length > c.softMargin {
      var e1 := if e.pref > 0 then Break(e, e.pref) else e;
      if e.pref > 0 {
        assert e.pref <= |e.cur| by {
          WithinLine(e.cur, e.pref);
        }
        BreakTracks(x, e, h, e.pref);
      }
      if e1.cur != "" && |e1.cur| + length > c.hardMargin {
        assert e1.cur[..|e1.cur|] == e1.cur;
        BreakTracks(x, e1, h, |e1.cur|);
      }
    }
  }

  lemma NowIsCalm(x: Reader, e: Emission, h: string)
    requires Tracks(x, e, h)
    ensures Calm(Now(x, e, h)) && Readable(x, NEW_MACHINE, TextTo(e, h, e.cur))
  {
    hide At, Calm, Readable, TextTo;
    AtTrimmed(x, e, h, e.cur);
  }

  lemma WithinLine(s: string, k: nat)
    requires SpaceAround(s, k)
    ensures k <= |s|
  {
  }

  /** Text that ends outside quotations, once appended, keeps the emitter on track. */
  lemma {:induction false} AppendTracks(x: Reader, e: Emission, h: string, text: string, mayBreakAfter: bool)
    requires Tracks(x, e, h) && IsPrintable(text) && TrimRight(text) != "" && Readable(x, Now(x, e, h), TrimRight(text))
    requires Calm(Feed(x, Now(x, e, h), TrimRight(text)))
    requires EndsWith(e.cur, '=') ==> text[0] != '?'
    ensures var e1 := Append(e, text, mayBreakAfter);
            && Tracks(x, e1, h)
            && Now(x, e1, h) == Feed(x, Now(x, e, h),
                                     if mayBreakAfter && !EndsWith(text, ' ') then text + " " else text)
            && e1.cur == e.cur + if mayBreakAfter && !EndsWith(text, ' ') then text + " " else text
  {
    hide Feed, At, TrimRight, Delivered, Calm, Append, IsSpace, SafeAt, SpaceAround, EndsWith, IsPrintable, Readable,
         TextTo, Joins;
    var e1 := Append(e, text, mayBreakAfter);
    PrintableMore(e.cur, text);
    PrintableMore(e.cur + text, " ");
    assert (e.cur + text) + " " == e.cur + (text + " ");
    var more := if mayBreakAfter && !EndsWith(text, ' ') then text + " " else text;
    AppendShape(e, text, mayBreakAfter);
    NowIsCalm(x, e, h);
    SafeIsAnchored(x, e, h, e.cur);
    JoinsMore(e, h, more);
    AtAppend(x, e, h, e.cur, more);
    SameLines(x, e, e1, h);
    AppendSafe(x, e, e1, h, text, more);
    if mayBreakAfter {
      AppendSafe(x, e, e1, h, text, text);
    } else if e.pref > 0 {
      WithinLine(e.cur, e.pref);
      SafeElsewhere(x, e, e1, h, e.cur[..e.pref]);
    }
  }

  lemma JoinsMore(e: Emission, h: string, text: string)
    requires Anchored(e, h, e.cur) && text != "" && (EndsWith(e.cur, '=') ==> text[0] != '?')
    ensures Joins(TextTo(e, h, e.cur), text)
  {
    hide TrimRight;
    var d := Delivered(e.lines);
    if e.cur == "" {
      assert d + e.cur == d;
      assert d != "" ==> d[|d| - 1] == '\n';
    }
  }

  lemma PrintableMore(a: string, b: string)
    requires IsPrintable(a) && (IsPrintable(b) || b == " ")
    ensures IsPrintable(a + b)
  {
  }

  lemma AppendShape(e: Emission, text: string, mayBreakAfter: bool)
    requires text != ""
    ensures var e1 := Append(e, text, mayBreakAfter);
            && e1.lines == e.lines
            && e1.cur == e.cur + (if mayBreakAfter && !EndsWith(text, ' ') then text + " " else text)
            && (mayBreakAfter ==> SpaceAround(e1.cur, e1.pref) && e1.cur[..e1.pref] == e.cur + text)
            && (!mayBreakAfter ==> e1.pref == e.pref)
            && (SpaceAround(e.cur, e.pref) && !mayBreakAfter
                ==> SpaceAround(e1.cur, e1.pref) && e1.cur[..e1.pref] == e.cur[..e.pref])
  {
    hide Added, Ink;
    var cur := e.cur + text;
    assert cur[|cur| - 1] == text[|text| - 1];
    assert (cur + " ")[..|cur|] == cur;
  }

  predicate MoreThan(text: string, more: string) {
    more == text || more == text + " "
  }

  lemma SafeElsewhere(x: Reader, e: Emission, e1: Emission, h: string, y: string)
    requires e1.lines == e.lines && SafeAt(x, e, h, y)
    ensures SafeAt(x, e1, h, y)
  {
  }

  lemma AppendSafe(x: Reader, e: Emission, e1: Emission, h: string, text: string, more: string)
    requires Tracks(x, e, h) && e1.lines == e.lines && MoreThan(text, more) && TrimRight(text) != ""
    requires Calm(Feed(x, Now(x, e, h), TrimRight(text))) && Readable(x, Now(x, e, h), TrimRight(text))
    requires EndsWith(e.cur, '=') ==> text[0] != '?'
    ensures SafeAt(x, e1, h, e.cur + more)
  {
    hide Feed, At, TrimRight, Calm, IsSpace, Readable, TextTo, Joins, EndsWith;
    NowIsCalm(x, e, h);
    SafeIsAnchored(x, e, h, e.cur);
    assert TrimRight(text)[0] == text[0];
    JoinsMore(e, h, TrimRight(text));
    AtAppend(x, e, h, e.cur, TrimRight(text));
    TrimMore(text);
    TrimRightAppend(e.cur, more);
    SameLines(x, e, e1, h);
  }

  lemma TrimMore(text: string)
    ensures TrimRight(text + " ") == TrimRight(text)
  {
    SpaceIsSpace();
    assert (text + " ")[..|text|] == text;
  }

  lemma SameLines(x: Reader, e: Emission, e1: Emission, h: string)
    requires e.lines == e1.lines
    ensures forall y: string {:trigger At(x, e1, h, y)} :: h <= Delivered(e.lines) + y ==>
              At(x, e, h, y) == At(x, e1, h, y)
    ensures forall y: string {:trigger Anchored(e1, h, y)} :: Anchored(e, h, y) == Anchored(e1, h, y)
    ensures forall y: string {:trigger TextTo(e1, h, y)} :: h <= Delivered(e.lines) + y ==>
              TextTo(e, h, y) == TextTo(e1, h, y)
  {
  }
}
