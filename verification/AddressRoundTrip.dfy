/** Printing an address list and reading it back: packages/crypto/src/jsmimeparser/headerParser.js undoes
    headerEmitter.js, wherever the lines are folded. The lemmas follow the printer: a word, a name printed whole
    or word by word, an address with or without a name, a group, a list, a header. Each says that if the machine is
    at a given point of its reading before the text is printed, it is at the point that the text calls for
    after it, whatever lines were delivered on the way; the entries that the machine has gathered are always those
    that have been printed, less the one that the next comma or the end will add. The last lemma starts from an
    emitter between headers and ends after the final line end: there the machine's results are the whole list, in
    order, with groups as groups. */
module AddressRoundTrip {
  import opened AddressForms
  import opened AddressMachine
  import opened AddressParser
  import opened AddressTracking
  import opened EncodedWords
  import opened HeaderFolding
  import opened HeaderPhrases
  import opened HeaderText
  import opened HeaderTokens
  import opened Results
  import opened WordDecoding
  import opened WordReading
  import opened WordRoundTrip
  import opened WordSplitting

  /** What addText puts on the line. */
  function Spaced(text: string, mayBreakAfter: bool): string {
    if mayBreakAfter && !EndsWith(text, ' ') then text + " " else text
  }

  /** A piece of text, printed while the machine has no token open. */
  lemma PieceTracks(x: Reader, c: Config, e: Emission, h: string, text: string, mayBreakAfter: bool)
    requires Tracks(x, e, h) && Idle(Now(x, e, h)) && !EndsWith(e.cur, '=')
    requires IsPrintable(text) && !HasMark(text) && TrimRight(text) != ""
    requires Calm(Feed(x, Now(x, e, h), TrimRight(text)))
    requires AddText(c, e, text, mayBreakAfter).ok
    ensures var e1 := AddText(c, e, text, mayBreakAfter).e;
            && Tracks(x, e1, h)
            && Now(x, e1, h) == Feed(x, Now(x, e, h), Spaced(text, mayBreakAfter))
            && e1.cur != "" && e1.cur[|e1.cur| - 1] == Spaced(text, mayBreakAfter)[|Spaced(text, mayBreakAfter)| - 1]
  {
    hide Feed, Tracks, HasMark, TrimRight, Append, Reserve, Now, IsPrintable, EndsWith, Shut, Idle, Calm, Readable,
         Joins;
    ReserveTracks(x, c, e, h, |text|);
    ShutIdle(x, Now(x, e, h));
    assert text == TrimRight(text) + text[|TrimRight(text)|..];
    MarkParts(TrimRight(text), text[|TrimRight(text)|..]);
    PlainReadable(x, Now(x, e, h), TrimRight(text));
    var r := Reserve(c, e, |text|).e;
    assert text != "" by {
      TrimOneSpace();
    }
    AppendTracks(x, r, h, text, mayBreakAfter);
    LastOf(r.cur, Spaced(text, mayBreakAfter));
  }

  lemma LastOf(a: string, b: string)
    requires b != ""
    ensures a + b != "" && (a + b)[|a + b| - 1] == b[|b| - 1]
  {
  }

  /** A delimiter, with what follows it on the line. */
  lemma {:induction false} DelimiterTracks(x: Reader, c: Config, e: Emission, h: string, text: string,
                                           mayBreakAfter: bool)
    requires Tracks(x, e, h) && Calm(Now(x, e, h))
    requires text in [", ", ":", ";", "<"]
    requires AddText(c, e, text, mayBreakAfter).ok
    ensures var e1 := AddText(c, e, text, mayBreakAfter).e;
            && Tracks(x, e1, h)
            && Now(x, e1, h) == Machine(NEW_SCANNER, StepToken(x.clean, Done(x, Now(x, e, h)).p, Delimiter(text[0])))
            && !EndsWith(e1.cur, '=')
  {
    hide Feed, Tracks, HasMark, TrimRight, Append, Reserve, StepToken, Now, Shut, Done, Readable, Joins, StepText;
    ReserveTracks(x, c, e, h, |text|);
    var m := Now(x, e, h);
    ShutTwice(x, m);
    var r := Reserve(c, e, |text|).e;
    var k := Now(x, r, h);
    DelimiterText(text);
    FeedDelimiter(x, k, text[0]);
    AppendTracks(x, r, h, text, mayBreakAfter);
    var more := Spaced(text, mayBreakAfter);
    assert more == [text[0]] + more[1..] && AllBlank(more[1..]);
    BlankJoins([text[0]], more[1..]);
    FeedAppend(x, k, [text[0]], more[1..]);
    FeedBlanks(x, Feed(x, k, [text[0]]), more[1..]);
    ShutIdle(x, Feed(x, k, [text[0]]));
    assert Append(r, text, mayBreakAfter).cur == r.cur + more;
  }

  lemma {:induction false} DelimiterText(text: string)
    requires text in [", ", ":", ";", "<"]
    ensures IsPrintable(text) && !HasMark(text) && TrimRight(text) == [text[0]] && text[0] in ":,;<>@"
    ensures text[0] !in "=? "
  {
    hide IsSpace, HasMark, TrimRight;
    DelimiterIsInk(text[0]);
    DelimiterNoMark(text);
    if text == ", " {
      SpaceIsSpace();
      NothingToTrim(",");
      TrimMore(",");
      assert ", " == "," + " ";
    } else {
      NothingToTrim(text);
      assert text == [text[0]];
    }
  }

  lemma DelimiterNoMark(text: string)
    requires text in [", ", ":", ";", "<"]
    ensures !HasMark(text)
  {
  }

  lemma DelimiterIsInk(c: char)
    requires c in ",:;<"
    ensures !IsSpace(c)
  {
  }

  // Phrases

  /** The phrase has been printed and read as far as a display name. */
  ghost predicate HasName(x: Reader, e: Emission, h: string, p: Parse, name: string) {
    && Tracks(x, e, h) && Calm(Now(x, e, h))
    && Done(x, Now(x, e, h)) == Machine(NEW_SCANNER, Named(p, name))
  }

  lemma QuotedFacts(text: string, qchars: string)
    requires text != "" && IsPrintable(text) && !IsBlank(text[|text| - 1])
    ensures IsPrintable(Quoted(text, qchars)) && Quoted(text, qchars) != ""
    ensures TrimRight(Quoted(text, qchars)) == Quoted(text, qchars)
    ensures !EndsWith(Quoted(text, qchars), ' ')
  {
    EscapePrintable(text);
    var q := Quoted(text, qchars);
    assert q[|q| - 1] == '"' || q[|q| - 1] == text[|text| - 1];
    var c := q[|q| - 1];
    if IsSpace(c) {
      PrintableSpace(c);
    }
    hide IsSpace;
  }

  lemma {:induction false} EscapePrintable(t: string)
    requires IsPrintable(t)
    ensures IsPrintable(Escape(t))
  {
    if t != "" {
      EscapePrintable(t[1..]);
    }
  }

  lemma QuotedNameMark(text: string)
    requires !HasMark(text) && forall i :: 0 <= i < |text| ==> IsNameChar(text[i])
    ensures !HasMark(Quoted(text, PHRASE_SPECIALS))
  {
    hide HasMark;
    EscapePlain(text);
    SingleNoMark();
    MarkJoin("\"", text);
    MarkJoin("\"" + text, "\"");
  }

  lemma SingleNoMark()
    ensures !HasMark("\"")
  {
  }

  lemma {:induction false} WordsTrack(x: Reader, c: Config, e: Emission, h: string, p: Parse, v: string,
                                      words: seq<string>, mayBreakAfter: bool)
    requires KeepsPrintable(x.clean) && IsClear(p) && AreWords(words)
    requires forall i :: 0 <= i < |words| ==> !HasMark(words[i])
    requires Tracks(x, e, h) && Now(x, e, h) == Machine(NEW_SCANNER, Named(p, v)) && !EndsWith(e.cur, '=')
    requires AddWords(c, e, words, PHRASE_SPECIALS, mayBreakAfter).ok
    ensures var e1 := AddWords(c, e, words, PHRASE_SPECIALS, mayBreakAfter).e;
            HasName(x, e1, h, p, JoinOnto(v, words))
    decreases |words|
  {
    hide Feed, Tracks, HasMark, AddText, Quoted, Shut, IsWord, Now, Done;
    var may := if |words| == 1 then mayBreakAfter else true;
    WordTracks(x, c, e, h, p, v, words[0], may);
    if |words| > 1 {
      WordsTrack(x, c, AddText(c, e, Quoted(words[0], PHRASE_SPECIALS), true).e, h, p, Plus(v, words[0]), words[1..],
                 mayBreakAfter);
    } else {
      assert words[1..] == [];
    }
  }

  lemma WordTracks(x: Reader, c: Config, e: Emission, h: string, p: Parse, v: string, w: string, mayBreakAfter: bool)
    requires KeepsPrintable(x.clean) && IsClear(p) && IsWord(w) && !HasMark(w)
    requires Tracks(x, e, h) && Now(x, e, h) == Machine(NEW_SCANNER, Named(p, v)) && !EndsWith(e.cur, '=')
    requires AddQuotable(c, e, w, PHRASE_SPECIALS, mayBreakAfter).ok
    ensures w != ""
    ensures var e1 := AddQuotable(c, e, w, PHRASE_SPECIALS, mayBreakAfter).e;
            && HasName(x, e1, h, p, Plus(v, w))
            && (mayBreakAfter ==>
                  Now(x, e1, h) == Machine(NEW_SCANNER, Named(p, Plus(v, w))) && !EndsWith(e1.cur, '='))
  {
    hide Feed, Tracks, HasMark, AddText, Shut, Quoted, TrimRight, Now, Readable, Joins;
    var q := Quoted(w, PHRASE_SPECIALS);
    PrintableName(w);
    assert IsNameChar(w[|w| - 1]) && w[|w| - 1] != ' ';
    QuotedFacts(w, PHRASE_SPECIALS);
    QuotedNameMark(w);
    WordPiece(x, Now(x, e, h), p, v, w);
    PieceTracks(x, c, e, h, q, mayBreakAfter);
    DoneIsShut(x, Feed(x, Now(x, e, h), q));
    if mayBreakAfter {
      SpaceAfter(x, Now(x, e, h), q);
    }
  }

  /** A space after a piece of text shuts it. */
  lemma SpaceAfter(x: Reader, m: Machine, q: string)
    requires IsMachine(m) && m.run.None? && !HasMark(q) && Calm(Feed(x, m, q))
    ensures Feed(x, m, q + " ") == Shut(x, Feed(x, m, q)) && Idle(Feed(x, m, q + " "))
    ensures Calm(Feed(x, m, q + " ")) && Done(x, Feed(x, m, q + " ")) == Done(x, Feed(x, m, q))
  {
    hide Feed, Shut, HasMark, Readable, Joins;
    PlainReadable(x, m, q);
    BlankJoins(q, " ");
    FeedAppend(x, m, q, " ");
    FeedBlanks(x, Feed(x, m, q), " ");
    ShutTwice(x, Feed(x, m, q));
    DoneIsShut(x, Feed(x, m, q));
  }

  // A name in one piece

  lemma {:induction false} SpacedIsCalm(x: Reader, m: Machine, t: string)
    requires Calm(m) && m.run.None? && !HasMark(t) && forall i :: 0 <= i < |t| ==> IsAtomChar(t[i]) || t[i] == ' '
    ensures Calm(Feed(x, m, t))
    decreases |t|
  {
    hide Unescape, StepToken, HasMark, Feed;
    if t != "" {
      NoWordHere(t);
      FeedFirst(x, m, t);
      assert IsAtomChar(t[0]) || t[0] == ' ';
      SpacedIsCalm(x, FeedChar(x, m, t[0]), t[1..]);
    } else {
      FeedNothing(x, m);
    }
  }

  /** Marking the last space of an unquoted name as a breakpoint is safe. */
  lemma {:induction false} MarkTracks(x: Reader, e: Emission, h: string, name: string)
    requires Tracks(x, e, h) && GoodName(name) && !AnyIn(name, PHRASE_SPECIALS) && Idle(Now(x, e, h))
    requires !EndsWith(e.cur, '=')
    requires Tracks(x, e.(cur := e.cur + name), h)
    ensures var e1 := MarkLastSpace(e.(cur := e.cur + name), name);
            Tracks(x, e1, h) && Now(x, e1, h) == Now(x, e.(cur := e.cur + name), h) && e1.cur == e.cur + name
  {
    hide HasMark, TrimRight, Calm, At, IsSpaced, AnyIn, SafeAt, Anchored, SpaceAround, Delivered, Readable, TextTo,
         Idle;
    var e1 := e.(cur := e.cur + name);
    if e1.pref == 0 && ' ' in name && !EndsWith(e1.cur, '"') && LastSpace(e1.cur) >= 0 {
      var e2 := MarkLastSpace(e1, name);
      LastSpaceInside(e.cur, name);
      MarkSafe(x, e, e2, h, name);
      SafeElsewhere(x, e1, e2, h, e1.cur);
      SafeIsAnchored(x, e1, h, e1.cur);
      SafeIsAnchored(x, e2, h, e2.cur);
      SameLines(x, e1, e2, h);
      AnchoredWithin(e1, h, e1.cur);
    }
  }

  lemma AnchoredWithin(e: Emission, h: string, y: string)
    requires Anchored(e, h, y)
    ensures h <= Delivered(e.lines) + y
  {
    hide Delivered;
  }

  lemma {:induction false} MarkSafe(x: Reader, e: Emission, e2: Emission, h: string, name: string)
    requires Tracks(x, e, h) && Idle(Now(x, e, h)) && GoodName(name) && !AnyIn(name, PHRASE_SPECIALS) && ' ' in name
    requires !EndsWith(e.cur, '=')
    requires e2.lines == e.lines && e2.cur == e.cur + name && e2.pref == |e.cur| + LastSpace(name)
    ensures e2.pref <= |e2.cur| && SafeAt(x, e2, h, e2.cur[..e2.pref])
  {
    hide Feed, HasMark, TrimRight, Calm, At, IsSpaced, AnyIn, Delivered, Readable, TextTo, Joins, EndsWith, LastSpace,
         IsAtomChar, Shut, IsSpace;
    LastSpaceInside(e.cur, name);
    var q := LastSpace(name);
    assert e2.cur[..e2.pref] == e.cur + name[..q];
    assert name == name[..q] + name[q..];
    MarkParts(name[..q], name[q..]);
    UnquotedChars(name);
    ShutIdle(x, Now(x, e, h));
    SpacedIsCalm(x, Now(x, e, h), name[..q]);
    PlainReadable(x, Now(x, e, h), name[..q]);
    TrimRightAppend(e.cur, name[..q]);
    NowIsCalm(x, e, h);
    SafeIsAnchored(x, e, h, e.cur);
    JoinsMore(e, h, name[..q]);
    AtAppend(x, e, h, e.cur, name[..q]);
    SameLines(x, e, e2, h);
  }

  lemma UnquotedChars(name: string)
    requires GoodName(name) && !AnyIn(name, PHRASE_SPECIALS)
    ensures forall i :: 0 <= i < |name| ==> IsAtomChar(name[i]) || name[i] == ' '
  {
    hide HasMark;
    forall i | 0 <= i < |name|
      ensures IsAtomChar(name[i]) || name[i] == ' '
    {
      assert IsNameChar(name[i]) && name[i] !in PHRASE_SPECIALS;
    }
  }

  /** The last space of the line is the one in the name, and a word ends before it. */
  lemma {:induction false} LastSpaceInside(a: string, name: string)
    requires GoodName(name) && ' ' in name
    ensures var q := LastSpace(name);
            && 0 < q < |name| && LastSpace(a + name) == |a| + q
            && SpaceAround(a + name, |a| + q)
            && TrimRight(name[..q]) == name[..q] != ""
  {
    hide HasMark, LastSpace, TrimRight, IsSpaced, IsSpace, IsNameChar;
    var q := LastSpace(name);
    assert q >= 0;
    BeforeSpace(name, q);
    LastSpaceAppend(a, name);
    assert (a + name)[|a| + q] == ' ';
    NameCharSpace(name[q - 1]);
    NothingToTrim(name[..q]);
  }

  lemma BeforeSpace(name: string, q: nat)
    requires GoodName(name) && q < |name| && name[q] == ' '
    ensures q > 0 && IsNameChar(name[q - 1]) && name[q - 1] != ' '
  {
    hide HasMark;
    assert AfterSpace(name, q);
  }

  lemma LastSpaceAppend(a: string, name: string)
    requires ' ' in name
    ensures LastSpace(a + name) == |a| + LastSpace(name)
  {
    hide LastSpace;
    var s := a + name;
    var p, q := LastSpace(s), LastSpace(name);
    assert q >= 0;
    assert s[|a| + q] == ' ';
    assert p >= |a| + q;
    assert s[p] == name[p - |a|];
  }

  lemma NothingToTrim(s: string)
    requires s != "" && !IsSpace(s[|s| - 1])
    ensures TrimRight(s) == s
  {
  }

  lemma GoodNameFacts(name: string)
    requires GoodName(name)
    ensures name != "" && IsPrintable(name) && Collapse(name) == name && !IsBlank(name[|name| - 1])
    ensures AreWords(SplitOn(name, ' ')) && JoinOnto("", SplitOn(name, ' ')) == name
    ensures forall i :: 0 <= i < |SplitOn(name, ' ')| ==> !HasMark(SplitOn(name, ' ')[i])
  {
    hide HasMark, SplitOn, Collapse, JoinOnto, IsWord;
    PrintableName(name);
    CollapseKeeps(name);
    SplitSpaced(name, "");
    SplitMarks(name);
    assert IsNameChar(name[|name| - 1]);
  }

  lemma {:induction false} SplitMarks(t: string)
    requires !HasMark(t)
    ensures forall i :: 0 <= i < |SplitOn(t, ' ')| ==> !HasMark(SplitOn(t, ' ')[i])
    decreases |t|
  {
    hide HasMark;
    if ' ' !in t {
      SplitNone(t);
    } else {
      var k := FirstSpace(t);
      assert t == t[..k] + " " + t[k + 1..];
      NoMarkInPart(t[..k], " ", t[k + 1..]);
      SplitSome(t[..k], t[k + 1..]);
      SplitMarks(t[k + 1..]);
    }
  }

  /** The name printed in one piece, if it went in; else nothing has changed for the machine. */
  lemma {:induction false} WholeNameTracks(x: Reader, c: Config, e: Emission, h: string, p: Parse, name: string,
                                           mayBreakAfter: bool)
    requires KeepsPrintable(x.clean) && IsClear(p) && GoodName(name)
    requires Tracks(x, e, h) && Now(x, e, h) == Machine(NEW_SCANNER, p) && !EndsWith(e.cur, '=')
    requires |e.cur| + |name| < c.softMargin
    ensures var o := AddQuotable(c, e, name, PHRASE_SPECIALS, mayBreakAfter);
            && (!o.ok ==> Tracks(x, o.e, h) && Now(x, o.e, h) == Now(x, e, h) && !EndsWith(o.e.cur, '='))
            && (o.ok ==> var e1 := MarkLastSpace(o.e, name);
                         HasName(x, e1, h, p, name))
  {
    hide Feed, Tracks, HasMark, Shut, Quoted, TrimRight, GoodName, MarkLastSpace, Reserve, Collapse, Calm, Now;
    GoodNameFacts(name);
    var q := Quoted(name, PHRASE_SPECIALS);
    QuotedFacts(name, PHRASE_SPECIALS);
    NameIsQuotable(name);
    NamePiece(x, Now(x, e, h), p, name);
    ShutIdle(x, Now(x, e, h));
    var o := AddText(c, e, q, mayBreakAfter);
    if o.ok {
      PieceTracks(x, c, e, h, q, mayBreakAfter);
      if !mayBreakAfter && q == name {
        RoomAtOnce(c, e, name);
        MarkTracks(x, e, h, name);
      } else {
        NotMarked(c, e, name, mayBreakAfter);
      }
      DoneIsShut(x, Feed(x, Now(x, e, h), q));
      if mayBreakAfter {
        SpaceAfter(x, Now(x, e, h), q);
      }
    } else {
      ReserveTracks(x, c, e, h, |q|);
      ShutIdle(x, Now(x, e, h));
    }
  }

  lemma NameIsQuotable(name: string)
    requires GoodName(name)
    ensures !HasMark(Quoted(name, PHRASE_SPECIALS))
    ensures Quoted(name, PHRASE_SPECIALS) == name ==> !AnyIn(name, PHRASE_SPECIALS)
    ensures Quoted(name, PHRASE_SPECIALS) != name ==> EndsWith(Quoted(name, PHRASE_SPECIALS), '"')
  {
    hide HasMark;
    QuotedNameMark(name);
    assert IsNameChar(name[0]);
  }

  /** Only a name printed without quotes, before something it may not be parted from, gets a breakpoint. */
  lemma NotMarked(c: Config, e: Emission, name: string, mayBreakAfter: bool)
    requires GoodName(name) && AddText(c, e, Quoted(name, PHRASE_SPECIALS), mayBreakAfter).ok
    requires mayBreakAfter || Quoted(name, PHRASE_SPECIALS) != name
    ensures var e1 := AddText(c, e, Quoted(name, PHRASE_SPECIALS), mayBreakAfter).e;
            MarkLastSpace(e1, name) == e1
  {
    hide HasMark, Quoted, Reserve;
    NameIsQuotable(name);
    var q := Quoted(name, PHRASE_SPECIALS);
    var r := Reserve(c, e, |q|).e;
    if !mayBreakAfter {
      assert (r.cur + q)[|r.cur + q| - 1] == q[|q| - 1];
    } else {
      assert |r.cur + q| > 0 by {
        GoodNameFacts(name);
        QuotedFacts(name, PHRASE_SPECIALS);
      }
    }
  }

  lemma RoomAtOnce(c: Config, e: Emission, text: string)
    requires |e.cur| + |text| < c.softMargin
    ensures AddText(c, e, text, false).e == e.(cur := e.cur + text)
  {
  }

  /** A display name in ASCII, printed and read. */
  lemma {:induction false} AtomsTrack(x: Reader, c: Config, e: Emission, h: string, p: Parse, name: string,
                                      mayBreakAfter: bool)
    requires c.Valid() && KeepsPrintable(x.clean) && IsClear(p) && GoodName(name)
    requires Tracks(x, e, h) && Now(x, e, h) == Machine(NEW_SCANNER, p) && !EndsWith(e.cur, '=')
    requires AddPhrase(c, e, name, PHRASE_SPECIALS, mayBreakAfter).ok
    ensures HasName(x, AddPhrase(c, e, name, PHRASE_SPECIALS, mayBreakAfter).e, h, p, name)
  {
    hide Tracks, HasMark, Shut, GoodName, MarkLastSpace, Collapse, Calm, AddQuotable, AddWords, SplitOn, JoinOnto,
         EncodePhrase, Now;
    GoodNameFacts(name);
    assert p == Named(p, "") by {
      NamedNothing(p);
    }
    var words := SplitOn(name, ' ');
    if |e.cur| + |name| < c.softMargin {
      WholeNameTracks(x, c, e, h, p, name, mayBreakAfter);
      var o := AddQuotable(c, e, name, PHRASE_SPECIALS, mayBreakAfter);
      if !o.ok {
        WordsTrack(x, c, o.e, h, p, "", words, mayBreakAfter);
      }
    } else {
      WordsTrack(x, c, e, h, p, "", words, mayBreakAfter);
    }
  }

  // Encoded-words

  /** A machine that has read the text t in encoded-words, or none of them yet. */
  predicate InRun(m: Machine, p: Parse, t: string) {
    m.s == NEW_SCANNER && m.p == p && (m.run == Some(t) || (m.run.None? && t == ""))
  }

  lemma InRunFacts(x: Reader, m: Machine, p: Parse, t: string)
    requires InRun(m, p, t)
    ensures Calm(m) && Shut(x, m) == m && IsMachine(m)
  {
  }

  /** An encoded-word adds its text to the run. */
  lemma WordIsRead(x: Reader, m: Machine, p: Parse, t: string, chunk: Chunk, piece: string, more: string)
    requires InRun(m, p, t) && ReadsWords(x) && chunk.octets == Utf8(piece) && more in ["", " "]
    ensures IsMachine(m) && Readable(x, m, WordText(chunk))
    ensures var n := Feed(x, m, WordText(chunk) + more);
            n == Machine(NEW_SCANNER, p, Some(t + piece)) && InRun(n, p, t + piece) && n.run == Some(t + piece)
  {
    hide WordText, PieceOf, WordEnd, ReadsWords, Utf8, Joins;
    InRunFacts(x, m, p, t);
    var w := WordText(chunk);
    WordFound(chunk);
    WrittenWord(chunk, piece);
    assert w[..|w|] == w && w[|w|..] == "" && "" + piece == piece;
    WordNotEmpty(chunk);
    assert m.run.None? ==> StepTokens(x.clean, m.p, Ended(m.s.open)) == m.p by {
      NothingEnded(x.clean, m.p);
    }
    var n := Machine(NEW_SCANNER, p, Some(t + piece));
    assert FeedWord(x, m, w) == n;
    assert Feed(x, m, w) == n;
    BlankJoins(w, more);
    FeedAppend(x, m, w, more);
    FeedBlanks(x, n, more);
  }

  lemma WordNotEmpty(chunk: Chunk)
    ensures WordText(chunk) != "" && WordText(chunk)[0] == '=' && !EndsWith(WordText(chunk), ' ')
    ensures IsPrintable(WordText(chunk)) && TrimRight(WordText(chunk)) == WordText(chunk)
  {
    WordShape(chunk);
    WordIsInked(chunk);
    hide WordText;
    var w := WordText(chunk);
    assert !IsSpace('=');
    NothingToTrim(w);
  }

  /** The words printed are read as one run. */
  lemma {:induction false} ChunksTrack(x: Reader, c: Config, e: Emission, h: string, p: Parse, t: string,
                                       chunks: seq<Chunk>,
                                       pieces: seq<string>, mayBreakAfter: bool)
    requires ReadsWords(x) && chunks != [] && Holds(chunks, pieces)
    requires Tracks(x, e, h) && InRun(Now(x, e, h), p, t) && AddChunks(c, e, chunks, mayBreakAfter).ok
    ensures var e1 := AddChunks(c, e, chunks, mayBreakAfter).e;
            Tracks(x, e1, h) && Now(x, e1, h) == Machine(NEW_SCANNER, p, Some(t + Flatten(pieces)))
    decreases |chunks|
  {
    hide WordText, Tracks, Now, AddText, InRun, ReadsWords, Utf8;
    var last := |chunks| == 1;
    assert chunks[0].octets == Utf8(pieces[0]);
    ChunkTracks(x, c, e, h, p, t, chunks[0], pieces[0], if last then mayBreakAfter else true);
    assert Flatten(pieces) == pieces[0] + Flatten(pieces[1..]);
    if last {
      assert pieces[1..] == [] && pieces[0] + "" == pieces[0];
    } else {
      assert Holds(chunks[1..], pieces[1..]);
      ChunksTrack(x, c, AddText(c, e, WordText(chunks[0]), true).e, h, p, t + pieces[0], chunks[1..], pieces[1..],
                  mayBreakAfter);
      assert (t + pieces[0]) + Flatten(pieces[1..]) == t + Flatten(pieces);
    }
  }

  lemma ChunkTracks(x: Reader, c: Config, e: Emission, h: string, p: Parse, t: string, chunk: Chunk, piece: string,
                    mayBreakAfter: bool)
    requires ReadsWords(x) && chunk.octets == Utf8(piece)
    requires Tracks(x, e, h) && InRun(Now(x, e, h), p, t) && AddText(c, e, WordText(chunk), mayBreakAfter).ok
    ensures var e1 := AddText(c, e, WordText(chunk), mayBreakAfter).e;
            Tracks(x, e1, h) && Now(x, e1, h) == Machine(NEW_SCANNER, p, Some(t + piece))
                && InRun(Now(x, e1, h), p, t + piece)
  {
    hide WordText, Tracks, Now, Reserve, Append, ReadsWords, Utf8, TrimRight, IsPrintable, Readable, Feed, Shut, InRun;
    var w := WordText(chunk);
    InRunFacts(x, Now(x, e, h), p, t);
    ReserveTracks(x, c, e, h, |w|);
    var r := Reserve(c, e, |w|).e;
    WordNotEmpty(chunk);
    WordIsRead(x, Now(x, r, h), p, t, chunk, piece, "");
    WordIsRead(x, Now(x, r, h), p, t, chunk, piece, " ");
    InRunFacts(x, Feed(x, Now(x, r, h), w + ""), p, t + piece);
    assert w + "" == w;
    AppendTracks(x, r, h, w, mayBreakAfter);
  }

  /** A display name outside ASCII, printed and read. */
  lemma {:induction false} EncodedTracks(x: Reader, c: Config, e: Emission, h: string, p: Parse, name: string,
                                         mayBreakAfter: bool)
    requires c.Valid() && IsClear(p) && OtherName(x, name)
    requires Tracks(x, e, h) && Now(x, e, h) == Machine(NEW_SCANNER, p)
    requires EncodePhrase(c, e, name, mayBreakAfter).ok
    ensures HasName(x, EncodePhrase(c, e, name, mayBreakAfter).e, h, p, name)
  {
    hide Tracks, Now, AddChunks, WordsOf, Reserve, Break, ReadsWords, IsPrintable, DisplayName, Holds, StepText;
    ReserveWordTracks(x, c, e, h, p);
    var e1 := ReserveWord(c, e);
    var room := FirstRoom(c, e1);
    var pieces := PiecesOf(c.softMargin, name, room);
    ChunksTrack(x, c, e1, h, p, "", WordsOf(c.softMargin, name, room), pieces, mayBreakAfter);
    assert "" + name == name;
    OtherNameFacts(name);
    TakeFirst(p, name);
  }

  lemma TakeFirst(p: Parse, name: string)
    requires IsClear(p) && name != "" && name[0] != '.'
    ensures StepText(p, name) == Named(p, name)
  {
    NamedNothing(p);
    TakeWord(p, "", name);
  }

  lemma ReserveWordTracks(x: Reader, c: Config, e: Emission, h: string, p: Parse)
    requires Tracks(x, e, h) && Now(x, e, h) == Machine(NEW_SCANNER, p)
    ensures Tracks(x, ReserveWord(c, e), h) && InRun(Now(x, ReserveWord(c, e), h), p, "")
  {
    hide Tracks, Now, Reserve, Break;
    ReserveTracks(x, c, e, h, |B64_PRELUDE| + 10);
    ShutIdle(x, Now(x, e, h));
    var o := Reserve(c, e, |B64_PRELUDE| + 10);
    if !o.ok {
      WholeIsSafe(x, o.e, h);
      BreakTracks(x, o.e, h, |o.e.cur|);
    }
  }

  lemma WholeIsSafe(x: Reader, e: Emission, h: string)
    requires Tracks(x, e, h)
    ensures SafeAt(x, e, h, e.cur[..|e.cur|])
  {
    assert e.cur[..|e.cur|] == e.cur;
  }

  /** A display name, printed and read. */
  lemma {:induction false} PhraseTracks(x: Reader, c: Config, e: Emission, h: string, p: Parse, name: string,
                                        mayBreakAfter: bool)
    requires c.Valid() && KeepsPrintable(x.clean) && IsClear(p) && KnownName(x, c.useASCII, name)
    requires Tracks(x, e, h) && Now(x, e, h) == Machine(NEW_SCANNER, p) && !EndsWith(e.cur, '=')
    requires AddPhrase(c, e, name, PHRASE_SPECIALS, mayBreakAfter).ok
    ensures HasName(x, AddPhrase(c, e, name, PHRASE_SPECIALS, mayBreakAfter).e, h, p, name)
  {
    hide Tracks, GoodName, HasName, AddAtoms, EncodePhrase, Now, ReadsWords, IsPrintable, DisplayName, Collapse;
    if GoodName(name) {
      AtomsTrack(x, c, e, h, p, name, mayBreakAfter);
    } else {
      OtherNameFacts(name);
      EncodedTracks(x, c, e, h, p, name, mayBreakAfter);
    }
  }

  lemma NamedNothing(p: Parse)
    requires IsClear(p)
    ensures Named(p, "") == p
  {
  }

  // Addresses

  /** A mailbox has been printed and read, but for what may follow it. */
  ghost predicate HasMailboxes(x: Reader, e: Emission, h: string, results: seq<Entry>, addrlist: seq<Mailbox>,
                               groupName: string) {
    Tracks(x, e, h) && Calm(Now(x, e, h)) && Finished(Done(x, Now(x, e, h)).p, results, addrlist, groupName)
  }

  lemma EmailFacts(email: string)
    requires GoodEmail(email)
    ensures email != "" && email == LocalPart(email) + Domain(email)
    ensures Domain(email) == "@" + email[LastAt(email) + 1..]
    ensures IsPrintable(Domain(email)) && !HasMark(LocalPart(email)) && !HasMark(Domain(email))
    ensures IsPrintable(LocalPart(email))
    ensures LocalPart(email) != "" ==> !IsBlank(LocalPart(email)[|LocalPart(email)| - 1])
  {
    hide HasMark, LastAt, GoodLocal, IsAtom, LocalPart, Domain, IsPrintable;
    EmailParts(email);
    var local, dom := LocalPart(email), email[LastAt(email) + 1..];
    assert "" + local + Domain(email) == email && local + Domain(email) + "" == email;
    HasMarkPart("", local, Domain(email));
    HasMarkPart(local, Domain(email), "");
    AtomNotQuoted(dom);
    LocalFacts(local);
    PrintableAt();
    PrintableJoin("@", dom);
  }

  lemma EmailParts(email: string)
    requires LastAt(email) >= 0
    ensures email != "" && email == LocalPart(email) + Domain(email)
    ensures Domain(email) == "@" + email[LastAt(email) + 1..]
  {
    hide LastAt;
  }

  lemma EmailNotEmpty(email: string)
    requires GoodEmail(email)
    ensures email != ""
  {
    hide HasMark;
  }

  lemma PrintableAt()
    ensures IsPrintable("@")
  {
  }

  lemma PrintableJoin(a: string, b: string)
    requires IsPrintable(a) && IsPrintable(b)
    ensures IsPrintable(a + b)
  {
  }

  lemma {:induction false} LocalFacts(local: string)
    requires GoodLocal(local)
    ensures IsPrintable(local)
    ensures local != "" ==> !IsBlank(local[|local| - 1])
  {
    hide Escape, RawLocal, AnyIn, AllBlank;
    if IsCanonical(local) {
      EscapePrintable(RawLocal(local));
    } else {
      AtomNotQuoted(local);
      assert local != "" ==> IsAtomChar(local[|local| - 1]);
    }
  }

  lemma QuotedLocalMark(local: string)
    requires GoodLocal(local) && !HasMark(local)
    ensures Quoted(local, LOCAL_SPECIALS) == local
  {
    hide HasMark, Escape, RawLocal, AllBlank;
    if IsCanonical(local) {
      assert local[0] == '"' && local[|local| - 1] == '"';
    }
  }

  /** The local part and the domain, printed and read. */
  lemma AddrSpecTracks(x: Reader, c: Config, e: Emission, h: string, email: string, close: string)
    requires KeepsPrintable(x.clean) && GoodEmail(email) && close in ["", ">"]
    requires Tracks(x, e, h) && Idle(Now(x, e, h)) && !EndsWith(e.cur, '=')
    requires AddAddrSpec(c, e, email, close).ok
    ensures var e1 := AddAddrSpec(c, e, email, close).e;
            var raw, dom, p := RawLocal(LocalPart(email)), email[LastAt(email) + 1..], Now(x, e, h).p;
            && Tracks(x, e1, h) && Calm(Now(x, e1, h))
            && Done(x, Now(x, e1, h)).p == AfterDomain(x.clean, if raw == "" then p else StepText(p, raw), dom, close)
  {
    hide Tracks, HasMark, LastAt, Feed, AddText, TrimRight, AfterDomain, StepText, RawLocal, GoodLocal, IsAtom, Shut,
         Now;
    EmailFacts(email);
    var local, dom := LocalPart(email), email[LastAt(email) + 1..];
    var m := Now(x, e, h);
    var o := AddQuotable(c, e, local, LOCAL_SPECIALS, false);
    QuotedLocalMark(local);
    RawNothing(local);
    if local != "" {
      QuotedFacts(local, LOCAL_SPECIALS);
      LocalPiece(x, m, email);
      PieceTracks(x, c, e, h, local, false);
      DoneIsShut(x, Feed(x, m, local));
    } else {
      ShutIdle(x, m);
    }
    DomainTracks(x, c, o.e, h, email, close);
  }

  lemma RawNothing(local: string)
    requires GoodLocal(local)
    ensures RawLocal(local) == "" <==> local == ""
  {
    hide Escape, Unescape;
  }

  lemma DomainTracks(x: Reader, c: Config, e: Emission, h: string, email: string, close: string)
    requires KeepsPrintable(x.clean) && GoodEmail(email) && close in ["", ">"]
    requires Tracks(x, e, h) && Calm(Now(x, e, h))
    requires AddText(c, e, Domain(email) + close, false).ok
    ensures var e1 := AddText(c, e, Domain(email) + close, false).e;
            && Tracks(x, e1, h) && Calm(Now(x, e1, h))
            && Done(x, Now(x, e1, h)).p
                == AfterDomain(x.clean, Done(x, Now(x, e, h)).p, email[LastAt(email) + 1..], close)
  {
    hide Tracks, HasMark, LastAt, Feed, Reserve, Append, TrimRight, AfterDomain, StepText, RawLocal, GoodLocal, Shut,
         Now, Readable, Done;
    EmailFacts(email);
    var dom := email[LastAt(email) + 1..];
    var text := "@" + dom + close;
    assert text == Domain(email) + close;
    ReserveTracks(x, c, e, h, |text|);
    var r := Reserve(c, e, |text|).e;
    ShutTwice(x, Now(x, e, h));
    DomainPiece(x, Now(x, r, h), dom, close);
    DoneIsShut(x, Feed(x, Now(x, r, h), text));
    DomainText(dom, close);
    PlainReadable(x, Now(x, r, h), text);
    AppendTracks(x, r, h, text, false);
  }

  lemma DomainText(dom: string, close: string)
    requires IsAtom(dom) && !HasMark("@" + dom) && close in ["", ">"]
    ensures var text := "@" + dom + close;
            IsPrintable(text) && !HasMark(text) && TrimRight(text) == text
  {
    hide HasMark;
    var text := "@" + dom + close;
    AtomNotQuoted(dom);
    CloseNoMark();
    MarkJoin("@" + dom, close);
    assert "@" + dom + "" == "@" + dom;
    assert dom != "" ==> IsAtomChar(dom[|dom| - 1]);
    var c := text[|text| - 1];
    if IsSpace(c) {
      PrintableSpace(c);
    }
  }

  lemma CloseNoMark()
    ensures !HasMark(">") && !HasMark("")
  {
  }

  /** A mailbox, printed and read. */
  lemma AddressTracks(x: Reader, c: Config, e: Emission, h: string, p: Parse, m: Mailbox)
    requires c.Valid() && KeepsPrintable(x.clean) && IsClear(p) && GoodMailbox(x, c.useASCII, m)
    requires Tracks(x, e, h) && Now(x, e, h) == Machine(NEW_SCANNER, p) && !EndsWith(e.cur, '=')
    requires AddAddress(c, e, m).ok
    ensures HasMailboxes(x, AddAddress(c, e, m).e, h, p.results, p.addrlist + [m], p.groupName)
  {
    hide Tracks, HasMark, GoodEmail, GoodName, AddText, AddAddrSpec, AddPhrase, Reserve, Shut, HasName, HasMailboxes,
         Calm, Now;
    hide KnownName, DisplayName;
    if m.name == "" {
      PlainAddressTracks(x, c, e, h, p, m);
    } else {
      ReserveTracks(x, c, e, h, |m.name| + |m.email| + 3);
      ShutIdle(x, Now(x, e, h));
      var e1 := Reserve(c, e, |m.name| + |m.email| + 3).e;
      KnownNameFacts(x, c.useASCII, m.name);
      PhraseTracks(x, c, e1, h, p, m.name, true);
      var e2 := AddPhrase(c, e1, m.name, PHRASE_SPECIALS, true).e;
      if m.email == "" {
        NameOnlyTracks(x, e2, h, p, m.name);
      } else {
        NamedAddressTracks(x, c, e2, h, p, m);
      }
    }
  }

  lemma {:induction false} PlainAddressTracks(x: Reader, c: Config, e: Emission, h: string, p: Parse, m: Mailbox)
    requires KeepsPrintable(x.clean) && IsClear(p) && GoodEmail(m.email) && m.name == ""
    requires Tracks(x, e, h) && Now(x, e, h) == Machine(NEW_SCANNER, p) && !EndsWith(e.cur, '=')
    requires AddAddrSpec(c, e, m.email, "").ok
    ensures HasMailboxes(x, AddAddrSpec(c, e, m.email, "").e, h, p.results, p.addrlist + [m], p.groupName)
  {
    hide Tracks, HasMark, GoodEmail, GoodName, AddAddrSpec, Shut, Finished, AfterDomain, StepText, RawLocal, Calm, Now,
         Done;
    hide LastAt, LocalPart, Requoted, IsClear;
    assert m.email != "" by {
      EmailNotEmpty(m.email);
    }
    AddrSpecTracks(x, c, e, h, m.email, "");
    EmailKept(m.email);
    PlainRead(x.clean, p, m.email, RawLocal(LocalPart(m.email)), m.email[LastAt(m.email) + 1..]);
  }

  lemma {:induction false} NameOnlyTracks(x: Reader, e: Emission, h: string, p: Parse, name: string)
    requires IsClear(p) && DisplayName(name, "") == name && name != "" && HasName(x, e, h, p, name)
    ensures HasMailboxes(x, e, h, p.results, p.addrlist + [Mailbox(name, "")], p.groupName)
  {
    hide Tracks, Shut, Finished, Calm, IsClear, Named, Now, DisplayName, Done;
    NameRead(p, name);
  }

  lemma {:induction false} NamedAddressTracks(x: Reader, c: Config, e: Emission, h: string, p: Parse, m: Mailbox)
    requires KeepsPrintable(x.clean) && IsClear(p) && DisplayName(m.name, "") == m.name && m.name != ""
    requires GoodEmail(m.email)
    requires HasName(x, e, h, p, m.name)
    requires var o := AddText(c, e, "<", false); o.ok && AddAddrSpec(c, o.e, m.email, ">").ok
    ensures var e1 := AddAddrSpec(c, AddText(c, e, "<", false).e, m.email, ">").e;
            HasMailboxes(x, e1, h, p.results, p.addrlist + [m], p.groupName)
  {
    hide Tracks, HasMark, GoodEmail, DisplayName, AddText, AddAddrSpec, Shut, Finished, AfterDomain, StepText, RawLocal,
         Calm, Done;
    hide StepLess, LastAt, LocalPart, Requoted, IsClear, Named, Now, HasName, KeepsPrintable, Idle, EndsWith;
    LessTracks(x, c, e, h, p, m.name);
    AddrSpecTracks(x, c, AddText(c, e, "<", false).e, h, m.email, ">");
    AngleFinished(x.clean, p, m);
  }

  lemma LessTracks(x: Reader, c: Config, e: Emission, h: string, p: Parse, name: string)
    requires IsClear(p) && HasName(x, e, h, p, name) && AddText(c, e, "<", false).ok
    ensures var e1 := AddText(c, e, "<", false).e;
            Tracks(x, e1, h) && Now(x, e1, h) == Machine(NEW_SCANNER, StepLess(Named(p, name))) && Idle(Now(x, e1, h))
                && !EndsWith(e1.cur, '=')
  {
    hide Tracks, AddText, Shut, Calm, Done, StepToken, StepLess, IsClear, Named, Now, EndsWith;
    DelimiterTracks(x, c, e, h, "<", false);
    LessBegins(x.clean, p, name);
  }

  lemma AngleFinished(clean: Cleaner, p: Parse, m: Mailbox)
    requires IsClear(p) && DisplayName(m.name, "") == m.name && m.name != "" && GoodEmail(m.email)
    ensures var raw, dom := RawLocal(LocalPart(m.email)), m.email[LastAt(m.email) + 1..];
            var q := StepLess(Named(p, m.name));
            Finished(AfterDomain(clean, if raw == "" then q else StepText(q, raw), dom, ">"), p.results,
                     p.addrlist + [m], p.groupName)
  {
    hide HasMark, DisplayName, Finished, AfterDomain, StepText, RawLocal, GoodLocal, StepLess, LocalPart, Requoted,
         IsClear, Named;
    EmailKept(m.email);
    assert m.email != "" by {
      EmailNotEmpty(m.email);
    }
    AngleRead(clean, p, m, RawLocal(LocalPart(m.email)), m.email[LastAt(m.email) + 1..]);
  }

  /** Where the next mailbox can begin. */
  ghost predicate AtStart(x: Reader, e: Emission, h: string, p: Parse) {
    Tracks(x, e, h) && Now(x, e, h) == Machine(NEW_SCANNER, p) && !EndsWith(e.cur, '=')
  }

  /** Before an element of a list: at its start, or where a comma must come. */
  ghost predicate Before(x: Reader, e: Emission, h: string, needsComma: bool, results: seq<Entry>,
                         addrlist: seq<Mailbox>, groupName: string) {
    if needsComma then HasMailboxes(x, e, h, results, addrlist, groupName)
    else AtStart(x, e, h, Clear(results, addrlist, groupName))
  }

  lemma {:induction false} CommaTracks(x: Reader, c: Config, e: Emission, h: string, needsComma: bool,
                    results: seq<Entry>, addrlist: seq<Mailbox>, groupName: string)
    requires Before(x, e, h, needsComma, results, addrlist, groupName)
    requires needsComma ==> AddText(c, e, ", ", true).ok
    ensures AtStart(x, if needsComma then AddText(c, e, ", ", true).e else e, h, Clear(results, addrlist, groupName))
  {
    hide Tracks, AddText, Shut, Calm, Finished, StepToken, Now, Done;
    if needsComma {
      DelimiterTracks(x, c, e, h, ", ", true);
      CommaEnds(x.clean, Done(x, Now(x, e, h)).p, results, addrlist, groupName);
    }
  }

  lemma StartIsEnd(x: Reader, e: Emission, h: string, results: seq<Entry>, addrlist: seq<Mailbox>, groupName: string)
    requires AtStart(x, e, h, Clear(results, addrlist, groupName))
    ensures HasMailboxes(x, e, h, results, addrlist, groupName)
  {
    hide Tracks, Finished, Now;
    ShutIdle(x, Now(x, e, h));
    ClearIsFinished(Clear(results, addrlist, groupName));
  }

  lemma {:induction false} MembersTrack(x: Reader, c: Config, e: Emission, h: string, members: seq<Mailbox>,
                                        needsComma: bool,
                                        results: seq<Entry>, addrlist: seq<Mailbox>, groupName: string)
    requires c.Valid() && KeepsPrintable(x.clean) && GoodMailboxes(x, c.useASCII, members)
    requires Before(x, e, h, needsComma, results, addrlist, groupName) && AddMembers(c, e, members, needsComma).ok
    ensures HasMailboxes(x, AddMembers(c, e, members, needsComma).e, h, results, addrlist + members, groupName)
    decreases |members|
  {
    hide Tracks, AddText, AddAddress, HasMailboxes, GoodMailbox, AtStart;
    if members == [] {
      assert addrlist + members == addrlist;
      if !needsComma {
        StartIsEnd(x, e, h, results, addrlist, groupName);
      }
    } else {
      CommaTracks(x, c, e, h, needsComma, results, addrlist, groupName);
      var e1 := if needsComma then AddText(c, e, ", ", true).e else e;
      StartTracks(x, c, e1, h, Clear(results, addrlist, groupName), members[0]);
      assert addrlist + members == (addrlist + [members[0]]) + members[1..];
      MembersTrack(x, c, AddAddress(c, e1, members[0]).e, h, members[1..], true, results, addrlist + [members[0]],
                   groupName);
    }
  }

  lemma StartTracks(x: Reader, c: Config, e: Emission, h: string, p: Parse, m: Mailbox)
    requires c.Valid() && KeepsPrintable(x.clean) && IsClear(p) && GoodMailbox(x, c.useASCII, m)
    requires AtStart(x, e, h, p) && AddAddress(c, e, m).ok
    ensures HasMailboxes(x, AddAddress(c, e, m).e, h, p.results, p.addrlist + [m], p.groupName)
  {
    hide Tracks, AddAddress, GoodMailbox, HasMailboxes;
    AddressTracks(x, c, e, h, p, m);
  }

  /** A group, printed and read. */
  lemma GroupTracks(x: Reader, c: Config, e: Emission, h: string, name: string, members: seq<Mailbox>,
                    results: seq<Entry>, addrlist: seq<Mailbox>)
    requires c.Valid() && KeepsPrintable(x.clean) && KnownName(x, c.useASCII, name)
    requires GoodMailboxes(x, c.useASCII, members)
    requires AtStart(x, e, h, Clear(results, addrlist, "")) && AddGroup(c, e, name, members).ok
    ensures HasMailboxes(x, AddGroup(c, e, name, members).e, h, results + Singles(addrlist) + [Group(name, members)],
                         [], "")
  {
    hide Tracks, AddText, AddPhrase, AddMembers, KnownName, GoodMailboxes, Singles, HasName, HasMailboxes, Now,
         DisplayName;
    KnownNameFacts(x, c.useASCII, name);
    PhraseTracks(x, c, e, h, Clear(results, addrlist, ""), name, false);
    var e1 := AddPhrase(c, e, name, PHRASE_SPECIALS, false).e;
    ColonTracks(x, c, e1, h, name, results, addrlist);
    var e2 := AddText(c, e1, ":", true).e;
    var more := results + Singles(addrlist);
    MembersTrack(x, c, e2, h, members, false, more, [], name);
    assert [] + members == members;
    SemicolonTracks(x, c, AddMembers(c, e2, members, false).e, h, name, members, more);
  }

  lemma ColonTracks(x: Reader, c: Config, e: Emission, h: string, name: string, results: seq<Entry>,
                    addrlist: seq<Mailbox>)
    requires HasName(x, e, h, Clear(results, addrlist, ""), name) && AddText(c, e, ":", true).ok
    ensures AtStart(x, AddText(c, e, ":", true).e, h, Clear(results + Singles(addrlist), [], name))
  {
    hide Tracks, AddText, Shut, Calm, StepToken, Singles, Now, Done;
    DelimiterTracks(x, c, e, h, ":", true);
    ColonBegins(x.clean, Clear(results, addrlist, ""), name);
  }

  lemma SemicolonTracks(x: Reader, c: Config, e: Emission, h: string, name: string, members: seq<Mailbox>,
                        results: seq<Entry>)
    requires HasMailboxes(x, e, h, results, members, name) && name != "" && AddText(c, e, ";", true).ok
    ensures HasMailboxes(x, AddText(c, e, ";", true).e, h, results + [Group(name, members)], [], "")
  {
    hide Tracks, AddText, Shut, Calm, StepToken, Finished, Now, Done;
    DelimiterTracks(x, c, e, h, ";", true);
    SemicolonEnds(x.clean, Done(x, Now(x, e, h)).p, results, members, name);
    StartIsEnd(x, AddText(c, e, ";", true).e, h, results + [Group(name, members)], [], "");
  }

  lemma {:induction false} SinglesAppend(a: seq<Mailbox>, m: Mailbox)
    ensures Singles(a + [m]) == Singles(a) + [Single(m)]
  {
  }

  lemma {:induction false} EntriesTrack(x: Reader, c: Config, e: Emission, h: string, entries: seq<Entry>,
                                        needsComma: bool,
                                        results: seq<Entry>, addrlist: seq<Mailbox>)
    returns (results': seq<Entry>, addrlist': seq<Mailbox>)
    requires c.Valid() && KeepsPrintable(x.clean) && GoodEntries(x, c.useASCII, entries)
    requires Before(x, e, h, needsComma, results, addrlist, "") && AddEntries(c, e, entries, needsComma).ok
    ensures HasMailboxes(x, AddEntries(c, e, entries, needsComma).e, h, results', addrlist', "")
    ensures results' + Singles(addrlist') == results + Singles(addrlist) + entries
    decreases |entries|
  {
    hide Tracks, AddText, AddAddress, AddGroup, HasMailboxes, GoodMailbox, GoodMailboxes, KnownName, AtStart, Singles;
    if entries == [] {
      results', addrlist' := results, addrlist;
      assert results + Singles(addrlist) + [] == results + Singles(addrlist);
      if !needsComma {
        StartIsEnd(x, e, h, results, addrlist, "");
      }
    } else {
      CommaTracks(x, c, e, h, needsComma, results, addrlist, "");
      var e1 := if needsComma then AddText(c, e, ", ", true).e else e;
      var first := entries[0];
      assert GoodEntry(x, c.useASCII, first);
      var more, list := results, addrlist;
      match first {
        case Single(m) =>
          StartTracks(x, c, e1, h, Clear(results, addrlist, ""), m);
          SinglesAppend(addrlist, m);
          list := addrlist + [m];
        case Group(name, members) =>
          GroupTracks(x, c, e1, h, name, members, results, addrlist);
          more, list := results + Singles(addrlist) + [first], [];
      }
      assert more + Singles(list) == results + Singles(addrlist) + [first] by {
        NoSingles();
        assert more + [] == more;
        assert results + (Singles(addrlist) + [first]) == results + Singles(addrlist) + [first];
      }
      results', addrlist' := EntriesTrack(x, c, AddEntry(c, e1, first).e, h, entries[1..], true, more, list);
      assert results + Singles(addrlist) + entries == (results + Singles(addrlist) + [first]) + entries[1..];
    }
  }

  lemma NoSingles()
    ensures Singles([]) == []
  {
  }

  // The header

  lemma HeaderLine(c: Config, e: Emission, name: string)
    requires e.cur == "" && e.pref == 0 && AddHeaderName(c, e, name).ok
    ensures var e1 := AddHeaderName(c, e, name).e;
            e1.lines == e.lines && e1.cur == name + ": " && e1.pref == 0
  {
    hide IsSpace;
    assert TrimRight("") == "";
  }

  lemma HeaderTracks(x: Reader, c: Config, e: Emission, name: string)
    requires e.cur == "" && e.pref == 0 && IsPrintable(name) && AddHeaderName(c, e, name).ok
    ensures AtStart(x, AddHeaderName(c, e, name).e, Delivered(e.lines) + name + ":", NEW_PARSE)
  {
    hide Feed, Delivered, TrimRight, AddHeaderName, Calm, At, Readable, TextTo;
    HeaderLine(c, e, name);
    HeaderTrimmed(name);
    var h := Delivered(e.lines) + name + ":";
    var e1 := AddHeaderName(c, e, name).e;
    ValueStarts(x, e1, h, name);
    assert IsPrintable(e1.cur);
    ShutIdle(x, NEW_MACHINE);
  }

  lemma HeaderTrimmed(name: string)
    ensures TrimRight(name + ": ") == name + ":"
  {
    SpaceIsSpace();
    DelimiterIsInk(':');
    hide IsSpace;
    TrimMore(name + ":");
    assert name + ": " == (name + ":") + " ";
  }

  lemma ValueStarts(x: Reader, e: Emission, h: string, name: string)
    requires h == Delivered(e.lines) + name + ":" && e.cur == name + ": "
    ensures At(x, e, h, name + ":") == NEW_MACHINE && At(x, e, h, e.cur) == NEW_MACHINE
    ensures Readable(x, NEW_MACHINE, TextTo(e, h, name + ":"))
  {
    hide Feed, Delivered;
    assert (Delivered(e.lines) + (name + ":"))[|h|..] == "";
    assert (Delivered(e.lines) + e.cur)[|h|..] == " ";
    FeedNothing(x, NEW_MACHINE);
    FeedBlanks(x, NEW_MACHINE, " ");
    ShutIdle(x, NEW_MACHINE);
  }

  /** The end of the header shuts the last token. */
  lemma FinishTracks(x: Reader, e: Emission, h: string, results: seq<Entry>, addrlist: seq<Mailbox>)
    requires HasMailboxes(x, e, h, results, addrlist, "")
    ensures h <= Delivered(Finish(e).lines)
    ensures AddressList(x.clean, x.d, Delivered(Finish(e).lines)[|h|..], x.doRFC2047) == results + Singles(addrlist)
  {
    hide Feed, Delivered, TrimRight, At, Tokens, Shut, Calm, Finished, Singles, AddressList, EndOf, Readable, Done,
         TextTo;
    var e1 := Finish(e);
    AtTrimmed(x, e, h, e.cur);
    var m := At(x, e, h, TrimRight(e.cur));
    ShutTwice(x, m);
    ShutTwice(x, Now(x, e, h));
    LineRead(x, e, e1, h, TrimRight(e.cur));
    TextToLines(e1, h);
    AtIsFed(x, e1, h);
    EndOfShut(x, Shut(x, m), results, addrlist);
    ReadIsEnd(x, TextTo(e1, h, ""));
  }

  lemma TextToLines(e: Emission, h: string)
    requires h <= Delivered(e.lines)
    ensures Delivered(e.lines) + "" == Delivered(e.lines) && TextTo(e, h, "") == Delivered(e.lines)[|h|..]
  {
    assert Delivered(e.lines) + "" == Delivered(e.lines);
  }

  lemma AtIsFed(x: Reader, e: Emission, h: string)
    requires h <= Delivered(e.lines) + ""
    ensures At(x, e, h, "") == Feed(x, NEW_MACHINE, TextTo(e, h, ""))
  {
  }

  lemma EndOfShut(x: Reader, m: Machine, results: seq<Entry>, addrlist: seq<Mailbox>)
    requires IsMachine(m) && m.s == NEW_SCANNER && Finished(Done(x, m).p, results, addrlist, "") && Shut(x, m) == m
    ensures EndOf(x, m) == results + Singles(addrlist)
  {
    hide AddToAddrList, Singles, Settle;
  }

  lemma ReadIsEnd(x: Reader, text: string)
    requires Readable(x, NEW_MACHINE, text)
    ensures AddressList(x.clean, x.d, text, x.doRFC2047) == EndOf(x, Feed(x, NEW_MACHINE, text))
  {
    hide Readable, Feed, EndParse, StepTokens;
    assert text[0..] == text;
    ReadIsFed(x, text, 0, NEW_MACHINE);
  }

  /** Printing an address list under a header name and reading back what follows the name gives the list, at
      any margins and wherever the lines were folded, as long as nothing was too long to print. */
  lemma AddressesRoundTrip(x: Reader, c: Config, e: Emission, name: string, entries: seq<Entry>)
    requires c.Valid() && KeepsPrintable(x.clean) && e.cur == "" && e.pref == 0
    requires IsPrintable(name) && GoodEntries(x, c.useASCII, entries)
    requires AddHeaderName(c, e, name).ok && AddEntries(c, AddHeaderName(c, e, name).e, entries, false).ok
    ensures var text := Delivered(Finish(AddEntries(c, AddHeaderName(c, e, name).e, entries, false).e).lines);
            var h := Delivered(e.lines) + name + ":";
            h <= text && AddressList(x.clean, x.d, text[|h|..], x.doRFC2047) == entries
  {
    hide Tracks, AddHeaderName, AddEntries, GoodEntries, HasMailboxes, AddressList, Delivered, Singles;
    var h := Delivered(e.lines) + name + ":";
    HeaderTracks(x, c, e, name);
    var e1 := AddHeaderName(c, e, name).e;
    var results, addrlist := EntriesTrack(x, c, e1, h, entries, false, [], []);
    FinishTracks(x, AddEntries(c, e1, entries, false).e, h, results, addrlist);
    NoSingles();
    assert [] + [] + entries == entries;
  }
}
