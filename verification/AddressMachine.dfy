/** The tokenizer and the address machine of packages/crypto/src/jsmimeparser/headerParser.js run together, one
    character at a time, and what they make of the pieces that the emitter writes. The source first tokenizes the
    whole text and then reads the tokens; fed with characters instead, the two can be stopped anywhere, which is what
    following an emitter that delivers line by line calls for. */
module AddressMachine {
  import opened AddressParser
  import opened EncodedWords
  import opened HeaderPhrases
  import opened HeaderText
  import opened HeaderTokens
  import opened Results
  import opened WordDecoding
  import opened WordReading
  import opened WordRoundTrip
  import opened WordSplitting

  datatype Reader = Reader(clean: Cleaner, d: Decoder, doRFC2047: bool) {
    function Options(): Options {
      AddressOptions(doRFC2047)
    }
  }

  /** Cleaning leaves text that displays alone. */
  ghost predicate KeepsPrintable(clean: Cleaner) {
    forall s :: IsPrintable(s) ==> clean(s) == s
  }

  /** The scanner and the parse; in a run of encoded-words also their text so far, which becomes a token when the run
      has ended. */
  datatype Machine = Machine(s: Scanner, p: Parse, run: Option<string> := None)

  const NEW_MACHINE := Machine(NEW_SCANNER, NEW_PARSE)

  predicate IsMachine(m: Machine) {
    IsScanner(m.s) && (m.run.Some? ==> m.s.open.None? && m.s.endQuote.None? && !m.s.escaped)
  }

  /** The run, if there is one, is over. */
  function Settle(x: Reader, m: Machine): (n: Machine)
    ensures n.s == m.s && n.run.None?
  {
    match m.run
    case None => m
    case Some(text) => Machine(m.s, StepText(m.p, x.clean(DropMark(text))))
  }

  function FeedChar(x: Reader, m: Machine, ch: char): (n: Machine)
    requires IsMachine(m)
    ensures IsMachine(n)
  {
    if m.run.Some? && IsBlank(ch) then m
    else
      var q := Settle(x, m);
      var (s, tokens) := Step(x.Options(), x.d, q.s, ch);
      Machine(s, StepTokens(x.clean, q.p, tokens))
  }

  function FeedWord(x: Reader, m: Machine, w: string): (n: Machine)
    requires IsMachine(m) && m.s.endQuote.None? && !m.s.escaped
    ensures IsMachine(n)
  {
    match m.run
    case None => Machine(m.s.(open := None), StepTokens(x.clean, m.p, Ended(m.s.open)), Some(PieceOf(w)))
    case Some(text) => m.(run := Some(text + PieceOf(w)))
  }

  /** The text goes on with an encoded-word, where one is looked for. */
  predicate TakesWord(m: Machine, text: string) {
    m.s.endQuote.None? && !m.s.escaped && WordEnd(text, 0).Some?
  }

  function Feed(x: Reader, m: Machine, text: string): (n: Machine)
    requires IsMachine(m)
    ensures IsMachine(n)
    decreases |text|
  {
    if text == "" then m
    else if TakesWord(m, text) then
      var n := WordEnd(text, 0).value;
      Feed(x, FeedWord(x, m, text[..n]), text[n..])
    else Feed(x, FeedChar(x, m, text[0]), text[1..])
  }

  function EndOf(x: Reader, m: Machine): seq<Entry>
    requires IsMachine(m)
  {
    EndParse(StepTokens(x.clean, Settle(x, m).p, Last(m.s)))
  }

  /** The reader decodes encoded-words. */
  ghost predicate ReadsWords(x: Reader) {
    x.doRFC2047 && DecodesWords(x.d)
  }

  /** Every mark in the text begins a word of ours, outside quotations and comments. */
  ghost predicate Readable(x: Reader, m: Machine, text: string)
    requires IsMachine(m)
    decreases |text|
  {
    if text == "" then true
    else if TakesWord(m, text) then
      var n := WordEnd(text, 0).value;
      Calm(m) && ReadsWords(x) && IsOurWord(text[..n]) && Readable(x, FeedWord(x, m, text[..n]), text[n..])
    else !StartsWithMark(text) && Readable(x, FeedChar(x, m, text[0]), text[1..])
  }

  /** Reading goes on where it was left, unless the cut goes through a mark. */
  lemma {:induction false} FeedAppend(x: Reader, m: Machine, a: string, b: string)
    requires IsMachine(m) && Readable(x, m, a) && Joins(a, b)
    ensures Feed(x, m, a + b) == Feed(x, Feed(x, m, a), b)
    ensures Readable(x, Feed(x, m, a), b) ==> Readable(x, m, a + b)
    decreases |a|
  {
    hide FeedChar, FeedWord, WordEnd, ReadsWords, IsOurWord;
    if a == "" {
      assert a + b == b;
    } else {
      WordJoins(a, b);
      assert a == a[..1] + a[1..];
      if TakesWord(m, a) {
        var n := WordEnd(a, 0).value;
        assert (a + b)[..n] == a[..n] && (a + b)[n..] == a[n..] + b;
        FeedAppend(x, FeedWord(x, m, a[..n]), a[n..], b);
      } else {
        assert (a + b)[0] == a[0] && (a + b)[1..] == a[1..] + b;
        FeedAppend(x, FeedChar(x, m, a[0]), a[1..], b);
      }
    }
  }

  lemma WordJoins(a: string, b: string)
    requires a != "" && Joins(a, b) && (StartsWithMark(a) ==> WordEnd(a, 0).Some?)
    ensures WordEnd(a + b, 0) == WordEnd(a, 0) && StartsWithMark(a + b) == StartsWithMark(a)
    ensures WordEnd(a, 0).Some? ==> Joins(a[WordEnd(a, 0).value..], b)
    ensures Joins(a[1..], b)
  {
    if WordEnd(a, 0).Some? {
      WordMore(a, b);
    }
    hide WordEnd;
    WordHasMark(a);
    WordHasMark(a + b);
    assert (a + b)[0] == a[0];
  }

  /** Text can be read in two parts if there is white space between them. */
  lemma {:induction false} ReadableParts(x: Reader, m: Machine, a: string, b: string)
    requires IsMachine(m) && Readable(x, m, a + b)
    requires b == "" || IsBlank(b[0]) || a == "" || IsBlank(a[|a| - 1])
    ensures Readable(x, m, a) && Joins(a, b) && Readable(x, Feed(x, m, a), b)
    decreases |a|
  {
    hide FeedChar, FeedWord, WordEnd, ReadsWords, IsOurWord;
    if a == "" {
      assert a + b == b;
    } else if b == "" {
      assert a + b == a;
    } else {
      var t := a + b;
      assert t[|a|] == b[0] && t[|a| - 1] == a[|a| - 1] && t[..|a|] == a;
      if TakesWord(m, t) {
        var n := WordEnd(t, 0).value;
        WordBeforeBlank(t, if IsBlank(b[0]) then |a| else |a| - 1);
        WordWithin(t, |a|);
        assert t[..n] == a[..n] && t[n..] == a[n..] + b;
        ReadableParts(x, FeedWord(x, m, a[..n]), a[n..], b);
      } else {
        WordHasMark(a);
        assert t[0] == a[0] && t[1..] == a[1..] + b;
        assert |a| >= 2 ==> t[1] == a[1];
        ReadableParts(x, FeedChar(x, m, a[0]), a[1..], b);
      }
    }
  }

  /** Text without a mark is read character by character. */
  lemma {:induction false} PlainReadable(x: Reader, m: Machine, text: string)
    requires IsMachine(m) && !HasMark(text)
    ensures Readable(x, m, text)
    ensures m.run.None? ==> Feed(x, m, text).run.None?
    decreases |text|
  {
    hide WordEnd;
    if text != "" {
      WordHasMark(text);
      assert !StartsWithMark(text);
      assert !HasMark(text[1..]) by {
        forall i | 0 <= i < |text| - 2
          ensures !(text[1..][i] == '=' && text[1..][i + 1] == '?')
        {
          assert text[1..][i] == text[i + 1] && text[1..][i + 1] == text[i + 2];
        }
      }
      PlainReadable(x, FeedChar(x, m, text[0]), text[1..]);
    }
  }

  lemma {:induction false} TokensAppend(clean: Cleaner, p: Parse, a: seq<Token>, b: seq<Token>)
    ensures StepTokens(clean, p, a + b) == StepTokens(clean, StepTokens(clean, p, a), b)
    decreases |a|
  {
    hide StepToken;
    if a == [] {
      assert a + b == b;
    } else {
      assert (a + b)[1..] == a[1..] + b;
      TokensAppend(clean, StepToken(clean, p, a[0]), a[1..], b);
    }
  }

  // The tokenizer and the machine

  /** In a run the next word adds its text. */
  lemma NextInRun(x: Reader, m: Machine, text: string) returns (chunk: Chunk)
    requires Calm(m) && Readable(x, m, text) && m.run.Some? && WordEnd(text, Blanks(text)).Some?
    ensures var k, e := Blanks(text), WordEnd(text, Blanks(text)).value;
            var more := m.(run := Some(m.run.value + PieceOf(text[k..e])));
            && IsWritten(text[k..e], chunk)
            && Feed(x, m, text) == Feed(x, more, text[e..]) && Readable(x, more, text[e..])
  {
    hide WordEnd, ReadsWords, WordText, PieceOf, Feed, Readable, AllBlank, FeedWord, IsWritten;
    var k := Blanks(text);
    var rest, e := text[k..], WordEnd(text, k).value;
    assert text == text[..k] + rest;
    BlanksApart(text, k);
    ReadableParts(x, m, text[..k], rest);
    FeedAppend(x, m, text[..k], rest);
    FeedBlanks(x, m, text[..k]);
    WordEndShift(text, k, k);
    assert text[e..] == rest[e - k..] && text[k..e] == rest[..e - k];
    chunk := WordInRun(x, m, rest);
  }

  lemma BlanksApart(text: string, k: nat)
    requires k <= |text| && AllBlank(text[..k])
    ensures text[..k] == "" || IsBlank(text[..k][|text[..k]| - 1])
  {
  }

  lemma WordInRun(x: Reader, m: Machine, text: string) returns (chunk: Chunk)
    requires Calm(m) && Readable(x, m, text) && m.run.Some? && text != "" && TakesWord(m, text)
    ensures var e := WordEnd(text, 0).value;
            var more := m.(run := Some(m.run.value + PieceOf(text[..e])));
            IsWritten(text[..e], chunk) && Feed(x, m, text) == Feed(x, more, text[e..]) && Readable(x, more, text[e..])
  {
    hide WordEnd, ReadsWords, PieceOf, IsWritten;
    chunk :| IsWritten(text[..WordEnd(text, 0).value], chunk);
  }

  /** A run is read word by word; what is left does not go on with it. */
  lemma {:induction false} RunIsFed(x: Reader, m: Machine, text: string)
      returns (chunks: seq<Chunk>, pieces: seq<string>)
    requires Calm(m) && Readable(x, m, text) && m.run.Some?
    ensures var n := RunLength(text);
            && Laid(text[..n], chunks) && Holds(chunks, pieces)
            && Feed(x, m, text) == Feed(x, m.(run := Some(m.run.value + Flatten(pieces))), text[n..])
            && Readable(x, m.(run := Some(m.run.value + Flatten(pieces))), text[n..])
            && RunLength(text[n..]) == 0
    decreases |text|
  {
    hide WordEnd, ReadsWords, WordText, PieceOf, Laid, Feed, Readable, RunLength, Holds, Flatten, IsWritten;
    var k := Blanks(text);
    RunStep(text);
    if WordEnd(text, k).None? {
      chunks, pieces := [], [];
      assert text[..0] == "" && text[0..] == text && m.run.value + "" == m.run.value;
      assert Laid("", []) && Holds([], []) && Flatten([]) == "" by {
        NothingLaid();
        NothingHeld();
      }
    } else {
      var e := WordEnd(text, k).value;
      var w := text[k..e];
      var chunk := NextInRun(x, m, text);
      var more := m.(run := Some(m.run.value + PieceOf(w)));
      var cs, ps := RunIsFed(x, more, text[e..]);
      chunks, pieces := [chunk] + cs, [PieceOf(w)] + ps;
      OneMoreWord(text, k, e, RunLength(text[e..]), chunk, cs, ps);
      assert (m.run.value + PieceOf(w)) + Flatten(ps) == m.run.value + Flatten(pieces);
    }
  }

  lemma NothingHeld()
    ensures Holds([], []) && Flatten([]) == ""
  {
  }

  lemma RunStep(text: string)
    ensures var e := WordEnd(text, Blanks(text));
            RunLength(text) == if e.None? then 0 else e.value + RunLength(text[e.value..])
  {
  }

  /** A word put before the others. */
  lemma OneMoreWord(text: string, k: nat, e: nat, n: nat, chunk: Chunk, cs: seq<Chunk>, ps: seq<string>)
    requires k <= e && e + n <= |text| && AllBlank(text[..k]) && IsWritten(text[k..e], chunk)
    requires Laid(text[e..][..n], cs) && Holds(cs, ps)
    ensures Laid(text[..e + n], [chunk] + cs) && Holds([chunk] + cs, [PieceOf(text[k..e])] + ps)
    ensures Flatten([PieceOf(text[k..e])] + ps) == PieceOf(text[k..e]) + Flatten(ps)
    ensures text[e..][n..] == text[e + n..]
  {
    hide WordText, PieceOf, Laid, AllBlank;
    var pieces := [PieceOf(text[k..e])] + ps;
    assert pieces[1..] == ps;
    assert text[..e + n][..k] == text[..k] && text[..e + n][k..e] == text[k..e];
    assert text[e..][..n] == text[..e + n][e..];
    RunLaid(text[..e + n], k, chunk, cs);
  }

  lemma RunLaid(s: string, g: nat, chunk: Chunk, chunks: seq<Chunk>)
    requires g + |WordText(chunk)| <= |s| && AllBlank(s[..g]) && s[g..g + |WordText(chunk)|] == WordText(chunk)
    requires Laid(s[g + |WordText(chunk)|..], chunks)
    ensures Laid(s, [chunk] + chunks)
  {
    hide WordText, Laid;
    assert ([chunk] + chunks)[1..] == chunks && StartsAt(s, g, WordText(chunk));
    LaidFrom(s, g, [chunk] + chunks);
  }

  /** Where a run is over, ending it makes no difference. */
  lemma {:induction false} RunIsOver(x: Reader, m: Machine, text: string)
    requires Calm(m) && Readable(x, m, text) && RunLength(text) == 0
    ensures EndOf(x, Feed(x, m, text)) == EndOf(x, Feed(x, Settle(x, m), text)) && Readable(x, Settle(x, m), text)
    decreases |text|
  {
    hide WordEnd, Step, EndParse, StepText, IsOurWord, ReadsWords;
    if text != "" && m.run.Some? {
      NoWordFirst(text);
      var q := Settle(x, m);
      if IsBlank(text[0]) {
        assert FeedChar(x, q, text[0]) == q by {
          FeedBlank(x, q, text[0]);
          ShutIdle(x, q);
        }
        RunLater(text);
        RunIsOver(x, m, text[1..]);
      } else {
        assert FeedChar(x, m, text[0]) == FeedChar(x, q, text[0]);
      }
    }
  }

  lemma NoWordFirst(text: string)
    requires RunLength(text) == 0 && text != ""
    ensures WordEnd(text, 0).None?
  {
    if !IsBlank(text[0]) {
      assert Blanks(text) == 0;
    }
  }

  lemma RunLater(text: string)
    requires text != "" && IsBlank(text[0])
    ensures RunLength(text) == 0 ==> RunLength(text[1..]) == 0
  {
    var k := Blanks(text[1..]);
    WordEndShift(text, 1, k + 1);
  }

  /** Reading a text is feeding it to the machine, if its encoded-words are ours. */
  lemma {:induction false} ReadIsFed(x: Reader, value: string, i: nat, m: Machine)
    requires i <= |value| && IsMachine(m) && m.run.None? && Readable(x, m, value[i..])
    ensures EndParse(StepTokens(x.clean, m.p, TokensFrom(x.Options(), x.d, value, i, m.s)))
        == EndOf(x, Feed(x, m, value[i..]))
    decreases |value| - i
  {
    hide StepToken, EndParse, Unescape, Step, WordEnd, IsOurWord, DecodesWords;
    if i == |value| {
      assert value[i..] == "";
    } else if TakesWord(m, value[i..]) {
      ReadRun(x, value, i, m);
    } else {
      assert value[i..][0] == value[i] && value[i..][1..] == value[i + 1..];
      assert |value| > i + 1 ==> value[i..][1] == value[i + 1];
      assert !MayDecode(x.Options(), value, i, m.s);
      var (s, tokens) := Step(x.Options(), x.d, m.s, value[i]);
      TokensAppend(x.clean, m.p, tokens, TokensFrom(x.Options(), x.d, value, i + 1, s));
      ReadIsFed(x, value, i + 1, FeedChar(x, m, value[i]));
    }
  }

  /** A run is one token. */
  lemma {:induction false} ReadRun(x: Reader, value: string, i: nat, m: Machine)
    requires i < |value| && IsMachine(m) && m.run.None? && Readable(x, m, value[i..]) && TakesWord(m, value[i..])
    ensures EndParse(StepTokens(x.clean, m.p, TokensFrom(x.Options(), x.d, value, i, m.s)))
        == EndOf(x, Feed(x, m, value[i..]))
    decreases |value| - i, 0
  {
    hide StepToken, EndParse, Unescape, Step, WordEnd, WordText, PieceOf, Laid, StepText, Feed, Readable, TokensFrom,
         ReadsWords;
    hide RunLength;
    var text := value[i..];
    var n := RunLength(text);
    var q := RunAtOnce(x, m, text);
    assert text[n..] == value[i + n..];
    RunIsOver(x, q, value[i + n..]);
    RunToken(x, value, i, m, q);
    ReadIsFed(x, value, i + n, Settle(x, q));
  }

  /** What is open is a token, and then a run at the start of the text is one, whose text q has decoded. */
  ghost predicate HasRun(x: Reader, m: Machine, text: string, q: Machine) {
    && text != "" && TakesWord(m, text) && ReadsWords(x)
    && q.s == m.s.(open := None) && q.p == StepTokens(x.clean, m.p, Ended(m.s.open)) && q.run.Some?
    && 0 < RunLength(text) && x.d.decode(text[..RunLength(text)]) == DropMark(q.run.value)
  }

  /** What reading a run from its first word comes to. */
  lemma RunAtOnce(x: Reader, m: Machine, text: string) returns (q: Machine)
    requires IsMachine(m) && m.run.None? && text != "" && Readable(x, m, text) && TakesWord(m, text)
    ensures Calm(q) && HasRun(x, m, text, q)
    ensures Feed(x, m, text) == Feed(x, q, text[RunLength(text)..]) && Readable(x, q, text[RunLength(text)..])
    ensures RunLength(text[RunLength(text)..]) == 0
  {
    hide StepTokens, Unescape, Step, WordEnd, WordText, PieceOf, StepText, RunLength, Laid, Holds, ReadsWords,
         IsWritten, Flatten;
    var chunk, first := FirstOfRun(x, m, text);
    var e := WordEnd(text, 0).value;
    hide Feed, Readable, FeedWord;
    var cs, ps := RunIsFed(x, first, text[e..]);
    var pieces := [PieceOf(text[0..e])] + ps;
    q := first.(run := Some(first.run.value + Flatten(ps)));
    RunFromWord(text);
    assert text[..0] == "";
    OneMoreWord(text, 0, e, RunLength(text[e..]), chunk, cs, ps);
    RunDecoded(x, text[..RunLength(text)], [chunk] + cs, pieces);
  }

  lemma RunDecoded(x: Reader, s: string, chunks: seq<Chunk>, pieces: seq<string>)
    requires ReadsWords(x) && Laid(s, chunks) && chunks != [] && Holds(chunks, pieces)
    ensures x.d.decode(s) == DropMark(Flatten(pieces))
  {
    hide Laid, Holds, RunLength;
  }

  lemma FirstOfRun(x: Reader, m: Machine, text: string) returns (chunk: Chunk, first: Machine)
    requires IsMachine(m) && m.run.None? && text != "" && Readable(x, m, text) && TakesWord(m, text)
    ensures var e := WordEnd(text, 0).value;
            && ReadsWords(x) && IsWritten(text[0..e], chunk) && Calm(m)
            && first == Machine(m.s.(open := None), StepTokens(x.clean, m.p, Ended(m.s.open)),
                                Some(PieceOf(text[0..e])))
            && Feed(x, m, text) == Feed(x, first, text[e..]) && Readable(x, first, text[e..])
  {
    hide WordEnd, PieceOf, IsWritten, ReadsWords;
    var e := WordEnd(text, 0).value;
    assert text[0..e] == text[..e];
    chunk :| IsWritten(text[..e], chunk);
    first := FeedWord(x, m, text[..e]);
  }

  /** The tokenizer takes the run as one token. */
  lemma RunToken(x: Reader, value: string, i: nat, m: Machine, q: Machine)
    requires i < |value| && IsMachine(m) && m.run.None? && HasRun(x, m, value[i..], q)
    ensures StepTokens(x.clean, m.p, TokensFrom(x.Options(), x.d, value, i, m.s))
         == StepTokens(x.clean, Settle(x, q).p, TokensFrom(x.Options(), x.d, value, i + RunLength(value[i..]), q.s))
  {
    hide Unescape, Step, WordEnd, StepText, RunLength, DecodesWords, TokensFrom;
    var text := value[i..];
    var n := RunLength(text);
    RunFound(x, text);
    WordHasMark(text);
    assert text[0] == value[i] && text[1] == value[i + 1];
    assert text[..n] == value[i..i + n];
    TakenAtOnce(x.Options(), x.d, value, i, m.s, n);
    var word := [Word(DropMark(q.run.value))];
    var later := TokensFrom(x.Options(), x.d, value, i + n, q.s);
    TokensAppend(x.clean, m.p, Ended(m.s.open) + word, later);
    TokensAppend(x.clean, m.p, Ended(m.s.open), word);
    OneToken(x.clean, q.p, word[0]);
  }

  lemma TakenAtOnce(o: Options, d: Decoder, value: string, i: nat, s: Scanner, n: nat)
    requires i < |value| && IsScanner(s) && MayDecode(o, value, i, s) && n == d.length(value[i..]) > 0
    requires i + n <= |value|
    ensures TokensFrom(o, d, value, i, s)
         == Ended(s.open) + [Word(d.decode(value[i..i + n]))] + TokensFrom(o, d, value, i + n, s.(open := None))
  {
    hide Step, Unescape;
  }

  lemma RunFound(x: Reader, text: string)
    requires ReadsWords(x) && RunLength(text) > 0
    ensures x.d.length(text) == RunLength(text)
  {
    hide RunLength, Laid;
  }

  lemma RunFromWord(text: string)
    requires WordEnd(text, 0).Some?
    ensures RunLength(text) == WordEnd(text, 0).value + RunLength(text[WordEnd(text, 0).value..])
  {
    assert !IsBlank(text[0]);
  }

  // Between tokens

  /** Outside quotations and comments. */
  predicate Calm(m: Machine) {
    m.s.endQuote.None? && m.s.depth == 0 && !m.s.escaped && (m.run.Some? ==> m.s.open.None?)
  }

  /** With no token open. */
  predicate Idle(m: Machine) {
    m.s == NEW_SCANNER && m.run.None?
  }

  /** What any white space does: it ends a token, but not a run. */
  function Shut(x: Reader, m: Machine): (n: Machine)
    ensures IsMachine(n) || m.run.Some?
  {
    if m.run.Some? then m else Machine(NEW_SCANNER, StepTokens(x.clean, m.p, Ended(m.s.open)))
  }

  /** With the open token or the run ended. */
  function Done(x: Reader, m: Machine): Machine {
    Settle(x, Shut(x, m))
  }

  lemma DoneIsShut(x: Reader, m: Machine)
    ensures m.run.None? ==> Done(x, m) == Shut(x, m)
    ensures Done(x, Shut(x, m)) == Done(x, m)
    ensures Calm(m) ==> Idle(Done(x, m))
  {
  }

  lemma ShutIdle(x: Reader, m: Machine)
    requires Idle(m)
    ensures Shut(x, m) == m && Calm(m) && Done(x, m) == m
  {
  }

  lemma FeedBlank(x: Reader, m: Machine, ch: char)
    requires Calm(m) && IsBlank(ch)
    ensures FeedChar(x, m, ch) == Shut(x, m)
  {
    hide StepToken, Unescape;
  }

  lemma {:induction false} FeedBlanks(x: Reader, m: Machine, text: string)
    requires Calm(m) && AllBlank(text)
    ensures Feed(x, m, text) == if text == "" then m else Shut(x, m)
    ensures Readable(x, m, text)
    decreases |text|
  {
    hide FeedChar, Shut, WordEnd;
    if text != "" {
      assert IsBlank(text[0]);
      WordHasMark(text);
      FeedBlank(x, m, text[0]);
      ShutTwice(x, m);
      FeedBlanks(x, Shut(x, m), text[1..]);
    }
  }

  lemma ShutTwice(x: Reader, m: Machine)
    requires Calm(m)
    ensures Calm(Shut(x, m)) && Shut(x, Shut(x, m)) == Shut(x, m) && Done(x, Shut(x, m)) == Done(x, m)
    ensures (m.run.None? ==> Idle(Shut(x, m))) && Shut(x, m).s == NEW_SCANNER
  {
  }

  lemma FeedDelimiter(x: Reader, m: Machine, ch: char)
    requires Calm(m) && ch in ":,;<>@"
    ensures Feed(x, m, [ch]) == Machine(NEW_SCANNER, StepToken(x.clean, Done(x, m).p, Delimiter(ch)))
    ensures Readable(x, m, [ch])
  {
    hide StepToken, Unescape, WordEnd, StepText;
    OneChar(x, m, ch);
    var q := Settle(x, m);
    TokensAppend(x.clean, q.p, Ended(q.s.open), [Delimiter(ch)]);
    OneToken(x.clean, Done(x, m).p, Delimiter(ch));
    NothingEnded(x.clean, q.p);
  }

  lemma NothingEnded(clean: Cleaner, p: Parse)
    ensures StepTokens(clean, p, Ended(None)) == p
  {
  }

  // Words

  /** A character that is only ever part of a word. */
  predicate IsAtomChar(c: char) {
    ' ' < c <= '~' && c !in ":,;<>@\"[()\\"
  }

  predicate IsAtom(s: string) {
    forall i :: 0 <= i < |s| ==> IsAtomChar(s[i])
  }

  lemma {:induction false} FeedAtom(x: Reader, m: Machine, w: string)
    requires Calm(m) && m.run.None? && IsAtom(w) && w != "" && !HasMark(w)
    ensures Feed(x, m, w) == Machine(m.s.(open := Some(TokenText(m) + w)), m.p)
    decreases |w|
  {
    hide FeedChar, IsAtomChar, HasMark, Feed, WordEnd;
    var n := Machine(m.s.(open := Some(TokenText(m) + [w[0]])), m.p);
    AtomChar(x, m, w[0]);
    FeedFirst(x, m, w);
    if |w| > 1 {
      NoWordHere(w);
      FeedAtom(x, n, w[1..]);
      assert TokenText(m) + w == (TokenText(m) + [w[0]]) + w[1..];
    } else {
      assert w[1..] == "" && [w[0]] == w;
      FeedNothing(x, n);
    }
  }

  /** The open token. */
  function TokenText(m: Machine): string {
    if m.s.open.Some? then m.s.open.value else ""
  }

  lemma FeedFirst(x: Reader, m: Machine, w: string)
    requires IsMachine(m) && w != "" && !HasMark(w)
    ensures Feed(x, m, w) == Feed(x, FeedChar(x, m, w[0]), w[1..])
  {
    hide WordEnd, FeedChar;
    NoWordHere(w);
  }

  lemma AtomChar(x: Reader, m: Machine, c: char)
    requires Calm(m) && m.run.None? && IsAtomChar(c)
    ensures FeedChar(x, m, c) == Machine(m.s.(open := Some(TokenText(m) + [c])), m.p)
  {
    hide StepToken, Unescape;
    assert "" + [c] == [c];
  }

  lemma NoWordHere(w: string)
    requires w != "" && !HasMark(w)
    ensures WordEnd(w, 0).None? && !HasMark(w[1..])
  {
    WordHasMark(w);
    forall i | 0 <= i < |w| - 2
      ensures !(w[1..][i] == '=' && w[1..][i + 1] == '?')
    {
      assert w[1..][i] == w[i + 1] && w[1..][i + 1] == w[i + 2];
    }
  }

  lemma {:induction false} UnescapePlain(s: string)
    requires '\\' !in s
    ensures Unescape(s) == s
  {
    if s != "" {
      UnescapePlain(s[1..]);
    }
  }

  lemma OneToken(clean: Cleaner, p: Parse, token: Token)
    ensures StepTokens(clean, p, [token]) == StepToken(clean, p, token)
    ensures StepTokens(clean, p, []) == p
  {
    hide StepToken;
    assert [token][1..] == [];
  }

  lemma OneChar(x: Reader, m: Machine, c: char)
    requires IsMachine(m)
    ensures Feed(x, m, [c]) == FeedChar(x, m, c) && Readable(x, m, [c])
  {
    hide FeedChar, WordEnd;
    WordHasMark([c]);
    assert [c][1..] == "" && [c][0] == c;
  }

  /** A word fed to an idle machine is one token, once it is shut. */
  lemma AtomIsToken(x: Reader, m: Machine, w: string)
    requires KeepsPrintable(x.clean) && Idle(m) && IsAtom(w) && w != "" && !HasMark(w)
    ensures Calm(Feed(x, m, w)) && Shut(x, Feed(x, m, w)) == Machine(NEW_SCANNER, StepText(m.p, w))
    ensures Feed(x, m, w).run.None? && Readable(x, m, w)
  {
    hide StepText, Unescape, Feed, Readable;
    PlainReadable(x, m, w);
    FeedAtom(x, m, w);
    assert "" + w == w;
    assert '\\' !in w by {
      forall i | 0 <= i < |w| ensures w[i] != '\\' { assert IsAtomChar(w[i]); }
    }
    UnescapePlain(w);
    assert IsPrintable(w) by {
      forall i | 0 <= i < |w| ensures ' ' <= w[i] <= '~' { assert IsAtomChar(w[i]); }
    }
    OneToken(x.clean, m.p, Word(w));
  }

  // Quoted strings

  lemma {:induction false} UnescapeEscape(t: string)
    ensures Unescape(Escape(t)) == t
  {
    if t != "" {
      UnescapeEscape(t[1..]);
      var e := Escape(t);
      if t[0] == '"' || t[0] == '\\' {
        assert e[0] == '\\' && e[1] == t[0] && e[2..] == Escape(t[1..]);
      } else {
        assert e[0] == t[0] && e[1..] == Escape(t[1..]);
      }
    }
  }

  lemma {:induction false} FeedInside(x: Reader, m: Machine, t: string)
    requires IsMachine(m) && m.s.endQuote == Some('"') && !m.s.escaped && m.s.open.Some? && m.s.open.value != ""
    requires !HasMark(Escape(t))
    ensures Feed(x, m, Escape(t)) == Machine(m.s.(open := Some(m.s.open.value + Escape(t))), m.p)
    decreases |t|
  {
    hide Feed, Escape, Step, HasMark, Readable;
    var v := m.s.open.value;
    EscapeHead(t);
    if t == "" {
      assert v + "" == v;
      FeedNothing(x, m);
    } else {
      var head := if t[0] == '"' || t[0] == '\\' then ['\\', t[0]] else [t[0]];
      var n := Machine(m.s.(open := Some(v + head)), m.p);
      FeedHead(x, m, t[0]);
      MarkParts(head, Escape(t[1..]));
      PlainReadable(x, m, head);
      FeedAppend(x, m, head, Escape(t[1..]));
      FeedInside(x, n, t[1..]);
      assert (v + head) + Escape(t[1..]) == v + Escape(t);
    }
  }

  lemma MarkParts(a: string, b: string)
    requires !HasMark(a + b)
    ensures !HasMark(a) && !HasMark(b) && Joins(a, b)
  {
    var s := a + b;
    forall i | 0 <= i < |a| - 1
      ensures !(a[i] == '=' && a[i + 1] == '?')
    {
      assert s[i] == a[i] && s[i + 1] == a[i + 1];
    }
    forall i | 0 <= i < |b| - 1
      ensures !(b[i] == '=' && b[i + 1] == '?')
    {
      assert s[|a| + i] == b[i] && s[|a| + i + 1] == b[i + 1];
    }
    if a != "" && b != "" {
      assert s[|a| - 1] == a[|a| - 1] && s[|a| - 1 + 1] == b[0];
    }
  }

  lemma EscapeHead(t: string)
    ensures t == "" ==> Escape(t) == ""
    ensures t != "" ==> Escape(t) == (if t[0] == '"' || t[0] == '\\' then ['\\', t[0]] else [t[0]]) + Escape(t[1..])
  {
  }

  lemma FeedNothing(x: Reader, m: Machine)
    requires IsMachine(m)
    ensures Feed(x, m, "") == m
  {
  }

  lemma FeedHead(x: Reader, m: Machine, c: char)
    requires IsMachine(m) && m.s.endQuote == Some('"') && !m.s.escaped && m.s.open.Some? && m.s.open.value != ""
    ensures var head := if c == '"' || c == '\\' then ['\\', c] else [c];
            Feed(x, m, head) == Machine(m.s.(open := Some(m.s.open.value + head)), m.p)
  {
    hide StepToken, Unescape, Readable;
    var v := m.s.open.value;
    if c == '"' || c == '\\' {
      var n := Machine(m.s.(open := Some(v + "\\"), escaped := true), m.p);
      OneChar(x, m, '\\');
      FeedAppend(x, m, "\\", [c]);
      OneChar(x, n, c);
      assert ['\\', c] == "\\" + [c] && (v + "\\") + [c] == v + ['\\', c];
    } else {
      OneChar(x, m, c);
    }
  }

  /** A quoted string is one token with the text it quotes. */
  lemma FeedQuoted(x: Reader, m: Machine, t: string)
    requires KeepsPrintable(x.clean) && Calm(m) && m.run.None? && IsPrintable(t)
    requires !HasMark(Escape(t)) && !AllBlank(Escape(t))
    ensures Feed(x, m, "\"" + Escape(t) + "\"") == Machine(NEW_SCANNER, StepText(Shut(x, m).p, t))
  {
    hide StepText, Unescape, Feed, Escape, HasMark, Readable;
    var inside := Machine(Scanner(Some("\""), Some('"'), 0, false), Shut(x, m).p);
    FeedOpening(x, m);
    PlainReadable(x, inside, Escape(t));
    FeedAppend(x, m, "\"", Escape(t));
    FeedInside(x, inside, t);
    FeedAppend(x, m, "\"" + Escape(t), "\"");
    UnescapeEscape(t);
    FeedClosing(x, Feed(x, inside, Escape(t)), Escape(t));
  }

  lemma FeedOpening(x: Reader, m: Machine)
    requires Calm(m) && m.run.None?
    ensures Feed(x, m, "\"") == Machine(Scanner(Some("\""), Some('"'), 0, false), Shut(x, m).p) && Readable(x, m, "\"")
  {
    hide StepToken, Unescape, WordEnd;
    OneChar(x, m, '"');
    assert Ended(m.s.open) + [] == Ended(m.s.open);
  }

  lemma FeedClosing(x: Reader, m: Machine, text: string)
    requires m.s == Scanner(Some("\"" + text), Some('"'), 0, false) && m.run.None?
    requires KeepsPrintable(x.clean) && IsPrintable(Unescape(text)) && !HasMark(text) && !AllBlank(text)
    ensures Feed(x, m, "\"") == Machine(NEW_SCANNER, StepText(m.p, Unescape(text)))
  {
    hide StepText, Unescape, HasMark;
    OneChar(x, m, '"');
    assert ("\"" + text)[1..] == text;
    OneToken(x.clean, m.p, Word(Unescape(text)));
  }

  // Names

  predicate IsNameChar(c: char) {
    ' ' <= c <= '~' && c != '"' && c != '\\'
  }

  /** A word set off by one space, not starting with a dot. */
  predicate AfterSpace(t: string, i: nat)
    requires 0 < i < |t|
  {
    t[i - 1] == ' ' ==> t[i] != ' ' && t[i] != '.'
  }

  /** Printable text without quotation marks or backslashes, in words set off by single spaces, none of which
      after the first starts with a dot. */
  predicate IsSpaced(t: string) {
    && t != "" && t[0] != ' ' && t[|t| - 1] != ' '
    && (forall i :: 0 <= i < |t| ==> IsNameChar(t[i]))
    && forall i :: 0 < i < |t| ==> AfterSpace(t, i)
  }

  predicate IsWord(w: string) {
    w != "" && w[0] != '.' && forall i :: 0 <= i < |w| ==> IsNameChar(w[i]) && w[i] != ' '
  }

  predicate AreWords(words: seq<string>) {
    words != [] && forall i :: 0 <= i < |words| ==> IsWord(words[i])
  }

  /** The names that survive a round trip. */
  predicate GoodName(name: string) {
    IsSpaced(name) && name[0] != '.' && !HasMark(name)
  }

  function Plus(v: string, w: string): string {
    if v == "" then w else v + " " + w
  }

  function JoinOnto(v: string, words: seq<string>): string
    decreases |words|
  {
    if words == [] then v else JoinOnto(Plus(v, words[0]), words[1..])
  }

  lemma SpacedTail(t: string)
    requires IsSpaced(t) && |t| > 1
    ensures t[1] != ' ' ==> IsSpaced(t[1..])
    ensures t[1] == ' ' ==> |t| > 2 && IsSpaced(t[2..]) && t[2] != '.'
  {
    if t[1] == ' ' {
      assert |t| > 2;
      assert AfterSpace(t, 2);
      SpacedFrom(t, 2);
    } else {
      SpacedFrom(t, 1);
    }
  }

  lemma SpacedFrom(t: string, k: nat)
    requires IsSpaced(t) && k < |t| && t[k] != ' '
    ensures IsSpaced(t[k..])
  {
    var r := t[k..];
    assert r[|r| - 1] == t[|t| - 1];
    forall i | 0 <= i < |r|
      ensures IsNameChar(r[i]) && (i > 0 ==> AfterSpace(r, i))
    {
      assert IsNameChar(t[k + i]);
      assert i > 0 ==> AfterSpace(t, k + i);
    }
  }

  /** Splitting at the spaces gives words that join up again. */
  lemma {:induction false} SplitSpaced(t: string, v: string)
    requires IsSpaced(t) && t[0] != '.'
    ensures var words := SplitOn(t, ' ');
            AreWords(words) && JoinOnto(v, words) == Plus(v, t)
    decreases |t|
  {
    hide IsSpaced, IsWord, SplitOn, AreWords, JoinOnto, Plus;
    if ' ' !in t {
      SplitNone(t);
      OneWord(t);
      WordFirst(t, [], v);
    } else {
      var k := FirstSpace(t);
      var w, r := t[..k], t[k + 1..];
      CutSpaced(t);
      SplitSome(w, r);
      SplitSpaced(r, Plus(v, w));
      WordFirst(w, SplitOn(r, ' '), v);
      PlusTwice(v, w, r);
    }
  }

  lemma PlusTwice(v: string, w: string, r: string)
    requires w != ""
    ensures Plus(Plus(v, w), r) == Plus(v, w + " " + r)
  {
  }

  lemma WordFirst(w: string, rest: seq<string>, v: string)
    requires IsWord(w) && (rest == [] || AreWords(rest))
    ensures w != "" && AreWords([w] + rest)
    ensures JoinOnto(v, [w] + rest) == JoinOnto(Plus(v, w), rest)
    ensures rest == [] ==> JoinOnto(v, [w] + rest) == Plus(v, w) && [w] + rest == [w]
  {
    hide IsWord, Plus;
    assert w != "" by {
      WordNotEmpty(w);
    }
    assert ([w] + rest)[1..] == rest;
  }

  lemma WordNotEmpty(w: string)
    requires IsWord(w)
    ensures w != ""
  {
  }

  lemma OneWord(t: string)
    requires IsSpaced(t) && t[0] != '.' && ' ' !in t
    ensures IsWord(t)
  {
  }

  lemma CutSpaced(t: string)
    requires IsSpaced(t) && t[0] != '.' && ' ' in t
    ensures var k := FirstSpace(t);
            var w, r := t[..k], t[k + 1..];
            t == w + " " + r && IsWord(w) && IsSpaced(r) && r[0] != '.'
  {
    var k := FirstSpace(t);
    assert AfterSpace(t, k + 1);
    SpacedFrom(t, k + 1);
  }

  function FirstSpace(t: string): (k: nat)
    requires ' ' in t
    ensures k < |t| && t[k] == ' ' && ' ' !in t[..k]
  {
    if t[0] == ' ' then 0
    else
      var k := FirstSpace(t[1..]);
      assert t[..k + 1] == [t[0]] + t[1..][..k];
      k + 1
  }

  lemma {:induction false} SplitNone(t: string)
    requires ' ' !in t
    ensures SplitOn(t, ' ') == [t]
  {
    if t != "" {
      SplitNone(t[1..]);
      assert [t[0]] + t[1..] == t;
    }
  }

  lemma {:induction false} SplitSome(w: string, r: string)
    requires ' ' !in w
    ensures SplitOn(w + " " + r, ' ') == [w] + SplitOn(r, ' ')
  {
    var t := w + " " + r;
    if w == "" {
      assert t[1..] == r;
    } else {
      assert t[1..] == w[1..] + " " + r;
      SplitSome(w[1..], r);
      assert [w[0]] + w[1..] == w;
    }
  }

  lemma {:induction false} EscapePlain(t: string)
    requires forall i :: 0 <= i < |t| ==> IsNameChar(t[i])
    ensures Escape(t) == t
  {
    if t != "" {
      EscapePlain(t[1..]);
      assert [t[0]] + t[1..] == t;
    }
  }

  /** The parse between mailboxes. */
  function Clear(results: seq<Entry>, addrlist: seq<Mailbox>, groupName: string): Parse {
    NEW_PARSE.(results := results, addrlist := addrlist, groupName := groupName)
  }

  /** The parse with part of a display name read. */
  function Named(p: Parse, v: string): Parse {
    p.(name := v, localPart := v, needsSpace := v != "")
  }

  /** Ready for a mailbox: nothing of it has been read. */
  predicate IsClear(p: Parse) {
    p == Clear(p.results, p.addrlist, p.groupName)
  }

  lemma TakeWord(p: Parse, v: string, w: string)
    requires IsClear(p) && w != "" && w[0] != '.'
    ensures StepText(Named(p, v), w) == Named(p, Plus(v, w))
  {
    assert v + (" " + w) == v + " " + w;
    assert "" + w == w;
  }

  lemma PrintableName(t: string)
    requires forall i :: 0 <= i < |t| ==> IsNameChar(t[i])
    ensures IsPrintable(t)
  {
  }

  /** A word of a name, quoted if it must be, is one more word. */
  lemma WordPiece(x: Reader, m: Machine, p: Parse, v: string, w: string)
    requires KeepsPrintable(x.clean) && Idle(m) && IsClear(p) && m.p == Named(p, v) && IsWord(w) && !HasMark(w)
    ensures var n := Feed(x, m, Quoted(w, PHRASE_SPECIALS));
            Calm(n) && n.run.None? && Shut(x, n) == Machine(NEW_SCANNER, Named(p, Plus(v, w)))
  {
    hide Feed, StepText, HasMark, Escape, StepToken, Readable;
    assert IsNameChar(w[0]) && w[0] != ' ';
    TakeWord(p, v, w);
    if AnyIn(w, PHRASE_SPECIALS) {
      EscapePlain(w);
      PrintableName(w);
      assert !IsBlank(w[0]);
      FeedQuoted(x, m, w);
    } else {
      AtomWithoutSpecials(w);
      AtomIsToken(x, m, w);
    }
  }

  lemma AtomWithoutSpecials(w: string)
    requires !AnyIn(w, PHRASE_SPECIALS) && forall i :: 0 <= i < |w| ==> IsNameChar(w[i]) && w[i] != ' '
    ensures IsAtom(w)
  {
    forall i | 0 <= i < |w|
      ensures IsAtomChar(w[i])
    {
      assert IsNameChar(w[i]) && w[i] !in PHRASE_SPECIALS;
    }
  }

  /** An unquoted name in one piece: its spaces set its words apart. */
  lemma {:induction false} SpacedPiece(x: Reader, m: Machine, p: Parse, v: string, t: string)
    requires KeepsPrintable(x.clean) && Idle(m) && IsClear(p) && m.p == Named(p, v)
    requires IsSpaced(t) && t[0] != '.' && !AnyIn(t, PHRASE_SPECIALS) && !HasMark(t)
    ensures var n := Feed(x, m, t);
            Calm(n) && n.run.None? && Shut(x, n) == Machine(NEW_SCANNER, Named(p, Plus(v, t)))
    decreases |t|
  {
    hide Feed, StepText, StepToken, Shut, IsSpaced, AnyIn, HasMark, Readable;
    if ' ' !in t {
      WholeWord(t);
      AtomIsToken(x, m, t);
      TakeWord(p, v, t);
    } else {
      var k := FirstSpace(t);
      var w, r := t[..k], t[k + 1..];
      CutAtSpace(t);
      MarkParts(w + " ", r);
      MarkParts(w, " ");
      AtomIsToken(x, m, w);
      TakeWord(p, v, w);
      FeedBlanks(x, Feed(x, m, w), " ");
      FeedAppend(x, m, w, " ");
      FeedAppend(x, m, w + " ", r);
      SpacedPiece(x, Shut(x, Feed(x, m, w)), p, Plus(v, w), r);
      assert Plus(Plus(v, w), r) == Plus(v, t);
    }
  }

  lemma WholeWord(t: string)
    requires IsSpaced(t) && !AnyIn(t, PHRASE_SPECIALS) && ' ' !in t
    ensures t != "" && IsAtom(t)
  {
    AtomWithoutSpecials(t);
  }

  lemma CutAtSpace(t: string)
    requires IsSpaced(t) && t[0] != '.' && !AnyIn(t, PHRASE_SPECIALS) && ' ' in t
    ensures var k := FirstSpace(t);
            var w, r := t[..k], t[k + 1..];
            && t == (w + " ") + r && w != "" && w[0] != '.' && IsAtom(w)
            && IsSpaced(r) && r[0] != '.' && !AnyIn(r, PHRASE_SPECIALS)
  {
    hide IsSpaced;
    var k := FirstSpace(t);
    CutSpaced(t);
    var w := t[..k];
    assert w[0] == t[0];
    AtomWithoutSpecials(w);
  }

  /** A whole name in one piece. */
  lemma NamePiece(x: Reader, m: Machine, p: Parse, t: string)
    requires KeepsPrintable(x.clean) && Idle(m) && IsClear(p) && m.p == p && GoodName(t)
    ensures var n := Feed(x, m, Quoted(t, PHRASE_SPECIALS));
            Calm(n) && n.run.None? && Shut(x, n) == Machine(NEW_SCANNER, Named(p, t))
  {
    hide Feed, StepText, HasMark, Escape, StepToken, Readable;
    assert p == Named(p, "");
    assert IsNameChar(t[0]);
    if AnyIn(t, PHRASE_SPECIALS) {
      EscapePlain(t);
      PrintableName(t);
      assert !IsBlank(t[0]);
      FeedQuoted(x, m, t);
      TakeWord(p, "", t);
    } else {
      SpacedPiece(x, m, p, "", t);
    }
  }
}
