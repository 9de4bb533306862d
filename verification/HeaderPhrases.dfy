/** Phrases, addresses and whole headers on top of the line folder of
    packages/crypto/src/jsmimeparser/headerEmitter.js, and what every sequence of calls keeps. A name is printed
    whole, quoted or not, if that looks as if it fits; else word by word; and as encoded-words if it has to be.
    Whatever happens on the way, a throw included, the lines delivered stay folded as the folder promises. */
module HeaderPhrases {
  import opened EncodedWords
  import opened HeaderFolding
  import opened HeaderText
  import opened WordSplitting

  // Quoting

  predicate AnyIn(text: string, chars: string) {
    exists i :: 0 <= i < |text| && text[i] in chars
  }

  function Escape(text: string): string {
    if text == "" then ""
    else (if text[0] == '"' || text[0] == '\\' then ['\\', text[0]] else [text[0]]) + Escape(text[1..])
  }

  predicate StartsWith(s: string, c: char) {
    s != "" && s[0] == c
  }

  /** The text, quoted if it has to be; text between quotation marks is taken to be quoted already. */
  function Quoted(text: string, qchars: string): string {
    if !(StartsWith(text, '"') && EndsWith(text, '"')) && AnyIn(text, qchars) then "\"" + Escape(text) + "\"" else text
  }

  function AddQuotable(c: Config, e: Emission, text: string, qchars: string, mayBreakAfter: bool): Outcome {
    if text == "" then Outcome(e, true) else AddText(c, e, Quoted(text, qchars), mayBreakAfter)
  }

  // Encoded-words

  function AddChunks(c: Config, e: Emission, chunks: seq<Chunk>, mayBreakAfter: bool): Outcome
    requires chunks != []
    decreases |chunks|
  {
    if |chunks| == 1 then AddText(c, e, WordText(chunks[0]), mayBreakAfter)
    else
      var e1 :- AddText(c, e, WordText(chunks[0]), true);
      AddChunks(c, e1, chunks[1..], mayBreakAfter)
  }

  /** Makes sure a word of some use fits on the line. */
  function ReserveWord(c: Config, e: Emission): Emission {
    var o := Reserve(c, e, |B64_PRELUDE| + 10);
    if o.ok then o.e else Break(o.e, |o.e.cur|)
  }

  function FirstRoom(c: Config, e: Emission): int {
    c.softMargin - |e.cur| - (|B64_PRELUDE| + 2)
  }

  function EncodePhrase(c: Config, e: Emission, text: string, mayBreakAfter: bool): Outcome
    requires c.Valid()
  {
    var e1 := ReserveWord(c, e);
    AddChunks(c, e1, WordsOf(c.softMargin, text, FirstRoom(c, e1)), mayBreakAfter)
  }

  // Phrases

  predicate IsBlank(c: char) {
    c in " \t\r\n"
  }

  /** Every run of blanks is one space. */
  function Collapse(text: string): string {
    if text == "" then ""
    else if !IsBlank(text[0]) then [text[0]] + Collapse(text[1..])
    else if |text| > 1 && IsBlank(text[1]) then Collapse(text[1..])
    else " " + Collapse(text[1..])
  }

  /** A phrase of atoms without any breakpoint may break at its last space. */
  function MarkLastSpace(e: Emission, text: string): Emission {
    var p := LastSpace(e.cur);
    if e.pref == 0 && ' ' in text && !EndsWith(e.cur, '"') && p >= 0 then
      e.(pref := p, marks := e.marks + {|InkOf(e.lines)| + |Ink(e.cur[..p])|})
    else e
  }

  function AddWords(c: Config, e: Emission, words: seq<string>, qchars: string, mayBreakAfter: bool): Outcome
    requires words != []
    decreases |words|
  {
    if |words| == 1 then AddQuotable(c, e, words[0], qchars, mayBreakAfter)
    else
      var e1 :- AddQuotable(c, e, words[0], qchars, true);
      AddWords(c, e1, words[1..], qchars, mayBreakAfter)
  }

  /** An ASCII phrase: in one piece if there is room for it, else word by word. */
  function AddAtoms(c: Config, e: Emission, text: string, qchars: string, mayBreakAfter: bool): Outcome {
    if |e.cur| + |text| < c.softMargin then
      var o := AddQuotable(c, e, text, qchars, mayBreakAfter);
      if o.ok then Outcome(MarkLastSpace(o.e, text), true)
      else AddWords(c, o.e, SplitOn(text, ' '), qchars, mayBreakAfter)
    else AddWords(c, e, SplitOn(text, ' '), qchars, mayBreakAfter)
  }

  function AddPhrase(c: Config, e: Emission, text: string, qchars: string, mayBreakAfter: bool): Outcome
    requires c.Valid()
  {
    var collapsed := Collapse(text);
    if c.useASCII && !IsPrintable(collapsed) then EncodePhrase(c, e, collapsed, mayBreakAfter)
    else AddAtoms(c, e, collapsed, qchars, mayBreakAfter)
  }

  // Addresses

  datatype Mailbox = Mailbox(name: string, email: string)

  /** An element of an address list. */
  datatype Entry = Single(mailbox: Mailbox) | Group(name: string, members: seq<Mailbox>)

  const PHRASE_SPECIALS := ",()<>[]:;@.\""
  const LOCAL_SPECIALS := "()<>[]:;@\\,\" !"

  function LastAt(s: string): (p: int)
    ensures -1 <= p < |s|
    ensures p >= 0 ==> s[p] == '@'
    ensures forall i :: p < i < |s| ==> s[i] != '@'
  {
    if s == "" then -1 else if s[|s| - 1] == '@' then |s| - 1 else LastAt(s[..|s| - 1])
  }

  function LocalPart(email: string): string {
    if LastAt(email) == -1 then email else email[..LastAt(email)]
  }

  function Domain(email: string): string {
    if LastAt(email) == -1 then "" else email[LastAt(email)..]
  }

  function AddAddrSpec(c: Config, e: Emission, email: string, close: string): Outcome {
    var e1 :- AddQuotable(c, e, LocalPart(email), LOCAL_SPECIALS, false);
    AddText(c, e1, Domain(email) + close, false)
  }

  function AddAddress(c: Config, e: Emission, m: Mailbox): Outcome
    requires c.Valid()
  {
    if m.name == "" then AddAddrSpec(c, e, m.email, "")
    else
      var e1 := Reserve(c, e, |m.name| + |m.email| + 3).e;
      var e2 :- AddPhrase(c, e1, m.name, PHRASE_SPECIALS, true);
      if m.email == "" then Outcome(e2, true)
      else
        var e3 :- AddText(c, e2, "<", false);
        AddAddrSpec(c, e3, m.email, ">")
  }

  /** The members of a group, each after the first preceded by a comma. */
  function AddMembers(c: Config, e: Emission, members: seq<Mailbox>, needsComma: bool): Outcome
    requires c.Valid()
    decreases |members|
  {
    if members == [] then Outcome(e, true)
    else
      var e1 :- if needsComma then AddText(c, e, ", ", true) else Outcome(e, true);
      var e2 :- AddAddress(c, e1, members[0]);
      AddMembers(c, e2, members[1..], true)
  }

  function AddGroup(c: Config, e: Emission, name: string, members: seq<Mailbox>): Outcome
    requires c.Valid()
  {
    var e1 :- AddPhrase(c, e, name, PHRASE_SPECIALS, false);
    var e2 :- AddText(c, e1, ":", true);
    var e3 :- AddMembers(c, e2, members, false);
    AddText(c, e3, ";", true)
  }

  function AddEntry(c: Config, e: Emission, entry: Entry): Outcome
    requires c.Valid()
  {
    match entry
    case Single(m) => AddAddress(c, e, m)
    case Group(name, members) => AddGroup(c, e, name, members)
  }

  function AddEntries(c: Config, e: Emission, entries: seq<Entry>, needsComma: bool): Outcome
    requires c.Valid()
    decreases |entries|
  {
    if entries == [] then Outcome(e, true)
    else
      var e1 :- if needsComma then AddText(c, e, ", ", true) else Outcome(e, true);
      var e2 :- AddEntry(c, e1, entries[0]);
      AddEntries(c, e2, entries[1..], true)
  }

  // Runs

  datatype Call =
    | HeaderName(name: string)
    | Text(text: string, mayBreakAfter: bool)
    | Phrase(text: string, qchars: string, mayBreakAfter: bool)
    | Addresses(entries: seq<Entry>)
    | EndHeader

  function Perform(c: Config, e: Emission, call: Call): Outcome
    requires c.Valid()
  {
    match call
    case HeaderName(name) => AddHeaderName(c, e, name)
    case Text(text, mayBreakAfter) => AddText(c, e, text, mayBreakAfter)
    case Phrase(text, qchars, mayBreakAfter) => AddPhrase(c, e, text, qchars, mayBreakAfter)
    case Addresses(entries) => AddEntries(c, e, entries, false)
    case EndHeader => Outcome(Finish(e), true)
  }

  /** The calls in turn, up to the first that throws. */
  function PerformAll(c: Config, e: Emission, calls: seq<Call>): Outcome
    requires c.Valid()
    decreases |calls|
  {
    if calls == [] then Outcome(e, true)
    else
      var e1 :- Perform(c, e, calls[0]);
      PerformAll(c, e1, calls[1..])
  }

  // What every run keeps

  lemma QuotableKeeps(c: Config, e: Emission, text: string, qchars: string, mayBreakAfter: bool)
    requires c.Valid() && Folded(c, e)
    ensures Folded(c, AddQuotable(c, e, text, qchars, mayBreakAfter).e)
  {
    hide Folded, AddText, Quoted;
    AddTextKeeps(c, e, Quoted(text, qchars), mayBreakAfter);
  }

  lemma {:induction false} WordsKeep(c: Config, e: Emission, words: seq<string>, qchars: string, mayBreakAfter: bool)
    requires c.Valid() && Folded(c, e) && words != []
    ensures Folded(c, AddWords(c, e, words, qchars, mayBreakAfter).e)
    decreases |words|
  {
    hide Folded, AddQuotable;
    QuotableKeeps(c, e, words[0], qchars, if |words| == 1 then mayBreakAfter else true);
    if |words| > 1 {
      var o := AddQuotable(c, e, words[0], qchars, true);
      if o.ok {
        WordsKeep(c, o.e, words[1..], qchars, mayBreakAfter);
      }
    }
  }

  lemma {:induction false} ChunksKeep(c: Config, e: Emission, chunks: seq<Chunk>, mayBreakAfter: bool)
    requires c.Valid() && Folded(c, e) && chunks != []
    ensures Folded(c, AddChunks(c, e, chunks, mayBreakAfter).e)
    decreases |chunks|
  {
    hide Folded, AddText;
    AddTextKeeps(c, e, WordText(chunks[0]), if |chunks| == 1 then mayBreakAfter else true);
    if |chunks| > 1 {
      var o := AddText(c, e, WordText(chunks[0]), true);
      if o.ok {
        ChunksKeep(c, o.e, chunks[1..], mayBreakAfter);
      }
    }
  }

  lemma {:induction false} ReserveWordKeeps(c: Config, e: Emission)
    requires c.Valid() && Folded(c, e)
    ensures Folded(c, ReserveWord(c, e))
    ensures |ReserveWord(c, e).cur| + |B64_PRELUDE| + 10 <= c.hardMargin
  {
    hide InkOf, Ink, TrimRight, GoodLines, UpTo, Unmarked;
    ReserveKeeps(c, e, |B64_PRELUDE| + 10);
    ShortWordFits(c, e, |B64_PRELUDE| + 10);
  }

  /** A length that fits on a line by itself is always granted. */
  lemma ShortWordFits(c: Config, e: Emission, length: nat)
    requires c.Valid() && length <= c.softMargin - 1
    ensures Reserve(c, e, length).ok && |Reserve(c, e, length).e.cur| + length <= c.hardMargin
  {
    var e1 := if e.pref > 0 then Break(e, e.pref) else e;
    if e1.cur != "" {
      assert TrimLeft(e1.cur[|e1.cur|..]) == "";
    }
  }

  lemma {:induction false} EncodeKeeps(c: Config, e: Emission, text: string, mayBreakAfter: bool)
    requires c.Valid() && Folded(c, e)
    ensures Folded(c, EncodePhrase(c, e, text, mayBreakAfter).e)
  {
    hide Folded, AddChunks, ReserveWord, WordsOf;
    ReserveWordKeeps(c, e);
    var e1 := ReserveWord(c, e);
    ChunksKeep(c, e1, WordsOf(c.softMargin, text, FirstRoom(c, e1)), mayBreakAfter);
  }

  /** Writing text as encoded-words never throws: every word fits on a line. */
  lemma {:induction false} EncodeNeverThrows(c: Config, e: Emission, text: string, mayBreakAfter: bool)
    requires c.Valid()
    ensures EncodePhrase(c, e, text, mayBreakAfter).ok
  {
    hide WordText, WordsOf, Reserve, ReserveWord;
    var e1 := ReserveWord(c, e);
    var room := FirstRoom(c, e1);
    var chunks := WordsOf(c.softMargin, text, room);
    WordsFitTheLine(c.softMargin, text, room);
    var word := WordText(chunks[0]);
    if room >= 0 {
      assert Reserve(c, e1, |word|).ok by {
        RoomIsGranted(c, e1, |word|);
      }
    } else {
      ShortWordFits(c, e1, |word|);
    }
    if |chunks| > 1 {
      ChunksNeverThrow(c, AddText(c, e1, word, true).e, chunks[1..], mayBreakAfter);
    }
  }

  lemma RoomIsGranted(c: Config, e: Emission, length: nat)
    requires |e.cur| + length <= c.softMargin
    ensures Reserve(c, e, length).ok
  {
  }

  lemma {:induction false} ChunksNeverThrow(c: Config, e: Emission, chunks: seq<Chunk>, mayBreakAfter: bool)
    requires c.Valid() && chunks != [] && Fit(c.softMargin, chunks)
    ensures AddChunks(c, e, chunks, mayBreakAfter).ok
    decreases |chunks|
  {
    hide WordText, Reserve;
    ShortWordFits(c, e, |WordText(chunks[0])|);
    if |chunks| > 1 {
      ChunksNeverThrow(c, AddText(c, e, WordText(chunks[0]), true).e, chunks[1..], mayBreakAfter);
    }
  }

  lemma MarkKeeps(c: Config, e: Emission, text: string)
    requires c.Valid() && Folded(c, e)
    requires e.pref == 0 && ' ' in text && !EndsWith(e.cur, '"') ==> |e.cur| <= c.softMargin
    ensures Folded(c, MarkLastSpace(e, text))
  {
    hide InkOf, Ink, TrimRight, GoodLines, UpTo, Unmarked, IsSpace;
    var p := LastSpace(e.cur);
    if e.pref == 0 && ' ' in text && !EndsWith(e.cur, '"') && p >= 0 {
      var base := |InkOf(e.lines)|;
      var mark := base + |Ink(e.cur[..p])|;
      assert e.cur == e.cur[..p] + e.cur[p..];
      InkAppend(e.cur[..p], e.cur[p..]);
      GoodLinesMark(c, e.lines, e.marks, mark);
      MarksAppend(e.marks, base, base, mark);
      TrimSpace(e.cur);
      UpToLater(e.marks + {mark}, mark, |Added(e)|);
      if p == 0 {
        assert e.cur[..0] == "";
        OneSpace();
      }
    }
  }

  lemma UpToLater(marks: set<nat>, m: nat, n: nat)
    requires UpTo(marks, m) && m <= n
    ensures UpTo(marks, n)
  {
  }

  /** When the phrase has gone in whole and its last space is to be marked, the line is within the soft margin. */
  lemma MarkedLineFits(c: Config, e: Emission, text: string, qchars: string, mayBreakAfter: bool)
    requires c.Valid() && |e.cur| + |text| < c.softMargin
    ensures var o := AddQuotable(c, e, text, qchars, mayBreakAfter);
            o.ok && o.e.pref == 0 && ' ' in text && !EndsWith(o.e.cur, '"') ==> |o.e.cur| <= c.softMargin
  {
    var q := Quoted(text, qchars);
    if text != "" && q != text {
      assert q[|q| - 1] == '"';
      var r := Reserve(c, e, |q|);
      assert (r.e.cur + q)[|r.e.cur + q| - 1] == '"';
    }
  }

  lemma {:induction false} AtomsKeep(c: Config, e: Emission, text: string, qchars: string, mayBreakAfter: bool)
    requires c.Valid() && Folded(c, e)
    ensures Folded(c, AddAtoms(c, e, text, qchars, mayBreakAfter).e)
  {
    hide Folded, AddQuotable, AddWords, MarkLastSpace, SplitOn;
    if |e.cur| + |text| < c.softMargin {
      QuotableKeeps(c, e, text, qchars, mayBreakAfter);
      var o := AddQuotable(c, e, text, qchars, mayBreakAfter);
      if o.ok {
        MarkedLineFits(c, e, text, qchars, mayBreakAfter);
        MarkKeeps(c, o.e, text);
      } else {
        WordsKeep(c, o.e, SplitOn(text, ' '), qchars, mayBreakAfter);
      }
    } else {
      WordsKeep(c, e, SplitOn(text, ' '), qchars, mayBreakAfter);
    }
  }

  lemma {:induction false} PhraseKeeps(c: Config, e: Emission, text: string, qchars: string, mayBreakAfter: bool)
    requires c.Valid() && Folded(c, e)
    ensures Folded(c, AddPhrase(c, e, text, qchars, mayBreakAfter).e)
  {
    hide Folded, EncodePhrase, AddAtoms;
    EncodeKeeps(c, e, Collapse(text), mayBreakAfter);
    AtomsKeep(c, e, Collapse(text), qchars, mayBreakAfter);
  }

  lemma {:induction false} AddrSpecKeeps(c: Config, e: Emission, email: string, close: string)
    requires c.Valid() && Folded(c, e)
    ensures Folded(c, AddAddrSpec(c, e, email, close).e)
  {
    hide Folded, AddQuotable, AddText;
    QuotableKeeps(c, e, LocalPart(email), LOCAL_SPECIALS, false);
    var o := AddQuotable(c, e, LocalPart(email), LOCAL_SPECIALS, false);
    if o.ok {
      AddTextKeeps(c, o.e, Domain(email) + close, false);
    }
  }

  lemma {:induction false} AddressKeeps(c: Config, e: Emission, m: Mailbox)
    requires c.Valid() && Folded(c, e)
    ensures Folded(c, AddAddress(c, e, m).e)
  {
    hide Folded, Reserve, AddPhrase, AddText, AddAddrSpec;
    if m.name == "" {
      AddrSpecKeeps(c, e, m.email, "");
    } else {
      ReserveKeeps(c, e, |m.name| + |m.email| + 3);
      var e1 := Reserve(c, e, |m.name| + |m.email| + 3).e;
      PhraseKeeps(c, e1, m.name, PHRASE_SPECIALS, true);
      var o2 := AddPhrase(c, e1, m.name, PHRASE_SPECIALS, true);
      if o2.ok && m.email != "" {
        AddTextKeeps(c, o2.e, "<", false);
        var o3 := AddText(c, o2.e, "<", false);
        if o3.ok {
          AddrSpecKeeps(c, o3.e, m.email, ">");
        }
      }
    }
  }

  lemma {:induction false} MembersKeep(c: Config, e: Emission, members: seq<Mailbox>, needsComma: bool)
    requires c.Valid() && Folded(c, e)
    ensures Folded(c, AddMembers(c, e, members, needsComma).e)
    decreases |members|
  {
    hide Folded, AddText, AddAddress;
    if members != [] {
      AddTextKeeps(c, e, ", ", true);
      var o1 := if needsComma then AddText(c, e, ", ", true) else Outcome(e, true);
      if o1.ok {
        AddressKeeps(c, o1.e, members[0]);
        var o2 := AddAddress(c, o1.e, members[0]);
        if o2.ok {
          MembersKeep(c, o2.e, members[1..], true);
        }
      }
    }
  }

  lemma {:induction false} EntryKeeps(c: Config, e: Emission, entry: Entry)
    requires c.Valid() && Folded(c, e)
    ensures Folded(c, AddEntry(c, e, entry).e)
  {
    hide Folded, AddText, AddAddress, AddPhrase, AddMembers;
    match entry
    case Single(m) => AddressKeeps(c, e, m);
    case Group(name, members) =>
      PhraseKeeps(c, e, name, PHRASE_SPECIALS, false);
      var o1 := AddPhrase(c, e, name, PHRASE_SPECIALS, false);
      if o1.ok {
        AddTextKeeps(c, o1.e, ":", true);
        var o2 := AddText(c, o1.e, ":", true);
        if o2.ok {
          MembersKeep(c, o2.e, members, false);
          var o3 := AddMembers(c, o2.e, members, false);
          if o3.ok {
            AddTextKeeps(c, o3.e, ";", true);
          }
        }
      }
  }

  lemma {:induction false} EntriesKeep(c: Config, e: Emission, entries: seq<Entry>, needsComma: bool)
    requires c.Valid() && Folded(c, e)
    ensures Folded(c, AddEntries(c, e, entries, needsComma).e)
    decreases |entries|
  {
    hide Folded, AddText, AddEntry;
    if entries != [] {
      AddTextKeeps(c, e, ", ", true);
      var o1 := if needsComma then AddText(c, e, ", ", true) else Outcome(e, true);
      if o1.ok {
        EntryKeeps(c, o1.e, entries[0]);
        var o2 := AddEntry(c, o1.e, entries[0]);
        if o2.ok {
          EntriesKeep(c, o2.e, entries[1..], true);
        }
      }
    }
  }

  lemma {:induction false} PerformKeeps(c: Config, e: Emission, call: Call)
    requires c.Valid() && Folded(c, e)
    ensures Folded(c, Perform(c, e, call).e)
  {
    hide Folded, AddHeaderName, AddText, AddPhrase, AddEntries, Finish;
    match call
    case HeaderName(name) => AddHeaderNameKeeps(c, e, name);
    case Text(text, mayBreakAfter) => AddTextKeeps(c, e, text, mayBreakAfter);
    case Phrase(text, qchars, mayBreakAfter) => PhraseKeeps(c, e, text, qchars, mayBreakAfter);
    case Addresses(entries) => EntriesKeep(c, e, entries, false);
    case EndHeader => FinishKeeps(c, e);
  }

  lemma {:induction false} PerformAllKeeps(c: Config, e: Emission, calls: seq<Call>)
    requires c.Valid() && Folded(c, e)
    ensures Folded(c, PerformAll(c, e, calls).e)
    decreases |calls|
  {
    hide Folded, Perform;
    if calls != [] {
      PerformKeeps(c, e, calls[0]);
      if Perform(c, e, calls[0]).ok {
        PerformAllKeeps(c, Perform(c, e, calls[0]).e, calls[1..]);
      }
    }
  }

  /** Whatever is printed, throwing or not: no line delivered is longer than the hard margin, and one longer than
      the soft margin has no preferred breakpoint strictly inside. */
  lemma LinesAreFolded(c: Config, calls: seq<Call>, i: nat)
    requires c.Valid() && i < |PerformAll(c, NEW_EMISSION, calls).e.lines|
    ensures var e := PerformAll(c, NEW_EMISSION, calls).e;
            && |e.lines[i]| <= c.hardMargin
            && (|e.lines[i]| > c.softMargin ==>
                forall m :: m in e.marks ==> !(|InkOf(e.lines[..i])| < m < |InkOf(e.lines[..i + 1])|))
  {
    hide PerformAll, InkOf;
    assert Folded(c, NEW_EMISSION) by {
      NewIsFolded(c);
    }
    PerformAllKeeps(c, NEW_EMISSION, calls);
    var e := PerformAll(c, NEW_EMISSION, calls).e;
    assert GoodLine(c, e.lines, i, e.marks);
  }

  lemma NewIsFolded(c: Config)
    ensures Folded(c, NEW_EMISSION) && Added(NEW_EMISSION) == ""
  {
  }

  // The text of plain headers

  predicate IsPlain(calls: seq<Call>) {
    forall i :: 0 <= i < |calls| ==> calls[i].HeaderName? || calls[i].Text? || calls[i].EndHeader?
  }

  function Written(calls: seq<Call>): string
    requires IsPlain(calls)
  {
    if calls == [] then ""
    else
      (match calls[0]
       case HeaderName(name) => name + ": "
       case Text(text, _) => text
       case EndHeader => "")
      + Written(calls[1..])
  }

  lemma {:induction false} TextIsKept(c: Config, e: Emission, calls: seq<Call>)
    requires c.Valid() && Folded(c, e) && IsPlain(calls) && PerformAll(c, e, calls).ok
    ensures Added(PerformAll(c, e, calls).e) == Added(e) + Ink(Written(calls))
    decreases |calls|
  {
    hide Folded, AddHeaderName, AddText, Finish, Added, Ink;
    OneSpace();
    if calls != [] {
      var call := calls[0];
      var e1 := Perform(c, e, call).e;
      PerformKeeps(c, e, call);
      TextIsKept(c, e1, calls[1..]);
      var text := match call case HeaderName(name) => name + ": " case Text(text, _) => text case _ => "";
      InkAppend(text, Written(calls[1..]));
      Associative(Added(e), Ink(text), Ink(Written(calls[1..])));
      assert Added(e1) == Added(e) + Ink(text) by {
        match call
        case HeaderName(name) => AddHeaderNameKeeps(c, e, name);
        case Text(text, mayBreakAfter) => AddTextAdds(c, e, text, mayBreakAfter);
        case EndHeader =>
          FinishKeepsText(e);
          assert Added(e) + "" == Added(e);
      }
    } else {
      assert Added(e) + "" == Added(e);
    }
  }

  lemma {:induction false} EndsFinished(c: Config, e: Emission, calls: seq<Call>)
    requires c.Valid() && PerformAll(c, e, calls).ok && calls != [] && calls[|calls| - 1].EndHeader?
    ensures PerformAll(c, e, calls).e.cur == ""
    decreases |calls|
  {
    hide AddHeaderName, AddText, AddPhrase, AddEntries;
    if |calls| > 1 {
      EndsFinished(c, Perform(c, e, calls[0]).e, calls[1..]);
    }
  }

  /** A finished run that has not thrown has delivered the non-space characters written, in order, and nothing
      else. */
  lemma DeliveredIsWritten(c: Config, calls: seq<Call>)
    requires c.Valid() && IsPlain(calls) && calls != [] && calls[|calls| - 1].EndHeader?
    requires PerformAll(c, NEW_EMISSION, calls).ok
    ensures InkOf(PerformAll(c, NEW_EMISSION, calls).e.lines) == Ink(Written(calls))
  {
    hide PerformAll, InkOf, Ink, Written;
    assert Folded(c, NEW_EMISSION) && Added(NEW_EMISSION) == "" by {
      NewIsFolded(c);
    }
    TextIsKept(c, NEW_EMISSION, calls);
    EndsFinished(c, NEW_EMISSION, calls);
    OneSpace();
    var lines := PerformAll(c, NEW_EMISSION, calls).e.lines;
    assert InkOf(lines) + "" == InkOf(lines) && "" + Ink(Written(calls)) == Ink(Written(calls));
  }
}
