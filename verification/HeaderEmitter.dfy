/** The emitter object of packages/crypto/src/jsmimeparser/headerEmitter.js, proved against the functions of
    HeaderFolding and HeaderPhrases: what each method does to the line and to the handler. */
module HeaderEmitterObject {
  import opened AddressForms
  import opened AddressMachine
  import opened AddressParser
  import opened AddressRoundTrip
  import opened Bytes
  import opened EncodedWords
  import opened ContentDecoders
  import opened HeaderFolding
  import opened HeaderPhrases
  import opened HeaderText
  import opened Results
  import opened WordSplitting

  class StringHandler {
    var value: string

    constructor ()
      ensures value == ""
    {
      value := "";
    }

    method DeliverData(str: string)
      modifies this
      ensures value == old(value) + str
    {
      value := value + str;
    }
  }

  class HeaderEmitter {
    const handler: StringHandler
    const c: Config
    var currentLine: string
    var preferredBreakpoint: nat
    ghost var lines: seq<string>
    ghost var marks: set<nat>

    ghost predicate Valid()
      reads this, handler
    {
      c.Valid() && handler.value == Delivered(lines)
    }

    ghost function State(): Emission
      reads this
    {
      Emission(lines, currentLine, preferredBreakpoint, marks)
    }

    /** The margins are clamped to what the object supports. */
    constructor (handler: StringHandler, softMargin: nat, hardMargin: nat, useASCII: bool)
      requires handler.value == ""
      ensures Valid() && this.handler == handler && State() == NEW_EMISSION
      ensures c == Config(Clamp(softMargin, 30, 900), Clamp(hardMargin, c.softMargin, 998), useASCII)
    {
      this.handler := handler;
      var soft := Clamp(softMargin, 30, 900);
      c := Config(soft, Clamp(hardMargin, soft, 998), useASCII);
      currentLine := "";
      preferredBreakpoint := 0;
      lines := [];
      marks := {};
    }

    static function Clamp(value: nat, min: nat, max: nat): nat {
      if value < min then min else if value > max then max else value
    }

    /** Delivers the line, or its first count characters and goes on with the rest. */
    method CommitLine(count: Option<nat>)
      requires Valid()
      modifies this, handler
      ensures Valid()
      ensures State() == if count.Some? then Break(old(State()), count.value) else Finish(old(State()))
    {
      hide TrimLeft, TrimRight, Delivered;
      var firstN, lastN := "", "";
      if count.Some? {
        var k := Clip(currentLine, count.value);
        firstN := TrimRight(currentLine[..k]);
        lastN := TrimLeft(currentLine[k..]);
      } else {
        firstN := TrimRight(currentLine);
      }
      handler.DeliverData(firstN + "\r\n");
      DeliveredMore(lines, firstN);
      assert Delivered(lines) + (firstN + "\r\n") == Delivered(lines) + firstN + "\r\n";
      lines := lines + [firstN];
      currentLine := lastN;
      if count.Some? {
        currentLine := " " + currentLine;
      }
      preferredBreakpoint := 0;
    }

    method ReserveTokenSpace(length: nat) returns (ok: bool)
      requires Valid()
      modifies this, handler
      ensures Valid() && Outcome(State(), ok) == Reserve(c, old(State()), length)
    {
      hide Break, Delivered;
      if |currentLine| + length <= c.softMargin {
        return true;
      }
      if preferredBreakpoint > 0 {
        CommitLine(Some(preferredBreakpoint));
        if |currentLine| + length <= c.softMargin {
          return true;
        }
      }
      if |currentLine| + length <= c.hardMargin {
        return true;
      }
      if |currentLine| > 0 {
        CommitLine(Some(|currentLine|));
      }
      return |currentLine| + length <= c.hardMargin;
    }

    /** Adds text to the line; false where the source throws. */
    method AddText(text: string, mayBreakAfter: bool) returns (ok: bool)
      requires Valid()
      modifies this, handler
      ensures Valid() && Outcome(State(), ok) == HeaderFolding.AddText(c, old(State()), text, mayBreakAfter)
    {
      hide Reserve, Delivered, InkOf, Ink;
      ok := ReserveTokenSpace(|text|);
      if !ok {
        return;
      }
      ghost var added := |Added(State())| + |Ink(text)|;
      currentLine := currentLine + text;
      if mayBreakAfter {
        preferredBreakpoint := |currentLine|;
        marks := marks + {added};
        if !EndsWith(text, ' ') {
          currentLine := currentLine + " ";
        }
      }
    }

    method AddQuotable(text: string, qchars: string, mayBreakAfter: bool) returns (ok: bool)
      requires Valid()
      modifies this, handler
      ensures Valid() && Outcome(State(), ok) == HeaderPhrases.AddQuotable(c, old(State()), text, qchars, mayBreakAfter)
    {
      hide HeaderFolding.AddText, Delivered, Escape;
      if |text| == 0 {
        return true;
      }
      var needsQuote := false;
      if !(StartsWith(text, '"') && EndsWith(text, '"')) && qchars != "" {
        for i := 0 to |text|
          invariant !needsQuote && forall j :: 0 <= j < i ==> text[j] !in qchars
        {
          if text[i] in qchars {
            needsQuote := true;
            break;
          }
        }
      }
      assert Quoted(text, qchars) == if needsQuote then "\"" + Escape(text) + "\"" else text;
      var quoted := if needsQuote then "\"" + Escape(text) + "\"" else text;
      ok := AddText(quoted, mayBreakAfter);
    }

    method AddPhrase(text: string, qchars: string, mayBreakAfter: bool) returns (ok: bool)
      requires Valid()
      modifies this, handler
      ensures Valid() && Outcome(State(), ok) == HeaderPhrases.AddPhrase(c, old(State()), text, qchars, mayBreakAfter)
    {
      hide HeaderPhrases.AddQuotable, EncodePhrase, Delivered, AddWords, Collapse, SplitOn, IsPrintable, InkOf, Ink;
      var collapsed := Collapse(text);
      if c.useASCII && !IsPrintable(collapsed) {
        ok := EncodeRFC2047Phrase(collapsed, mayBreakAfter);
        return;
      }
      if |currentLine| + |collapsed| < c.softMargin {
        ok := AddQuotable(collapsed, qchars, mayBreakAfter);
        if ok {
          var p := LastSpace(currentLine);
          if preferredBreakpoint == 0 && ' ' in collapsed && !EndsWith(currentLine, '"') && p >= 0 {
            marks := marks + {|InkOf(lines)| + |Ink(currentLine[..p])|};
            preferredBreakpoint := p;
          }
          return;
        }
      }
      ok := AddAllWords(SplitOn(collapsed, ' '), qchars, mayBreakAfter);
    }

    method AddUnstructured(text: string) returns (ok: bool)
      requires Valid()
      modifies this, handler
      ensures Valid()
      ensures Outcome(State(), ok)
           == if text == "" then Outcome(old(State()), true)
              else HeaderPhrases.AddPhrase(c, old(State()), text, "", false)
    {
      if text == "" {
        return true;
      }
      ok := AddPhrase(text, "", false);
    }

    method AddAllWords(words: seq<string>, qchars: string, mayBreakAfter: bool) returns (ok: bool)
      requires Valid() && words != []
      modifies this, handler
      ensures Valid() && Outcome(State(), ok) == AddWords(c, old(State()), words, qchars, mayBreakAfter)
    {
      hide HeaderPhrases.AddQuotable, Delivered;
      ok := true;
      for i := 0 to |words|
        invariant Valid() && ok
        invariant i < |words| ==>
          AddWords(c, State(), words[i..], qchars, mayBreakAfter)
          == AddWords(c, old(State()), words, qchars, mayBreakAfter)
        invariant i == |words| ==> Outcome(State(), ok) == AddWords(c, old(State()), words, qchars, mayBreakAfter)
      {
        assert words[i..][0] == words[i] && words[i..][1..] == words[i + 1..];
        ok := AddQuotable(words[i], qchars, if i == |words| - 1 then mayBreakAfter else true);
        if !ok {
          return;
        }
      }
    }

    method AddRFC2047Word(encodedText: seq<byte>, useQP: bool, mayBreakAfter: bool) returns (ok: bool)
      requires Valid()
      modifies this, handler
      ensures Valid()
      ensures Outcome(State(), ok)
          == HeaderFolding.AddText(c, old(State()), WordText(Chunk(encodedText, useQP)), mayBreakAfter)
    {
      hide HeaderFolding.AddText, Delivered, Btoa, QpPayload, Added;
      var token;
      if useQP {
        token := QpWord(encodedText);
      } else {
        token := B64_PRELUDE + Btoa(encodedText) + "?=";
      }
      assert token == WordText(Chunk(encodedText, useQP));
      ok := AddText(token, mayBreakAfter);
    }

    /** The loop over the octets. */
    static method QpWord(encodedText: seq<byte>) returns (token: string)
      ensures token == QP_PRELUDE + QpPayload(encodedText) + "?="
    {
      assert QpPayload(encodedText[..0]) == "";
      hide QpOctet, QpPayload;
      token := QP_PRELUDE;
      for i := 0 to |encodedText|
        invariant token == QP_PRELUDE + QpPayload(encodedText[..i])
      {
        token := token + QpOctet(encodedText[i]);
        assert encodedText[..i + 1] == encodedText[..i] + [encodedText[i]];
        QpPayloadAppend(encodedText[..i], [encodedText[i]]);
        OneOctetPayload(encodedText[i]);
      }
      assert encodedText[..|encodedText|] == encodedText;
      token := token + "?=";
    }

    static lemma OneOctetPayload(b: byte)
      ensures QpPayload([b]) == QpOctet(b)
    {
      assert [b][1..] == [];
    }

    /** Prints text as encoded-words, as many octets in each as fit, none split inside a character. */
    method EncodeRFC2047Phrase(text: string, mayBreakAfter: bool) returns (ok: bool)
      requires Valid()
      modifies this, handler
      ensures Valid() && Outcome(State(), ok) == EncodePhrase(c, old(State()), text, mayBreakAfter)
    {
      hide Reserve, Break, Delivered, AddChunks, Utf8, WordText, IsShaped, InLoop, SplitWords, HeaderFolding.AddText,
           Added,
           NeedsEscape, IsContinuation;
      var encodedText := Utf8(text);
      var room := ReserveTokenSpace(|B64_PRELUDE| + 10);
      if !room {
        CommitLine(Some(|currentLine|));
      }
      ghost var e1 := State();
      var b64Len, qpLen, start, i := 0, 0, 0, 0;
      var maxChars := c.softMargin - |currentLine| - (|B64_PRELUDE| + 2);
      LoopStarts(text, c.softMargin, maxChars);
      ghost var all := AddChunks(c, e1, WordsOf(c.softMargin, text, maxChars), mayBreakAfter);
      while i < |encodedText|
        invariant Valid() && IsShaped(encodedText) && start <= i <= |encodedText|
        invariant InLoop(c.softMargin, encodedText, Progress(i, start, b64Len, qpLen, maxChars))
        invariant var rest := SplitWords(c.softMargin, encodedText, Progress(i, start, b64Len, qpLen, maxChars));
                  AddChunks(c, State(), rest, mayBreakAfter) == all
        decreases if maxChars == LaterRoom(c.softMargin) then 0 else 1, |encodedText| - start, |encodedText| - i
      {
        ghost var p := Progress(i, start, b64Len, qpLen, maxChars);
        var b64Inc := if (i - start) % 3 == 0 then 4 else 0;
        var qpInc := if NeedsEscape(encodedText[i]) then 3 else 1;
        if b64Len + b64Inc > maxChars && qpLen + qpInc > maxChars {
          NextWordKeeps(c.softMargin, encodedText, p);
          ghost var split := i;
          while i > 0 && IsContinuation(encodedText[i])
            invariant i <= split && Backtrack(encodedText, i) == Backtrack(encodedText, split)
          {
            i := i - 1;
          }
          OverflowSplits(c.softMargin, encodedText, p);
          FirstChunk(c, State(), Chunk(encodedText[start..i], b64Len >= qpLen),
                     SplitWords(c.softMargin, encodedText, NextWord(c.softMargin, encodedText, p)), mayBreakAfter);
          ok := AddRFC2047Word(encodedText[start..i], b64Len >= qpLen, true);
          if !ok {
            return;
          }
          start := i;
          b64Len, qpLen := 0, 0;
          maxChars := c.softMargin - |B64_PRELUDE| - 3;
        } else {
          AdvanceKeeps(c.softMargin, encodedText, p);
          NoOverflowGoesOn(c.softMargin, encodedText, p);
          b64Len := b64Len + b64Inc;
          qpLen := qpLen + qpInc;
          i := i + 1;
        }
      }
      LastChunk(c, State(), encodedText, Progress(i, start, b64Len, qpLen, maxChars), mayBreakAfter);
      ok := AddRFC2047Word(encodedText[start..], b64Len >= qpLen, mayBreakAfter);
    }

    static lemma LoopStarts(text: string, softMargin: nat, room: int)
      requires softMargin >= 30
      ensures IsShaped(Utf8(text)) && InLoop(softMargin, Utf8(text), Progress(0, 0, 0, 0, room))
      ensures WordsOf(softMargin, text, room) == SplitWords(softMargin, Utf8(text), Progress(0, 0, 0, 0, room))
    {
      Utf8IsShaped(text);
      Utf8Start(text);
      assert Utf8(text)[0..0] == [];
    }

    static lemma OverflowSplits(softMargin: nat, b: seq<byte>, p: Progress)
      requires softMargin >= 30 && IsShaped(b) && InLoop(softMargin, b, p) && p.i < |b| && p.start <= p.i
      requires Overflows(b, p)
      ensures InLoop(softMargin, b, NextWord(softMargin, b, p)) && p.start <= Backtrack(b, p.i)
      ensures SplitWords(softMargin, b, p)
           == [Chunk(b[p.start..Backtrack(b, p.i)], p.b64 >= p.qp)]
               + SplitWords(softMargin, b, NextWord(softMargin, b, p))
    {
      hide InLoop, IsShaped;
      NextWordKeeps(softMargin, b, p);
    }

    static lemma NoOverflowGoesOn(softMargin: nat, b: seq<byte>, p: Progress)
      requires softMargin >= 30 && IsShaped(b) && InLoop(softMargin, b, p) && p.i < |b| && p.start <= p.i
      requires !Overflows(b, p)
      ensures InLoop(softMargin, b, Advance(b, p))
      ensures SplitWords(softMargin, b, p) == SplitWords(softMargin, b, Advance(b, p))
    {
      hide InLoop, IsShaped;
      AdvanceKeeps(softMargin, b, p);
    }

    static lemma FirstChunk(c: Config, e: Emission, chunk: Chunk, rest: seq<Chunk>, mayBreakAfter: bool)
      requires rest != []
      ensures var o := HeaderFolding.AddText(c, e, WordText(chunk), true);
              AddChunks(c, e, [chunk] + rest, mayBreakAfter)
              == if o.ok then AddChunks(c, o.e, rest, mayBreakAfter) else o
    {
      hide HeaderFolding.AddText, WordText;
      assert ([chunk] + rest)[1..] == rest;
    }

    static lemma LastChunk(c: Config, e: Emission, b: seq<byte>, p: Progress, mayBreakAfter: bool)
      requires c.softMargin >= 30 && IsShaped(b) && InLoop(c.softMargin, b, p) && p.i == |b| && p.start <= |b|
      ensures AddChunks(c, e, SplitWords(c.softMargin, b, p), mayBreakAfter)
           == HeaderFolding.AddText(c, e, WordText(Chunk(b[p.start..], p.b64 >= p.qp)), mayBreakAfter)
    {
      hide HeaderFolding.AddText, WordText, InLoop;
    }

    method AddHeaderName(name: string) returns (ok: bool)
      requires Valid()
      modifies this, handler
      ensures Valid() && Outcome(State(), ok) == HeaderFolding.AddHeaderName(c, old(State()), name)
    {
      hide HeaderFolding.AddText, TrimRight, Delivered;
      currentLine := TrimRight(currentLine);
      if |currentLine| > 0 {
        CommitLine(None);
      }
      ok := AddText(name + ": ", false);
    }

    method AddAddrSpec(email: string, close: string) returns (ok: bool)
      requires Valid()
      modifies this, handler
      ensures Valid() && Outcome(State(), ok) == HeaderPhrases.AddAddrSpec(c, old(State()), email, close)
    {
      hide HeaderFolding.AddText, HeaderPhrases.AddQuotable, Delivered, LastAt;
      var at := LastAt(email);
      var localpart, domain := "", "";
      if at == -1 {
        localpart := email;
      } else {
        localpart := email[..at];
        domain := email[at..];
      }
      ok := AddQuotable(localpart, LOCAL_SPECIALS, false);
      if !ok {
        return;
      }
      ok := AddText(domain + close, false);
    }

    method AddAddress(addr: Mailbox) returns (ok: bool)
      requires Valid()
      modifies this, handler
      ensures Valid() && Outcome(State(), ok) == HeaderPhrases.AddAddress(c, old(State()), addr)
    {
      hide HeaderFolding.AddText, HeaderPhrases.AddPhrase, HeaderPhrases.AddAddrSpec, Reserve, Delivered;
      if addr.name != "" {
        var room := ReserveTokenSpace(|addr.name| + |addr.email| + 3);
        ok := AddPhrase(addr.name, PHRASE_SPECIALS, true);
        if !ok || addr.email == "" {
          return;
        }
        ok := AddText("<", false);
        if !ok {
          return;
        }
        ok := AddAddrSpec(addr.email, ">");
      } else {
        ok := AddAddrSpec(addr.email, "");
      }
    }

    /** The members of a group. */
    method AddMembers(members: seq<Mailbox>) returns (ok: bool)
      requires Valid()
      modifies this, handler
      ensures Valid() && Outcome(State(), ok) == HeaderPhrases.AddMembers(c, old(State()), members, false)
    {
      hide HeaderFolding.AddText, HeaderPhrases.AddAddress, Delivered;
      ok := true;
      var needsComma := false;
      ghost var all := HeaderPhrases.AddMembers(c, State(), members, false);
      for i := 0 to |members|
        invariant Valid() && ok && needsComma == (i > 0)
        invariant HeaderPhrases.AddMembers(c, State(), members[i..], needsComma) == all
      {
        assert members[i..][0] == members[i] && members[i..][1..] == members[i + 1..];
        if needsComma {
          ok := AddText(", ", true);
          if !ok {
            return;
          }
        }
        needsComma := true;
        ok := AddAddress(members[i]);
        if !ok {
          return;
        }
      }
    }

    method AddEntry(entry: Entry) returns (ok: bool)
      requires Valid()
      modifies this, handler
      ensures Valid() && Outcome(State(), ok) == HeaderPhrases.AddEntry(c, old(State()), entry)
    {
      hide HeaderFolding.AddText, HeaderPhrases.AddAddress, HeaderPhrases.AddPhrase, HeaderPhrases.AddMembers,
           Delivered;
      match entry {
        case Single(m) =>
          ok := AddAddress(m);
        case Group(name, members) =>
          ok := AddPhrase(name, PHRASE_SPECIALS, false);
          if !ok {
            return;
          }
          ok := AddText(":", true);
          if !ok {
            return;
          }
          ok := AddMembers(members);
          if !ok {
            return;
          }
          ok := AddText(";", true);
      }
    }

    method AddAddresses(entries: seq<Entry>) returns (ok: bool)
      requires Valid()
      modifies this, handler
      ensures Valid() && Outcome(State(), ok) == AddEntries(c, old(State()), entries, false)
    {
      hide HeaderFolding.AddText, HeaderPhrases.AddEntry, Delivered;
      ok := true;
      var needsComma := false;
      ghost var all := AddEntries(c, State(), entries, false);
      for i := 0 to |entries|
        invariant Valid() && ok && needsComma == (i > 0)
        invariant AddEntries(c, State(), entries[i..], needsComma) == all
      {
        assert entries[i..][0] == entries[i] && entries[i..][1..] == entries[i + 1..];
        if needsComma {
          ok := AddText(", ", true);
          if !ok {
            return;
          }
        }
        needsComma := true;
        ok := AddEntry(entries[i]);
        if !ok {
          return;
        }
      }
    }
  }

  /** Prints one address header. Reading what follows the name gives the list back, if it could be printed and
      is of the kind that round trips. */
  method EmitAddressHeader(name: string, entries: seq<Entry>, softMargin: nat, hardMargin: nat, useASCII: bool)
    returns (ok: bool, text: string)
    ensures forall x: Reader ::
      ok && KeepsPrintable(x.clean) && IsPrintable(name) && GoodEntries(x, useASCII, entries) ==>
        name + ":" <= text && AddressList(x.clean, x.d, text[|name| + 1..], x.doRFC2047) == entries
  {
    hide HeaderFolding.AddHeaderName, AddEntries, GoodEntries, AddressList, KeepsPrintable, Finish, IsPrintable;
    var handler := new StringHandler();
    var emitter := new HeaderEmitter(handler, softMargin, hardMargin, useASCII);
    ok := emitter.AddHeaderName(name);
    if !ok {
      return ok, "";
    }
    ok := emitter.AddAddresses(entries);
    if !ok {
      return ok, "";
    }
    emitter.CommitLine(None);
    text := handler.value;
    assert Delivered([]) + name + ":" == name + ":";
    forall x: Reader | KeepsPrintable(x.clean) && IsPrintable(name) && GoodEntries(x, useASCII, entries)
      ensures name + ":" <= text && AddressList(x.clean, x.d, text[|name| + 1..], x.doRFC2047) == entries
    {
      AddressesRoundTrip(x, emitter.c, NEW_EMISSION, name, entries);
    }
  }
}
