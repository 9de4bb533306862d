/** How packages/crypto/src/jsmimeparser/headerEmitter.js cuts the octets of a text into encoded-words that fit
    on a line, never inside a character. */
module WordSplitting {
  import opened Bytes
  import opened ContentDecoders
  import opened EncodedWords
  import opened Results

  /** Where the character at i starts. */
  function Backtrack(b: seq<byte>, i: nat): (j: nat)
    requires i < |b|
    ensures j <= i
  {
    if i > 0 && IsContinuation(b[i]) then Backtrack(b, i - 1) else i
  }

  lemma BacktrackFacts(b: seq<byte>, i: nat)
    requires i < |b| && IsShaped(b)
    ensures i <= Backtrack(b, i) + 3 && !IsContinuation(b[Backtrack(b, i)])
  {
    assert HasLead(b, i) && HasLead(b, 0);
    if i >= 1 && IsContinuation(b[i]) {
      assert Backtrack(b, i) == Backtrack(b, i - 1);
      if i >= 2 && IsContinuation(b[i - 1]) {
        assert Backtrack(b, i - 1) == Backtrack(b, i - 2);
      }
    }
  }

  function QpCost(b: byte): nat {
    if NeedsEscape(b) then 3 else 1
  }

  /** Where the loop stands: the word from start up to i costs b64 or qp characters, out of room. */
  datatype Progress = Progress(i: nat, start: nat, b64: nat, qp: nat, room: int)

  function B64Cost(length: nat): nat {
    4 * ((length + 2) / 3)
  }

  /** The room in a word that does not share its line. */
  function LaterRoom(softMargin: nat): int {
    softMargin - |B64_PRELUDE| - 3
  }

  ghost predicate InLoop(softMargin: nat, b: seq<byte>, p: Progress) {
    && p.start <= p.i <= |b|
    && (p.start < |b| ==> !IsContinuation(b[p.start]))
    && p.b64 == B64Cost(p.i - p.start)
    && p.qp == |QpPayload(b[p.start..p.i])|
    && (p.start > 0 ==> p.room == LaterRoom(softMargin))
    && (p.i > p.start ==> p.b64 <= p.room || p.qp <= p.room)
  }

  /** One octet more would fit in neither encoding. */
  predicate Overflows(b: seq<byte>, p: Progress)
    requires p.start <= p.i < |b|
  {
    p.b64 + (if (p.i - p.start) % 3 == 0 then 4 else 0) > p.room && p.qp + QpCost(b[p.i]) > p.room
  }

  function Advance(b: seq<byte>, p: Progress): Progress
    requires p.start <= p.i < |b|
  {
    p.(i := p.i + 1, b64 := p.b64 + (if (p.i - p.start) % 3 == 0 then 4 else 0), qp := p.qp + QpCost(b[p.i]))
  }

  /** The next word starts with the character that did not fit. */
  function NextWord(softMargin: nat, b: seq<byte>, p: Progress): Progress
    requires p.i < |b|
  {
    var j := Backtrack(b, p.i);
    Progress(j, j, 0, 0, LaterRoom(softMargin))
  }

  lemma {:induction false} QpPayloadAppend(a: seq<byte>, b: seq<byte>)
    ensures QpPayload(a + b) == QpPayload(a) + QpPayload(b)
  {
    if a == [] {
      assert a + b == b;
    } else {
      assert (a + b)[1..] == a[1..] + b;
      QpPayloadAppend(a[1..], b);
      assert QpOctet(a[0]) + (QpPayload(a[1..]) + QpPayload(b)) == QpPayload(a) + QpPayload(b);
    }
  }

  lemma OneOctet(b: byte)
    ensures |QpPayload([b])| == QpCost(b)
  {
    assert [b][1..] == [];
  }

  lemma AdvanceKeeps(softMargin: nat, b: seq<byte>, p: Progress)
    requires InLoop(softMargin, b, p) && p.i < |b| && !Overflows(b, p)
    ensures InLoop(softMargin, b, Advance(b, p))
  {
    hide QpPayload, NeedsEscape;
    assert b[p.start..p.i + 1] == b[p.start..p.i] + [b[p.i]];
    QpPayloadAppend(b[p.start..p.i], [b[p.i]]);
    OneOctet(b[p.i]);
  }

  /** A word that is alone on its line holds at least a dozen octets, so the next one starts further on. */
  lemma {:induction false} NextWordKeeps(softMargin: nat, b: seq<byte>, p: Progress)
    requires softMargin >= 30 && IsShaped(b) && InLoop(softMargin, b, p) && p.i < |b| && Overflows(b, p)
    ensures InLoop(softMargin, b, NextWord(softMargin, b, p))
    ensures p.start <= Backtrack(b, p.i)
    ensures p.room == LaterRoom(softMargin) ==> p.start < Backtrack(b, p.i)
  {
    hide QpPayload, NeedsEscape, HasLead;
    BacktrackFacts(b, p.i);
    var j := Backtrack(b, p.i);
    BacktrackStops(b, p.i, p.start);
    assert b[j..j] == [];
    assert QpPayload([]) == "" by {
      NoPayload();
    }
  }

  lemma NoPayload()
    ensures QpPayload([]) == ""
  {
  }

  lemma BacktrackStops(b: seq<byte>, i: nat, start: nat)
    requires start <= i < |b| && !IsContinuation(b[start])
    ensures start <= Backtrack(b, i)
  {
  }

  /** The words for the octets from p.start on. */
  function SplitWords(softMargin: nat, b: seq<byte>, p: Progress): (chunks: seq<Chunk>)
    requires softMargin >= 30 && IsShaped(b) && InLoop(softMargin, b, p)
    ensures chunks != []
    decreases if p.room == LaterRoom(softMargin) then 0 else 1, |b| - p.start, |b| - p.i
  {
    if p.i == |b| then [Chunk(b[p.start..], p.b64 >= p.qp)]
    else if Overflows(b, p) then
      NextWordKeeps(softMargin, b, p);
      [Chunk(b[p.start..Backtrack(b, p.i)], p.b64 >= p.qp)] + SplitWords(softMargin, b, NextWord(softMargin, b, p))
    else
      AdvanceKeeps(softMargin, b, p);
      SplitWords(softMargin, b, Advance(b, p))
  }

  function WordsOf(softMargin: nat, text: string, room: int): (chunks: seq<Chunk>)
    requires softMargin >= 30
    ensures chunks != []
  {
    Utf8IsShaped(text);
    Utf8Start(text);
    assert Utf8(text)[0..0] == [];
    SplitWords(softMargin, Utf8(text), Progress(0, 0, 0, 0, room))
  }

  lemma Utf8Start(text: string)
    ensures Utf8(text) != [] ==> !IsContinuation(Utf8(text)[0])
  {
    if text != "" {
      CharShape(text[0]);
    }
  }

  // Lengths

  function Max(a: int, b: int): int {
    if a >= b then a else b
  }

  lemma ChunkLength(softMargin: nat, b: seq<byte>, p: Progress, j: nat)
    requires InLoop(softMargin, b, p) && p.start <= j <= p.i
    ensures |WordText(Chunk(b[p.start..j], p.b64 >= p.qp))| <= |B64_PRELUDE| + 2 + Max(0, p.room)
  {
    hide QpPayload, Btoa;
    assert b[p.start..p.i] == b[p.start..j] + b[j..p.i];
    QpPayloadAppend(b[p.start..j], b[j..p.i]);
    if p.i == p.start {
      assert b[p.start..j] == [];
      NoPayload();
    }
  }

  ghost predicate Fit(softMargin: nat, chunks: seq<Chunk>) {
    forall k :: 0 <= k < |chunks| ==> |WordText(chunks[k])| <= softMargin - 1
  }

  /** Every word but the first leaves room for the space that continues a line; the first fits the room there
      was, if there was any. */
  lemma {:induction false} WordsFit(softMargin: nat, b: seq<byte>, p: Progress)
    requires softMargin >= 30 && IsShaped(b) && InLoop(softMargin, b, p)
    ensures var chunks := SplitWords(softMargin, b, p);
            && |WordText(chunks[0])| <= |B64_PRELUDE| + 2 + Max(0, p.room)
            && Fit(softMargin, chunks[1..])
    decreases if p.room == LaterRoom(softMargin) then 0 else 1, |b| - p.start, |b| - p.i
  {
    hide WordText, InLoop, IsShaped, Overflows;
    if p.i == |b| {
      assert p.start <= p.i by {
        LoopBounds(softMargin, b, p);
      }
      ChunkLength(softMargin, b, p, p.i);
      assert b[p.start..p.i] == b[p.start..];
    } else {
      LoopBounds(softMargin, b, p);
      if Overflows(b, p) {
        NextWordKeeps(softMargin, b, p);
        ChunkLength(softMargin, b, p, Backtrack(b, p.i));
        WordsFit(softMargin, b, NextWord(softMargin, b, p));
        var rest := SplitWords(softMargin, b, NextWord(softMargin, b, p));
        assert SplitWords(softMargin, b, p)[1..] == rest == [rest[0]] + rest[1..];
      } else {
        AdvanceKeeps(softMargin, b, p);
        WordsFit(softMargin, b, Advance(b, p));
      }
    }
  }

  lemma LoopBounds(softMargin: nat, b: seq<byte>, p: Progress)
    requires InLoop(softMargin, b, p)
    ensures p.start <= p.i <= |b|
  {
  }

  // Contents

  ghost predicate Holds(chunks: seq<Chunk>, pieces: seq<string>) {
    |chunks| == |pieces| && forall k :: 0 <= k < |chunks| ==> chunks[k].octets == Utf8(pieces[k])
  }

  /** The words hold consecutive pieces of the text. */
  lemma {:induction false} WordsHold(softMargin: nat, b: seq<byte>, p: Progress, text: string)
      returns (pieces: seq<string>)
    requires softMargin >= 30 && IsShaped(b) && InLoop(softMargin, b, p) && b[p.start..] == Utf8(text)
    ensures Holds(SplitWords(softMargin, b, p), pieces) && Flatten(pieces) == text
    decreases if p.room == LaterRoom(softMargin) then 0 else 1, |b| - p.start, |b| - p.i
  {
    hide InLoop, IsShaped, Overflows, Utf8;
    LoopBounds(softMargin, b, p);
    if p.i == |b| {
      pieces := [text];
      assert pieces[1..] == [] && text + "" == text;
    } else if Overflows(b, p) {
      NextWordKeeps(softMargin, b, p);
      BacktrackFacts(b, p.i);
      var j := Backtrack(b, p.i);
      var m := SplitUtf8(text, j - p.start);
      assert b[p.start..][..j - p.start] == b[p.start..j] && b[p.start..][j - p.start..] == b[j..];
      var rest := WordsHold(softMargin, b, NextWord(softMargin, b, p), text[m..]);
      pieces := [text[..m]] + rest;
      assert pieces[1..] == rest && text[..m] + text[m..] == text;
    } else {
      AdvanceKeeps(softMargin, b, p);
      pieces := WordsHold(softMargin, b, Advance(b, p), text);
    }
  }

  /** Cutting a text into words loses nothing: each word reads back as a piece of the text in UTF-8, and the
      pieces make up the text. */
  lemma {:induction false} WordsReadBack(softMargin: nat, text: string, room: int) returns (pieces: seq<string>)
    requires softMargin >= 30
    ensures var chunks := WordsOf(softMargin, text, room);
            && |chunks| == |pieces| && Flatten(pieces) == text
            && forall k :: 0 <= k < |chunks|
                ==> ReadWord(WordText(chunks[k])) == EncodedWords.Octets("UTF-8", Utf8(pieces[k]))
  {
    hide ReadWord, WordText, Utf8;
    Utf8IsShaped(text);
    Utf8Start(text);
    var b := Utf8(text);
    assert b[0..0] == [] && b[0..] == b;
    NoPayload();
    pieces := WordsHold(softMargin, b, Progress(0, 0, 0, 0, room), text);
    var chunks := WordsOf(softMargin, text, room);
    forall k | 0 <= k < |chunks|
      ensures ReadWord(WordText(chunks[k])) == EncodedWords.Octets("UTF-8", Utf8(pieces[k]))
    {
      ReadWritten(chunks[k]);
    }
  }

  lemma {:induction false} WordsFitTheLine(softMargin: nat, text: string, room: int)
    requires softMargin >= 30
    ensures var chunks := WordsOf(softMargin, text, room);
            && |WordText(chunks[0])| <= |B64_PRELUDE| + 2 + Max(0, room)
            && Fit(softMargin, chunks[1..])
  {
    hide Utf8, WordText;
    Utf8IsShaped(text);
    Utf8Start(text);
    assert Utf8(text)[0..0] == [];
    NoPayload();
    WordsFit(softMargin, Utf8(text), Progress(0, 0, 0, 0, room));
  }
}
