/** How the tokenizer of packages/crypto/src/jsmimeparser/headerParser.js finds encoded-words in a header value: from a
    mark on it takes the first run of words with white space between them, and decodes it as one. The words that the
    emitter writes have no white space in them, so that a run of them is what it was written as. */
module WordReading {
  import opened Bytes
  import opened ContentDecoders
  import opened EncodedWords
  import opened HeaderFolding
  import opened HeaderPhrases
  import opened HeaderTokens
  import opened Results
  import opened WordDecoding
  import opened WordRoundTrip
  import opened WordSplitting

  // Runs

  /** The white space at the beginning. */
  function Blanks(s: string): (n: nat)
    ensures n <= |s| && AllBlank(s[..n]) && (n < |s| ==> !IsBlank(s[n]))
  {
    if s == "" || !IsBlank(s[0]) then 0
    else
      var n := Blanks(s[1..]);
      assert s[..n + 1] == [s[0]] + s[1..][..n];
      n + 1
  }

  /** The length of the words in a row, each after white space, that the text begins with. */
  function RunLength(s: string): (n: nat)
    ensures n <= |s|
    decreases |s|
  {
    match WordEnd(s, Blanks(s))
    case None => 0
    case Some(e) => e + RunLength(s[e..])
  }

  /** The length of the first run anywhere in the text, as the regular expression is not tied to its beginning. */
  function FirstRun(s: string): nat {
    if RunLength(s) > 0 then RunLength(s) else if s == "" then 0 else FirstRun(s[1..])
  }

  /** The decoder of the source; what makes it throw is not told apart from the empty text. */
  function SourceDecoder(x: Charsets): Decoder {
    Decoder(s => FirstRun(s), s => match Decoded(x, s) case None => "" case Some(t) => t)
  }

  /** Runs are found where they are, and words of text in UTF-8 are decoded. */
  ghost predicate DecodesWords(d: Decoder) {
    && (forall s :: RunLength(s) > 0 ==> d.length(s) == RunLength(s))
    && forall s, chunks, pieces :: Laid(s, chunks) && chunks != [] && Holds(chunks, pieces)
        ==> d.decode(s) == DropMark(Flatten(pieces))
  }

  lemma SourceDecodes(x: Charsets)
    ensures DecodesWords(SourceDecoder(x))
  {
    hide Laid, Holds, RunLength, Decoded;
    var d := SourceDecoder(x);
    forall s, chunks, pieces | Laid(s, chunks) && chunks != [] && Holds(chunks, pieces)
      ensures d.decode(s) == DropMark(Flatten(pieces))
    {
      LaidDecodes(x, s, chunks, pieces);
    }
  }

  // Words

  /** The text of a word in UTF-8. */
  function PieceOf(w: string): string {
    match ReadWord(w)
    case Octets(_, octets) => DecodeUtf8(octets, false).0
    case _ => ""
  }

  /** A word as the emitter writes it, which is the given chunk and holds whole characters. */
  ghost predicate IsWritten(w: string, chunk: Chunk) {
    w == WordText(chunk) && chunk.octets == Utf8(PieceOf(w))
  }

  ghost predicate IsOurWord(w: string) {
    exists chunk :: IsWritten(w, chunk)
  }

  lemma WrittenWord(chunk: Chunk, piece: string)
    requires chunk.octets == Utf8(piece)
    ensures IsOurWord(WordText(chunk)) && PieceOf(WordText(chunk)) == piece
  {
    hide ReadWord, WordText, Utf8, DecodeUtf8;
    ReadWritten(chunk);
    DecodeText(piece, false);
    assert IsWritten(WordText(chunk), chunk);
  }

  /** No white space, nothing outside ASCII. */
  predicate IsInked(s: string) {
    forall i :: 0 <= i < |s| ==> '!' <= s[i] <= '~'
  }

  lemma InkedJoin(a: string, b: string)
    requires IsInked(a) && IsInked(b)
    ensures IsInked(a + b)
  {
  }

  lemma {:induction false} QpIsInked(b: seq<byte>)
    ensures IsInked(QpPayload(b))
  {
    if b != [] {
      QpIsInked(b[1..]);
      OctetIsInked(b[0]);
      InkedJoin(QpOctet(b[0]), QpPayload(b[1..]));
    }
  }

  lemma OctetIsInked(b: byte)
    ensures IsInked(QpOctet(b))
  {
    if NeedsEscape(b) {
      HexDigit(b / 16);
      HexDigit(b % 16);
    }
  }

  lemma WordIsInked(chunk: Chunk)
    ensures IsInked(WordText(chunk))
  {
    var prelude := if chunk.useQP then QP_PRELUDE else B64_PRELUDE;
    var payload := if chunk.useQP then QpPayload(chunk.octets) else Btoa(chunk.octets);
    assert IsInked(prelude) && IsInked("?=");
    if chunk.useQP {
      QpIsInked(chunk.octets);
    } else {
      BtoaIsInked(chunk.octets);
    }
    hide QpPayload, Btoa, IsInked;
    InkedJoin(prelude, payload);
    InkedJoin(prelude + payload, "?=");
  }

  lemma BtoaIsInked(b: seq<byte>)
    ensures IsInked(Btoa(b))
  {
    BtoaDecodes(b);
    hide Btoa;
    forall i | 0 <= i < |Btoa(b)|
      ensures '!' <= Btoa(b)[i] <= '~'
    {
      assert IsDigit(Btoa(b)[i]) || Btoa(b)[i] == '=';
    }
  }

  // Where words are

  predicate StartsWithMark(s: string) {
    |s| >= 2 && s[0] == '=' && s[1] == '?'
  }

  /** No mark lies across the two. */
  predicate Joins(a: string, b: string) {
    !(EndsWith(a, '=') && StartsWith(b, '?'))
  }

  lemma WordHasMark(s: string)
    ensures WordEnd(s, 0).Some? ==> StartsWithMark(s)
  {
  }

  /** A word is found whatever comes after it. */
  lemma WordMore(a: string, b: string)
    requires WordEnd(a, 0).Some?
    ensures WordEnd(a + b, 0) == WordEnd(a, 0)
  {
    var q := Find(a, '?', 2);
    var r := Find(a, '?', q + 3);
    FindIs(a + b, '?', 2, q);
    FindIs(a + b, '?', q + 3, r);
  }

  /** A word is found in the text up to any place after it. */
  lemma WordWithin(s: string, k: nat)
    requires WordEnd(s, 0).Some? && WordEnd(s, 0).value <= k <= |s|
    ensures WordEnd(s[..k], 0) == WordEnd(s, 0)
  {
    var a := s[..k];
    var q := Find(s, '?', 2);
    var r := Find(s, '?', q + 3);
    FindIs(a, '?', 2, q);
    FindIs(a, '?', q + 3, r);
  }

  /** Our words end before any white space. */
  lemma WordBeforeBlank(s: string, k: nat)
    requires WordEnd(s, 0).Some? && IsOurWord(s[..WordEnd(s, 0).value]) && k < |s| && IsBlank(s[k])
    ensures WordEnd(s, 0).value <= k
  {
    hide WordText, WordEnd, PieceOf;
    var n := WordEnd(s, 0).value;
    var chunk :| IsWritten(s[..n], chunk);
    WordIsInked(chunk);
    assert forall i :: 0 <= i < n ==> s[..n][i] == s[i];
  }

  /** A word that is printed is found, and is all that is found. */
  lemma WordFound(chunk: Chunk)
    ensures WordEnd(WordText(chunk), 0) == Some(|WordText(chunk)|)
  {
    hide WordText, WordEnd;
    var w := WordText(chunk);
    assert w[0..|w|] == w;
    WordEnds(w, 0, chunk);
  }
}
