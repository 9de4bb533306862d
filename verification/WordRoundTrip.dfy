/** Text printed as encoded-words under a header name, read back from the folded header. The printer's words, however
    the lines are broken, are laid out with nothing but white space between them (what a fold adds, and the space that
    marks a breakpoint); splitting the value at its words then gives every other component blank, and decoding drops
    those. One decoder goes through all the words, and since the words were cut between characters it keeps nothing
    back from one to the next; only at the very beginning does it drop a byte order mark. */
module WordRoundTrip {
  import opened ContentDecoders
  import opened EncodedWords
  import opened HeaderFolding
  import opened HeaderPhrases
  import opened HeaderText
  import opened HeaderTokens
  import opened Results
  import opened WordDecoding
  import opened WordSplitting

  // Words between blanks

  /** After blanks up to g comes the word. */
  ghost predicate StartsAt(s: string, g: nat, word: string) {
    g + |word| <= |s| && AllBlank(s[..g]) && s[g..g + |word|] == word
  }

  /** The text consists of the words in order, with nothing but blanks around them. */
  ghost predicate Laid(s: string, chunks: seq<Chunk>)
    decreases |chunks|
  {
    if chunks == [] then AllBlank(s)
    else exists g: nat :: StartsAt(s, g, WordText(chunks[0])) && Laid(s[g + |WordText(chunks[0])|..], chunks[1..])
  }

  lemma StartsMore(s: string, g: nat, word: string, more: string)
    requires StartsAt(s, g, word)
    ensures StartsAt(s + more, g, word) && (s + more)[g + |word|..] == s[g + |word|..] + more
  {
    assert (s + more)[..g] == s[..g] && (s + more)[g..g + |word|] == s[g..g + |word|];
  }

  /** The first word, and what follows it. */
  lemma LaidFirst(s: string, chunks: seq<Chunk>) returns (g: nat)
    requires Laid(s, chunks) && chunks != []
    ensures g + |WordText(chunks[0])| <= |s|
    ensures StartsAt(s, g, WordText(chunks[0])) && Laid(s[g + |WordText(chunks[0])|..], chunks[1..])
  {
    hide WordText;
    g :| StartsAt(s, g, WordText(chunks[0])) && Laid(s[g + |WordText(chunks[0])|..], chunks[1..]);
  }

  lemma LaidFrom(s: string, g: nat, chunks: seq<Chunk>)
    requires chunks != [] && StartsAt(s, g, WordText(chunks[0])) && Laid(s[g + |WordText(chunks[0])|..], chunks[1..])
    ensures Laid(s, chunks)
  {
    hide WordText, StartsAt;
  }

  lemma {:induction false} LaidMore(s: string, chunks: seq<Chunk>, z: string, chunk: Chunk)
    requires Laid(s, chunks) && AllBlank(z)
    ensures Laid(s + z + WordText(chunk), chunks + [chunk])
    decreases |chunks|
  {
    hide WordText, Laid, StartsAt;
    var w, t := WordText(chunk), s + z + WordText(chunk);
    if chunks == [] {
      LaidAlone(s, z, chunk);
      assert chunks + [chunk] == [chunk];
    } else {
      var first := WordText(chunks[0]);
      var g := LaidFirst(s, chunks);
      LaidMore(s[g + |first|..], chunks[1..], z, chunk);
      assert (chunks + [chunk])[0] == chunks[0] && (chunks + [chunk])[1..] == chunks[1..] + [chunk];
      StartsMore(s, g, first, z + w);
      assert s + (z + w) == t && s[g + |first|..] + (z + w) == s[g + |first|..] + z + w;
      LaidFrom(t, g, chunks + [chunk]);
    }
  }

  lemma LaidAlone(s: string, z: string, chunk: Chunk)
    requires Laid(s, []) && AllBlank(z)
    ensures Laid(s + z + WordText(chunk), [chunk])
  {
    hide WordText;
    var w, t, g := WordText(chunk), s + z + WordText(chunk), |s + z|;
    assert t[..g] == s + z && t[g..g + |w|] == w && t[g + |w|..] == "";
    assert [chunk][1..] == [];
    LaidFrom(t, g, [chunk]);
  }

  lemma {:induction false} LaidBlank(s: string, chunks: seq<Chunk>, z: string)
    requires Laid(s, chunks) && AllBlank(z)
    ensures Laid(s + z, chunks)
    decreases |chunks|
  {
    hide WordText, StartsAt;
    if chunks != [] {
      hide Laid;
      var first := WordText(chunks[0]);
      var g := LaidFirst(s, chunks);
      LaidBlank(s[g + |first|..], chunks[1..], z);
      StartsMore(s, g, first, z);
      LaidFrom(s + z, g, chunks);
    }
  }

  // Splitting

  lemma {:induction false} FindIs(s: string, c: char, i: nat, j: nat)
    requires i <= j < |s| && s[j] == c && forall k :: i <= k < j ==> s[k] != c
    ensures Find(s, c, i) == j
  {
    assert Find(s, c, i) <= j;
  }

  /** The four question marks of a word, and nothing like them between. */
  lemma WordShape(chunk: Chunk)
    ensures var w, n := WordText(chunk), |WordText(chunk)|;
            && n >= 12 && w[0] == '=' && w[1] == '?' && w[7] == '?' && w[8] in "BQbq" && w[9] == '?' && w[n - 2] == '?'
                && w[n - 1] == '='
            && (forall k :: 2 <= k < 7 ==> w[k] != '?') && (forall k :: 10 <= k < n - 2 ==> w[k] != '?')
  {
    var payload := if chunk.useQP then QpPayload(chunk.octets) else Btoa(chunk.octets);
    NoQuestion(chunk);
    hide QpPayload, Btoa;
    var w, n := WordText(chunk), |WordText(chunk)|;
    var prelude := if chunk.useQP then QP_PRELUDE else B64_PRELUDE;
    assert w == prelude + payload + "?=" && n == 12 + |payload|;
    assert forall k :: 0 <= k < 10 ==> w[k] == prelude[k];
    assert prelude[2] == 'U' && prelude[3] == 'T' && prelude[4] == 'F' && prelude[5] == '-' && prelude[6] == '8';
    assert forall k :: 10 <= k < n - 2 ==> w[k] == payload[k - 10];
  }

  /** A word is recognized where it stands. */
  lemma WordEnds(s: string, g: nat, chunk: Chunk)
    requires g + |WordText(chunk)| <= |s| && s[g..g + |WordText(chunk)|] == WordText(chunk)
    ensures WordEnd(s, g) == Some(g + |WordText(chunk)|)
  {
    WordShape(chunk);
    hide WordText;
    var w, n := WordText(chunk), |WordText(chunk)|;
    assert forall k :: g <= k < g + n ==> s[k] == w[k - g];
    FindIs(s, '?', g + 2, g + 7);
    FindIs(s, '?', g + 10, g + n - 2);
  }

  lemma NoQuestion(chunk: Chunk)
    ensures '?' !in if chunk.useQP then QpPayload(chunk.octets) else Btoa(chunk.octets)
  {
    if chunk.useQP {
      QpDecodes(chunk.octets);
    } else {
      BtoaDecodes(chunk.octets);
      forall i | 0 <= i < |Btoa(chunk.octets)|
        ensures Btoa(chunk.octets)[i] != '?'
      {
        assert IsDigit(Btoa(chunk.octets)[i]) || Btoa(chunk.octets)[i] == '=';
      }
    }
  }

  lemma {:induction false} BlanksPassed(s: string, g: nat, i: nat)
    requires i <= g <= |s| && AllBlank(s[..g])
    ensures ComponentsFrom(s, 0, i) == ComponentsFrom(s, 0, g)
    decreases g - i
  {
    if i < g {
      assert IsBlank(s[..g][i]);
      BlanksPassed(s, g, i + 1);
    }
  }

  lemma {:induction false} FindShift(s: string, n: nat, c: char, i: nat)
    requires n <= i <= |s|
    ensures Find(s[n..], c, i - n) == Find(s, c, i) - n
    decreases |s| - i
  {
    if i < |s| && s[i] != c {
      FindShift(s, n, c, i + 1);
    }
  }

  lemma WordEndShift(s: string, n: nat, i: nat)
    requires n <= i <= |s|
    ensures WordEnd(s[n..], i - n)
         == match WordEnd(s, i)
            case None => None
            case Some(e) => if e >= n then Some(e - n) else None
  {
    if i + 2 <= |s| {
      FindShift(s, n, '?', i + 2);
      var q := Find(s, '?', i + 2);
      if q + 3 <= |s| {
        FindShift(s, n, '?', q + 3);
      }
    }
  }

  lemma {:induction false} ComponentsShift(s: string, n: nat, from: nat, i: nat)
    requires n <= from <= i <= |s|
    ensures ComponentsFrom(s[n..], from - n, i - n) == ComponentsFrom(s, from, i)
    decreases |s| - i
  {
    hide WordEnd;
    WordEndShift(s, n, i);
    match WordEnd(s, i)
    case Some(e) =>
      ComponentsShift(s, n, e, e);
      assert s[n..][from - n..i - n] == s[from..i] && s[n..][i - n..e - n] == s[i..e];
    case None =>
      if i == |s| {
        assert s[n..][from - n..] == s[from..];
      } else {
        ComponentsShift(s, n, from, i + 1);
      }
  }

  lemma FirstWordSplit(s: string, g: nat, chunk: Chunk)
    requires StartsAt(s, g, WordText(chunk))
    ensures Components(s) == [s[..g], WordText(chunk)] + Components(s[g + |WordText(chunk)|..])
  {
    hide WordText, WordEnd;
    var e := g + |WordText(chunk)|;
    BlanksPassed(s, g, 0);
    WordEnds(s, g, chunk);
    ComponentsShift(s, e, e, e);
    assert s[0..g] == s[..g];
  }

  lemma BlankSplit(s: string)
    requires AllBlank(s)
    ensures Components(s) == [s]
  {
    assert s[..|s|] == s && s[0..] == s;
    BlanksPassed(s, |s|, 0);
  }

  // Decoding

  lemma WordIsToken(chunk: Chunk)
    ensures IsToken(WordText(chunk))
  {
    hide QpPayload, Btoa;
    assert WordText(chunk)[0] == '=' && WordText(chunk)[1] == '?';
  }

  lemma BlankIsNoToken(s: string)
    requires AllBlank(s)
    ensures !IsToken(s)
  {
    assert s != "" ==> IsBlank(s[0]);
  }

  lemma NothingLeft(s: string, chunks: seq<Chunk>)
    requires Laid(s, chunks) && chunks == []
    ensures AllBlank(s)
  {
  }

  /** The last word is the last but one of the components. */
  lemma {:induction false} LastWord(s: string, chunks: seq<Chunk>)
    requires Laid(s, chunks) && chunks != []
    ensures |Components(s)| == 2 * |chunks| + 1 && LastToken(Components(s)) == |Components(s)| - 2
    decreases |chunks|
  {
    hide WordText, Components, StartsAt;
    var first := WordText(chunks[0]);
    var g := LaidFirst(s, chunks);
    hide Laid;
    var rest := s[g + |first|..];
    FirstWordSplit(s, g, chunks[0]);
    WordIsToken(chunks[0]);
    var parts := Components(s);
    if |chunks| == 1 {
      NothingLeft(rest, chunks[1..]);
      BlankSplit(rest);
      BlankIsNoToken(rest);
      assert parts[..2] == [s[..g], first] && parts[..2][..1] == [s[..g]];
      assert parts[..|parts| - 1] == parts[..2];
    } else {
      LastWord(rest, chunks[1..]);
      LastTokenLater([s[..g], first], Components(rest));
    }
  }

  lemma {:induction false} LastTokenLater(a: seq<string>, b: seq<string>)
    requires LastToken(b) >= 0
    ensures LastToken(a + b) == |a| + LastToken(b)
    decreases |b|
  {
    var s := a + b;
    assert s[|s| - 1] == b[|b| - 1] && s[..|s| - 1] == a + b[..|b| - 1];
    if !IsToken(b[|b| - 1]) {
      LastTokenLater(a, b[..|b| - 1]);
    }
  }

  /** Ready for a word in UTF-8: no decoder yet, or one that has kept nothing for later. */
  predicate IsReady(st: Scan) {
    st == NEW_SCAN || (st.charset == UTF8
        && st.decoder == Some(TextDecoder(UTF8, [], st.decoder.Some? && st.decoder.value.started)))
  }

  predicate HasStarted(st: Scan) {
    st.decoder.Some? && st.decoder.value.started
  }

  /** What is to come when the decoder may still drop a mark. */
  function Later(st: Scan, text: string): string {
    if HasStarted(st) then text else DropMark(text)
  }

  lemma BlankBefore(s: string, g: nat, word: string)
    requires StartsAt(s, g, word)
    ensures AllBlank(s[..g])
  {
  }

  lemma BlankDropped(x: Charsets, st: Scan, s: string, isLast: bool)
    requires AllBlank(s)
    ensures DecodeComponent(x, st, s, isLast) == Accepted("", st)
  {
    BlankIsNoToken(s);
  }

  lemma NoReset()
    ensures !Resets(UTF8, [])
    ensures forall octets :: !Resets(UTF8, octets)
  {
    assert |Upper(UTF8)| == 5 && |"ISO-2022-JP"| == 11;
  }

  lemma WordDecoded(x: Charsets, st: Scan, chunk: Chunk, piece: string, isLast: bool)
    requires IsReady(st) && chunk.octets == Utf8(piece)
    ensures var reply := DecodeComponent(x, st, WordText(chunk), isLast);
            && reply.Accepted? && IsReady(reply.scan) && reply.text == Later(st, piece)
            && HasStarted(reply.scan) == (!isLast && (HasStarted(st) || piece != ""))
  {
    hide WordText, ReadWord, Utf8, DecodeUtf8, Resets;
    WordIsToken(chunk);
    ReadWritten(chunk);
    NoReset();
    DecodeText(piece, !isLast);
    assert [] + Utf8(piece) == Utf8(piece);
    assert "" + Later(st, piece) == Later(st, piece);
  }

  /** Decoding the components from k on gives the text of the words. */
  lemma {:induction false} WordsDecoded(x: Charsets, parts: seq<string>, k: nat, s: string, chunks: seq<Chunk>,
                                        pieces: seq<string>, st: Scan)
    requires k <= |parts| && parts[k..] == Components(s) && Laid(s, chunks) && Holds(chunks, pieces) && IsReady(st)
    requires |Components(s)| == 2 * |chunks| + 1
    ensures DecodeFrom(x, parts, k, |parts| - 2, st) == Some(Later(st, Flatten(pieces)))
    decreases |chunks|
  {
    hide WordText, Components, DecodeComponent, IsReady, StartsAt, Laid;
    if chunks == [] {
      NothingLeft(s, chunks);
      BlankSplit(s);
      assert parts[k..][0] == parts[k] == s && |parts| == k + 1;
      BlankDropped(x, st, parts[k], k == |parts| - 2);
      assert DecodeFrom(x, parts, k + 1, |parts| - 2, st) == Some("");
      assert Later(st, Flatten(pieces)) == "" == "" + "";
    } else {
      var first := WordText(chunks[0]);
      var g := LaidFirst(s, chunks);
      var rest, last := s[g + |first|..], |parts| - 2;
      FirstWordSplit(s, g, chunks[0]);
      BlankBefore(s, g, first);
      assert parts[k..][0] == parts[k] == s[..g] && parts[k..][1] == parts[k + 1] == first
          && parts[k + 2..] == Components(rest);
      BlankDropped(x, st, s[..g], k == last);
      assert chunks[0].octets == Utf8(pieces[0]);
      WordDecoded(x, st, chunks[0], pieces[0], k + 1 == last);
      var after := DecodeComponent(x, st, first, k + 1 == last).scan;
      assert Holds(chunks[1..], pieces[1..]);
      WordsDecoded(x, parts, k + 2, rest, chunks[1..], pieces[1..], after);
      LaterPieces(st, after, pieces, k + 1 == last);
      var t := Later(st, pieces[0]) + Later(after, Flatten(pieces[1..]));
      assert DecodeFrom(x, parts, k + 1, last, st) == Some(t);
      assert "" + t == t;
    }
  }

  lemma LaterPieces(st: Scan, after: Scan, pieces: seq<string>, isLast: bool)
    requires pieces != [] && HasStarted(after) == (!isLast && (HasStarted(st) || pieces[0] != ""))
    requires (isLast ==> |pieces| == 1)
    ensures Later(st, pieces[0]) + Later(after, Flatten(pieces[1..])) == Later(st, Flatten(pieces))
  {
    var rest := Flatten(pieces[1..]);
    assert Flatten(pieces) == pieces[0] + rest;
    if isLast {
      assert rest == "" && pieces[0] + rest == pieces[0];
    } else if pieces[0] == "" {
      assert pieces[0] + rest == rest;
    } else if !HasStarted(st) && pieces[0][0] == '\U{FEFF}' {
      assert (pieces[0] + rest)[1..] == pieces[0][1..] + rest;
    }
  }

  lemma LaidDecodes(x: Charsets, s: string, chunks: seq<Chunk>, pieces: seq<string>)
    requires Laid(s, chunks) && chunks != [] && Holds(chunks, pieces)
    ensures Decoded(x, s) == Some(DropMark(Flatten(pieces)))
  {
    hide Components, LastToken, Laid, Holds;
    LastWord(s, chunks);
    assert Components(s)[0..] == Components(s);
    WordsDecoded(x, Components(s), 0, s, chunks, pieces, NEW_SCAN);
  }

  // Printing

  /** All that has been written. */
  function Written(e: Emission): string {
    Delivered(e.lines) + e.cur
  }

  /** The text written is the given one and blanks; it does not end in a blank itself. */
  predicate Hangs(e: Emission, text: string) {
    text != "" && !IsSpace(text[|text| - 1]) && text <= Written(e) && AllBlank(Written(e)[|text|..])
  }

  /** Only blanks come after the preferred breakpoint. */
  predicate BreaksLate(e: Emission) {
    e.pref <= |e.cur| && (e.pref > 0 ==> AllBlank(e.cur[e.pref..]))
  }

  lemma BlankIsSpace(s: string)
    requires AllBlank(s)
    ensures forall i :: 0 <= i < |s| ==> IsSpace(s[i])
  {
    forall i | 0 <= i < |s|
      ensures IsSpace(s[i])
    {
      assert IsBlank(s[i]);
    }
  }

  /** Cutting off blanks cannot reach into the text. */
  lemma CutInBlanks(full: string, text: string, n: nat)
    requires text != "" && text <= full && n <= |full| && !IsSpace(text[|text| - 1]) && AllBlank(full[|text|..])
    requires forall i :: n <= i < |full| ==> IsSpace(full[i])
    ensures text <= full[..n] && AllBlank(full[..n][|text|..])
  {
    hide IsSpace, IsBlank;
    assert full[|text| - 1] == text[|text| - 1];
    assert forall i :: 0 <= i < |full[..n][|text|..]| ==> full[..n][|text|..][i] == full[|text|..][i];
  }

  lemma TrimmedTail(cur: string, k: nat)
    requires k <= |cur| && AllBlank(cur[k..])
    ensures TrimRight(cur[..k]) <= cur
    ensures forall i :: |TrimRight(cur[..k])| <= i < |cur| ==> IsSpace(cur[i])
  {
    BlankIsSpace(cur[k..]);
    hide IsSpace;
    var t := TrimRight(cur[..k]);
    assert forall i :: k <= i < |cur| ==> cur[i] == cur[k..][i - k];
    assert forall i :: |t| <= i < k ==> cur[i] == cur[..k][i];
    assert t == cur[..k][..|t|] == cur[..|t|];
  }

  /** Trimming takes away no more than the blanks at the end. */
  lemma TrimHangs(e: Emission, text: string, k: nat)
    requires Hangs(e, text) && k <= |e.cur| && AllBlank(e.cur[k..])
    ensures text <= Delivered(e.lines) + TrimRight(e.cur[..k])
    ensures AllBlank((Delivered(e.lines) + TrimRight(e.cur[..k]))[|text|..])
  {
    hide IsSpace, Delivered, IsBlank, TrimRight, AllBlank;
    var d, t := Delivered(e.lines), TrimRight(e.cur[..k]);
    TrimmedTail(e.cur, k);
    var n := |d + t|;
    assert forall i :: n <= i < |Written(e)| ==> Written(e)[i] == e.cur[i - |d|];
    CutInBlanks(Written(e), text, n);
    assert Written(e)[..n] == d + t;
  }

  lemma BreakHangs(e: Emission, text: string, k: nat)
    requires Hangs(e, text) && k <= |e.cur| && AllBlank(e.cur[k..])
    ensures Hangs(Break(e, k), text) && BreaksLate(Break(e, k))
  {
    hide IsSpace, Delivered;
    var t := TrimRight(e.cur[..k]);
    TrimHangs(e, text, k);
    BlankIsSpace(e.cur[k..]);
    assert TrimLeft(e.cur[k..]) == "";
    DeliveredMore(e.lines, t);
    LineEndHangs(Delivered(e.lines) + t, text, " ");
    assert Written(Break(e, k)) == Delivered(e.lines) + t + "\r\n" + (" " + "");
    assert " " + "" == " ";
  }

  lemma LineEndHangs(d: string, text: string, z: string)
    requires text <= d && AllBlank(d[|text|..]) && AllBlank(z)
    ensures text <= d + "\r\n" + z && AllBlank((d + "\r\n" + z)[|text|..])
  {
    assert (d + "\r\n" + z)[|text|..] == d[|text|..] + "\r\n" + z;
  }

  lemma ReserveHangs(c: Config, e: Emission, text: string, length: nat)
    requires Hangs(e, text) && BreaksLate(e)
    ensures Hangs(Reserve(c, e, length).e, text) && BreaksLate(Reserve(c, e, length).e)
  {
    hide Hangs, Break, AllBlank;
    if |e.cur| + length > c.softMargin {
      if e.pref > 0 {
        BreakHangs(e, text, e.pref);
      }
      var e1 := if e.pref > 0 then Break(e, e.pref) else e;
      EndIsBlank(e1.cur);
      BreakHangs(e1, text, |e1.cur|);
    }
  }

  lemma EndIsBlank(s: string)
    ensures AllBlank(s[|s|..])
  {
  }

  /** A word more. */
  lemma AppendHangs(e: Emission, text: string, word: string, mayBreakAfter: bool)
    requires Hangs(e, text) && word != "" && word[|word| - 1] == '='
    ensures var z := Written(e)[|text|..];
            && AllBlank(z) && Hangs(Append(e, word, mayBreakAfter), text + z + word)
            && (mayBreakAfter ==> BreaksLate(Append(e, word, mayBreakAfter)))
  {
    hide Delivered;
    var z, e1 := Written(e)[|text|..], Append(e, word, mayBreakAfter);
    assert Written(e) == text + z;
    assert Delivered(e.lines) + (e.cur + word) == text + z + word;
    assert !IsSpace('=');
    hide IsSpace;
    if mayBreakAfter {
      assert e1.cur == e.cur + word + " " && e1.cur[|e.cur + word|..] == " ";
      assert Written(e1) == text + z + word + " ";
      assert Written(e1)[|text + z + word|..] == " ";
    }
  }

  lemma WordEndsInk(chunk: Chunk)
    ensures WordText(chunk) != "" && WordText(chunk)[|WordText(chunk)| - 1] == '='
  {
    hide QpPayload, Btoa;
  }

  lemma AddWordHangs(c: Config, e: Emission, text: string, chunk: Chunk, mayBreakAfter: bool) returns (z: string)
    requires Hangs(e, text) && BreaksLate(e) && AddText(c, e, WordText(chunk), mayBreakAfter).ok
    ensures var e1 := AddText(c, e, WordText(chunk), mayBreakAfter).e;
            AllBlank(z) && Hangs(e1, text + z + WordText(chunk)) && (mayBreakAfter ==> BreaksLate(e1))
  {
    hide WordText, Hangs, BreaksLate, Reserve, AllBlank, Append;
    var e1 := Reserve(c, e, |WordText(chunk)|).e;
    ReserveHangs(c, e, text, |WordText(chunk)|);
    WordEndsInk(chunk);
    assert text <= Written(e1) by { HangsAfter(e1, text); }
    z := Written(e1)[|text|..];
    AppendHangs(e1, text, WordText(chunk), mayBreakAfter);
  }

  lemma HangsAfter(e: Emission, text: string)
    requires Hangs(e, text)
    ensures text <= Written(e)
  {
  }

  /** The words printed follow the head, with blanks between them. */
  lemma {:induction false} ChunksLaid(c: Config, e: Emission, head: string, s: string, chunks: seq<Chunk>,
                                      more: seq<Chunk>, mayBreakAfter: bool)
    returns (t: string)
    requires Hangs(e, head + s) && BreaksLate(e) && Laid(s, chunks) && more != []
    requires AddChunks(c, e, more, mayBreakAfter).ok
    ensures Hangs(AddChunks(c, e, more, mayBreakAfter).e, head + t) && Laid(t, chunks + more)
    decreases |more|
  {
    hide WordText, Hangs, BreaksLate, Laid, HeaderFolding.AddText, AllBlank;
    var last := |more| == 1;
    var z := AddWordHangs(c, e, head + s, more[0], if last then mayBreakAfter else true);
    LaidMore(s, chunks, z, more[0]);
    t := s + z + WordText(more[0]);
    assert head + s + z + WordText(more[0]) == head + t;
    if last {
      assert more == [more[0]];
    } else {
      assert chunks + more == chunks + [more[0]] + more[1..];
      t := ChunksLaid(c, AddText(c, e, WordText(more[0]), true).e, head, t, chunks + [more[0]], more[1..],
                      mayBreakAfter);
    }
  }

  /** The end of the header leaves the words and blanks. */
  lemma FinishHangs(e: Emission, head: string, s: string, chunks: seq<Chunk>)
    requires Hangs(e, head + s) && Laid(s, chunks)
    ensures var all := Delivered(Finish(e).lines); head <= all && Laid(all[|head|..], chunks)
  {
    hide IsSpace, Delivered, Laid, TrimRight;
    var d := Delivered(e.lines) + TrimRight(e.cur);
    assert e.cur[..|e.cur|] == e.cur;
    EndIsBlank(e.cur);
    TrimHangs(e, head + s, |e.cur|);
    DeliveredMore(e.lines, TrimRight(e.cur));
    LineEndHangs(d, head + s, "");
    var all := d + "\r\n" + "";
    assert all == d + "\r\n";
    var z := all[|head + s|..];
    LaidBlank(s, chunks, z);
    assert all[|head|..] == s + z;
  }

  // The header

  lemma NameHangs(c: Config, e: Emission, name: string)
    requires e.cur == "" && e.pref == 0 && AddHeaderName(c, e, name).ok
    ensures var e1 := AddHeaderName(c, e, name).e;
            Hangs(e1, Delivered(e.lines) + name + ":") && BreaksLate(e1)
  {
    assert !IsSpace(':');
    hide IsSpace, Delivered;
    assert TrimRight("") == "";
    var e1, head := AddHeaderName(c, e, name).e, Delivered(e.lines) + name + ":";
    assert e1.lines == e.lines && e1.cur == name + ": " && e1.pref == 0;
    assert Written(e1) == head + " " && Written(e1)[|head|..] == " ";
  }

  /** A header printed as encoded-words and read back from its folded lines gives the text, less a byte order mark at
      its beginning. */
  lemma EncodedRoundTrip(x: Charsets, c: Config, e: Emission, name: string, text: string)
    requires c.Valid() && e.cur == "" && e.pref == 0 && AddHeaderName(c, e, name).ok
    ensures var o := EncodePhrase(c, AddHeaderName(c, e, name).e, text, false);
            var all, head := Delivered(Finish(o.e).lines), Delivered(e.lines) + name + ":";
            o.ok && head <= all && Decoded(x, all[|head|..]) == Some(DropMark(text))
  {
    hide Delivered, AddHeaderName, AddChunks, WordsOf, Reserve, Break, Hangs, BreaksLate, Laid, Utf8,
         HeaderFolding.Finish;
    var head, e0 := Delivered(e.lines) + name + ":", AddHeaderName(c, e, name).e;
    NameHangs(c, e, name);
    EncodeNeverThrows(c, e0, text, false);
    ReserveWordHangs(c, e0, head);
    var e1 := ReserveWord(c, e0);
    var room := FirstRoom(c, e1);
    var chunks := WordsOf(c.softMargin, text, room);
    assert head + "" == head && [] + chunks == chunks;
    assert Laid("", []) by { NothingLaid(); }
    var t := ChunksLaid(c, e1, head, "", [], chunks, false);
    FinishHangs(AddChunks(c, e1, chunks, false).e, head, t, chunks);
    var pieces := PiecesOf(c.softMargin, text, room);
    LaidDecodes(x, Delivered(Finish(AddChunks(c, e1, chunks, false).e).lines)[|head|..], chunks, pieces);
  }

  lemma NothingLaid()
    ensures Laid("", [])
  {
  }

  lemma ReserveWordHangs(c: Config, e: Emission, text: string)
    requires Hangs(e, text) && BreaksLate(e)
    ensures Hangs(ReserveWord(c, e), text) && BreaksLate(ReserveWord(c, e))
  {
    hide Hangs, Break, Reserve, AllBlank;
    ReserveHangs(c, e, text, |B64_PRELUDE| + 10);
    var e1 := Reserve(c, e, |B64_PRELUDE| + 10).e;
    EndIsBlank(e1.cur);
    BreakHangs(e1, text, |e1.cur|);
  }

  lemma PiecesOf(softMargin: nat, text: string, room: int) returns (pieces: seq<string>)
    requires softMargin >= 30
    ensures Holds(WordsOf(softMargin, text, room), pieces) && Flatten(pieces) == text
  {
    hide Utf8;
    Utf8IsShaped(text);
    Utf8Start(text);
    assert Utf8(text)[0..0] == [] && Utf8(text)[0..] == Utf8(text);
    NoPayload();
    pieces := WordsHold(softMargin, Utf8(text), Progress(0, 0, 0, 0, room), text);
  }

  /** An unstructured header with text outside ASCII comes back with its blanks collapsed, whole if and only if it does
      not begin with a byte order mark. */
  lemma UnstructuredRoundTrip(x: Charsets, c: Config, e: Emission, name: string, text: string)
    requires c.Valid() && c.useASCII && !IsPrintable(Collapse(text)) && e.cur == "" && e.pref == 0
    requires AddHeaderName(c, e, name).ok
    ensures var o := AddPhrase(c, AddHeaderName(c, e, name).e, text, "", false);
            var all, head := Delivered(Finish(o.e).lines), Delivered(e.lines) + name + ":";
            && o.ok && head <= all
            && (Decoded(x, all[|head|..]) == Some(Collapse(text)) <==> Collapse(text)[0] != '\U{FEFF}')
  {
    hide Delivered, AddHeaderName, EncodePhrase, HeaderFolding.Finish, Decoded;
    assert Collapse(text) != "";
    EncodedRoundTrip(x, c, e, name, Collapse(text));
  }
}
