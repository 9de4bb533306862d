/** The tokenizer getHeaderTokens of packages/crypto/src/jsmimeparser/headerParser.js: as a machine that takes
    one character at a time, and as the loop, which finds the same tokens. */
module HeaderTokens {
  import opened HeaderPhrases
  import opened Results

  /** A delimiter, or the text of a token, unescaped. */
  datatype Token = Delimiter(c: char) | Word(text: string)

  datatype Options = Options(delimiters: string, qstring: bool, dliteral: bool, comments: bool, rfc2047: bool)

  /** The decoding of encoded-words: how long the first run of them in a text is, zero if there is none, and what
      a text with the mark of an encoded-word in it decodes to. */
  datatype Decoder = Decoder(length: string -> nat, decode: string -> string)

  predicate HasMark(s: string) {
    exists i :: 0 <= i < |s| - 1 && s[i] == '=' && s[i + 1] == '?'
  }

  predicate AllBlank(s: string) {
    forall i :: 0 <= i < |s| ==> IsBlank(s[i])
  }

  /** Without a mark there is one component: dropped if it is all blank, else left alone. */
  function DecodeWords(d: Decoder, s: string): string {
    if HasMark(s) then d.decode(s) else if AllBlank(s) then "" else s
  }

  function Unescape(s: string): string {
    if s == "" then ""
    else if s[0] == '\\' then (if |s| > 1 then [s[1]] + Unescape(s[2..]) else "")
    else [s[0]] + Unescape(s[1..])
  }

  /** The open token with all its characters, the character that ends a quotation, the depth of comments, and
      whether a backslash has just been read. */
  datatype Scanner = Scanner(open: Option<string>, endQuote: Option<char>, depth: nat, escaped: bool)

  const NEW_SCANNER := Scanner(None, None, 0, false)

  /** What an ordinary character does: it may end a token, start one, and be a token itself. */
  datatype Effect = Effect(ends: bool, starts: bool, special: bool, endQuote: Option<char>, depth: nat)

  function Classify(o: Options, depth: nat, ch: char): (f: Effect)
    ensures f.ends || f.starts
    ensures f.endQuote.Some? ==> f.starts
  {
    if IsBlank(ch) then Effect(true, false, false, None, depth)
    else if depth == 0 && ch in o.delimiters then Effect(true, false, true, None, depth)
    else if o.qstring && ch == '"' then Effect(true, true, false, Some('"'), depth)
    else if o.dliteral && ch == '[' then Effect(true, true, false, Some(']'), depth)
    else if o.comments && ch == '(' then
      if depth == 0 then Effect(true, false, true, None, 1) else Effect(false, true, false, None, depth + 1)
    else if o.comments && ch == ')' then
      if depth <= 1 then Effect(true, false, true, None, 0) else Effect(false, true, false, None, depth - 1)
    else Effect(false, true, false, None, depth)
  }

  function Longer(open: Option<string>, ch: char): Option<string> {
    if open.Some? then Some(open.value + [ch]) else None
  }

  /** The token open at an ordinary character, if that ends it. */
  function Ended(open: Option<string>): seq<Token> {
    if open.Some? then [Word(Unescape(open.value))] else []
  }

  function QuotedText(o: Options, d: Decoder, text: string): Token {
    Word(Unescape(if o.rfc2047 then DecodeWords(d, text) else text))
  }

  /** Inside a quotation, only its end matters. */
  function StepQuoted(o: Options, d: Decoder, s: Scanner, ch: char): (Scanner, seq<Token>)
    requires s.endQuote.Some? && s.open.Some? && s.open.value != ""
  {
    if ch == s.endQuote.value && ch == '"' then
      (s.(open := None, endQuote := None), [QuotedText(o, d, s.open.value[1..])])
    else if ch == s.endQuote.value && ch == ']' then
      (s.(open := None, endQuote := None), [Word(Unescape(s.open.value + [ch]))])
    else (s.(open := Longer(s.open, ch)), [])
  }

  function StepPlain(o: Options, s: Scanner, ch: char): (Scanner, seq<Token>) {
    var f := Classify(o, s.depth, ch);
    var open := if f.ends then (if f.starts then Some([ch]) else None)
                else if s.open.Some? then Longer(s.open, ch)
                else Some([ch]);
    var ended := if f.ends then Ended(s.open) else [];
    (Scanner(open, f.endQuote, f.depth, false), if f.special then ended + [Delimiter(ch)] else ended)
  }

  predicate IsScanner(s: Scanner) {
    s.endQuote.Some? ==> s.open.Some? && s.open.value != ""
  }

  function Step(o: Options, d: Decoder, s: Scanner, ch: char): (r: (Scanner, seq<Token>))
    requires IsScanner(s)
    ensures IsScanner(r.0)
  {
    if s.escaped then (s.(open := Longer(s.open, ch), escaped := false), [])
    else if ch == '\\' then (s.(open := Longer(s.open, ch), escaped := true), [])
    else if s.endQuote.Some? then StepQuoted(o, d, s, ch)
    else StepPlain(o, s, ch)
  }

  /** The token still open at the end; a quoted string is taken to be closed there. */
  function Last(s: Scanner): seq<Token>
    requires IsScanner(s)
  {
    if s.open.None? then []
    else if s.endQuote == Some('"') then [Word(Unescape(s.open.value[1..]))]
    else [Word(Unescape(s.open.value))]
  }

  /** An encoded-word may start at i, where the scanner takes ordinary characters. */
  predicate MayDecode(o: Options, value: string, i: nat, s: Scanner) {
    && o.rfc2047 && !s.escaped && s.endQuote.None?
    && i + 1 < |value| && value[i] == '=' && value[i + 1] == '?'
  }

  function Clamp(value: string, i: nat): (j: nat)
    ensures j <= |value|
  {
    if i <= |value| then i else |value|
  }

  /** The tokens of the text from i on. */
  function TokensFrom(o: Options, d: Decoder, value: string, i: nat, s: Scanner): seq<Token>
    requires IsScanner(s)
    decreases |value| - i
  {
    if i >= |value| then Last(s)
    else if MayDecode(o, value, i, s) && d.length(value[i..]) > 0 then
      var n := d.length(value[i..]);
      Ended(s.open) + [Word(d.decode(value[i..Clamp(value, i + n)]))] + TokensFrom(o, d, value, i + n, s.(open := None))
    else
      var (t, tokens) := Step(o, d, s, value[i]);
      tokens + TokensFrom(o, d, value, i + 1, t)
  }

  function Tokens(o: Options, d: Decoder, value: string): seq<Token> {
    TokensFrom(o, d, value, 0, NEW_SCANNER)
  }

  /** The text between the start of the open token and i. */
  function OpenText(value: string, tokenStart: Option<nat>, i: nat): Option<string> {
    if tokenStart.Some? && tokenStart.value <= i <= |value| then Some(value[tokenStart.value..i]) else None
  }

  lemma OneStep(o: Options, d: Decoder, value: string, i: nat, s: Scanner)
    requires IsScanner(s) && i < |value| && !(MayDecode(o, value, i, s) && d.length(value[i..]) > 0)
    ensures var (t, tokens) := Step(o, d, s, value[i]);
            TokensFrom(o, d, value, i, s) == tokens + TokensFrom(o, d, value, i + 1, t)
  {
  }

  lemma SkipEscape(o: Options, d: Decoder, value: string, i: nat, s: Scanner)
    requires IsScanner(s) && !s.escaped && i < |value| && value[i] == '\\'
    ensures var more := value[i..Clamp(value, i + 2)];
            var t := s.(open := if s.open.Some? then Some(s.open.value + more) else None);
            IsScanner(t) && TokensFrom(o, d, value, i, s) == TokensFrom(o, d, value, i + 2, t)
  {
    hide Unescape, StepPlain, StepQuoted;
    var u := s.(open := Longer(s.open, '\\'), escaped := true);
    OneStep(o, d, value, i, s);
    assert [] + TokensFrom(o, d, value, i + 1, u) == TokensFrom(o, d, value, i + 1, u);
    if i + 1 < |value| {
      var t := s.(open := Longer(u.open, value[i + 1]));
      OneStep(o, d, value, i + 1, u);
      assert [] + TokensFrom(o, d, value, i + 2, t) == TokensFrom(o, d, value, i + 2, t);
      assert value[i..i + 2] == [value[i]] + [value[i + 1]];
      assert s.open.Some? ==> t.open.value == s.open.value + value[i..i + 2];
    } else {
      assert value[i..i + 1] == "\\";
    }
  }

  function Min(a: nat, b: nat): nat {
    if a <= b then a else b
  }

  lemma DecodeStep(o: Options, d: Decoder, value: string, i: nat, s: Scanner)
    requires IsScanner(s) && i < |value| && MayDecode(o, value, i, s) && d.length(value[i..]) > 0
    ensures var n := d.length(value[i..]);
            var tokens := Ended(s.open) + [Word(d.decode(value[i..Clamp(value, i + n)]))];
            forall before: seq<Token> ::
              before + TokensFrom(o, d, value, i, s)
              == (before + tokens) + TokensFrom(o, d, value, Min(i + n, |value| + 1), s.(open := None))
  {
    hide Unescape;
    var n := d.length(value[i..]);
    var tokens := Ended(s.open) + [Word(d.decode(value[i..Clamp(value, i + n)]))];
    var rest := TokensFrom(o, d, value, i + n, s.(open := None));
    assert i + n > |value| ==> rest == TokensFrom(o, d, value, |value| + 1, s.(open := None));
    forall before: seq<Token>
      ensures before + TokensFrom(o, d, value, i, s) == (before + tokens) + rest
    {
      Grouped(before, tokens, rest);
    }
  }

  lemma Grouped(a: seq<Token>, b: seq<Token>, c: seq<Token>)
    ensures (a + b) + c == a + (b + c)
  {
  }

  lemma Slices(value: string, i: nat, j: nat, k: nat)
    requires i <= j <= k <= |value|
    ensures value[i..k] == value[i..j] + value[j..k]
  {
  }

  /** Where the loop stands, as a state of the machine. */
  function Standing(value: string, i: nat, tokenStart: Option<nat>, endQuote: Option<char>, depth: nat): Scanner {
    Scanner(OpenText(value, tokenStart, Clamp(value, i)), endQuote, depth, false)
  }

  /** Ends a quotation at the character that closes it. */
  method QuotedCharacter(value: string, o: Options, d: Decoder, i: nat, list: seq<Token>, start: nat, quote: char,
                         ghost depth: nat)
    returns (tokenList: seq<Token>, tokenStart: Option<nat>, endQuote: Option<char>)
    requires start < i < |value|
    ensures var (t, found) := StepQuoted(o, d, Standing(value, i, Some(start), Some(quote), depth), value[i]);
            && tokenList == list + found
            && Standing(value, i + 1, tokenStart, endQuote, depth) == t
    ensures tokenStart.Some? ==> tokenStart.value < i + 1
    ensures endQuote.Some? ==> tokenStart.Some?
  {
    hide Unescape, QuotedText;
    var ch := value[i];
    tokenList, tokenStart, endQuote := list, Some(start), Some(quote);
    assert value[start..i + 1] == value[start..i] + [ch];
    assert value[start..i][1..] == value[start + 1..i];
    if ch == quote && ch == '"' {
      tokenList := tokenList + [QuotedText(o, d, value[start + 1..i])];
      endQuote, tokenStart := None, None;
    } else if ch == quote && ch == ']' {
      tokenList := tokenList + [Word(Unescape(value[start..i + 1]))];
      endQuote, tokenStart := None, None;
    }
  }

  /** Ends, starts and adds tokens at an ordinary character. */
  method OrdinaryCharacter(value: string, o: Options, i: nat, list: seq<Token>, start: Option<nat>, depth: nat)
    returns (tokenList: seq<Token>, tokenStart: Option<nat>, endQuote: Option<char>, commentDepth: nat)
    requires i < |value| && (start.Some? ==> start.value < i)
    ensures var (t, found) := StepPlain(o, Standing(value, i, start, None, depth), value[i]);
            && tokenList == list + found
            && Standing(value, i + 1, tokenStart, endQuote, commentDepth) == t
    ensures tokenStart.Some? ==> tokenStart.value < i + 1
    ensures endQuote.Some? ==> tokenStart.Some?
  {
    hide Classify, Unescape;
    var ch := value[i];
    tokenList, tokenStart := list, start;
    var f := Classify(o, depth, ch);
    assert value[i..i + 1] == [ch];
    assert start.Some? ==> value[start.value..i + 1] == value[start.value..i] + [ch];
    endQuote, commentDepth := f.endQuote, f.depth;
    if f.ends && tokenStart.Some? {
      tokenList := tokenList + [Word(Unescape(value[tokenStart.value..i]))];
      tokenStart := None;
    }
    if f.special {
      tokenList := tokenList + [Delimiter(ch)];
    }
    if f.starts && tokenStart.None? {
      tokenStart := Some(i);
    }
  }

  /** The tokens of a header value. */
  method GetHeaderTokens(value: string, o: Options, d: Decoder) returns (tokenList: seq<Token>)
    ensures tokenList == Tokens(o, d, value)
  {
    hide TokensFrom, Unescape, DecodeWords, StepPlain, StepQuoted, HasMark;
    tokenList := [];
    var tokenStart: Option<nat> := None;
    var endQuote: Option<char> := None;
    var commentDepth := 0;
    var i := 0;
    while i < |value|
      invariant 0 <= i <= |value| + 1
      invariant tokenStart.Some? ==> tokenStart.value < i && tokenStart.value < |value|
      invariant endQuote.Some? ==> tokenStart.Some?
      invariant tokenList + TokensFrom(o, d, value, i, Standing(value, i, tokenStart, endQuote, commentDepth))
          == Tokens(o, d, value)
    {
      ghost var s := Standing(value, i, tokenStart, endQuote, commentDepth);
      ghost var before := tokenList;
      var ch := value[i];
      if ch == '\\' {
        SkipEscape(o, d, value, i, s);
        if tokenStart.Some? {
          Slices(value, tokenStart.value, i, Clamp(value, i + 2));
        }
        i := if i + 2 <= |value| then i + 2 else |value| + 1;
        continue;
      }
      ghost var (t, found) := Step(o, d, s, ch);
      if endQuote.Some? {
        OneStep(o, d, value, i, s);
        tokenList, tokenStart, endQuote :=
          QuotedCharacter(value, o, d, i, tokenList, tokenStart.value, endQuote.value, commentDepth);
        i := i + 1;
        Grouped(before, found, TokensFrom(o, d, value, i, t));
        continue;
      }
      if o.rfc2047 && ch == '=' && i + 1 < |value| && value[i + 1] == '?' {
        var n := d.length(value[i..]);
        if n > 0 {
          DecodeStep(o, d, value, i, s);
          var ended := if tokenStart.Some? then [Word(Unescape(value[tokenStart.value..i]))] else [];
          tokenList := tokenList + (ended + [Word(d.decode(value[i..Clamp(value, i + n)]))]);
          tokenStart := None;
          i := Min(i + n, |value| + 1);
          continue;
        }
      }
      OneStep(o, d, value, i, s);
      tokenList, tokenStart, endQuote, commentDepth :=
        OrdinaryCharacter(value, o, i, tokenList, tokenStart, commentDepth);
      i := i + 1;
      Grouped(before, found, TokensFrom(o, d, value, i, t));
    }
    ghost var s := Standing(value, i, tokenStart, endQuote, commentDepth);
    AtEnd(o, d, value, i, s);
    assert Tokens(o, d, value) == tokenList + Last(s);
    assert tokenStart.Some? ==> value[tokenStart.value..|value|] == value[tokenStart.value..];
    assert tokenList + [] == tokenList;
    if tokenStart.Some? {
      if endQuote == Some('"') {
        tokenList := tokenList + [Word(Unescape(value[tokenStart.value + 1..]))];
        assert value[tokenStart.value..][1..] == value[tokenStart.value + 1..];
      } else {
        tokenList := tokenList + [Word(Unescape(value[tokenStart.value..]))];
      }
    }
  }

  lemma AtEnd(o: Options, d: Decoder, value: string, i: nat, s: Scanner)
    requires IsScanner(s) && i >= |value|
    ensures TokensFrom(o, d, value, i, s) == Last(s)
  {
  }
}
