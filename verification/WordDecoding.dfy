/** The encoded-words of a whole header value: packages/crypto/src/jsmimeparser/headerParser.js splits the value into
    words and other text, and decodes words in a row with one decoder. */
module WordDecoding {
  import opened Bytes
  import opened EncodedWords
  import opened HeaderTokens
  import opened Results

  // UTF-8

  /** What the octets start with: a character, octets that are no character, or the beginning of one. */
  datatype Start = Whole(c: char, length: nat) | Malformed(length: nat) | Incomplete

  predicate Between(b: byte, low: int, high: int) {
    low <= b <= high
  }

  function TwoOctets(b: seq<byte>): Start
    requires b != [] && 0xC2 <= b[0] <= 0xDF
  {
    if |b| < 2 then Incomplete
    else if !Between(b[1], 0x80, 0xBF) then Malformed(1)
    else Whole((64 * (b[0] as int - 0xC0) + (b[1] as int - 0x80)) as char, 2)
  }

  function ThreeOctets(b: seq<byte>): Start
    requires b != [] && 0xE0 <= b[0] <= 0xEF
  {
    if |b| < 2 then Incomplete
    else if !Between(b[1], if b[0] == 0xE0 then 0xA0 else 0x80, if b[0] == 0xED then 0x9F else 0xBF) then Malformed(1)
    else if |b| < 3 then Incomplete
    else if !Between(b[2], 0x80, 0xBF) then Malformed(2)
    else Whole((4096 * (b[0] as int - 0xE0) + 64 * (b[1] as int - 0x80) + (b[2] as int - 0x80)) as char, 3)
  }

  function FourOctets(b: seq<byte>): Start
    requires b != [] && 0xF0 <= b[0] <= 0xF4
  {
    if |b| < 2 then Incomplete
    else if !Between(b[1], if b[0] == 0xF0 then 0x90 else 0x80, if b[0] == 0xF4 then 0x8F else 0xBF) then Malformed(1)
    else if |b| < 3 then Incomplete
    else if !Between(b[2], 0x80, 0xBF) then Malformed(2)
    else if |b| < 4 then Incomplete
    else if !Between(b[3], 0x80, 0xBF) then Malformed(3)
    else
      var high := 262144 * (b[0] as int - 0xF0) + 4096 * (b[1] as int - 0x80);
      Whole((high + 64 * (b[2] as int - 0x80) + (b[3] as int - 0x80)) as char, 4)
  }

  function StartOf(b: seq<byte>): (s: Start)
    requires b != []
    ensures !s.Incomplete? ==> 1 <= s.length <= |b|
  {
    if b[0] < 0x80 then Whole(b[0] as char, 1)
    else if 0xC2 <= b[0] <= 0xDF then TwoOctets(b)
    else if 0xE0 <= b[0] <= 0xEF then ThreeOctets(b)
    else if 0xF0 <= b[0] <= 0xF4 then FourOctets(b)
    else Malformed(1)
  }

  /** The text of the octets, and those kept for later if more may come. */
  function DecodeUtf8(b: seq<byte>, stream: bool): (string, seq<byte>)
    decreases |b|
  {
    if b == [] then ("", [])
    else
      match StartOf(b)
      case Whole(c, n) =>
        var (t, rest) := DecodeUtf8(b[n..], stream);
        ([c] + t, rest)
      case Malformed(n) =>
        var (t, rest) := DecodeUtf8(b[n..], stream);
        ("\U{FFFD}" + t, rest)
      case Incomplete => if stream then ("", b) else ("\U{FFFD}", [])
  }

  lemma StartOfChar(c: char, r: seq<byte>)
    ensures StartOf(Utf8Char(c) + r) == Whole(c, |Utf8Char(c)|)
  {
    var n := c as int;
    if n >= 0x10000 {
      FourOctetChar(c, r);
    } else if n >= 0x800 {
      ThreeOctetChar(c, r);
    } else if n >= 0x80 {
      hide ThreeOctets, FourOctets;
      assert 64 * (n / 64) + n % 64 == n;
    }
  }

  lemma ThreeOctetChar(c: char, r: seq<byte>)
    requires 0x800 <= c as int < 0x10000
    ensures StartOf(Utf8Char(c) + r) == Whole(c, |Utf8Char(c)|)
  {
    hide TwoOctets, FourOctets;
    var n := c as int;
    var high, middle, low := n / 4096, n / 64 % 64, n % 64;
    assert 4096 * high + 64 * middle + low == n;
    assert (high == 13 ==> middle < 32) && (high == 0 ==> middle >= 32) && high < 16;
    var b := Utf8Char(c) + r;
    assert b[0] == 0xE0 + high && b[1] == 0x80 + middle && b[2] == 0x80 + low;
  }

  lemma FourOctetChar(c: char, r: seq<byte>)
    requires 0x10000 <= c as int
    ensures StartOf(Utf8Char(c) + r) == Whole(c, |Utf8Char(c)|)
  {
    hide TwoOctets, ThreeOctets;
    var n := c as int;
    FourDigits(n);
    var top, high, middle, low := n / 262144, n / 4096 % 64, n / 64 % 64, n % 64;
    assert Utf8Char(c) == [0xF0 + top, 0x80 + high, 0x80 + middle, 0x80 + low];
    hide Utf8Char;
    OctetsDenote(top, high, middle, low, r);
    assert (262144 * top + 4096 * high + 64 * middle + low) as char == c;
  }

  lemma FourDigits(n: int)
    requires 0x10000 <= n < 0x110000
    ensures 262144 * (n / 262144) + 4096 * (n / 4096 % 64) + 64 * (n / 64 % 64) + n % 64 == n
    ensures 0 <= n / 262144 <= 4 && (n / 262144 == 0 ==> n / 4096 % 64 >= 16)
    ensures (n / 262144 == 4 ==> n / 4096 % 64 < 16)
  {
  }

  lemma OctetsDenote(top: nat, high: nat, middle: nat, low: nat, r: seq<byte>)
    requires top <= 4 && high < 64 && middle < 64 && low < 64 && (top == 0 ==> high >= 16) && (top == 4 ==> high < 16)
    ensures StartOf([0xF0 + top, 0x80 + high, 0x80 + middle, 0x80 + low] + r)
         == Whole((262144 * top + 4096 * high + 64 * middle + low) as char, 4)
  {
    hide TwoOctets, ThreeOctets;
    var b: seq<byte> := [0xF0 + top, 0x80 + high, 0x80 + middle, 0x80 + low] + r;
    assert b[0] == 0xF0 + top && b[1] == 0x80 + high && b[2] == 0x80 + middle && b[3] == 0x80 + low;
  }

  /** Whole characters are decoded at once. */
  lemma {:induction false} DecodeText(text: string, stream: bool)
    ensures DecodeUtf8(Utf8(text), stream) == (text, [])
  {
    if text != "" {
      var a, r := Utf8Char(text[0]), Utf8(text[1..]);
      StartOfChar(text[0], r);
      hide StartOf, Utf8Char;
      assert (a + r)[|a|..] == r;
      DecodeText(text[1..], stream);
      assert [text[0]] + text[1..] == text;
    }
  }

  // Decoders

  /** The charsets other than UTF-8: which are known, and the text of some octets with those kept for later. */
  datatype Charsets = Charsets(known: string -> bool, decode: (string, seq<byte>, bool) -> (string, seq<byte>))

  const UTF8 := "UTF-8"

  /** A decoder: the octets kept for later, and whether it has given out text since it was last reset. */
  datatype TextDecoder = TextDecoder(charset: string, pending: seq<byte>, started: bool)

  /** The text without the byte order mark, which a decoder drops at the beginning. */
  function DropMark(text: string): string {
    if text != "" && text[0] == '\U{FEFF}' then text[1..] else text
  }

  /** What the decoder makes of more octets; without streaming it ends there and is as good as new. */
  function Decode(x: Charsets, d: TextDecoder, octets: seq<byte>, stream: bool): (string, TextDecoder) {
    if d.charset == UTF8 then
      var (t, rest) := DecodeUtf8(d.pending + octets, stream);
      (if d.started then t else DropMark(t), TextDecoder(d.charset, rest, stream && (d.started || t != "")))
    else
      var (t, rest) := x.decode(d.charset, d.pending + octets, stream);
      (t, TextDecoder(d.charset, if stream then rest else [], false))
  }

  function Upper(s: string): (t: string)
    ensures |t| == |s|
  {
    if s == "" then "" else [if 'a' <= s[0] <= 'z' then (s[0] as int - 32) as char else s[0]] + Upper(s[1..])
  }

  /** A text that goes back to ASCII at its end is decoded for itself. */
  predicate Resets(charset: string, octets: seq<byte>) {
    Upper(charset) == "ISO-2022-JP" && |octets| >= 3 && octets[|octets| - 3..] == [0x1B, 0x28, 0x42]
  }

  // Components

  function Find(s: string, c: char, i: nat): (j: nat)
    requires i <= |s|
    ensures i <= j <= |s|
    ensures j < |s| ==> s[j] == c
    ensures forall k :: i <= k < j ==> s[k] != c
    decreases |s| - i
  {
    if i == |s| || s[i] == c then i else Find(s, c, i + 1)
  }

  /** Where the encoded-word that starts at i ends. */
  function WordEnd(s: string, i: nat): (e: Option<nat>)
    requires i <= |s|
    ensures e.Some? ==> i < e.value <= |s|
  {
    if !(i + 2 <= |s| && s[i] == '=' && s[i + 1] == '?') then None
    else
      var q := Find(s, '?', i + 2);
      if !(q + 3 <= |s| && s[q + 1] in "BQbq" && s[q + 2] == '?') then None
      else
        var p := Find(s, '?', q + 3);
        if p + 2 <= |s| && s[p + 1] == '=' then Some(p + 2) else None
  }

  /** The text from the given place on, split at the words: other text, a word, other text, and so on. */
  function ComponentsFrom(s: string, from: nat, i: nat): (parts: seq<string>)
    requires from <= i <= |s|
    ensures parts != []
    decreases |s| - i
  {
    match WordEnd(s, i)
    case Some(e) => [s[from..i], s[i..e]] + ComponentsFrom(s, e, e)
    case None => if i == |s| then [s[from..]] else ComponentsFrom(s, from, i + 1)
  }

  function Components(s: string): seq<string> {
    ComponentsFrom(s, 0, 0)
  }

  predicate IsToken(component: string) {
    "=?" <= component
  }

  /** The last component that starts like a word, if any. */
  function LastToken(components: seq<string>): (k: int)
    ensures -1 <= k < |components|
  {
    if components == [] then -1
    else if IsToken(components[|components| - 1]) then |components| - 1
    else LastToken(components[..|components| - 1])
  }

  // The loop

  /** The charset of the word before and its decoder, if there was a word just before. */
  datatype Scan = Scan(charset: string, decoder: Option<TextDecoder>)

  const NEW_SCAN := Scan("", None)

  /** A component becomes some text, unless the decoder throws. */
  datatype Reply = Thrown | Rejected(scan: Scan) | Accepted(text: string, scan: Scan)

  function FinalText(x: Charsets, d: Option<TextDecoder>): string {
    match d
    case None => ""
    case Some(decoder) => Decode(x, decoder, [], false).0
  }

  /** One word; the decoder at hand is ended if it is for another charset. */
  function DecodeToken(x: Charsets, st: Scan, token: string, isLast: bool): Reply {
    match ReadWord(token)
    case NotAWord => Rejected(st)
    case Throws => Thrown
    case Octets(charset, octets) =>
      var same := charset == st.charset || st.decoder.None?;
      var before := if same then "" else FinalText(x, st.decoder);
      var decoder := if same then st.decoder else None;
      if decoder.None? && charset != UTF8 && !x.known(charset) then Rejected(Scan(charset, None))
      else
        var d := if decoder.Some? then decoder.value else TextDecoder(charset, [], false);
        var (t, after) := Decode(x, d, octets, !(isLast || Resets(charset, octets)));
        Accepted(before + t, Scan(charset, Some(after)))
  }

  /** Other text ends the decoder at hand; blanks between words are dropped. */
  function DecodeComponent(x: Charsets, st: Scan, component: string, isLast: bool): Reply {
    var reply := if IsToken(component) then DecodeToken(x, st, component, isLast) else Rejected(st);
    match reply
    case Rejected(st1) =>
      if !IsToken(component) && AllBlank(component) then Accepted("", st1)
      else Accepted(FinalText(x, st1.decoder) + component, NEW_SCAN)
    case _ => reply
  }

  function DecodeFrom(x: Charsets, components: seq<string>, k: nat, last: int, st: Scan): Option<string>
    requires k <= |components|
    decreases |components| - k
  {
    if k == |components| then Some("")
    else
      match DecodeComponent(x, st, components[k], k == last)
      case Accepted(text, st1) =>
        (match DecodeFrom(x, components, k + 1, last, st1)
         case None => None
         case Some(rest) => Some(text + rest))
      case _ => None
  }

  /** The decoded header value; none if decoding throws. */
  function Decoded(x: Charsets, value: string): Option<string> {
    var components := Components(value);
    DecodeFrom(x, components, 0, LastToken(components), NEW_SCAN)
  }

  method FindLastToken(components: seq<string>) returns (last: int)
    ensures last == LastToken(components)
  {
    last := -1;
    for i := 0 to |components|
      invariant last == LastToken(components[..i])
    {
      assert components[..i + 1][..i] == components[..i];
      if IsToken(components[i]) {
        last := i;
      }
    }
    assert components[..|components|] == components;
  }

  /** Text put before what is still to come, unless that throws. */
  function Before(text: string, later: Option<string>): Option<string> {
    match later
    case None => None
    case Some(rest) => Some(text + rest)
  }

  method DecodeRFC2047Words(x: Charsets, headerValue: string) returns (text: Option<string>)
    ensures text == Decoded(x, headerValue)
  {
    hide DecodeComponent, Components, LastToken;
    var components := Components(headerValue);
    var last := FindLastToken(components);
    var st, joined := NEW_SCAN, "";
    ghost var all := DecodeFrom(x, components, 0, last, st);
    assert all.Some? ==> joined + all.value == all.value;
    for i := 0 to |components|
      invariant Before(joined, DecodeFrom(x, components, i, last, st)) == all
    {
      var reply := DecodeComponent(x, st, components[i], i == last);
      if !reply.Accepted? {
        return None;
      }
      ghost var later := DecodeFrom(x, components, i + 1, last, reply.scan);
      assert later.Some? ==> joined + (reply.text + later.value) == (joined + reply.text) + later.value;
      joined := joined + reply.text;
      st := reply.scan;
    }
    assert joined + "" == joined;
    text := Some(joined);
  }

  /** What the tokenizer takes for granted of decoding: without a mark there is one component, dropped if it is all
      blank, else left alone. */
  lemma WithoutMark(x: Charsets, d: Decoder, value: string)
    requires !HasMark(value)
    ensures Decoded(x, value) == Some(DecodeWords(d, value))
  {
    OneComponent(value, 0);
    assert value[0..] == value;
    if IsToken(value) {
      TokenHasMark(value);
    }
    var reply := DecodeComponent(x, NEW_SCAN, value, false);
    assert reply.Accepted? && reply.text == if AllBlank(value) then "" else "" + value;
    assert [value][..0] == [] && LastToken([value]) == -1;
    hide DecodeComponent;
    assert DecodeFrom(x, [value], 1, -1, reply.scan) == Some("");
    assert reply.text + "" == (if AllBlank(value) then "" else value);
  }

  lemma TokenHasMark(s: string)
    requires IsToken(s)
    ensures HasMark(s)
  {
    assert s[0] == '=' && s[1] == '?';
  }

  lemma {:induction false} OneComponent(value: string, i: nat)
    requires !HasMark(value) && i <= |value|
    ensures ComponentsFrom(value, 0, i) == [value[0..]]
    decreases |value| - i
  {
    if i < |value| {
      OneComponent(value, i + 1);
    }
  }
}
