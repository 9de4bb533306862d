/** RFC 2047 encoded-words: how packages/crypto/src/jsmimeparser/headerEmitter.js cuts text into them, and how
    headerParser.js reads one. */
module EncodedWords {
  import opened Results
  import opened Bytes
  import opened ContentDecoders

  // UTF-8

  function Utf8Char(c: char): (b: seq<byte>)
    ensures 1 <= |b| <= 4
  {
    var n := c as int;
    if n < 0x80 then [n]
    else if n < 0x800 then [0xC0 + n / 64, 0x80 + n % 64]
    else if n < 0x10000 then [0xE0 + n / 4096, 0x80 + n / 64 % 64, 0x80 + n % 64]
    else [0xF0 + n / 262144, 0x80 + n / 4096 % 64, 0x80 + n / 64 % 64, 0x80 + n % 64]
  }

  function Utf8(text: string): seq<byte> {
    if text == "" then [] else Utf8Char(text[0]) + Utf8(text[1..])
  }

  /** An octet in the middle of a character. */
  predicate IsContinuation(b: byte) {
    0x80 <= b < 0xC0
  }

  /** A character starts at most three octets before position i. */
  predicate HasLead(b: seq<byte>, i: nat)
    requires i < |b|
  {
    || !IsContinuation(b[i])
    || (i >= 1 && !IsContinuation(b[i - 1]))
    || (i >= 2 && !IsContinuation(b[i - 2]))
    || (i >= 3 && !IsContinuation(b[i - 3]))
  }

  predicate IsShaped(b: seq<byte>) {
    forall i :: 0 <= i < |b| ==> HasLead(b, i)
  }

  lemma CharShape(c: char)
    ensures var b := Utf8Char(c);
            !IsContinuation(b[0]) && forall i :: 1 <= i < |b| ==> IsContinuation(b[i])
  {
  }

  lemma {:induction false} Utf8IsShaped(text: string)
    ensures IsShaped(Utf8(text))
  {
    if text != "" {
      Utf8IsShaped(text[1..]);
      CharShape(text[0]);
      var a, r := Utf8Char(text[0]), Utf8(text[1..]);
      var b := Utf8(text);
      forall i | 0 <= i < |b|
        ensures HasLead(b, i)
      {
        if i < |a| {
          assert b[0] == a[0];
        } else {
          assert HasLead(r, i - |a|);
        }
      }
    }
  }

  /** Octets between characters split the text. */
  lemma {:induction false} SplitUtf8(text: string, k: nat) returns (m: nat)
    requires k <= |Utf8(text)| && (k < |Utf8(text)| ==> !IsContinuation(Utf8(text)[k]))
    ensures m <= |text| && Utf8(text)[..k] == Utf8(text[..m]) && Utf8(text)[k..] == Utf8(text[m..])
  {
    if k == 0 {
      m := 0;
      assert text[0..] == text;
    } else {
      hide Utf8Char, Utf8, IsContinuation;
      FirstChar(text, k);
      var n := SplitUtf8(text[1..], k - |Utf8Char(text[0])|);
      m := n + 1;
      CutAfter(Utf8Char(text[0]), Utf8(text[1..]), k);
      FirstAndRest(text, n);
    }
  }

  lemma FirstChar(text: string, k: nat)
    requires 0 < k <= |Utf8(text)| && (k < |Utf8(text)| ==> !IsContinuation(Utf8(text)[k]))
    ensures text != "" && |Utf8Char(text[0])| <= k
    ensures Utf8(text) == Utf8Char(text[0]) + Utf8(text[1..])
    ensures k < |Utf8(text)| ==> Utf8(text)[k] == Utf8(text[1..])[k - |Utf8Char(text[0])|]
  {
    var a := Utf8Char(text[0]);
    CharShape(text[0]);
    hide Utf8Char, IsContinuation;
    assert forall i :: 1 <= i < |a| ==> Utf8(text)[i] == a[i];
  }

  lemma FirstAndRest(text: string, n: nat)
    requires text != "" && n < |text|
    ensures Utf8(text[..n + 1]) == Utf8Char(text[0]) + Utf8(text[1..][..n]) && text[n + 1..] == text[1..][n..]
  {
    assert text[..n + 1][1..] == text[1..][..n];
  }

  lemma CutAfter(a: seq<byte>, r: seq<byte>, k: nat)
    requires |a| <= k <= |a| + |r|
    ensures (a + r)[..k] == a + r[..k - |a|] && (a + r)[k..] == r[k - |a|..]
    ensures k < |a| + |r| ==> (a + r)[k] == r[k - |a|]
  {
  }

  // Q encoding

  const QP_FORBIDDEN := "\"#$%&'(),.:;<=>?@[\\]^_`{|}~"
  predicate NeedsEscape(b: byte) {
    b < 0x20 || b >= 0x7F || (b as char) in QP_FORBIDDEN
  }

  function QpOctet(b: byte): string {
    if NeedsEscape(b) then ['=', HEX_UPPER[b / 16], HEX_UPPER[b % 16]]
    else if b == 0x20 then "_"
    else [b as char]
  }

  function QpPayload(b: seq<byte>): string {
    if b == [] then "" else QpOctet(b[0]) + QpPayload(b[1..])
  }

  /** The length of a soft line break at the start of the text: blanks, then a line end or the end of all. */
  function SoftBreak(s: string): (n: Option<nat>)
    ensures n.Some? ==> n.value <= |s|
  {
    if s == "" then Some(0)
    else if s[0] == ' ' || s[0] == '\t' then
      match SoftBreak(s[1..])
      case None => None
      case Some(n) => Some(n + 1)
    else if |s| >= 2 && s[0] == '\r' && s[1] == '\n' then Some(2)
    else if s[0] == '\r' || s[0] == '\n' then Some(1)
    else None
  }

  /** Quoted-printable decoding: =XX is an octet, = and a soft line break is nothing, all else is kept. */
  function DecodeQp(s: string): string {
    if s == "" then ""
    else if s[0] != '=' then [s[0]] + DecodeQp(s[1..])
    else if |s| >= 3 && IsHex(s[1]) && IsHex(s[2]) then
      [(16 * HexValue(s[1]) + HexValue(s[2])) as char] + DecodeQp(s[3..])
    else
      match SoftBreak(s[1..])
      case None => ['='] + DecodeQp(s[1..])
      case Some(n) => DecodeQp(s[1 + n..])
  }

  function UnderscoresToSpaces(s: string): string {
    if s == "" then "" else [if s[0] == '_' then ' ' else s[0]] + UnderscoresToSpaces(s[1..])
  }

  /** A binary string as octets. */
  function BinaryOctets(s: string): seq<byte> {
    if s == "" then [] else [s[0] as int % 256] + BinaryOctets(s[1..])
  }

  lemma QpOctetDecodes(b: byte, rest: string)
    ensures '?' !in QpOctet(b)
    ensures DecodeQp(UnderscoresToSpaces(QpOctet(b) + rest)) == [b as char] + DecodeQp(UnderscoresToSpaces(rest))
  {
    if NeedsEscape(b) {
      EscapeDecodes(b, rest);
    } else {
      assert (QpOctet(b) + rest)[1..] == rest;
      assert UnderscoresToSpaces(QpOctet(b) + rest) == [b as char] + UnderscoresToSpaces(rest);
      assert ([b as char] + UnderscoresToSpaces(rest))[1..] == UnderscoresToSpaces(rest);
    }
  }

  lemma EscapeDecodes(b: byte, rest: string)
    requires NeedsEscape(b)
    ensures '?' !in QpOctet(b)
    ensures DecodeQp(UnderscoresToSpaces(QpOctet(b) + rest)) == [b as char] + DecodeQp(UnderscoresToSpaces(rest))
  {
    hide HexValue, IsHex, SoftBreak, UnderscoresToSpaces;
    HexDigit(b / 16);
    HexDigit(b % 16);
    KeptByUnderscores(QpOctet(b), rest);
    var u := QpOctet(b) + UnderscoresToSpaces(rest);
    assert u[0] == '=' && u[1] == HEX_UPPER[b / 16] && u[2] == HEX_UPPER[b % 16] && u[3..] == UnderscoresToSpaces(rest);
    assert 16 * HexValue(u[1]) + HexValue(u[2]) == b;
  }

  lemma {:induction false} KeptByUnderscores(x: string, rest: string)
    requires '_' !in x
    ensures UnderscoresToSpaces(x + rest) == x + UnderscoresToSpaces(rest)
  {
    if x == "" {
      assert x + rest == rest;
    } else {
      assert (x + rest)[1..] == x[1..] + rest;
      KeptByUnderscores(x[1..], rest);
      assert [x[0]] + (x[1..] + UnderscoresToSpaces(rest)) == x + UnderscoresToSpaces(rest);
    }
  }

  lemma {:induction false} QpDecodes(b: seq<byte>)
    ensures '?' !in QpPayload(b)
    ensures BinaryOctets(DecodeQp(UnderscoresToSpaces(QpPayload(b)))) == b
  {
    hide QpOctet;
    if b == [] {
      assert UnderscoresToSpaces("") == "";
    } else {
      QpDecodes(b[1..]);
      QpOctetDecodes(b[0], QpPayload(b[1..]));
      var d := DecodeQp(UnderscoresToSpaces(QpPayload(b[1..])));
      assert ([b[0] as char] + d)[1..] == d;
    }
  }

  // Reading a word

  function SplitOn(s: string, c: char): (parts: seq<string>)
    ensures |parts| >= 1
  {
    if s == "" then [""]
    else if s[0] == c then [""] + SplitOn(s[1..], c)
    else
      var parts := SplitOn(s[1..], c);
      [[s[0]] + parts[0]] + parts[1..]
  }

  /** A token is not a word, makes the decoder throw, or gives octets in a charset. */
  datatype Reading = NotAWord | Throws | Octets(charset: string, octets: seq<byte>)

  predicate IsBase64Text(s: string) {
    forall i :: 0 <= i < |s| ==> IsDigit(s[i]) || s[i] == '=' || s[i] == ' '
  }

  function ReadWord(token: string): Reading {
    var parts := SplitOn(token, '?');
    if |parts| != 5 || parts[4] != "=" then NotAWord
    else
      var charset := SplitOn(parts[1], '*')[0];
      if parts[2] == "B" || parts[2] == "b" then
        if !IsBase64Text(parts[3]) then NotAWord
        else
          match DecodeBase64(parts[3], false).0
          case None => Throws
          case Some(octets) => Octets(charset, octets)
      else if parts[2] == "Q" || parts[2] == "q" then
        Octets(charset, BinaryOctets(DecodeQp(UnderscoresToSpaces(parts[3]))))
      else NotAWord
  }

  // Writing text as words

  datatype Chunk = Chunk(octets: seq<byte>, useQP: bool)

  const B64_PRELUDE := "=?UTF-8?B?"
  const QP_PRELUDE := "=?UTF-8?Q?"

  function WordText(chunk: Chunk): string {
    if chunk.useQP then QP_PRELUDE + QpPayload(chunk.octets) + "?="
    else B64_PRELUDE + Btoa(chunk.octets) + "?="
  }

  lemma {:induction false} SplitPart(a: string, r: string)
    requires '?' !in a
    ensures SplitOn(a + "?" + r, '?') == [a] + SplitOn(r, '?')
  {
    var s := a + "?" + r;
    if a == "" {
      assert s[1..] == r;
    } else {
      assert s[1..] == a[1..] + "?" + r;
      SplitPart(a[1..], r);
      assert [a[0]] + a[1..] == a;
    }
  }

  lemma {:induction false} SplitLast(a: string)
    requires '?' !in a
    ensures SplitOn(a, '?') == [a]
  {
    if a != "" {
      SplitLast(a[1..]);
      assert [a[0]] + a[1..] == a;
    }
  }

  lemma WordParts(encoding: string, payload: string)
    requires encoding in ["B", "Q"] && '?' !in payload
    ensures SplitOn("=?UTF-8?" + encoding + "?" + payload + "?=", '?') == ["=", "UTF-8", encoding, payload, "="]
  {
    hide SplitOn;
    assert "=?UTF-8?" + encoding + "?" + payload + "?="
        == "=" + "?" + ("UTF-8" + "?" + (encoding + "?" + (payload + "?" + "=")));
    SplitPart("=", "UTF-8" + "?" + (encoding + "?" + (payload + "?" + "=")));
    SplitPart("UTF-8", encoding + "?" + (payload + "?" + "="));
    SplitPart(encoding, payload + "?" + "=");
    SplitPart(payload, "=");
    SplitLast("=");
  }

  /** A word reads back as the octets it was written for, in either encoding. */
  lemma ReadWritten(chunk: Chunk)
    ensures ReadWord(WordText(chunk)) == Octets("UTF-8", chunk.octets)
  {
    hide SplitOn, DecodeBase64, QpPayload, Btoa, DecodeQp, UnderscoresToSpaces, BinaryOctets;
    NoLanguage();
    if chunk.useQP {
      QpDecodes(chunk.octets);
      WordParts("Q", QpPayload(chunk.octets));
      assert "=?UTF-8?" + "Q" + "?" + QpPayload(chunk.octets) + "?=" == WordText(chunk);
    } else {
      var payload := Btoa(chunk.octets);
      BtoaDecodes(chunk.octets);
      assert '?' !in payload by {
        forall i | 0 <= i < |payload|
          ensures payload[i] != '?'
        {
          assert IsDigit(payload[i]) || payload[i] == '=';
        }
      }
      WordParts("B", payload);
      assert "=?UTF-8?" + "B" + "?" + payload + "?=" == WordText(chunk);
    }
  }

  lemma NoLanguage()
    ensures SplitOn("UTF-8", '*')[0] == "UTF-8"
  {
    assert "UTF-8"[1..] == "TF-8" && "TF-8"[1..] == "F-8" && "F-8"[1..] == "-8" && "-8"[1..] == "8" && "8"[1..] == "";
  }
}
