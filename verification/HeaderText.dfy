/** The strings that packages/crypto/src/jsmimeparser/headerEmitter.js works on: white space, trimming, and the
    characters that survive folding. Folding a line trims white space on both sides of the break and puts a
    single space at the start of the next line, so what a line says is taken to be its characters other than white
    space, here called its ink: trimming keeps the ink of a text, and the ink of two texts together is that of the
    one and then of the other. All of what the folder keeps is said in these terms. */
module HeaderText {

  /** The white space that trimLeft and trimRight remove. */
  predicate IsSpace(c: char) {
    || c in [' ', '\t', '\n', '\U{0B}', '\U{0C}', '\r', '\U{A0}', '\U{1680}', '\U{2028}', '\U{2029}', '\U{202F}',
             '\U{205F}', '\U{3000}', '\U{FEFF}']
    || '\U{2000}' <= c <= '\U{200A}'
  }

  function TrimRight(s: string): (t: string)
    ensures t <= s
    ensures t != "" ==> !IsSpace(t[|t| - 1])
    ensures forall i :: |t| <= i < |s| ==> IsSpace(s[i])
  {
    if s != "" && IsSpace(s[|s| - 1]) then TrimRight(s[..|s| - 1]) else s
  }

  /** The length of the leading white space. */
  function Indent(s: string): (n: nat)
    ensures n <= |s|
    ensures n < |s| ==> !IsSpace(s[n])
    ensures forall i :: 0 <= i < n ==> IsSpace(s[i])
  {
    if s != "" && IsSpace(s[0]) then
      var n := Indent(s[1..]);
      assert forall i :: 1 <= i <= n ==> s[i] == s[1..][i - 1];
      n + 1
    else 0
  }

  function TrimLeft(s: string): string {
    s[Indent(s)..]
  }

  /** The characters that are not white space, in order. */
  function Ink(s: string): (t: string)
    ensures |t| <= |s|
  {
    if s == "" then "" else (if IsSpace(s[0]) then "" else [s[0]]) + Ink(s[1..])
  }

  lemma {:induction false} InkAppend(a: string, b: string)
    ensures Ink(a + b) == Ink(a) + Ink(b)
  {
    if a == "" {
      assert a + b == b;
    } else {
      assert (a + b)[1..] == a[1..] + b;
      InkAppend(a[1..], b);
    }
  }

  lemma {:induction false} InkOfSpace(s: string)
    requires forall i :: 0 <= i < |s| ==> IsSpace(s[i])
    ensures Ink(s) == ""
  {
    if s != "" {
      InkOfSpace(s[1..]);
    }
  }

  lemma {:induction false} TrimRightKeepsInk(s: string)
    ensures Ink(TrimRight(s)) == Ink(s)
  {
    hide IsSpace;
    var r := TrimRight(s);
    assert s == r + s[|r|..];
    InkAppend(r, s[|r|..]);
    InkOfSpace(s[|r|..]);
  }

  lemma {:induction false} TrimLeftKeepsInk(s: string)
    ensures Ink(TrimLeft(s)) == Ink(s)
  {
    hide IsSpace;
    var k := Indent(s);
    assert s == s[..k] + s[k..];
    InkAppend(s[..k], s[k..]);
    InkOfSpace(s[..k]);
  }

  /** Trimming a prefix leaves no more than trimming the whole. */
  lemma TrimPrefix(s: string, k: nat)
    requires k <= |s|
    ensures |TrimRight(s[..k])| <= |TrimRight(s)|
  {
    hide IsSpace;
    var t := TrimRight(s[..k]);
    assert t != "" ==> s[..k][|t| - 1] == s[|t| - 1] && !IsSpace(s[|t| - 1]);
  }

  /** The characters of RFC 5322 text that folding leaves alone. */
  predicate IsPrintable(s: string) {
    forall i :: 0 <= i < |s| ==> ' ' <= s[i] <= '~'
  }

  /** The position of the last space, if any. */
  function LastSpace(s: string): (p: int)
    ensures -1 <= p < |s|
    ensures p >= 0 ==> s[p] == ' '
    ensures forall i :: p < i < |s| ==> s[i] != ' '
  {
    if s == "" then -1 else if s[|s| - 1] == ' ' then |s| - 1 else LastSpace(s[..|s| - 1])
  }
}
