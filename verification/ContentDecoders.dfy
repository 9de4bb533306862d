/** Base64 and quoted-printable, as packages/crypto/src/jsmimeparser/utils.js decodes them and as btoa encodes
    (section 4 of RFC 4648). */
module ContentDecoders {
  import opened Results
  import opened Bytes

  predicate IsDigit(c: char) {
    'A' <= c <= 'Z' || 'a' <= c <= 'z' || '0' <= c <= '9' || c == '+' || c == '/'
  }

  function DigitValue(c: char): (v: nat)
    requires IsDigit(c)
    ensures v < 64
  {
    if 'A' <= c <= 'Z' then c as int - 'A' as int
    else if 'a' <= c <= 'z' then c as int - 'a' as int + 26
    else if '0' <= c <= '9' then c as int - '0' as int + 52
    else if c == '+' then 62 else 63
  }

  function Digit(v: nat): (c: char)
    requires v < 64
    ensures IsDigit(c) && DigitValue(c) == v
  {
    if v < 26 then ('A' as int + v) as char
    else if v < 52 then ('a' as int + v - 26) as char
    else if v < 62 then ('0' as int + v - 52) as char
    else if v == 62 then '+' else '/'
  }

  predicate AllDigits(s: string) {
    forall i :: 0 <= i < |s| ==> IsDigit(s[i])
  }

  predicate AllPadding(s: string) {
    forall i :: 0 <= i < |s| ==> s[i] == '='
  }

  // Encoding

  /** The four digits of three octets. */
  function Group(a: byte, b: byte, c: byte): (s: string)
    ensures |s| == 4
  {
    [Digit(a / 4), Digit(a % 4 * 16 + b / 16), Digit(b % 16 * 4 + c / 64), Digit(c % 64)]
  }

  lemma {:induction false} GroupDigits(a: byte, b: byte, c: byte)
    ensures AllDigits(Group(a, b, c)) && '=' !in Group(a, b, c)
    ensures c == 0 ==> Group(a, b, c)[3] == 'A'
    ensures b == c == 0 ==> Group(a, b, c)[2] == 'A'
  {
    assert Digit(0) == 'A';
    assert !IsDigit('=');
    hide Digit, DigitValue, IsDigit;
    var s := Group(a, b, c);
    assert s[0] != '=' && s[1] != '=' && s[2] != '=' && s[3] != '=';
  }

  function Btoa(b: seq<byte>): (s: string)
    ensures |s| == 4 * ((|b| + 2) / 3)
  {
    if |b| == 0 then ""
    else if |b| == 1 then Group(b[0], 0, 0)[..2] + "=="
    else if |b| == 2 then Group(b[0], b[1], 0)[..3] + "="
    else Group(b[0], b[1], b[2]) + Btoa(b[3..])
  }

  // Decoding

  /** The three octets of four digits. */
  function Ungroup(p: char, q: char, r: char, s: char): (b: seq<byte>)
    requires IsDigit(p) && IsDigit(q) && IsDigit(r) && IsDigit(s)
    ensures |b| == 3
  {
    var (w, x, y, z) := (DigitValue(p), DigitValue(q), DigitValue(r), DigitValue(s));
    [w * 4 + x / 16, x % 16 * 16 + y / 4, y % 4 * 64 + z]
  }

  /** The octets of a run of digits; the bits left over at the end are dropped. */
  function Octets(s: string): seq<byte>
    requires AllDigits(s)
  {
    if |s| < 2 then []
    else if |s| == 2 then Ungroup(s[0], s[1], 'A', 'A')[..1]
    else if |s| == 3 then Ungroup(s[0], s[1], s[2], 'A')[..2]
    else Ungroup(s[0], s[1], s[2], s[3]) + Octets(s[4..])
  }

  /** Up to two padding characters, dropped where they complete a group of four. */
  function DropPadding(s: string): string {
    if |s| == 0 || |s| % 4 != 0 || s[|s| - 1] != '=' then s
    else if s[|s| - 2] == '=' then s[..|s| - 2]
    else s[..|s| - 1]
  }

  /** The standard atob, on text without white space; None where it throws. */
  function Atob(s: string): Option<seq<byte>> {
    var t := DropPadding(s);
    if |t| % 4 == 1 || !AllDigits(t) then None else Some(Octets(t))
  }

  /** Without the characters that are not Base64. */
  function Base64Only(s: string): (t: string)
    ensures forall i :: 0 <= i < |t| ==> IsDigit(t[i]) || t[i] == '='
  {
    if s == "" then "" else (if IsDigit(s[0]) || s[0] == '=' then [s[0]] else "") + Base64Only(s[1..])
  }

  /** Without the padding characters that something else follows. */
  function DropInnerPadding(s: string): string {
    if s == "" then ""
    else (if s[0] == '=' && !AllPadding(s) then "" else [s[0]]) + DropInnerPadding(s[1..])
  }

  /** Without final groups of four padding characters. */
  function DropPaddingGroups(s: string): string {
    if |s| >= 4 && s[|s| - 4..] == "====" then DropPaddingGroups(s[..|s| - 4]) else s
  }

  /** What is decoded, None where it throws, and what is kept for the next call. */
  function DecodeBase64(buffer: string, more: bool): (Option<seq<byte>>, string) {
    var sanitized := DropInnerPadding(Base64Only(buffer));
    var whole := |sanitized| - |sanitized| % 4;
    (Atob(DropPaddingGroups(sanitized[..whole])), if more then sanitized[whole..] else "")
  }

  // Encoding and decoding

  lemma GroupUngroup(a: byte, b: byte, c: byte)
    ensures var s := Group(a, b, c);
            Ungroup(s[0], s[1], s[2], s[3]) == [a, b, c]
  {
    hide Digit, DigitValue, IsDigit;
  }

  /** Decoding the digits that encode some octets gives those octets. */
  lemma {:induction false} AtobOfBtoa(b: seq<byte>)
    ensures Atob(Btoa(b)) == Some(b)
  {
    hide Digit, Group, Atob;
    if |b| >= 3 {
      AtobOfBtoa(b[3..]);
      GroupFirst(b[0], b[1], b[2], Btoa(b[3..]), b[3..]);
      assert b == [b[0], b[1], b[2]] + b[3..];
    } else if |b| == 2 {
      TwoLeft(b[0], b[1]);
      assert b == [b[0], b[1]];
    } else if |b| == 1 {
      OneLeft(b[0]);
      assert b == [b[0]];
    } else {
      assert Atob("") == Some([]) by {
        NothingLeft();
      }
      assert b == [];
    }
  }

  lemma {:induction false} GroupFirst(a: byte, b: byte, c: byte, r: string, rest: seq<byte>)
    requires |r| % 4 == 0 && Atob(r) == Some(rest)
    ensures Atob(Group(a, b, c) + r) == Some([a, b, c] + rest)
  {
    hide Group, Ungroup, Octets, IsDigit, DropPadding;
    GroupDigits(a, b, c);
    GroupUngroup(a, b, c);
    DropPaddingAfter(Group(a, b, c), r);
    OctetsAfter(Group(a, b, c), DropPadding(r));
    assert |DropPadding(Group(a, b, c) + r)| == 4 + |DropPadding(r)|;
  }

  lemma NothingLeft()
    ensures Atob("") == Some([])
  {
  }

  lemma TwoLeft(a: byte, b: byte)
    ensures Atob(Group(a, b, 0)[..3] + "=") == Some([a, b])
  {
    hide Digit, DigitValue, IsDigit, Group, Ungroup;
    GroupDigits(a, b, 0);
    GroupUngroup(a, b, 0);
    var g := Group(a, b, 0);
    assert (g[..3] + "=")[..3] == g[..3];
    assert [a, b, 0][..2] == [a, b];
    assert Octets(g[..3]) == [a, b];
  }

  lemma OneLeft(a: byte)
    ensures Atob(Group(a, 0, 0)[..2] + "==") == Some([a])
  {
    hide Digit, DigitValue, IsDigit, Group, Ungroup;
    GroupDigits(a, 0, 0);
    GroupUngroup(a, 0, 0);
    var g := Group(a, 0, 0);
    assert (g[..2] + "==")[..2] == g[..2];
    assert [a, 0, 0][..1] == [a];
    assert Octets(g[..2]) == [a];
  }

  lemma DropPaddingAfter(g: string, r: string)
    requires |g| == 4 && g[3] != '=' && |r| % 4 == 0
    ensures DropPadding(g + r) == g + DropPadding(r)
  {
    var s := g + r;
    assert |s| == 4 + |r| && |s| % 4 == 0;
    if r != "" {
      assert s[|s| - 1] == r[|r| - 1] && s[|s| - 2] == r[|r| - 2];
      assert s[..|s| - 1] == g + r[..|r| - 1] && s[..|s| - 2] == g + r[..|r| - 2];
    } else {
      assert s == g;
    }
  }

  lemma OctetsAfter(g: string, r: string)
    requires |g| == 4 && AllDigits(g) && AllDigits(r)
    ensures AllDigits(g + r) && Octets(g + r) == Ungroup(g[0], g[1], g[2], g[3]) + Octets(r)
  {
    hide Ungroup, IsDigit;
    assert (g + r)[4..] == r;
  }

  /** The decoder of the MIME parser, too, recovers what was encoded. */
  lemma {:induction false} BtoaDecodes(b: seq<byte>)
    ensures DecodeBase64(Btoa(b), false).0 == Some(b)
    ensures forall i :: 0 <= i < |Btoa(b)| ==> IsDigit(Btoa(b)[i]) || Btoa(b)[i] == '='
  {
    hide Digit, Group, Atob, FinalPadding, Base64Only, DropInnerPadding, DropPaddingGroups;
    BtoaPadding(b);
    var s := Btoa(b);
    FinalPaddingKept(s);
    Base64OnlyTwice(s);
    assert s[..|s| - |s| % 4] == s;
    AtobOfBtoa(b);
  }

  lemma {:induction false} BtoaPadding(b: seq<byte>)
    ensures FinalPadding(Btoa(b)) && DropPaddingGroups(Btoa(b)) == Btoa(b)
    ensures forall i :: 0 <= i < |Btoa(b)| ==> IsDigit(Btoa(b)[i]) || Btoa(b)[i] == '='
  {
    hide Digit, Group, IsDigit, DropPaddingGroups;
    if |b| >= 3 {
      GroupDigits(b[0], b[1], b[2]);
      BtoaPadding(b[3..]);
      DigitsBefore(Group(b[0], b[1], b[2]), Btoa(b[3..]));
      GroupBeforePadding(Group(b[0], b[1], b[2]), Btoa(b[3..]));
    } else if |b| == 2 {
      GroupDigits(b[0], b[1], 0);
      LastGroup(Group(b[0], b[1], 0)[..3], "=");
    } else if |b| == 1 {
      GroupDigits(b[0], 0, 0);
      LastGroup(Group(b[0], 0, 0)[..2], "==");
    } else {
      NoGroups();
    }
  }

  lemma {:induction false} LastGroup(a: string, b: string)
    requires AllDigits(a) && AllPadding(b) && a != "" && |a| + |b| == 4
    ensures FinalPadding(a + b) && DropPaddingGroups(a + b) == a + b
  {
    hide IsDigit;
    DigitsBefore(a, b);
    NotPadding();
    assert IsDigit((a + b)[0]);
    assert (a + b)[0..] == a + b;
  }

  lemma {:induction false} DigitsBefore(a: string, b: string)
    requires AllDigits(a) && FinalPadding(b)
    ensures FinalPadding(a + b)
  {
    if a == "" {
      assert a + b == b;
    } else {
      assert (a + b)[1..] == a[1..] + b;
      DigitsBefore(a[1..], b);
    }
  }

  // Decoding in chunks

  function Both(a: Option<seq<byte>>, b: Option<seq<byte>>): Option<seq<byte>> {
    if a.Some? && b.Some? then Some(a.value + b.value) else None
  }

  /** Base64 text as the MIME parser decodes it: what one buffer leaves over goes before the next, and the last
      of it is flushed at the end. None where a buffer makes it throw. */
  function DecodeChunks(saved: string, chunks: seq<string>): Option<seq<byte>>
    decreases |chunks|
  {
    if chunks == [] then (if saved == "" then Some([]) else DecodeBase64(saved, false).0)
    else
      var (out, rest) := DecodeBase64(saved + chunks[0], true);
      Both(out, DecodeChunks(rest, chunks[1..]))
  }

  /** Base64 characters with padding only at the end. */
  predicate FinalPadding(s: string) {
    s == "" || AllPadding(s) || (IsDigit(s[0]) && FinalPadding(s[1..]))
  }

  /** The text without its last, incomplete group of four. */
  function WholeGroups(s: string): (t: string)
    ensures |t| % 4 == 0 && t <= s && |s| < |t| + 4
  {
    s[..|s| - |s| % 4]
  }

  lemma {:induction false} FinalPaddingKept(s: string)
    requires FinalPadding(s)
    ensures DropInnerPadding(s) == s
  {
    if s != "" {
      if AllPadding(s) {
        assert AllPadding(s[1..]);
      }
      FinalPaddingKept(s[1..]);
    }
  }

  lemma {:induction false} FinalPaddingParts(a: string, b: string)
    requires FinalPadding(a + b)
    ensures FinalPadding(a) && FinalPadding(b)
    ensures AllDigits(a) || AllPadding(b)
  {
    if AllPadding(a + b) {
      assert forall i :: 0 <= i < |a| ==> a[i] == (a + b)[i];
      assert forall i :: 0 <= i < |b| ==> b[i] == (a + b)[|a| + i];
    } else if a == "" {
      assert a + b == b;
    } else {
      assert (a + b)[1..] == a[1..] + b;
      FinalPaddingParts(a[1..], b);
      assert AllDigits(a[1..]) ==> AllDigits(a);
    }
  }

  lemma {:induction false} Base64OnlyAppend(a: string, b: string)
    ensures Base64Only(a + b) == Base64Only(a) + Base64Only(b)
  {
    if a == "" {
      assert a + b == b;
    } else {
      assert (a + b)[1..] == a[1..] + b;
      Base64OnlyAppend(a[1..], b);
    }
  }

  lemma {:induction false} Base64OnlyTwice(s: string)
    requires FinalPadding(s)
    ensures Base64Only(s) == s
  {
    if s != "" {
      if AllPadding(s) {
        assert AllPadding(s[1..]);
      }
      Base64OnlyTwice(s[1..]);
    }
  }

  /** What atob gets from whole groups. */
  function DecodeGroups(s: string): Option<seq<byte>> {
    Atob(DropPaddingGroups(s))
  }

  lemma {:induction false} PaddingGroups(s: string, pads: string)
    requires AllPadding(pads) && |pads| % 4 == 0
    ensures DropPaddingGroups(s + pads) == DropPaddingGroups(s)
    decreases |pads|
  {
    if pads == "" {
      assert s + pads == s;
    } else {
      var n := |pads| - 4;
      assert (s + pads)[|s + pads| - 4..] == pads[n..] == "====";
      assert (s + pads)[..|s + pads| - 4] == s + pads[..n];
      PaddingGroups(s, pads[..n]);
    }
  }

  lemma {:induction false} GroupBeforePadding(g: string, s: string)
    requires |g| == 4 && AllDigits(g) && |s| % 4 == 0
    ensures DropPaddingGroups(g + s) == g + DropPaddingGroups(s)
    ensures |DropPaddingGroups(s)| % 4 == 0
    decreases |s|
  {
    hide IsDigit;
    assert IsDigit(g[3]) && !IsDigit('=') by {
      NotPadding();
    }
    var t := g + s;
    if s == "" {
      assert t == g && t[|t| - 4..][3] == g[3];
    } else {
      var n := |s| - 4;
      assert t[|t| - 4..] == s[n..] && t[..|t| - 4] == g + s[..n];
      if s[n..] == "====" {
        GroupBeforePadding(g, s[..n]);
      }
    }
  }

  lemma NotPadding()
    ensures !IsDigit('=')
  {
  }

  /** A group of digits decodes on its own. */
  lemma GroupDecodes(g: string, s: string)
    requires |g| == 4 && AllDigits(g) && |s| % 4 == 0
    ensures DecodeGroups(g + s) == Both(Some(Ungroup(g[0], g[1], g[2], g[3])), DecodeGroups(s))
  {
    hide DropPaddingGroups, DropPadding, Ungroup, IsDigit, Octets;
    GroupBeforePadding(g, s);
    var x := DropPaddingGroups(s);
    assert IsDigit(g[3]);
    NotPadding();
    DropPaddingAfter(g, x);
    var t := DropPadding(x);
    assert |g + t| % 4 == |t| % 4;
    if AllDigits(t) {
      OctetsAfter(g, t);
    } else {
      var i :| 0 <= i < |t| && !IsDigit(t[i]);
      assert (g + t)[4 + i] == t[i];
    }
  }

  lemma {:induction false} GroupsAppend(a: string, b: string)
    requires |a| % 4 == 0 && |b| % 4 == 0 && FinalPadding(a + b)
    ensures DecodeGroups(a + b) == Both(DecodeGroups(a), DecodeGroups(b))
    decreases |a|
  {
    hide DecodeGroups, IsDigit, FinalPadding;
    FinalPaddingParts(a, b);
    if a == "" {
      assert a + b == b;
      assert DecodeGroups("") == Some([]) by {
        NoGroups();
      }
      assert DecodeGroups(b).Some? ==> [] + DecodeGroups(b).value == DecodeGroups(b).value;
    } else if AllDigits(a) {
      var g, r := a[..4], a[4..];
      assert a == g + r && a + b == g + (r + b);
      FinalPaddingParts(g, r + b);
      GroupDecodes(g, r + b);
      GroupDecodes(g, r);
      GroupsAppend(r, b);
      BothAssociative(Some(Ungroup(g[0], g[1], g[2], g[3])), DecodeGroups(r), DecodeGroups(b));
    } else {
      PaddingLeft(a, b);
    }
  }

  lemma NoGroups()
    ensures DecodeGroups("") == Some([])
  {
  }

  lemma PaddingLeft(a: string, b: string)
    requires AllPadding(b) && |b| % 4 == 0
    ensures DecodeGroups(a + b) == Both(DecodeGroups(a), DecodeGroups(b))
  {
    hide Atob, DropPaddingGroups;
    PaddingGroups(a, b);
    PaddingGroups("", b);
    assert "" + b == b;
    NoGroups();
    assert DecodeGroups(b) == Some([]);
    assert DecodeGroups(a).Some? ==> DecodeGroups(a).value + [] == DecodeGroups(a).value;
  }

  lemma BothAssociative(a: Option<seq<byte>>, b: Option<seq<byte>>, c: Option<seq<byte>>)
    ensures Both(Both(a, b), c) == Both(a, Both(b, c))
  {
    if a.Some? && b.Some? && c.Some? {
      assert (a.value + b.value) + c.value == a.value + (b.value + c.value);
    }
  }

  /** Wherever the text is cut, decoding the pieces in turn gives what decoding it at once gives. */
  lemma {:induction false} ChunksDecode(saved: string, chunks: seq<string>)
    requires |saved| < 4 && FinalPadding(saved + Base64Only(Flatten(chunks)))
    ensures DecodeChunks(saved, chunks) == DecodeGroups(WholeGroups(saved + Base64Only(Flatten(chunks))))
    decreases |chunks|
  {
    hide FinalPadding, DecodeGroups, Base64Only, DecodeBase64, WholeGroups;
    if chunks == [] {
      Base64OnlyNothing();
      assert saved + "" == saved;
      Base64OnlyTwice(saved);
      DecodeWhole(saved, false);
      NoGroups();
      assert WholeGroups(saved) == "";
    } else {
      var later := Base64Only(Flatten(chunks[1..]));
      var x := saved + Base64Only(chunks[0]);
      Base64OnlyAppend(chunks[0], Flatten(chunks[1..]));
      assert saved + Base64Only(Flatten(chunks)) == x + later;
      OneChunk(saved, chunks[0], later);
      var w := WholeGroups(x);
      var rest := x[|w|..];
      GroupsSoFar(w, rest, later);
      ChunksDecode(rest, chunks[1..]);
    }
  }

  lemma {:induction false} OneChunk(saved: string, chunk: string, later: string)
    requires FinalPadding((saved + Base64Only(chunk)) + later)
    ensures var x := saved + Base64Only(chunk);
            && DecodeBase64(saved + chunk, true) == (DecodeGroups(WholeGroups(x)), x[|WholeGroups(x)|..])
            && x + later == WholeGroups(x) + (x[|WholeGroups(x)|..] + later)
  {
    hide FinalPadding, DecodeGroups, Base64Only, DecodeBase64, WholeGroups;
    var x := saved + Base64Only(chunk);
    FinalPaddingParts(x, later);
    FinalPaddingParts(saved, Base64Only(chunk));
    Base64OnlyTwice(saved);
    Base64OnlyAppend(saved, chunk);
    DecodeWhole(saved + chunk, true);
  }

  lemma GroupsSoFar(w: string, rest: string, later: string)
    requires |w| % 4 == 0 && FinalPadding(w + (rest + later))
    ensures FinalPadding(rest + later)
    ensures DecodeGroups(WholeGroups(w + (rest + later)))
        == Both(DecodeGroups(w), DecodeGroups(WholeGroups(rest + later)))
  {
    hide FinalPadding, DecodeGroups, WholeGroups;
    var t := rest + later;
    FinalPaddingParts(w, t);
    WholeAfter(w, t);
    var v := WholeGroups(t);
    assert w + t == (w + v) + t[|v|..];
    FinalPaddingParts(w + v, t[|v|..]);
    GroupsAppend(w, v);
  }

  lemma Base64OnlyNothing()
    ensures Base64Only("") == ""
  {
  }

  lemma WholeAfter(w: string, r: string)
    requires |w| % 4 == 0
    ensures WholeGroups(w + r) == w + WholeGroups(r)
  {
    assert |w + r| % 4 == |r| % 4;
    assert |w + r| - |w + r| % 4 == |w| + (|r| - |r| % 4);
  }

  lemma {:induction false} DecodeWhole(buffer: string, more: bool)
    requires FinalPadding(Base64Only(buffer))
    ensures var x := Base64Only(buffer);
            DecodeBase64(buffer, more) == (DecodeGroups(WholeGroups(x)), if more then x[|WholeGroups(x)|..] else "")
  {
    hide FinalPadding, DecodeGroups, Base64Only, DropInnerPadding, Atob;
    FinalPaddingKept(Base64Only(buffer));
    var x := Base64Only(buffer);
    assert DecodeGroups(WholeGroups(x)) == Atob(DropPaddingGroups(WholeGroups(x))) by {
      GroupsAre(WholeGroups(x));
    }
  }

  lemma GroupsAre(s: string)
    ensures DecodeGroups(s) == Atob(DropPaddingGroups(s))
  {
  }

  /** Chunked decoding equals decoding at once, for text whose padding is all at the end. */
  lemma {:induction false} ChunkedBase64IsWhole(chunks: seq<string>)
    requires FinalPadding(Base64Only(Flatten(chunks)))
    ensures DecodeChunks("", chunks) == DecodeBase64(Flatten(chunks), false).0
  {
    var x := Base64Only(Flatten(chunks));
    assert "" + x == x;
    ChunksDecode("", chunks);
    DecodeWhole(Flatten(chunks), false);
  }
}
