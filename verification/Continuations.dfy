/** Parameter continuations (section 3 of RFC 2231) as parseParameterHeader of
    packages/crypto/src/jsmimeparser/headerParser.js assembles them. */
module Continuations {
  import opened Doubles
  import opened Results

  /** One param*number=value or param*number*=value of a parameter. */
  datatype Segment = Segment(number: string, star: bool, value: string)

  /** What has been gathered for the parameter: whether all was well so far, whether segment 0 asks for a charset,
      and the array: its elements and its length. */
  datatype Gathered = Gathered(valid: bool, hasCharset: Option<bool>, elements: map<Double, string>, length: nat)

  const NOTHING := Gathered(true, None, map[], 0)

  /** The length of an array is less than 2^32; elements with greater numbers do not count for it. */
  const MAX_LENGTH := 0xFFFF_FFFF

  predicate IsDigitText(s: string) {
    s != "" && forall i :: 0 <= i < |s| ==> '0' <= s[i] <= '9'
  }

  function ParseDigits(s: string): nat
    requires s == "" || IsDigitText(s)
  {
    if s == "" then 0 else 10 * ParseDigits(s[..|s| - 1]) + (s[|s| - 1] as int - '0' as int)
  }

  /** `parseInt(s, 10)` */
  function ParseInt(s: string): Double
    requires IsDigitText(s)
  {
    ToDouble(ParseDigits(s))
  }

  /** A number without leading zeros. */
  predicate IsLegal(number: string) {
    IsDigitText(number) && (number[0] == '0' ==> number == "0")
  }

  /** The number of the segment, unless it is illegal. */
  function NumberOf(s: Segment): Option<Double> {
    if IsLegal(s.number) then Some(ParseInt(s.number)) else None
  }

  function LengthWith(length: nat, n: Double): nat {
    if n.Finite? && length <= n.n < MAX_LENGTH then n.n + 1 else length
  }

  function Gather(g: Gathered, s: Segment): Gathered {
    if !g.valid then g
    else
      match NumberOf(s)
      case None => g.(valid := false)
      case Some(n) =>
        var h := if s.number == "0" then g.(hasCharset := Some(s.star)) else g;
        if n in g.elements then h.(valid := false)
        else h.(elements := g.elements[n := s.value], length := LengthWith(g.length, n))
  }

  function GatherAll(segments: seq<Segment>): Gathered {
    if segments == [] then NOTHING else Gather(GatherAll(segments[..|segments| - 1]), segments[|segments| - 1])
  }

  /** The first number from i on at which the array has no element. */
  function RunEnd(elements: map<Double, string>, length: nat, i: nat): (k: nat)
    requires i <= length
    ensures i <= k <= length && (k < length ==> Finite(k) !in elements)
    ensures forall j :: i <= j < k ==> Finite(j) in elements
    decreases length - i
  {
    if i == length || Finite(i) !in elements then i else RunEnd(elements, length, i + 1)
  }

  function Joined(elements: map<Double, string>, k: nat): string
    requires forall j :: 0 <= j < k ==> Finite(j) in elements
  {
    if k == 0 then "" else Joined(elements, k - 1) + elements[Finite(k - 1)]
  }

  /** The value of the parameter, if it is to come from continuations; decode fails on an unknown charset. */
  function Assembled(g: Gathered, decode: string -> Option<string>): Option<string> {
    var joined := Joined(g.elements, RunEnd(g.elements, g.length, 0));
    match g.hasCharset
    case None => None
    case Some(true) => decode(joined)
    case Some(false) => Some(joined)
  }

  /** The loop over the segments of a parameter, and those over the array. */
  method AssembleContinuations(segments: seq<Segment>, decode: string -> Option<string>) returns (value: Option<string>)
    ensures value == Assembled(GatherAll(segments), decode)
  {
    hide Gather, Joined, RunEnd;
    var entry := NOTHING;
    for k := 0 to |segments|
      invariant entry == GatherAll(segments[..k])
    {
      assert segments[..k + 1][..k] == segments[..k];
      entry := Gather(entry, segments[k]);
    }
    assert segments[..|segments|] == segments;
    if entry.hasCharset.None? {
      return None;
    }
    var joined := JoinElements(entry.elements, entry.length);
    value := if entry.hasCharset.value then decode(joined) else Some(joined);
  }

  /** The second loop takes the first hole too, which adds nothing. */
  method JoinElements(elements: map<Double, string>, length: nat) returns (joined: string)
    ensures joined == Joined(elements, RunEnd(elements, length, 0))
  {
    var i, valid := 0, true;
    while valid && i < length
      invariant i <= length
      invariant RunEnd(elements, length, 0) == if valid then RunEnd(elements, length, i) else i - 1
    {
      valid := Finite(i) in elements;
      i := i + 1;
    }
    ghost var end := RunEnd(elements, length, 0);
    joined := "";
    for j := 0 to i
      invariant joined == Joined(elements, if j <= end then j else end)
    {
      joined := joined + if Finite(j) in elements then elements[Finite(j)] else "";
    }
  }

  // Numbers

  predicate IsNumbered(s: Segment, n: nat) {
    IsLegal(s.number) && ParseDigits(s.number) == n
  }

  lemma {:induction false} CanonicalNumbers(a: string, b: string)
    requires IsLegal(a) && IsLegal(b) && ParseDigits(a) == ParseDigits(b)
    ensures a == b
  {
    var m, n := |a| - 1, |b| - 1;
    assert a == a[..m] + [a[m]] && b == b[..n] + [b[n]];
    LastDigit(a);
    LastDigit(b);
    assert a[m] == b[n];
    if m > 0 && n > 0 {
      CanonicalNumbers(a[..m], b[..n]);
    } else if m > 0 {
      LegalPositive(a[..m]);
    } else if n > 0 {
      LegalPositive(b[..n]);
    }
  }

  lemma LastDigit(s: string)
    requires IsDigitText(s)
    ensures ParseDigits(s) % 10 == s[|s| - 1] as int - '0' as int && ParseDigits(s) / 10 == ParseDigits(s[..|s| - 1])
  {
  }

  lemma {:induction false} LegalPositive(s: string)
    requires IsLegal(s) && s[0] != '0'
    ensures ParseDigits(s) > 0
  {
    if |s| > 1 {
      LegalPositive(s[..|s| - 1]);
    }
  }

  lemma SmallNumber(s: Segment, n: nat)
    requires n < TWO_53
    ensures NumberOf(s) == Some(Finite(n)) <==> IsNumbered(s, n)
  {
    if IsLegal(s.number) {
      SmallIsExact(ParseDigits(s.number));
    }
  }

  lemma ZeroNumber(s: Segment)
    ensures s.number == "0" <==> IsNumbered(s, 0)
  {
    assert ParseDigits("0") == 0;
    if IsNumbered(s, 0) {
      CanonicalNumbers(s.number, "0");
    }
  }

  // Sound segments

  /** Legal numbers, no two of which are converted to the same. */
  ghost predicate AreSound(segments: seq<Segment>) {
    && (forall i :: 0 <= i < |segments| ==> NumberOf(segments[i]).Some?)
    && forall i, j :: 0 <= i < j < |segments| ==> NumberOf(segments[i]) != NumberOf(segments[j])
  }

  predicate HasElement(elements: map<Double, string>, s: Segment) {
    var n := NumberOf(s);
    n.Some? && n.value in elements && elements[n.value] == s.value
  }

  ghost predicate DescribesZero(hasCharset: Option<bool>, segments: seq<Segment>) {
    && (forall s :: s in segments && s.number == "0" ==> hasCharset == Some(s.star))
    && (hasCharset.Some? ==> exists s :: s in segments && s.number == "0")
  }

  ghost predicate IsLength(elements: map<Double, string>, length: nat) {
    length <= MAX_LENGTH && forall n: nat :: Finite(n) in elements && n < MAX_LENGTH ==> n < length
  }

  /** What the array and the charset mark come to, whatever the order. */
  ghost predicate Describes(g: Gathered, segments: seq<Segment>) {
    && (forall s :: s in segments ==> HasElement(g.elements, s))
    && (forall n :: n in g.elements ==> exists s :: s in segments && NumberOf(s) == Some(n))
    && DescribesZero(g.hasCharset, segments)
    && IsLength(g.elements, g.length)
  }

  /** As long as the segments are sound they are all in the array. */
  lemma {:induction false} GatherDescribes(segments: seq<Segment>)
    ensures GatherAll(segments).valid <==> AreSound(segments)
    ensures AreSound(segments) ==> Describes(GatherAll(segments), segments)
  {
    if segments != [] {
      var k := |segments| - 1;
      var front, s := segments[..k], segments[k];
      assert segments == front + [s];
      GatherDescribes(front);
      hide GatherAll, Describes;
      if AreSound(front) {
        GatherOne(GatherAll(front), front, s);
      } else if AreSound(segments) {
        SoundFront(front, s);
        assert false;
      }
    }
  }

  lemma SoundFront(segments: seq<Segment>, s: Segment)
    requires AreSound(segments + [s])
    ensures AreSound(segments)
  {
    assert forall i :: 0 <= i < |segments| ==> segments[i] == (segments + [s])[i];
  }

  lemma GatherOne(g: Gathered, segments: seq<Segment>, s: Segment)
    requires g.valid && AreSound(segments) && Describes(g, segments)
    ensures Gather(g, s).valid <==> AreSound(segments + [s])
    ensures AreSound(segments + [s]) ==> Describes(Gather(g, s), segments + [s])
  {
    SoundMore(segments, s);
    if NumberOf(s).Some? {
      hide ParseInt, IsLegal;
      var n, h := NumberOf(s).value, Gather(g, s);
      assert n in g.elements <==> exists t :: t in segments && NumberOf(t) == Some(n) by {
        assert forall t :: t in segments ==> HasElement(g.elements, t);
      }
      if n !in g.elements {
        DescribesMore(g, segments, s, h);
      }
    }
  }

  lemma DescribesMore(g: Gathered, segments: seq<Segment>, s: Segment, h: Gathered)
    requires Describes(g, segments) && NumberOf(s).Some? && NumberOf(s).value !in g.elements
    requires h.elements == g.elements[NumberOf(s).value := s.value]
    requires h.hasCharset == (if s.number == "0" then Some(s.star) else g.hasCharset)
    requires h.length == LengthWith(g.length, NumberOf(s).value)
    ensures Describes(h, segments + [s])
  {
    hide NumberOf;
    assert s in segments + [s];
    assert forall t :: t in segments + [s] <==> t in segments || t == s;
    forall t | t in segments
      ensures HasElement(h.elements, t) && t.number != s.number
    {
      assert HasElement(g.elements, t);
      if s.number == t.number {
        SameNumber(s, t);
      }
    }
  }

  lemma SameNumber(s: Segment, t: Segment)
    requires s.number == t.number
    ensures NumberOf(s) == NumberOf(t)
  {
  }

  lemma SoundMore(segments: seq<Segment>, s: Segment)
    requires AreSound(segments)
    ensures AreSound(segments + [s])
       <==> NumberOf(s).Some? && forall t :: t in segments ==> NumberOf(t) != NumberOf(s)
  {
    hide NumberOf;
    var more := segments + [s];
    assert more[|segments|] == s;
    assert forall i :: 0 <= i < |segments| ==> more[i] == segments[i];
    if AreSound(more) {
      forall t | t in segments
        ensures NumberOf(t) != NumberOf(s)
      {
        var i :| 0 <= i < |segments| && segments[i] == t;
        assert more[i] == t;
      }
    }
  }

  // The result

  /** The segment of that number, if any. */
  function SegmentAt(segments: seq<Segment>, n: nat): (s: Option<Segment>)
    ensures s.Some? ==> s.value in segments && IsNumbered(s.value, n)
    ensures s.None? ==> forall t :: t in segments ==> !IsNumbered(t, n)
  {
    if segments == [] then None
    else if IsNumbered(segments[0], n) then Some(segments[0])
    else SegmentAt(segments[1..], n)
  }

  /** There are segments 0 to k - 1, and the array can be that long. */
  ghost predicate IsRun(segments: seq<Segment>, k: nat) {
    k <= MAX_LENGTH && forall i :: 0 <= i < k ==> SegmentAt(segments, i).Some?
  }

  ghost function RunOf(segments: seq<Segment>, k: nat): string
    requires IsRun(segments, k)
  {
    if k == 0 then "" else RunOf(segments, k - 1) + SegmentAt(segments, k - 1).value.value
  }

  /** The value that the first k segments give; none without a segment 0. */
  ghost function Outcome(segments: seq<Segment>, k: nat, decode: string -> Option<string>): Option<string>
    requires IsRun(segments, k)
  {
    match SegmentAt(segments, 0)
    case None => None
    case Some(zero) => if zero.star then decode(RunOf(segments, k)) else Some(RunOf(segments, k))
  }

  /** Sound segments give what the segments 0 to k - 1 give in the order of their numbers, k being the first number
      that is missing. */
  lemma LongestRun(segments: seq<Segment>, decode: string -> Option<string>) returns (k: nat)
    requires AreSound(segments)
    ensures IsRun(segments, k) && (k == MAX_LENGTH || SegmentAt(segments, k).None?)
    ensures Assembled(GatherAll(segments), decode) == Outcome(segments, k, decode)
  {
    hide GatherAll, Joined, RunOf, SegmentAt, ParseDigits, AreSound;
    GatherDescribes(segments);
    var g := GatherAll(segments);
    k := RunEnd(g.elements, g.length, 0);
    forall i | 0 <= i < TWO_53
      ensures Finite(i) in g.elements <==> SegmentAt(segments, i).Some?
      ensures Finite(i) in g.elements ==> g.elements[Finite(i)] == SegmentAt(segments, i).value.value
    {
      ElementAt(g, segments, i);
    }
    SameRun(g, segments, k);
    ZeroSeen(g, segments);
  }

  lemma ElementAt(g: Gathered, segments: seq<Segment>, i: nat)
    requires Describes(g, segments) && i < TWO_53
    ensures Finite(i) in g.elements <==> SegmentAt(segments, i).Some?
    ensures Finite(i) in g.elements ==> g.elements[Finite(i)] == SegmentAt(segments, i).value.value
  {
    hide SegmentAt, NumberOf, IsNumbered;
    if Finite(i) in g.elements {
      var s :| s in segments && NumberOf(s) == Some(Finite(i));
      SmallNumber(s, i);
    }
    if SegmentAt(segments, i).Some? {
      var s := SegmentAt(segments, i).value;
      SmallNumber(s, i);
      assert HasElement(g.elements, s);
    }
  }

  lemma ZeroSeen(g: Gathered, segments: seq<Segment>)
    requires Describes(g, segments)
    ensures g.hasCharset == match SegmentAt(segments, 0) case None => None case Some(s) => Some(s.star)
  {
    hide SegmentAt, IsNumbered, HasElement;
    if SegmentAt(segments, 0).Some? {
      ZeroNumber(SegmentAt(segments, 0).value);
    } else if g.hasCharset.Some? {
      var s :| s in segments && s.number == "0";
      ZeroNumber(s);
      assert false;
    }
  }

  lemma {:induction false} SameRun(g: Gathered, segments: seq<Segment>, k: nat)
    requires IsRun(segments, k)
    requires forall i :: 0 <= i < k ==>
               Finite(i) in g.elements && g.elements[Finite(i)] == SegmentAt(segments, i).value.value
    ensures Joined(g.elements, k) == RunOf(segments, k)
  {
    hide SegmentAt;
    if k > 0 {
      SameRun(g, segments, k - 1);
    }
  }

  // Orders

  ghost predicate IsOrder(b: seq<Segment>, a: seq<Segment>) {
    multiset(b) == multiset(a)
  }

  ghost predicate GiveTheSame(a: seq<Segment>, b: seq<Segment>, decode: string -> Option<string>) {
    Assembled(GatherAll(a), decode) == Assembled(GatherAll(b), decode)
  }

  /** No two numbers are written alike. */
  ghost predicate AreUnrepeated(segments: seq<Segment>) {
    forall i, j :: 0 <= i < j < |segments| ==> segments[i].number != segments[j].number
  }

  lemma OneOfANumber(segments: seq<Segment>, s: Segment, t: Segment)
    requires AreUnrepeated(segments) && s in segments && t in segments && s.number == t.number
    ensures s == t
  {
    var i :| 0 <= i < |segments| && segments[i] == s;
    var j :| 0 <= j < |segments| && segments[j] == t;
  }

  /** Some of the segments: where they have one of a number it is the same. */
  lemma SegmentOfSome(some: seq<Segment>, all: seq<Segment>, n: nat)
    requires AreUnrepeated(all) && (forall s :: s in some ==> s in all)
    ensures SegmentAt(some, n).Some? ==> SegmentAt(some, n) == SegmentAt(all, n)
  {
    hide SegmentAt, ParseDigits, IsLegal;
    if SegmentAt(some, n).Some? {
      var s := SegmentAt(some, n).value;
      assert IsNumbered(s, n) && SegmentAt(all, n).Some?;
      var t := SegmentAt(all, n).value;
      CanonicalNumbers(s.number, t.number);
      OneOfANumber(all, s, t);
    }
  }

  lemma {:induction false} RunOfSome(some: seq<Segment>, all: seq<Segment>, k: nat)
    requires AreUnrepeated(all) && (forall s :: s in some ==> s in all) && IsRun(some, k)
    ensures IsRun(all, k) && RunOf(some, k) == RunOf(all, k)
  {
    hide SegmentAt, AreUnrepeated;
    forall i | 0 <= i < k
      ensures SegmentAt(all, i) == SegmentAt(some, i)
    {
      SegmentOfSome(some, all, i);
    }
    if k > 0 {
      RunOfSome(some, all, k - 1);
    }
  }

  lemma OutcomeOfSome(some: seq<Segment>, all: seq<Segment>, k: nat, decode: string -> Option<string>)
    requires AreUnrepeated(all) && (forall s :: s in some ==> s in all) && IsRun(some, k) && SegmentAt(some, 0).Some?
    ensures IsRun(all, k) && Outcome(some, k, decode) == Outcome(all, k, decode)
  {
    hide SegmentAt, AreUnrepeated, RunOf;
    RunOfSome(some, all, k);
    SegmentOfSome(some, all, 0);
  }

  // Sound segments in any order

  lemma SoundIsUnrepeated(segments: seq<Segment>)
    requires AreSound(segments)
    ensures AreUnrepeated(segments)
  {
    hide NumberOf;
    forall i, j | 0 <= i < j < |segments|
      ensures segments[i].number != segments[j].number
    {
      if segments[i].number == segments[j].number {
        SameNumber(segments[i], segments[j]);
      }
    }
  }

  /** The order of sound segments does not matter. */
  lemma OrderDoesNotMatter(a: seq<Segment>, b: seq<Segment>, decode: string -> Option<string>)
    requires AreSound(a) && IsOrder(b, a)
    ensures GiveTheSame(a, b, decode)
  {
    hide GatherAll, SegmentAt, AreSound, AreUnrepeated, Assembled, RunOf, NumberOf;
    SoundIsUnrepeated(a);
    SameElements(a, b);
    OrderIsSound(a, b);
    SoundIsUnrepeated(b);
    var k := LongestRun(a, decode);
    var l := LongestRun(b, decode);
    RunOfSome(a, b, k);
    RunOfSome(b, a, l);
    assert k == l;
    SegmentOfSome(a, b, 0);
    SegmentOfSome(b, a, 0);
  }

  lemma SameElements(a: seq<Segment>, b: seq<Segment>)
    requires IsOrder(b, a)
    ensures forall s :: s in a <==> s in b
  {
    assert forall s :: s in a <==> s in multiset(a);
    assert forall s :: s in b <==> s in multiset(b);
  }

  lemma OrderIsSound(a: seq<Segment>, b: seq<Segment>)
    requires AreSound(a) && IsOrder(b, a)
    ensures AreSound(b)
  {
    hide NumberOf;
    SameElements(a, b);
    SoundIsUnrepeated(a);
    OrderIsUnrepeated(a, b);
    forall i | 0 <= i < |b|
      ensures NumberOf(b[i]).Some?
    {
      assert b[i] in a;
    }
    forall i, j | 0 <= i < j < |b|
      ensures NumberOf(b[i]) != NumberOf(b[j])
    {
      assert b[i] in a && b[j] in a;
      var k :| 0 <= k < |a| && a[k] == b[i];
      var l :| 0 <= l < |a| && a[l] == b[j];
      assert k != l;
    }
  }

  // Segments that are not sound

  /** What comes after the first segment that is illegal or repeats a number does not count, and of that one only the
      mark of a repeated segment 0 does. */
  lemma {:induction false} FirstSpoilerStops(segments: seq<Segment>) returns (p: nat)
    requires !AreSound(segments)
    ensures p < |segments| && AreSound(segments[..p]) && !AreSound(segments[..p + 1])
    ensures GatherAll(segments) == GatherAll(segments[..p + 1]) == Gather(GatherAll(segments[..p]), segments[p])
    decreases |segments|
  {
    hide AreSound;
    assert AreSound([]) by {
      NothingIsSound();
    }
    var k := |segments| - 1;
    assert segments == segments[..k] + [segments[k]] && segments[..k + 1] == segments;
    if AreSound(segments[..k]) {
      p := k;
    } else {
      p := FirstSpoilerStops(segments[..k]);
      GatherDescribes(segments[..k]);
      assert segments[..k][..p] == segments[..p] && segments[..k][..p + 1] == segments[..p + 1];
    }
  }

  lemma NothingIsSound()
    ensures AreSound([])
  {
  }

  /** A segment that spoils, other than a segment 0, leaves the value as it was. */
  lemma SpoilerAdds(segments: seq<Segment>, s: Segment, decode: string -> Option<string>)
    requires AreSound(segments) && !AreSound(segments + [s]) && s.number != "0"
    ensures !GatherAll(segments + [s]).valid
    ensures Assembled(GatherAll(segments + [s]), decode) == Assembled(GatherAll(segments), decode)
  {
    GatherDescribes(segments);
    GatherDescribes(segments + [s]);
    assert (segments + [s])[..|segments|] == segments;
    hide AreSound, Describes, Joined, ParseInt, IsLegal;
  }

  /** Without a repeated segment 0 the first spoiler is none. */
  lemma SpoilerIsNotZero(segments: seq<Segment>, p: nat)
    requires AreUnrepeated(segments) && p < |segments| && AreSound(segments[..p]) && !AreSound(segments[..p + 1])
    ensures segments[p].number != "0"
  {
    hide NumberOf, IsNumbered;
    var front, s := segments[..p], segments[p];
    assert segments[..p + 1] == front + [s];
    SoundMore(front, s);
    if s.number == "0" {
      ZeroNumber(s);
      SmallNumber(s, 0);
      var t :| t in front && NumberOf(t) == NumberOf(s);
      SmallNumber(t, 0);
      ZeroNumber(t);
      assert false;
    }
  }

  /** The value is that of some run: the longest if the segments are sound. */
  lemma SomeRun(segments: seq<Segment>, decode: string -> Option<string>) returns (k: nat)
    requires AreUnrepeated(segments)
    ensures IsRun(segments, k)
    ensures Assembled(GatherAll(segments), decode) == if k == 0 then None else Outcome(segments, k, decode)
  {
    hide GatherAll, SegmentAt, AreSound, AreUnrepeated, Assembled, RunOf, NumberOf;
    var front := segments;
    if !AreSound(segments) {
      var p := FirstSpoilerStops(segments);
      front := segments[..p];
      SpoilerIsNotZero(segments, p);
      assert segments[..p + 1] == front + [segments[p]];
      SpoilerAdds(front, segments[p], decode);
    }
    k := LongestRun(front, decode);
    RunOfSome(front, segments, k);
    if k > 0 {
      OutcomeOfSome(front, segments, k, decode);
    }
  }

  // Orders of segments that are not sound

  /** The segments 0 to k - 1 in order. */
  ghost function Firsts(segments: seq<Segment>, k: nat): (f: seq<Segment>)
    requires IsRun(segments, k)
    ensures |f| == k && forall i :: 0 <= i < k ==> f[i] in segments && IsNumbered(f[i], i)
  {
    if k == 0 then [] else Firsts(segments, k - 1) + [SegmentAt(segments, k - 1).value]
  }

  predicate IsLarge(n: Option<Double>) {
    n.Some? && (n.value.Finite? ==> n.value.n >= TWO_53)
  }

  /** A segment that is illegal, or one that is converted to the number of another one, which is 2^53 at least. */
  ghost predicate IsSpoiler(segments: seq<Segment>, x: seq<Segment>, s: Segment) {
    && s in segments && s.number != "0"
    && if NumberOf(s).None? then x == []
       else |x| == 1 && x[0] in segments && x[0] != s && NumberOf(x[0]) == NumberOf(s) && IsLarge(NumberOf(s))
  }

  lemma SpoilerOf(segments: seq<Segment>) returns (x: seq<Segment>, s: Segment)
    requires AreUnrepeated(segments) && !AreSound(segments)
    ensures IsSpoiler(segments, x, s)
  {
    hide GatherAll, Gather, NumberOf, AreSound;
    var p := FirstSpoilerStops(segments);
    s, x := segments[p], [];
    SpoilerIsNotZero(segments, p);
    var front := segments[..p];
    assert segments[..p + 1] == front + [s];
    SoundMore(front, s);
    if NumberOf(s).Some? {
      var t :| t in front && NumberOf(t) == NumberOf(s);
      var i :| 0 <= i < p && front[i] == t;
      assert t == segments[i] && t.number != s.number;
      EqualNumbersAreLarge(s, t);
      x := [t];
    }
  }

  lemma EqualNumbersAreLarge(s: Segment, t: Segment)
    requires NumberOf(s).Some? && NumberOf(t) == NumberOf(s) && t.number != s.number
    ensures IsLarge(NumberOf(s))
  {
    hide ParseDigits, ToDouble;
    if !IsLarge(NumberOf(s)) {
      SmallNumber(s, NumberOf(s).value.n);
      SmallNumber(t, NumberOf(s).value.n);
      CanonicalNumbers(s.number, t.number);
      assert false;
    }
  }

  /** What an exact conversion would never do: legal numbers below 2^53, written differently, are not converted to the
      same. */
  lemma SmallIsSound(segments: seq<Segment>)
    requires AreUnrepeated(segments)
    requires forall i :: 0 <= i < |segments| ==> NumberOf(segments[i]).Some? && !IsLarge(NumberOf(segments[i]))
    ensures AreSound(segments)
  {
    hide NumberOf, IsLarge;
    forall i, j | 0 <= i < j < |segments|
      ensures NumberOf(segments[i]) != NumberOf(segments[j])
    {
      if NumberOf(segments[i]) == NumberOf(segments[j]) {
        EqualNumbersAreLarge(segments[i], segments[j]);
      }
    }
  }

  /** After the first k segments the spoiler spoils, and the run stays as it is. */
  lemma SpoiledFirsts(segments: seq<Segment>, k: nat, x: seq<Segment>, s: Segment)
    requires AreUnrepeated(segments) && IsRun(segments, k) && IsSpoiler(segments, x, s)
    ensures var c := Firsts(segments, k) + x;
            && AreSound(c) && !AreSound(c + [s]) && s !in c
            && (forall t :: t in c + [s] ==> t in segments)
            && (forall i :: 0 <= i < |c| ==> NumberOf(c[i]) == Some(Finite(i)) || (i == k && IsLarge(NumberOf(c[i]))))
  {
    hide NumberOf, IsNumbered, SegmentAt;
    var f := Firsts(segments, k);
    hide Firsts;
    var c := f + x;
    forall i | 0 <= i < k
      ensures NumberOf(c[i]) == Some(Finite(i))
    {
      SmallNumber(c[i], i);
      assert c[i] == f[i];
    }
    assert AreSound(c);
    SoundMore(c, s);
    if NumberOf(s).Some? {
      assert c[k] == x[0];
    }
  }

  lemma IsFullRun(c: seq<Segment>, k: nat)
    requires k <= MAX_LENGTH && k <= |c|
    requires forall i :: 0 <= i < |c| ==> NumberOf(c[i]) == Some(Finite(i)) || (i == k && IsLarge(NumberOf(c[i])))
    requires |c| <= k + 1 && (|c| == k + 1 ==> IsLarge(NumberOf(c[k])))
    ensures IsRun(c, k) && SegmentAt(c, k).None?
  {
    hide NumberOf, IsNumbered, SegmentAt;
    forall i | 0 <= i < k
      ensures SegmentAt(c, i).Some?
    {
      SmallNumber(c[i], i);
      assert c[i] in c;
    }
    forall t | t in c
      ensures !IsNumbered(t, k)
    {
      var i :| 0 <= i < |c| && c[i] == t;
      SmallNumber(t, k);
    }
  }

  /** Every run can be what comes out, and so can nothing at all. */
  lemma SpoiledOrder(segments: seq<Segment>, k: nat, decode: string -> Option<string>) returns (b: seq<Segment>)
    requires AreUnrepeated(segments) && !AreSound(segments) && IsRun(segments, k)
    ensures IsOrder(b, segments)
    ensures Assembled(GatherAll(b), decode) == if k == 0 then None else Outcome(segments, k, decode)
  {
    hide GatherAll, SegmentAt, AreSound, AreUnrepeated, Assembled, RunOf, NumberOf, Firsts, IsLarge, Gather;
    var x, s := SpoilerOf(segments);
    SpoiledFirsts(segments, k, x, s);
    var c := Firsts(segments, k) + x;
    SoundIsDistinct(c, s);
    var rest := Completed(segments, c + [s]);
    b := c + [s] + rest;
    SpoilerAdds(c, s, decode);
    Stuck(c + [s], rest);
    IsFullRun(c, k);
    var l := LongestRun(c, decode);
    assert k == l;
    if k > 0 {
      OutcomeOfSome(c, segments, k, decode);
    }
  }

  lemma SoundIsDistinct(c: seq<Segment>, s: Segment)
    requires AreSound(c) && s !in c
    ensures forall i, j :: 0 <= i < j < |c + [s]| ==> (c + [s])[i] != (c + [s])[j]
  {
    hide NumberOf;
  }

  lemma {:induction false} Stuck(segments: seq<Segment>, rest: seq<Segment>)
    requires !GatherAll(segments).valid
    ensures GatherAll(segments + rest) == GatherAll(segments)
    decreases |rest|
  {
    if rest == [] {
      assert segments + rest == segments;
    } else {
      var k := |rest| - 1;
      Stuck(segments, rest[..k]);
      assert (segments + rest)[..|segments| + k] == segments + rest[..k];
    }
  }

  /** Some of the segments, each once, can come first. */
  lemma {:induction false} Completed(segments: seq<Segment>, f: seq<Segment>) returns (rest: seq<Segment>)
    requires forall i, j :: 0 <= i < j < |f| ==> f[i] != f[j]
    requires forall s :: s in f ==> s in segments
    ensures IsOrder(f + rest, segments)
    decreases |f|
  {
    if f == [] {
      rest := segments;
      assert f + rest == segments;
    } else {
      assert f[0] in f;
      var others := Without(segments, f[0]);
      assert forall s :: s in f[1..] ==> s in f && s != f[0];
      rest := Completed(others, f[1..]);
      assert f + rest == [f[0]] + (f[1..] + rest);
    }
  }

  lemma Without(segments: seq<Segment>, s: Segment) returns (others: seq<Segment>)
    requires s in segments
    ensures multiset(segments) == multiset([s]) + multiset(others)
    ensures forall t :: t in segments && t != s ==> t in others
  {
    var k :| 0 <= k < |segments| && segments[k] == s;
    others := segments[..k] + segments[k + 1..];
    assert segments == segments[..k] + [s] + segments[k + 1..];
    assert multiset(segments) == multiset([s]) + multiset(others);
    assert forall t :: t in segments <==> t in multiset(segments);
    assert forall t :: t in others <==> t in multiset(others);
  }

  /** All orders give the same if and only if the segments are sound, or no run gives a value: there is no segment 0, or
      it asks for a charset and decoding fails whatever the run. */
  lemma AllOrdersAgree(segments: seq<Segment>, decode: string -> Option<string>)
    requires AreUnrepeated(segments)
    ensures (forall b :: IsOrder(b, segments) ==> GiveTheSame(segments, b, decode))
       <==> AreSound(segments) || forall k :: k > 0 && IsRun(segments, k) ==> Outcome(segments, k, decode).None?
  {
    hide GatherAll, AreSound, AreUnrepeated, Assembled, IsRun, Outcome;
    if AreSound(segments) {
      forall b | IsOrder(b, segments)
        ensures GiveTheSame(segments, b, decode)
      {
        OrderDoesNotMatter(segments, b, decode);
      }
    } else if k :| k > 0 && IsRun(segments, k) && Outcome(segments, k, decode).Some? {
      assert IsRun(segments, 0) by {
        NoRun(segments);
      }
      var b := SpoiledOrder(segments, k, decode);
      var c := SpoiledOrder(segments, 0, decode);
      assert !GiveTheSame(segments, b, decode) || !GiveTheSame(segments, c, decode);
    } else {
      forall b | IsOrder(b, segments)
        ensures GiveTheSame(segments, b, decode)
      {
        NoneInOrder(segments, segments, decode);
        NoneInOrder(segments, b, decode);
      }
    }
  }

  lemma NoRun(segments: seq<Segment>)
    ensures IsRun(segments, 0)
  {
  }

  lemma NoneInOrder(segments: seq<Segment>, b: seq<Segment>, decode: string -> Option<string>)
    requires AreUnrepeated(segments) && IsOrder(b, segments)
    requires forall k :: k > 0 && IsRun(segments, k) ==> Outcome(segments, k, decode).None?
    ensures Assembled(GatherAll(b), decode).None?
  {
    hide GatherAll, SegmentAt, AreSound, AreUnrepeated, Assembled, RunOf, NumberOf;
    SameElements(segments, b);
    OrderIsUnrepeated(segments, b);
    var k := SomeRun(b, decode);
    RunOfSome(b, segments, k);
    if k > 0 {
      OutcomeOfSome(b, segments, k, decode);
    }
  }

  lemma OrderIsUnrepeated(a: seq<Segment>, b: seq<Segment>)
    requires AreUnrepeated(a) && IsOrder(b, a)
    ensures AreUnrepeated(b)
  {
    SameElements(a, b);
    forall i, j | 0 <= i < j < |b|
      ensures b[i].number != b[j].number
    {
      if b[i].number == b[j].number {
        OneOfANumber(a, b[i], b[j]);
        assert b == b[..i] + [b[i]] + b[i + 1..j] + [b[j]] + b[j + 1..];
        assert multiset(b)[b[i]] >= 2;
        OnceOfEach(a, b[i]);
        assert false;
      }
    }
  }

  lemma OnceOfEach(a: seq<Segment>, s: Segment)
    requires AreUnrepeated(a) && s in a
    ensures multiset(a)[s] == 1
  {
    var k :| 0 <= k < |a| && a[k] == s;
    assert a == a[..k] + [a[k]] + a[k + 1..];
    assert s !in a[..k] && s !in a[k + 1..];
  }

  // The first numbers that are converted to the same

  const ZERO := Segment("0", false, "v0")
  const ONE := Segment("1", false, "v1")
  const EVEN := Segment("9007199254740992", false, "p")
  const ODD := Segment("9007199254740993", false, "q")

  /** A text of digits and its value. */
  predicate IsText(s: string, n: nat) {
    (s == "" || IsDigitText(s)) && ParseDigits(s) == n
  }

  lemma DigitMore(s: string, n: nat, c: char, t: string)
    requires IsText(s, n) && '0' <= c <= '9' && t == s + [c]
    ensures IsText(t, 10 * n + (c as int - '0' as int))
  {
    assert t[..|s|] == s;
  }

  lemma EightDigits()
    ensures IsText("90071992", 90071992)
  {
    assert IsText("", 0);
    hide IsText;
    DigitMore("", 0, '9', "9");
    DigitMore("9", 9, '0', "90");
    DigitMore("90", 90, '0', "900");
    DigitMore("900", 900, '7', "9007");
    DigitMore("9007", 9007, '1', "90071");
    DigitMore("90071", 90071, '9', "900719");
    DigitMore("900719", 900719, '9', "9007199");
    DigitMore("9007199", 9007199, '2', "90071992");
  }

  lemma LargeDigits()
    ensures IsText(EVEN.number, TWO_53) && IsText(ODD.number, TWO_53 + 1)
  {
    hide IsText;
    EightDigits();
    DigitMore("90071992", 90071992, '5', "900719925");
    DigitMore("900719925", 900719925, '4', "9007199254");
    DigitMore("9007199254", 9007199254, '7', "90071992547");
    DigitMore("90071992547", 90071992547, '4', "900719925474");
    DigitMore("900719925474", 900719925474, '0', "9007199254740");
    DigitMore("9007199254740", 9007199254740, '9', "90071992547409");
    DigitMore("90071992547409", 90071992547409, '9', "900719925474099");
    DigitMore("900719925474099", 900719925474099, '2', "9007199254740992");
    DigitMore("900719925474099", 900719925474099, '3', "9007199254740993");
  }

  lemma Collision()
    ensures NumberOf(ZERO) == Some(Finite(0)) && NumberOf(ONE) == Some(Finite(1))
    ensures NumberOf(EVEN) == NumberOf(ODD) == Some(Finite(TWO_53))
  {
    assert ParseDigits("0") == 0 && ParseDigits("1") == 1;
    SmallIsExact(0);
    SmallIsExact(1);
    LargeDigits();
    hide ParseDigits;
    assert Unit(TWO_53) == 2 && Unit(TWO_53 + 1) == 2;
    assert Rounded(TWO_53) == TWO_53 == Rounded(TWO_53 + 1);
    assert Halvings(TWO_53) == 1;
  }

  lemma AllOf(a: Segment, b: Segment, c: Segment, d: Segment)
    ensures GatherAll([a, b, c, d]) == Gather(Gather(Gather(Gather(NOTHING, a), b), c), d)
  {
    hide Gather, GatherAll;
    assert [a, b, c, d] == [] + [a] + [b] + [c] + [d];
    OneMore([], a);
    OneMore([] + [a], b);
    OneMore([] + [a] + [b], c);
    OneMore([] + [a] + [b] + [c], d);
    assert GatherAll([]) == NOTHING by {
      NothingGathered();
    }
  }

  lemma NothingGathered()
    ensures GatherAll([]) == NOTHING
  {
  }

  lemma OneMore(segments: seq<Segment>, s: Segment)
    ensures GatherAll(segments + [s]) == Gather(GatherAll(segments), s)
  {
    assert (segments + [s])[..|segments|] == segments;
  }

  /** Of 2^53 and 2^53 + 1 the second is taken for a repetition of the first, and what comes after it is lost. */
  lemma RoundingMatters(decode: string -> Option<string>)
    ensures AreUnrepeated([ZERO, ONE, EVEN, ODD]) && !AreSound([ZERO, ONE, EVEN, ODD])
    ensures Assembled(GatherAll([ZERO, ONE, EVEN, ODD]), decode) == Some("v0v1")
    ensures Assembled(GatherAll([ZERO, EVEN, ODD, ONE]), decode) == Some("v0")
    ensures Assembled(GatherAll([EVEN, ODD, ZERO, ONE]), decode) == None
  {
    hide GatherAll, Gather, NumberOf, Joined, RunEnd, AreSound;
    var segments := [ZERO, ONE, EVEN, ODD];
    AllOf(ZERO, ONE, EVEN, ODD);
    AllOf(ZERO, EVEN, ODD, ONE);
    AllOf(EVEN, ODD, ZERO, ONE);
    InOrder();
    OneLast();
    ZeroLate();
    GatherDescribes(segments);
    RunOfOne();
    RunOfTwo();
  }

  lemma InOrder()
    ensures Gather(Gather(Gather(Gather(NOTHING, ZERO), ONE), EVEN), ODD)
         == Gathered(false, Some(false), map[Finite(0) := "v0", Finite(1) := "v1", Finite(TWO_53) := "p"], 2)
  {
    Collision();
    hide NumberOf;
  }

  lemma OneLast()
    ensures Gather(Gather(Gather(Gather(NOTHING, ZERO), EVEN), ODD), ONE)
         == Gathered(false, Some(false), map[Finite(0) := "v0", Finite(TWO_53) := "p"], 1)
  {
    Collision();
    hide NumberOf;
  }

  lemma ZeroLate()
    ensures Gather(Gather(Gather(Gather(NOTHING, EVEN), ODD), ZERO), ONE)
        == Gathered(false, None, map[Finite(TWO_53) := "p"], 0)
  {
    Collision();
    hide NumberOf;
  }

  lemma RunOfTwo()
    ensures var elements := map[Finite(0) := "v0", Finite(1) := "v1", Finite(TWO_53) := "p"];
            RunEnd(elements, 2, 0) == 2 && Joined(elements, 2) == "v0v1"
  {
    var elements := map[Finite(0) := "v0", Finite(1) := "v1", Finite(TWO_53) := "p"];
    assert RunEnd(elements, 2, 1) == RunEnd(elements, 2, 2) == 2;
    assert Joined(elements, 1) == "" + "v0" == "v0";
  }

  lemma RunOfOne()
    ensures var elements := map[Finite(0) := "v0", Finite(TWO_53) := "p"];
            RunEnd(elements, 1, 0) == 1 && Joined(elements, 1) == "v0"
  {
    var elements := map[Finite(0) := "v0", Finite(TWO_53) := "p"];
    assert RunEnd(elements, 1, 1) == 1;
    assert Joined(elements, 1) == "" + "v0" == "v0";
  }
}
