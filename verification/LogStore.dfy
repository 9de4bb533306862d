/** The log storage of packages/logger/src/storage.ts and the write order of packages/logger/src/logger.ts: an
    index sorted by time and then by key, and why it reads back in the order of emission. */
module LogStore {

  // Keys

  function DigitChar(d: nat): char
    requires d < 10
  {
    ('0' as int + d) as char
  }

  /** The decimal digits of n, padded on the left with zeros to the given width, n fitting. */
  function Padded(n: nat, width: nat): (s: string)
    ensures |s| == width
  {
    if width == 0 then "" else Padded(n / 10, width - 1) + [DigitChar(n % 10)]
  }

  /** Strings as the database compares them. */
  predicate Less(a: string, b: string) {
    b != "" && (a == "" || a[0] < b[0] || (a[0] == b[0] && Less(a[1..], b[1..])))
  }

  function Pow10(k: nat): (p: nat)
    ensures p >= 1
  {
    if k == 0 then 1 else 10 * Pow10(k - 1)
  }

  lemma {:induction false} LessAppend(a: string, b: string, c: string, d: string)
    requires |a| == |b| && Less(a, b)
    ensures Less(a + c, b + d)
  {
    assert (a + c)[0] == a[0] && (b + d)[0] == b[0];
    if !(a[0] < b[0]) {
      LessAppend(a[1..], b[1..], c, d);
      assert (a + c)[1..] == a[1..] + c && (b + d)[1..] == b[1..] + d;
    }
  }

  lemma {:induction false} LessPrefix(p: string, c: string, d: string)
    ensures Less(p + c, p + d) == Less(c, d)
  {
    if p == "" {
      assert p + c == c && p + d == d;
    } else {
      assert (p + c)[1..] == p[1..] + c && (p + d)[1..] == p[1..] + d;
      LessPrefix(p[1..], c, d);
    }
  }

  /** Numbers of a fixed width compare as strings the way they do as numbers. */
  lemma {:induction false} PaddedOrder(m: nat, n: nat, width: nat)
    requires m < n < Pow10(width)
    ensures Less(Padded(m, width), Padded(n, width))
    decreases width
  {
    if m / 10 < n / 10 {
      TenthFits(n, width);
      PaddedOrder(m / 10, n / 10, width - 1);
      LessAppend(Padded(m / 10, width - 1), Padded(n / 10, width - 1), [DigitChar(m % 10)], [DigitChar(n % 10)]);
    } else {
      assert m / 10 == n / 10 && m % 10 < n % 10;
      LessPrefix(Padded(m / 10, width - 1), [DigitChar(m % 10)], [DigitChar(n % 10)]);
    }
  }

  lemma TenthFits(n: nat, width: nat)
    requires n < Pow10(width) && width > 0
    ensures n / 10 < Pow10(width - 1)
  {
  }

  const WIDTH: nat := 12

  /** A stored line: its time as number and as text, its place in the session, its random suffix, its contents. */
  datatype Entry = Entry(timestamp: int, time: string, sequence: nat, suffix: string, line: string) {
    function Id(): string {
      (time + "-") + (Padded(sequence, WIDTH) + ("-" + suffix))
    }
  }

  /** The order of the by-timestamp index: by time, then by primary key. */
  predicate IndexLess(a: Entry, b: Entry) {
    a.timestamp < b.timestamp || (a.timestamp == b.timestamp && Less(a.Id(), b.Id()))
  }

  /** The same time is written the same way. */
  predicate SameTimeText(a: Entry, b: Entry) {
    a.timestamp == b.timestamp ==> a.time == b.time
  }

  /** Later in a session, and no earlier by the clock, is later in the index. */
  lemma LaterInIndex(a: Entry, b: Entry)
    requires a.timestamp <= b.timestamp && SameTimeText(a, b) && a.sequence < b.sequence < Pow10(WIDTH)
    ensures IndexLess(a, b)
  {
    if a.timestamp == b.timestamp {
      PaddedOrder(a.sequence, b.sequence, WIDTH);
      LessAppend(Padded(a.sequence, WIDTH), Padded(b.sequence, WIDTH), "-" + a.suffix, "-" + b.suffix);
      LessPrefix(a.time + "-", Padded(a.sequence, WIDTH) + ("-" + a.suffix),
                 Padded(b.sequence, WIDTH) + ("-" + b.suffix));
    }
  }

  // The store

  /** An entry put where the index has it. */
  function Insert(entries: seq<Entry>, e: Entry): seq<Entry> {
    if entries == [] || IndexLess(e, entries[0]) then [e] + entries
    else [entries[0]] + Insert(entries[1..], e)
  }

  lemma {:induction false} InsertLast(entries: seq<Entry>, e: Entry)
    requires forall i :: 0 <= i < |entries| ==> !IndexLess(e, entries[i])
    ensures Insert(entries, e) == entries + [e]
  {
    hide IndexLess;
    if entries != [] {
      InsertLast(entries[1..], e);
      assert [entries[0]] + (entries[1..] + [e]) == entries + [e];
    }
  }

  lemma {:induction false} LessAsymmetric(a: string, b: string)
    requires Less(a, b)
    ensures !Less(b, a)
    decreases |a|
  {
    if a != "" && a[0] == b[0] {
      LessAsymmetric(a[1..], b[1..]);
    }
  }

  /** The entries that are newer than the cutoff, in a store read in time order. */
  function NewerThan(entries: seq<Entry>, cutoff: int): (kept: seq<Entry>)
    ensures |kept| <= |entries|
  {
    if entries == [] || entries[0].timestamp > cutoff then entries else NewerThan(entries[1..], cutoff)
  }

  function Newest(entries: seq<Entry>, max: nat): (kept: seq<Entry>)
    ensures |kept| <= |entries|
  {
    if |entries| <= max then entries else entries[|entries| - max..]
  }

  class LogStorage {
    var entries: seq<Entry>

    constructor ()
      ensures entries == []
    {
      entries := [];
    }

    method Store(e: Entry)
      modifies this
      ensures entries == Insert(old(entries), e)
    {
      entries := Insert(entries, e);
    }

    /** Walks the index from the oldest entry, deleting as it goes. */
    method RemoveOldest(count: int)
      modifies this
      ensures var first := if count <= 0 then 0 else if count <= |old(entries)| then count else |old(entries)|;
              entries == old(entries)[first..]
    {
      if count <= 0 {
        return;
      }
      var removed := 0;
      ghost var all := entries;
      while entries != []
        invariant removed <= count && removed <= |all| && entries == all[removed..]
        decreases |entries|
      {
        if removed >= count {
          break;
        }
        entries := entries[1..];
        removed := removed + 1;
      }
    }

    /** Walks the index up to the given time. */
    method RemoveOlderThan(timestamp: int) returns (removed: nat)
      modifies this
      ensures entries == NewerThan(old(entries), timestamp) && removed == |old(entries)| - |entries|
    {
      removed := 0;
      while entries != [] && entries[0].timestamp <= timestamp
        invariant NewerThan(entries, timestamp) == NewerThan(old(entries), timestamp)
        invariant removed == |old(entries)| - |entries|
        decreases |entries|
      {
        entries := entries[1..];
        removed := removed + 1;
      }
    }
  }
}
