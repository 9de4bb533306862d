/** The logger of packages/logger/src/logger.ts: lines buffered before initialization, a chain of writes, and
    retention. What is read back is what was emitted, in that order, less the oldest. */
module LogOrder {
  import opened LogStore

  /** A line as emitted; its suffix is drawn when it is written. */
  datatype Line = Line(timestamp: int, time: string, text: string, suffix: string)

  datatype Task = Persist(line: Line) | Cleanup

  datatype Limits = Limits(maxEntries: nat, retention: nat)

  const MAX_PENDING: nat := 1000

  /** The logger's fields and its storage; and all the lines ever emitted, how many of them before
      initialization, and how many of those written have been removed. */
  datatype Logger = Logger(
    initialized: bool, pending: seq<Line>, writes: seq<Task>, sequence: nat, entries: seq<Entry>,
    emitted: seq<Line>, early: nat, removed: nat)

  const NEW_LOGGER := Logger(false, [], [], 0, [], [], 0, 0)

  function Push(pending: seq<Line>, line: Line): seq<Line> {
    var longer := pending + [line];
    if |longer| > MAX_PENDING then longer[1..] else longer
  }

  function Emit(s: Logger, line: Line): Logger {
    var t := s.(emitted := s.emitted + [line]);
    if s.initialized then t.(writes := s.writes + [Persist(line)]) else t.(pending := Push(s.pending, line))
  }

  function Persists(lines: seq<Line>): (tasks: seq<Task>)
    ensures |tasks| == |lines| && forall i :: 0 <= i < |tasks| ==> tasks[i] == Persist(lines[i])
  {
    if lines == [] then [] else [Persist(lines[0])] + Persists(lines[1..])
  }

  function Initialize(s: Logger): Logger {
    if s.initialized then s
    else s.(initialized := true, pending := [], writes := s.writes + Persists(s.pending) + [Cleanup],
            early := |s.emitted|)
  }

  function EntryOf(line: Line, sequence: nat): Entry {
    Entry(line.timestamp, line.time, sequence, line.suffix, line.text)
  }

  /** The next write of the chain; a cleanup trims by age first, then by count. */
  function RunWrite(limits: Limits, s: Logger, now: int): Logger
    requires s.writes != []
  {
    var t := s.(writes := s.writes[1..]);
    match s.writes[0]
    case Persist(line) => t.(entries := Insert(s.entries, EntryOf(line, s.sequence)), sequence := s.sequence + 1)
    case Cleanup =>
      var kept := Newest(NewerThan(s.entries, now - limits.retention), limits.maxEntries);
      t.(entries := kept, removed := s.removed + |s.entries| - |kept|)
  }

  datatype Event = EmitLine(line: Line) | InitializeNow | CleanupDue | WriteNext(now: int)

  /** The clock does not go back, a time is always written the same way, and a session has fewer than 10^12
      lines. */
  predicate Follows(emitted: seq<Line>, line: Line) {
    && |emitted| + 1 < Pow10(WIDTH)
    && forall i :: 0 <= i < |emitted| ==>
         emitted[i].timestamp <= line.timestamp
             && (emitted[i].timestamp == line.timestamp ==> emitted[i].time == line.time)
  }

  predicate Enabled(s: Logger, e: Event) {
    match e
    case EmitLine(line) => Follows(s.emitted, line)
    case InitializeNow => true
    case CleanupDue => s.initialized
    case WriteNext(_) => s.writes != []
  }

  function Handle(limits: Limits, s: Logger, e: Event): Logger
    requires Enabled(s, e)
  {
    match e
    case EmitLine(line) => Emit(s, line)
    case InitializeNow => Initialize(s)
    case CleanupDue => s.(writes := s.writes + [Cleanup])
    case WriteNext(now) => RunWrite(limits, s, now)
  }

  function Run(limits: Limits, s: Logger, events: seq<Event>): Logger
    requires EnabledAll(limits, s, events)
    decreases |events|
  {
    if events == [] then s else Run(limits, Handle(limits, s, events[0]), events[1..])
  }

  predicate EnabledAll(limits: Limits, s: Logger, events: seq<Event>)
    decreases |events|
  {
    events == [] || (Enabled(s, events[0]) && EnabledAll(limits, Handle(limits, s, events[0]), events[1..]))
  }

  // What is to be kept

  /** How many of the first lines are never written. */
  function Skipped(s: Logger): nat {
    var n := if s.initialized then s.early else |s.emitted|;
    if n > MAX_PENDING then n - MAX_PENDING else 0
  }

  /** The last thousand lines from before initialization, and all since. */
  function Kept(s: Logger): seq<Line>
    requires s.early <= |s.emitted|
  {
    s.emitted[Skipped(s)..]
  }

  function LineOf(task: Task): seq<Line> {
    if task.Persist? then [task.line] else []
  }

  function LinesOf(tasks: seq<Task>): seq<Line> {
    if tasks == [] then [] else LineOf(tasks[0]) + LinesOf(tasks[1..])
  }

  /** The entries of lines from i up to j. */
  function Segment(lines: seq<Line>, i: nat, j: nat): (entries: seq<Entry>)
    requires i <= j <= |lines|
    ensures |entries| == j - i
    ensures forall p :: 0 <= p < |entries| ==> entries[p] == EntryOf(lines[i + p], i + p)
    decreases j - i
  {
    if i == j then [] else Segment(lines, i, j - 1) + [EntryOf(lines[j - 1], j - 1)]
  }

  ghost predicate InOrder(lines: seq<Line>) {
    |lines| < Pow10(WIDTH)
    && forall i, j :: 0 <= i < j < |lines| ==>
         lines[i].timestamp <= lines[j].timestamp
             && (lines[i].timestamp == lines[j].timestamp ==> lines[i].time == lines[j].time)
  }

  ghost predicate Inv(s: Logger) {
    && s.early <= |s.emitted| && InOrder(s.emitted)
    && (!s.initialized ==> s.pending == Kept(s) && s.writes == [] && s.sequence == 0)
    && s.removed <= s.sequence <= |Kept(s)|
    && s.entries == Segment(Kept(s), s.removed, s.sequence)
    && (s.initialized ==> s.pending == [] && LinesOf(s.writes) == Kept(s)[s.sequence..])
  }

  lemma {:induction false} LinesAppend(a: seq<Task>, b: seq<Task>)
    ensures LinesOf(a + b) == LinesOf(a) + LinesOf(b)
  {
    hide LineOf;
    if a == [] {
      assert a + b == b;
    } else {
      assert (a + b)[1..] == a[1..] + b;
      LinesAppend(a[1..], b);
      assert LineOf(a[0]) + (LinesOf(a[1..]) + LinesOf(b)) == LinesOf(a) + LinesOf(b);
    }
  }

  lemma LinesFirst(tasks: seq<Task>)
    requires tasks != []
    ensures LinesOf(tasks) == LineOf(tasks[0]) + LinesOf(tasks[1..])
  {
  }

  lemma {:induction false} LinesOfPersists(lines: seq<Line>)
    ensures LinesOf(Persists(lines)) == lines
  {
    if lines != [] {
      LinesOfPersists(lines[1..]);
    }
  }

  lemma SegmentMore(lines: seq<Line>, more: seq<Line>, i: nat, j: nat)
    requires i <= j <= |lines|
    ensures Segment(lines + more, i, j) == Segment(lines, i, j)
  {
  }

  lemma OrderKept(lines: seq<Line>, line: Line)
    requires InOrder(lines) && Follows(lines, line)
    ensures InOrder(lines + [line])
  {
  }

  lemma SegmentTail(lines: seq<Line>, i: nat, j: nat, k: nat)
    requires i + k <= j <= |lines|
    ensures Segment(lines, i, j)[k..] == Segment(lines, i + k, j)
  {
  }

  lemma EmitKeeps(s: Logger, line: Line)
    requires Inv(s) && Follows(s.emitted, line)
    ensures Inv(Emit(s, line))
  {
    hide LinesOf, InOrder;
    var t := Emit(s, line);
    OrderKept(s.emitted, line);
    if s.initialized {
      assert Kept(t) == Kept(s) + [line];
      SegmentMore(Kept(s), [line], s.removed, s.sequence);
      LinesAppend(s.writes, [Persist(line)]);
      OneLine(line);
      assert Kept(t)[s.sequence..] == Kept(s)[s.sequence..] + [line];
    } else {
      assert Push(s.pending, line) == Kept(t);
    }
  }

  lemma OneLine(line: Line)
    ensures LinesOf([Persist(line)]) == [line] && LinesOf([Cleanup]) == [] && LinesOf([]) == []
  {
    assert [Persist(line)][1..] == [] && [Cleanup][1..] == [];
  }

  lemma InitializeKeeps(s: Logger)
    requires Inv(s)
    ensures Inv(Initialize(s))
  {
    hide LinesOf;
    if !s.initialized {
      var t := Initialize(s);
      assert Kept(t) == Kept(s);
      LinesAppend(s.writes + Persists(s.pending), [Cleanup]);
      LinesAppend(s.writes, Persists(s.pending));
      LinesOfPersists(s.pending);
      if s.emitted != [] {
        OneLine(s.emitted[0]);
      } else {
        OneLine(Line(0, "", "", ""));
      }
      assert [] + s.pending + [] == s.pending == Kept(s)[0..];
    }
  }

  lemma DueKeeps(s: Logger)
    requires Inv(s) && s.initialized
    ensures Inv(s.(writes := s.writes + [Cleanup]))
  {
    hide InOrder, Segment, LinesOf;
    LinesAppend(s.writes, [Cleanup]);
    OneLine(Line(0, "", "", ""));
    assert LinesOf(s.writes) + [] == LinesOf(s.writes);
  }

  /** The entry of a new line goes last. */
  lemma PersistKeeps(limits: Limits, s: Logger, now: int)
    requires Inv(s) && s.writes != [] && s.writes[0].Persist?
    ensures Inv(RunWrite(limits, s, now))
  {
    hide IndexLess, Insert, InOrder, Kept;
    SameKept(s, RunWrite(limits, s, now));
    var lines, n := Kept(s), s.sequence;
    var line := s.writes[0].line;
    assert LinesOf(s.writes) == [line] + LinesOf(s.writes[1..]);
    assert lines[n..][0] == line && lines[n..][1..] == lines[n + 1..] == LinesOf(s.writes[1..]);
    var e := EntryOf(line, n);
    forall p | 0 <= p < |s.entries|
      ensures !IndexLess(e, s.entries[p])
    {
      EarlierEntry(s, p, n);
    }
    InsertLast(s.entries, e);
    assert Segment(lines, s.removed, n + 1) == Segment(lines, s.removed, n) + [e];
  }

  lemma EarlierEntry(s: Logger, p: nat, n: nat)
    requires s.early <= |s.emitted| && InOrder(s.emitted) && s.removed + p < n < |Kept(s)|
    ensures !IndexLess(EntryOf(Kept(s)[n], n), EntryOf(Kept(s)[s.removed + p], s.removed + p))
  {
    hide Less;
    var a, b := EntryOf(Kept(s)[s.removed + p], s.removed + p), EntryOf(Kept(s)[n], n);
    assert Kept(s)[s.removed + p] == s.emitted[Skipped(s) + s.removed + p];
    assert Kept(s)[n] == s.emitted[Skipped(s) + n];
    LaterInIndex(a, b);
    if a.timestamp == b.timestamp {
      LessAsymmetric(a.Id(), b.Id());
    }
  }

  lemma {:induction false} NewerIsSuffix(entries: seq<Entry>, cutoff: int)
    ensures var kept := NewerThan(entries, cutoff);
            |kept| <= |entries| && kept == entries[|entries| - |kept|..]
  {
    if entries != [] && entries[0].timestamp <= cutoff {
      NewerIsSuffix(entries[1..], cutoff);
    }
  }

  lemma CleanupKeeps(limits: Limits, s: Logger, now: int)
    requires Inv(s) && s.writes != [] && s.writes[0].Cleanup?
    ensures Inv(RunWrite(limits, s, now))
  {
    hide InOrder, Segment, NewerThan, Kept, LinesOf;
    var newer := NewerThan(s.entries, now - limits.retention);
    NewerIsSuffix(s.entries, now - limits.retention);
    var kept := Newest(newer, limits.maxEntries);
    var k := |s.entries| - |kept|;
    assert kept == s.entries[k..];
    SegmentTail(Kept(s), s.removed, s.sequence, k);
    LinesFirst(s.writes);
    assert [] + LinesOf(s.writes[1..]) == LinesOf(s.writes[1..]);
    assert Kept(RunWrite(limits, s, now)) == Kept(s) by {
      SameKept(s, RunWrite(limits, s, now));
    }
  }

  lemma SameKept(s: Logger, t: Logger)
    requires s.initialized == t.initialized && s.emitted == t.emitted && s.early == t.early <= |s.emitted|
    ensures Kept(s) == Kept(t)
  {
  }

  lemma HandleKeeps(limits: Limits, s: Logger, e: Event)
    requires Inv(s) && Enabled(s, e)
    ensures Inv(Handle(limits, s, e))
  {
    hide Inv, Emit, Initialize, RunWrite;
    match e
    case EmitLine(line) => EmitKeeps(s, line);
    case InitializeNow => InitializeKeeps(s);
    case CleanupDue => DueKeeps(s);
    case WriteNext(now) =>
      if s.writes[0].Persist? {
        PersistKeeps(limits, s, now);
      } else {
        CleanupKeeps(limits, s, now);
      }
  }

  lemma {:induction false} RunKeeps(limits: Limits, s: Logger, events: seq<Event>)
    requires Inv(s) && EnabledAll(limits, s, events)
    ensures Inv(Run(limits, s, events))
    decreases |events|
  {
    hide Inv, Handle, Enabled;
    if events != [] {
      HandleKeeps(limits, s, events[0]);
      RunKeeps(limits, Handle(limits, s, events[0]), events[1..]);
    }
  }

  /** Whatever has happened, the store reads back a stretch of the lines to be kept, in the order in which they
      were emitted: from the first not yet removed to the last written. */
  lemma ReadBackInOrder(limits: Limits, events: seq<Event>)
    requires EnabledAll(limits, NEW_LOGGER, events)
    ensures var s := Run(limits, NEW_LOGGER, events);
            && s.early <= |s.emitted| && s.removed <= s.sequence <= |Kept(s)|
            && |s.entries| == s.sequence - s.removed
            && (forall p :: 0 <= p < |s.entries| ==> s.entries[p].line == Kept(s)[s.removed + p].text)
            && (s.initialized && s.writes == [] ==> s.sequence == |Kept(s)|)
  {
    hide Run;
    assert Inv(NEW_LOGGER) by {
      NewInv();
    }
    RunKeeps(limits, NEW_LOGGER, events);
    var s := Run(limits, NEW_LOGGER, events);
    if s.initialized && s.writes == [] {
      assert LinesOf(s.writes) == [];
      assert |Kept(s)[s.sequence..]| == |Kept(s)| - s.sequence;
    }
  }

  lemma NewInv()
    ensures Inv(NEW_LOGGER)
  {
    assert Pow10(WIDTH) >= 1;
  }

  /** A cleanup keeps exactly the newest of the entries newer than the cutoff, as many as are allowed. */
  lemma CleanupKeepsNewest(limits: Limits, events: seq<Event>, now: int, p: nat)
    requires EnabledAll(limits, NEW_LOGGER, events)
    requires var s := Run(limits, NEW_LOGGER, events);
             s.writes != [] && s.writes[0].Cleanup? && p < |s.entries|
    ensures var s := Run(limits, NEW_LOGGER, events);
            var kept := RunWrite(limits, s, now).entries;
            var k := |s.entries| - |kept|;
            && 0 <= k && kept == s.entries[k..] && |kept| <= limits.maxEntries
            && (p >= k ==> s.entries[p].timestamp > now - limits.retention)
            && (p < k ==> s.entries[p].timestamp <= now - limits.retention || |kept| == limits.maxEntries)
  {
    hide Run, Inv, RunWrite, NewerThan, Newest;
    NewInv();
    RunKeeps(limits, NEW_LOGGER, events);
    var s := Run(limits, NEW_LOGGER, events);
    NewerIsExact(s, now - limits.retention, p);
    CleanedUp(limits, s, now);
    NewestOf(NewerThan(s.entries, now - limits.retention), limits.maxEntries);
    NewerIsSuffix(s.entries, now - limits.retention);
  }

  lemma CleanedUp(limits: Limits, s: Logger, now: int)
    requires s.writes != [] && s.writes[0].Cleanup?
    ensures RunWrite(limits, s, now).entries == Newest(NewerThan(s.entries, now - limits.retention), limits.maxEntries)
  {
  }

  lemma NewestOf(entries: seq<Entry>, max: nat)
    ensures var kept := Newest(entries, max);
            |kept| <= max && kept == entries[|entries| - |kept|..] && (|kept| < |entries| ==> |kept| == max)
  {
  }

  lemma NewerIsExact(s: Logger, cutoff: int, p: nat)
    requires Inv(s) && p < |s.entries|
    ensures s.entries[p].timestamp > cutoff <==> p >= |s.entries| - |NewerThan(s.entries, cutoff)|
  {
    forall i, j | 0 <= i < j < |s.entries|
      ensures s.entries[i].timestamp <= s.entries[j].timestamp
    {
      assert Kept(s)[s.removed + i] == s.emitted[Skipped(s) + s.removed + i];
      assert Kept(s)[s.removed + j] == s.emitted[Skipped(s) + s.removed + j];
    }
    SortedNewer(s.entries, cutoff, p);
  }

  lemma {:induction false} SortedNewer(entries: seq<Entry>, cutoff: int, p: nat)
    requires p < |entries| && forall i, j :: 0 <= i < j < |entries| ==> entries[i].timestamp <= entries[j].timestamp
    ensures |NewerThan(entries, cutoff)| <= |entries|
    ensures entries[p].timestamp > cutoff <==> p >= |entries| - |NewerThan(entries, cutoff)|
  {
    NewerIsSuffix(entries, cutoff);
    if entries[0].timestamp <= cutoff {
      NewerIsSuffix(entries[1..], cutoff);
      if p > 0 {
        SortedNewer(entries[1..], cutoff, p - 1);
      }
    }
  }

  // The object

  class PersistentLogger {
    const limits: Limits
    const storage: LogStorage
    var initialized: bool
    var pending: seq<Line>
    var writes: seq<Task>
    var sequence: nat
    ghost var emitted: seq<Line>
    ghost var early: nat
    ghost var removed: nat

    ghost function State(): Logger
      reads this, storage
    {
      Logger(initialized, pending, writes, sequence, storage.entries, emitted, early, removed)
    }

    constructor (limits: Limits, storage: LogStorage)
      requires storage.entries == []
      ensures this.limits == limits && this.storage == storage && State() == NEW_LOGGER
    {
      this.limits, this.storage := limits, storage;
      initialized, pending, writes, sequence := false, [], [], 0;
      emitted, early, removed := [], 0, 0;
    }

    method EmitLine(line: Line)
      modifies this
      ensures State() == Emit(old(State()), line)
    {
      emitted := emitted + [line];
      if !initialized {
        pending := pending + [line];
        if |pending| > MAX_PENDING {
          pending := pending[1..];
        }
        return;
      }
      writes := writes + [Persist(line)];
    }

    method InitializeLogger()
      modifies this
      ensures State() == Initialize(old(State()))
    {
      if initialized {
        return;
      }
      initialized := true;
      early := |emitted|;
      writes := writes + Persists(pending) + [Cleanup];
      pending := [];
    }

    /** Runs the next task of the chain. */
    method RunNextWrite(now: int)
      requires writes != []
      modifies this, storage
      ensures State() == RunWrite(limits, old(State()), now)
    {
      hide Insert, NewerThan;
      var task := writes[0];
      writes := writes[1..];
      match task {
        case Persist(line) =>
          storage.Store(EntryOf(line, sequence));
          sequence := sequence + 1;
        case Cleanup =>
          TrimStorage(now);
      }
    }

    /** Trims by age first, then by count. */
    method TrimStorage(now: int)
      modifies this`removed, storage
      ensures storage.entries == Newest(NewerThan(old(storage.entries), now - limits.retention), limits.maxEntries)
      ensures removed == old(removed) + |old(storage.entries)| - |storage.entries|
    {
      hide NewerThan;
      ghost var before := |storage.entries|;
      var aged := storage.RemoveOlderThan(now - limits.retention);
      var count := |storage.entries|;
      if count > limits.maxEntries {
        storage.RemoveOldest(count - limits.maxEntries);
      }
      removed := removed + before - |storage.entries|;
    }
  }
}
