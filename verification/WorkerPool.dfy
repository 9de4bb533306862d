/** The worker pool of packages/crypto/src/proxy/endpoint/workerPool/getWorkerPool.ts over the key stores of its
    workers, as a transition system. */
module WorkerPool {
  // Every worker takes its messages in the order in which they were sent, but an import takes its time, so that
  // its key may go in after later messages have been dealt with.

  import opened KeyStores
  import opened Results

  /** A key being added: its identifier once the first worker has given it one, and the workers that have yet to
      take the key. */
  datatype Adding = Adding(key: Key, idx: Option<nat>, waiting: set<nat>)

  /** A message sent, with the keys of the single store and the references known when it was sent. */
  datatype Entry = Entry(command: Command, before: map<nat, Key>, known: set<nat>)

  /** A worker's store, and how many of the messages it has dealt with. */
  datatype Worker = Worker(store: Store, done: nat)

  /** The pool, beside the single store that it is to look like. */
  datatype Pool = Pool(workers: seq<Worker>, adds: map<nat, Adding>, log: seq<Entry>, answers: map<nat, Option<Key>>,
                       single: map<nat, Key>, known: set<nat>, failed: bool)

  datatype Step =
    | Start(op: nat, key: Key)
    | FirstTakes(op: nat)
    | FirstRefuses(op: nat)
    | OtherTakes(op: nat, worker: nat)
    | Return(op: nat)
    | Send(command: Command)
    | Handle(worker: nat)

  predicate IsInitial(s: Pool) {
    && |s.workers| >= 1
    && (forall w :: 0 <= w < |s.workers| ==> s.workers[w].store.keys == map[] && s.workers[w].done == 0)
    && s.adds == map[] && s.log == [] && s.answers == map[] && s.single == map[] && s.known == {} && !s.failed
  }

  /** No worker has yet to clear its whole store. */
  predicate NoClearPending(s: Pool) {
    forall w, p :: 0 <= w < |s.workers| && s.workers[w].done <= p < |s.log| ==> s.log[p].command != ClearAll
  }

  /** The references a command uses are ones that the application has been given. */
  predicate Uses(c: Command, known: set<nat>) {
    match c
    case Clear(idx) => idx in known
    case ClearAll => true
    case ReplaceUserIDs(source, target) => source in known && target in known
    case Read(idx, _) => idx in known
  }

  /** When a step can be taken. */
  predicate Enabled(s: Pool, step: Step) {
    match step
    case Start(op, _) => op !in s.adds
    case FirstTakes(op) => |s.workers| > 0 && op in s.adds && s.adds[op].idx.None?
    case FirstRefuses(op) => op in s.adds && s.adds[op].idx.None?
    case OtherTakes(op, w) => op in s.adds && s.adds[op].idx.Some? && w in s.adds[op].waiting && w < |s.workers|
    case Return(op) => op in s.adds && s.adds[op].idx.Some? && s.adds[op].waiting == {}
    case Send(c) => Uses(c, s.known)
    case Handle(w) => w < |s.workers| && s.workers[w].done < |s.log|
  }

  /** Clearing the key store and adding a key do not overlap. */
  predicate Apart(s: Pool, step: Step) {
    match step
    case Start(_, _) => NoClearPending(s)
    case Send(c) => c == ClearAll ==> s.adds == map[]
    case _ => true
  }

  /** All workers but the first. */
  function Others(n: nat): (ws: set<nat>)
    ensures forall w :: w in ws <==> 1 <= w < n
  {
    if n <= 1 then {} else Others(n - 1) + {n - 1}
  }

  /** The worker's share of an addition; the pool has failed if the identifier is taken. */
  function TakeKey(s: Pool, w: nat, op: nat, adding: Adding, customIdx: Option<nat>): Pool
    requires w < |s.workers|
  {
    match Add(s.workers[w].store, adding.key, customIdx)
    case Failure(_) => s.(failed := true)
    case Success(store) => s.(workers := s.workers[w := s.workers[w].(store := store)], adds := s.adds[op := adding])
  }

  function Take(s: Pool, step: Step): Pool
    requires Enabled(s, step)
  {
    match step
    case Start(op, key) => s.(adds := s.adds[op := Adding(key, None, {})])
    case FirstTakes(op) =>
      TakeKey(s, 0, op, s.adds[op].(idx := Some(s.workers[0].store.nextIdx), waiting := Others(|s.workers|)), None)
    case FirstRefuses(op) => s.(adds := s.adds - {op})
    case OtherTakes(op, w) =>
      TakeKey(s, w, op, s.adds[op].(waiting := s.adds[op].waiting - {w}), s.adds[op].idx)
    case Return(op) =>
      var idx := s.adds[op].idx.value;
      s.(adds := s.adds - {op}, single := s.single[idx := s.adds[op].key], known := s.known + {idx})
    case Send(c) =>
      s.(log := s.log + [Entry(c, s.single, s.known)], single := Apply(s.single, c))
    case Handle(w) =>
      var worker := s.workers[w];
      var c := s.log[worker.done].command;
      var store := worker.store.(keys := Apply(worker.store.keys, c));
      s.(workers := s.workers[w := Worker(store, worker.done + 1)],
         answers := if c.Read? && c.worker == w then s.answers[worker.done := Lookup(worker.store.keys, c.idx)]
                    else s.answers)
  }

  function Run(s: Pool, steps: seq<Step>): (r: Option<Pool>)
    decreases |steps|
  {
    if steps == [] then Some(s)
    else if Enabled(s, steps[0]) then Run(Take(s, steps[0]), steps[1..])
    else None
  }

  /** The steps can be taken, and none of them overlaps in that way. */
  predicate KeepsApart(s: Pool, steps: seq<Step>)
    decreases |steps|
  {
    steps == [] || (Enabled(s, steps[0]) && Apart(s, steps[0]) && KeepsApart(Take(s, steps[0]), steps[1..]))
  }

  // Looking ahead

  /** The keys after the messages from p up to q. */
  function Replay(keys: map<nat, Key>, log: seq<Entry>, p: nat, q: nat): map<nat, Key>
    requires p <= q <= |log|
    decreases q - p
  {
    if p == q then keys else Apply(Replay(keys, log, p, q - 1), log[q - 1].command)
  }

  function BeforeAt(s: Pool, q: nat): map<nat, Key>
    requires q <= |s.log|
  {
    if q == |s.log| then s.single else s.log[q].before
  }

  function KnownAt(s: Pool, q: nat): set<nat>
    requires q <= |s.log|
  {
    if q == |s.log| then s.known else s.log[q].known
  }

  /** Two stores hold the same under the given references. */
  ghost predicate SameAt(a: map<nat, Key>, b: map<nat, Key>, refs: set<nat>) {
    forall i :: i in refs ==> Lookup(a, i) == Lookup(b, i)
  }

  /** Worker w, once it has caught up to message q, will hold what the single store held then. */
  ghost predicate Agrees(s: Pool, w: nat, q: nat)
    requires w < |s.workers| && s.workers[w].done <= q <= |s.log|
  {
    SameAt(Replay(s.workers[w].store.keys, s.log, s.workers[w].done, q), BeforeAt(s, q), KnownAt(s, q))
  }

  ghost predicate InUse(s: Pool, idx: nat) {
    idx in s.known || exists op :: op in s.adds && s.adds[op].idx == Some(idx)
  }

  ghost predicate WorkerOk(s: Pool, w: nat)
    requires w < |s.workers|
  {
    var worker := s.workers[w];
    && worker.done <= |s.log|
    && (forall q :: worker.done <= q <= |s.log| ==> Agrees(s, w, q))
    && (forall i :: i in worker.store.keys ==> InUse(s, i))
  }

  ghost predicate AddingOk(s: Pool, op: nat)
    requires op in s.adds && |s.workers| > 0
  {
    var a := s.adds[op];
    && (a.idx.None? ==> a.waiting == {})
    && (a.idx.Some? ==>
        && a.idx.value < s.workers[0].store.nextIdx && a.idx.value !in s.known
        && (forall w :: w in a.waiting ==> 1 <= w < |s.workers|)
        && (forall w :: 0 <= w < |s.workers| ==>
            Lookup(s.workers[w].store.keys, a.idx.value) == if w in a.waiting then None else Some(a.key))
        && (forall o :: o in s.adds && o != op ==> s.adds[o].idx != a.idx))
  }

  /** The message was a read, and got what the single store held when it was sent. */
  ghost predicate AnswerOk(s: Pool, p: nat)
    requires p in s.answers
  {
    p < |s.log| && s.log[p].command.Read? && s.answers[p] == Lookup(s.log[p].before, s.log[p].command.idx)
  }

  ghost predicate Inv(s: Pool) {
    && |s.workers| >= 1 && !s.failed
    && (forall w :: 0 <= w < |s.workers| ==> WorkerOk(s, w))
    && (forall i :: i in s.known ==> i < s.workers[0].store.nextIdx)
    && s.single.Keys <= s.known
    && (forall op :: op in s.adds ==> AddingOk(s, op))
    && (s.adds != map[] ==> NoClearPending(s))
    && (forall q :: 0 <= q < |s.log| ==> s.log[q].known <= s.known && Uses(s.log[q].command, s.log[q].known))
    && (forall p :: p in s.answers ==> AnswerOk(s, p))
  }

  // Commands and keys that have nothing to do with each other

  predicate Touches(c: Command, idx: nat) {
    match c
    case Clear(i) => i == idx
    case ClearAll => true
    case ReplaceUserIDs(source, target) => source == idx || target == idx
    case Read(_, _) => false
  }

  lemma UsesOthers(c: Command, known: set<nat>, idx: nat)
    requires Uses(c, known) && idx !in known && c != ClearAll
    ensures !Touches(c, idx)
  {
  }

  /** No message from p up to q touches the reference. */
  ghost predicate Untouched(log: seq<Entry>, p: nat, q: nat, idx: nat)
    requires q <= |log|
  {
    forall k :: p <= k < q ==> !Touches(log[k].command, idx)
  }

  lemma ApplySame(a: map<nat, Key>, b: map<nat, Key>, c: Command, refs: set<nat>)
    requires SameAt(a, b, refs) && Uses(c, refs)
    ensures SameAt(Apply(a, c), Apply(b, c), refs)
  {
    match c
    case ReplaceUserIDs(source, target) =>
      assert Lookup(a, source) == Lookup(b, source) && Lookup(a, target) == Lookup(b, target);
    case _ =>
  }

  lemma {:induction false} ReplayMore(keys: map<nat, Key>, log: seq<Entry>, e: Entry, p: nat, q: nat)
    requires p <= q <= |log|
    ensures Replay(keys, log + [e], p, q) == Replay(keys, log, p, q)
    decreases q - p
  {
    if p < q {
      ReplayMore(keys, log, e, p, q - 1);
    }
  }

  lemma {:induction false} ReplayFirst(keys: map<nat, Key>, log: seq<Entry>, p: nat, q: nat)
    requires p < q <= |log|
    ensures Replay(Apply(keys, log[p].command), log, p + 1, q) == Replay(keys, log, p, q)
    decreases q - p
  {
    hide Apply;
    if q > p + 1 {
      ReplayFirst(keys, log, p, q - 1);
    } else {
      assert Replay(keys, log, p, p) == keys;
    }
  }

  lemma ApplyAdd(keys: map<nat, Key>, c: Command, idx: nat, key: Key)
    requires !Touches(c, idx)
    ensures Apply(keys[idx := key], c) == Apply(keys, c)[idx := key]
  {
  }

  lemma {:induction false} ReplayAdd(keys: map<nat, Key>, log: seq<Entry>, p: nat, q: nat, idx: nat, key: Key)
    requires p <= q <= |log| && Untouched(log, p, q, idx)
    ensures Replay(keys[idx := key], log, p, q) == Replay(keys, log, p, q)[idx := key]
    decreases q - p
  {
    hide Apply;
    if p < q {
      ReplayAdd(keys, log, p, q - 1, idx, key);
      ApplyAdd(Replay(keys, log, p, q - 1), log[q - 1].command, idx, key);
    }
  }

  lemma {:induction false} ReplayUntouched(keys: map<nat, Key>, log: seq<Entry>, p: nat, q: nat, idx: nat)
    requires p <= q <= |log| && Untouched(log, p, q, idx)
    ensures Lookup(Replay(keys, log, p, q), idx) == Lookup(keys, idx)
    decreases q - p
  {
    if p < q {
      ReplayUntouched(keys, log, p, q - 1, idx);
    }
  }

  /** While a key is being added, no message still to be dealt with touches its reference. */
  lemma PendingUntouched(s: Pool, w: nat, idx: nat)
    requires Inv(s) && w < |s.workers| && NoClearPending(s) && idx !in s.known
    ensures s.workers[w].done <= |s.log| && Untouched(s.log, s.workers[w].done, |s.log|, idx)
  {
    assert WorkerOk(s, w);
    forall k | s.workers[w].done <= k < |s.log|
      ensures !Touches(s.log[k].command, idx)
    {
      UsesOthers(s.log[k].command, s.log[k].known, idx);
    }
  }

  // Every step keeps the invariant

  /** A step that leaves workers, messages and single store alone leaves the workers in agreement. */
  lemma WorkersKept(s: Pool, t: Pool)
    requires t.workers == s.workers && t.log == s.log && t.single == s.single && t.known == s.known
    requires forall w :: 0 <= w < |s.workers| ==> WorkerOk(s, w)
    requires forall i :: InUse(s, i) ==> InUse(t, i)
    ensures forall w :: 0 <= w < |t.workers| ==> WorkerOk(t, w)
  {
    hide InUse;
    forall w | 0 <= w < |t.workers|
      ensures WorkerOk(t, w)
    {
      assert WorkerOk(s, w);
      forall q | t.workers[w].done <= q <= |t.log|
        ensures Agrees(t, w, q)
      {
        assert Agrees(s, w, q);
      }
    }
  }

  /** References in use stay so while the addition that holds them goes on. */
  lemma InUseKept(s: Pool, t: Pool)
    requires t.known == s.known
    requires forall o :: o in s.adds && s.adds[o].idx.Some? ==> o in t.adds && t.adds[o].idx == s.adds[o].idx
    ensures forall i :: InUse(s, i) ==> InUse(t, i)
  {
    forall i | InUse(s, i)
      ensures InUse(t, i)
    {
      if i !in s.known {
        var o :| o in s.adds && s.adds[o].idx == Some(i);
        assert t.adds[o].idx == Some(i);
      }
    }
  }

  lemma StartKeeps(s: Pool, op: nat, key: Key)
    requires Inv(s) && Enabled(s, Start(op, key)) && Apart(s, Start(op, key))
    ensures Inv(Take(s, Start(op, key)))
  {
    hide WorkerOk, InUse;
    var t := Take(s, Start(op, key));
    InUseKept(s, t);
    WorkersKept(s, t);
    forall o | o in t.adds
      ensures AddingOk(t, o)
    {
      if o != op {
        assert AddingOk(s, o);
      }
    }
    AnswersKept(s, t);
  }

  lemma RefuseKeeps(s: Pool, op: nat)
    requires Inv(s) && Enabled(s, FirstRefuses(op))
    ensures Inv(Take(s, FirstRefuses(op)))
  {
    hide WorkerOk, InUse;
    var t := Take(s, FirstRefuses(op));
    InUseKept(s, t);
    WorkersKept(s, t);
    forall o | o in t.adds
      ensures AddingOk(t, o)
    {
      assert AddingOk(s, o);
    }
    AnswersKept(s, t);
  }

  lemma AnswersKept(s: Pool, t: Pool)
    requires t.log == s.log && t.answers == s.answers && forall p :: p in s.answers ==> AnswerOk(s, p)
    ensures forall p :: p in t.answers ==> AnswerOk(t, p)
  {
    forall p | p in t.answers
      ensures AnswerOk(t, p)
    {
      assert AnswerOk(s, p);
    }
  }

  /** Worker w has taken a key under a reference that no message touches. */
  lemma WorkerTakes(s: Pool, t: Pool, w: nat, idx: nat, key: Key)
    requires w < |s.workers| && WorkerOk(s, w) && |t.workers| == |s.workers|
    requires t.log == s.log && t.single == s.single && t.known == s.known
    requires t.workers[w].done == s.workers[w].done && t.workers[w].store.keys == s.workers[w].store.keys[idx := key]
    requires Untouched(s.log, s.workers[w].done, |s.log|, idx)
    requires idx !in s.known && forall q :: 0 <= q < |s.log| ==> s.log[q].known <= s.known
    requires (forall i :: InUse(s, i) ==> InUse(t, i)) && InUse(t, idx)
    ensures WorkerOk(t, w)
  {
    hide InUse;
    var p := s.workers[w].done;
    forall q | p <= q <= |t.log|
      ensures Agrees(t, w, q)
    {
      assert Agrees(s, w, q);
      assert Untouched(s.log, p, q, idx);
      ReplayAdd(s.workers[w].store.keys, s.log, p, q, idx, key);
      assert idx !in KnownAt(s, q);
    }
  }

  lemma WorkerSame(s: Pool, t: Pool, w: nat)
    requires w < |s.workers| && WorkerOk(s, w) && |t.workers| == |s.workers| && t.workers[w] == s.workers[w]
    requires t.log == s.log && t.single == s.single && t.known == s.known
    requires forall i :: InUse(s, i) ==> InUse(t, i)
    ensures WorkerOk(t, w)
  {
    hide InUse;
    forall q | t.workers[w].done <= q <= |t.log|
      ensures Agrees(t, w, q)
    {
      assert Agrees(s, w, q);
    }
  }

  /** A fresh identifier is one that no worker has a key under. */
  lemma FreshIdx(s: Pool, w: nat)
    requires Inv(s) && w < |s.workers|
    ensures s.workers[0].store.nextIdx !in s.workers[w].store.keys && !InUse(s, s.workers[0].store.nextIdx)
  {
    var idx := s.workers[0].store.nextIdx;
    assert WorkerOk(s, w);
    forall op | op in s.adds
      ensures s.adds[op].idx != Some(idx)
    {
      assert AddingOk(s, op);
    }
  }

  lemma FirstKeeps(s: Pool, op: nat)
    requires Inv(s) && Enabled(s, FirstTakes(op))
    ensures Inv(Take(s, FirstTakes(op)))
  {
    hide WorkerOk, InUse;
    var t := Take(s, FirstTakes(op));
    var idx, key := s.workers[0].store.nextIdx, s.adds[op].key;
    FreshIdx(s, 0);
    assert idx !in s.known;
    InUseKept(s, t);
    assert InUse(t, idx) by {
      assert t.adds[op].idx == Some(idx);
      TakenIsInUse(t, op);
    }
    PendingUntouched(s, 0, idx);
    WorkerTakes(s, t, 0, idx, key);
    forall w | 0 <= w < |t.workers|
      ensures WorkerOk(t, w)
    {
      if w > 0 {
        WorkerSame(s, t, w);
      }
    }
    forall o | o in t.adds
      ensures AddingOk(t, o)
    {
      assert AddingOk(s, o);
      if o == op {
        forall w | 0 <= w < |t.workers|
          ensures Lookup(t.workers[w].store.keys, idx) == if w in t.adds[op].waiting then None else Some(key)
        {
          FreshIdx(s, w);
        }
        assert forall x :: x in s.adds && s.adds[x].idx == Some(idx) ==> AddingOk(s, x);
      } else {
        assert s.adds[o].idx != Some(idx);
      }
    }
    AnswersKept(s, t);
  }

  lemma TakenIsInUse(s: Pool, op: nat)
    requires op in s.adds && s.adds[op].idx.Some?
    ensures InUse(s, s.adds[op].idx.value)
  {
  }

  lemma OtherKeeps(s: Pool, op: nat, w: nat)
    requires Inv(s) && Enabled(s, OtherTakes(op, w))
    ensures Inv(Take(s, OtherTakes(op, w)))
  {
    hide WorkerOk, InUse;
    assert AddingOk(s, op);
    var t := Take(s, OtherTakes(op, w));
    var idx, key := s.adds[op].idx.value, s.adds[op].key;
    assert Lookup(s.workers[w].store.keys, idx) == None;
    InUseKept(s, t);
    assert InUse(t, idx) by {
      assert t.adds[op].idx == Some(idx);
      TakenIsInUse(t, op);
    }
    PendingUntouched(s, w, idx);
    WorkerTakes(s, t, w, idx, key);
    forall v | 0 <= v < |t.workers|
      ensures WorkerOk(t, v)
    {
      if v != w {
        WorkerSame(s, t, v);
      }
    }
    forall o | o in t.adds
      ensures AddingOk(t, o)
    {
      assert AddingOk(s, o);
    }
    AnswersKept(s, t);
  }

  lemma ReturnKeeps(s: Pool, op: nat)
    requires Inv(s) && Enabled(s, Return(op))
    ensures Inv(Take(s, Return(op)))
  {
    hide InUse;
    assert AddingOk(s, op);
    var t := Take(s, Return(op));
    var idx, key := s.adds[op].idx.value, s.adds[op].key;
    forall i | InUse(s, i)
      ensures InUse(t, i)
    {
      StillInUse(s, t, op, i);
    }
    forall w | 0 <= w < |t.workers|
      ensures WorkerOk(t, w)
    {
      assert WorkerOk(s, w);
      PendingUntouched(s, w, idx);
      forall q | t.workers[w].done <= q <= |t.log|
        ensures Agrees(t, w, q)
      {
        assert Agrees(s, w, q);
        ReplayUntouched(s.workers[w].store.keys, s.log, s.workers[w].done, |s.log|, idx);
      }
    }
    forall o | o in t.adds
      ensures AddingOk(t, o)
    {
      assert AddingOk(s, o);
    }
    AnswersKept(s, t);
  }

  lemma StillInUse(s: Pool, t: Pool, op: nat, i: nat)
    requires op in s.adds && s.adds[op].idx.Some? && InUse(s, i)
    requires t.adds == s.adds - {op} && t.known == s.known + {s.adds[op].idx.value}
    ensures InUse(t, i)
  {
    if i !in t.known {
      var o :| o in s.adds && s.adds[o].idx == Some(i);
      assert t.adds[o].idx == Some(i);
    }
  }

  lemma SendKeeps(s: Pool, c: Command)
    requires Inv(s) && Enabled(s, Send(c)) && Apart(s, Send(c))
    ensures Inv(Take(s, Send(c)))
  {
    hide InUse;
    var t := Take(s, Send(c));
    InUseKept(s, t);
    forall w | 0 <= w < |t.workers|
      ensures WorkerOk(t, w)
    {
      assert WorkerOk(s, w);
      forall q | t.workers[w].done <= q <= |t.log|
        ensures Agrees(t, w, q)
      {
        SendAgrees(s, c, w, q);
      }
    }
    forall o | o in t.adds
      ensures AddingOk(t, o)
    {
      assert AddingOk(s, o);
    }
    forall p | p in t.answers
      ensures AnswerOk(t, p)
    {
      assert AnswerOk(s, p);
    }
    assert Apply(s.single, c).Keys <= s.single.Keys;
  }

  lemma SendAgrees(s: Pool, c: Command, w: nat, q: nat)
    requires Enabled(s, Send(c)) && w < |s.workers| && WorkerOk(s, w) && s.workers[w].done <= q <= |s.log| + 1
    ensures Agrees(Take(s, Send(c)), w, q)
  {
    var e := Entry(c, s.single, s.known);
    var keys, p := s.workers[w].store.keys, s.workers[w].done;
    var n := if q <= |s.log| then q else |s.log|;
    assert Agrees(s, w, n);
    ReplayMore(keys, s.log, e, p, n);
    if q == |s.log| + 1 {
      ApplySame(Replay(keys, s.log, p, n), s.single, c, s.known);
    }
  }

  lemma HandleKeeps(s: Pool, w: nat)
    requires Inv(s) && Enabled(s, Handle(w))
    ensures Inv(Take(s, Handle(w)))
  {
    hide InUse, Apply;
    var t := Take(s, Handle(w));
    var p, c := s.workers[w].done, s.log[s.workers[w].done].command;
    InUseKept(s, t);
    assert WorkerOk(s, w);
    HandleAgrees(s, w);
    forall v | 0 <= v < |t.workers|
      ensures WorkerOk(t, v)
    {
      if v != w {
        WorkerSame(s, t, v);
      }
    }
    forall o | o in t.adds
      ensures AddingOk(t, o)
    {
      assert AddingOk(s, o);
      if s.adds[o].idx.Some? {
        UsesOthers(c, s.log[p].known, s.adds[o].idx.value);
        ApplyUntouched(s.workers[w].store.keys, c, s.adds[o].idx.value);
      }
    }
    forall r | r in t.answers
      ensures AnswerOk(t, r)
    {
      if r == p && c.Read? && c.worker == w {
        assert Agrees(s, w, p);
        assert Replay(s.workers[w].store.keys, s.log, p, p) == s.workers[w].store.keys;
      } else {
        assert AnswerOk(s, r);
      }
    }
  }

  lemma ApplyUntouched(keys: map<nat, Key>, c: Command, idx: nat)
    requires !Touches(c, idx)
    ensures Lookup(Apply(keys, c), idx) == Lookup(keys, idx)
  {
  }

  lemma HandleAgrees(s: Pool, w: nat)
    requires Enabled(s, Handle(w)) && WorkerOk(s, w)
    ensures WorkerOk(Take(s, Handle(w)), w)
  {
    hide InUse, Apply;
    var t := Take(s, Handle(w));
    InUseKept(s, t);
    var keys, p := s.workers[w].store.keys, s.workers[w].done;
    forall q | p + 1 <= q <= |t.log|
      ensures Agrees(t, w, q)
    {
      assert Agrees(s, w, q);
      ReplayFirst(keys, s.log, p, q);
    }
    ApplyShrinks(keys, s.log[p].command);
  }

  lemma ApplyShrinks(keys: map<nat, Key>, c: Command)
    ensures Apply(keys, c).Keys <= keys.Keys
  {
  }

  lemma StepKeeps(s: Pool, step: Step)
    requires Inv(s) && Enabled(s, step) && Apart(s, step)
    ensures Inv(Take(s, step))
  {
    hide Inv, Take;
    match step
    case Start(op, key) => StartKeeps(s, op, key);
    case FirstTakes(op) => FirstKeeps(s, op);
    case FirstRefuses(op) => RefuseKeeps(s, op);
    case OtherTakes(op, w) => OtherKeeps(s, op, w);
    case Return(op) => ReturnKeeps(s, op);
    case Send(c) => SendKeeps(s, c);
    case Handle(w) => HandleKeeps(s, w);
  }

  lemma InitialInv(s: Pool)
    requires IsInitial(s)
    ensures Inv(s)
  {
    forall w | 0 <= w < |s.workers|
      ensures WorkerOk(s, w)
    {
      assert Replay(map[], s.log, 0, 0) == map[];
    }
  }

  lemma {:induction false} RunKeeps(s: Pool, steps: seq<Step>)
    requires Inv(s) && KeepsApart(s, steps)
    ensures Run(s, steps).Some? && Inv(Run(s, steps).value)
    decreases |steps|
  {
    hide Inv, Take, Enabled, Apart;
    if steps != [] {
      StepKeeps(s, steps[0]);
      RunKeeps(Take(s, steps[0]), steps[1..]);
    }
  }

  // What the application sees

  /** No addition ever finds its identifier taken, at the first worker or at another. */
  lemma NeverInUse(s: Pool, steps: seq<Step>)
    requires IsInitial(s) && KeepsApart(s, steps) && Run(s, steps).Some?
    ensures !Run(s, steps).value.failed
  {
    hide Run, KeepsApart;
    InitialInv(s);
    RunKeeps(s, steps);
  }

  /** Every read, whichever worker it was sent to, gets what one single store held when it was sent: which worker
      is next in the round makes no difference. */
  lemma ReadsAsOneStore(s: Pool, steps: seq<Step>, p: nat)
    requires IsInitial(s) && KeepsApart(s, steps) && Run(s, steps).Some? && p in Run(s, steps).value.answers
    ensures var t := Run(s, steps).value;
            && p < |t.log| && t.log[p].command.Read?
            && t.answers[p] == Lookup(t.log[p].before, t.log[p].command.idx)
  {
    hide Run, KeepsApart;
    InitialInv(s);
    RunKeeps(s, steps);
    assert AnswerOk(Run(s, steps).value, p);
  }

  /** A reference that has been returned and not cleared stands for the same key in every worker that has no
      message left that touches it. */
  lemma SameKeyEverywhere(s: Pool, steps: seq<Step>, w: nat, idx: nat)
    requires IsInitial(s) && KeepsApart(s, steps) && Run(s, steps).Some?
    requires var t := Run(s, steps).value;
             && w < |t.workers| && idx in t.single
             && t.workers[w].done <= |t.log| && Untouched(t.log, t.workers[w].done, |t.log|, idx)
    ensures var t := Run(s, steps).value;
            Lookup(t.workers[w].store.keys, idx) == Some(t.single[idx])
  {
    hide Run, KeepsApart;
    InitialInv(s);
    RunKeeps(s, steps);
    var t := Run(s, steps).value;
    assert WorkerOk(t, w) && Agrees(t, w, |t.log|);
    ReplayUntouched(t.workers[w].store.keys, t.log, t.workers[w].done, |t.log|, idx);
  }

  /** Once everything sent has been dealt with, every worker holds exactly what the single store holds. */
  lemma AllStoresEqual(s: Pool, steps: seq<Step>, w: nat)
    requires IsInitial(s) && KeepsApart(s, steps) && Run(s, steps).Some?
    requires var t := Run(s, steps).value;
             t.adds == map[] && w < |t.workers| && t.workers[w].done == |t.log|
    ensures var t := Run(s, steps).value;
            t.workers[w].store.keys == t.single
  {
    hide Run, KeepsApart;
    InitialInv(s);
    RunKeeps(s, steps);
    var t := Run(s, steps).value;
    var keys := t.workers[w].store.keys;
    assert WorkerOk(t, w) && Agrees(t, w, |t.log|);
    assert Replay(keys, t.log, |t.log|, |t.log|) == keys;
    forall i
      ensures Lookup(keys, i) == Lookup(t.single, i)
    {
      if i in keys {
        assert InUse(t, i);
      }
    }
    SameMaps(keys, t.single);
  }

  lemma SameMaps(a: map<nat, Key>, b: map<nat, Key>)
    requires forall i :: Lookup(a, i) == Lookup(b, i)
    ensures a == b
  {
    forall i
      ensures i in a <==> i in b
      ensures i in a ==> a[i] == b[i]
    {
      assert Lookup(a, i) == Lookup(b, i);
    }
  }

  /** An identifier, once given out, is never given out again, even after its key has been cleared. */
  lemma NoReuse(s: Pool, steps: seq<Step>, op: nat)
    requires IsInitial(s) && KeepsApart(s, steps) && Run(s, steps).Some? && Enabled(Run(s, steps).value, FirstTakes(op))
    ensures var t := Run(s, steps).value;
            var idx := Take(t, FirstTakes(op)).adds[op].idx;
            idx.Some? && idx.value !in t.known && forall o :: o in t.adds ==> t.adds[o].idx != idx
  {
    hide Run, KeepsApart;
    InitialInv(s);
    RunKeeps(s, steps);
    var t := Run(s, steps).value;
    FreshIdx(t, 0);
  }

  /** Why additions and clearing the store are kept apart: with two workers the store can be cleared while a key is
      being added, so that the first worker clears its store after it has taken the key and the second before, and
      the reference then returned has its key in one of them only. */
  lemma OverlapLosesKey(s: Pool, key: Key) returns (steps: seq<Step>)
    requires IsInitial(s) && |s.workers| == 2
    ensures Run(s, steps).Some? && !KeepsApart(s, steps)
    ensures var t := Run(s, steps).value;
            var idx := s.workers[0].store.nextIdx;
            && t.adds == map[] && !t.failed && |t.workers| == 2
            && idx in t.single && idx !in t.workers[0].store.keys && idx in t.workers[1].store.keys
  {
    hide Take, Enabled, Apart;
    steps := [Start(0, key), FirstTakes(0), Send(ClearAll), Handle(0), Handle(1), OtherTakes(0, 1), Return(0)];
    var s2 := AddingBegins(s, key);
    var s3 := StoreIsCleared(s2, key, s.workers[0].store.nextIdx);
    var t := AddingEnds(s3, key, s.workers[0].store.nextIdx);
    assert steps[..2] + steps[2..] == steps && steps[2..][..3] + steps[5..] == steps[2..];
    assert steps[..2] == [Start(0, key), FirstTakes(0)] && steps[2..][..3] == [Send(ClearAll), Handle(0), Handle(1)];
    assert steps[5..] == [OtherTakes(0, 1), Return(0)];
    RunOn(s, steps[..2], steps[2..]);
    RunOn(s2, steps[2..][..3], steps[5..]);
    RunOne(s2, steps[2..]);
  }

  /** One of two workers has taken the key, the other has yet to. */
  predicate HalfAdded(s: Pool, key: Key, idx: nat) {
    && s.adds == map[0 := Adding(key, Some(idx), {1})] && |s.workers| == 2 && !s.failed
    && s.log == [] && s.single == map[] && s.workers[0].done == s.workers[1].done == 0
    && s.workers[0].store.keys == map[idx := key] && s.workers[1].store.keys == map[]
  }

  lemma AddingBegins(s: Pool, key: Key) returns (t: Pool)
    requires IsInitial(s) && |s.workers| == 2
    ensures Run(s, [Start(0, key), FirstTakes(0)]) == Some(t) && KeepsApart(s, [Start(0, key), FirstTakes(0)])
    ensures HalfAdded(t, key, s.workers[0].store.nextIdx) && !Apart(t, Send(ClearAll)) && Enabled(t, Send(ClearAll))
  {
    var s1 := Take(s, Start(0, key));
    t := Take(s1, FirstTakes(0));
    assert t.adds[0].waiting == {1};
    assert [Start(0, key), FirstTakes(0)][1..] == [FirstTakes(0)];
    hide Take, Enabled, Apart;
    RunOne(s, [Start(0, key), FirstTakes(0)]);
    RunOne(s1, [FirstTakes(0)]);
  }

  lemma StoreIsCleared(s: Pool, key: Key, idx: nat) returns (t: Pool)
    requires HalfAdded(s, key, idx)
    ensures Run(s, [Send(ClearAll), Handle(0), Handle(1)]) == Some(t)
    ensures t.adds == s.adds && |t.workers| == 2 && !t.failed && t.single == map[]
    ensures t.workers[0].store.keys == t.workers[1].store.keys == map[]
  {
    var steps := [Send(ClearAll), Handle(0), Handle(1)];
    var s1 := Take(s, Send(ClearAll));
    var s2 := Take(s1, Handle(0));
    t := Take(s2, Handle(1));
    assert steps[1..] == [Handle(0), Handle(1)] && steps[1..][1..] == [Handle(1)];
    hide Take, Enabled;
    RunOne(s, steps);
    RunOne(s1, steps[1..]);
    RunOne(s2, steps[1..][1..]);
  }

  lemma AddingEnds(s: Pool, key: Key, idx: nat) returns (t: Pool)
    requires s.adds == map[0 := Adding(key, Some(idx), {1})] && |s.workers| == 2 && !s.failed && s.single == map[]
    requires s.workers[0].store.keys == s.workers[1].store.keys == map[]
    ensures Run(s, [OtherTakes(0, 1), Return(0)]) == Some(t)
    ensures t.adds == map[] && !t.failed && |t.workers| == 2
    ensures idx in t.single && idx !in t.workers[0].store.keys && idx in t.workers[1].store.keys
  {
    var s1 := Take(s, OtherTakes(0, 1));
    assert s1.adds[0].waiting == {};
    t := Take(s1, Return(0));
    assert [OtherTakes(0, 1), Return(0)][1..] == [Return(0)];
    hide Take, Enabled;
    RunOne(s, [OtherTakes(0, 1), Return(0)]);
    RunOne(s1, [Return(0)]);
  }

  /** A run, and from where it ends another one. */
  lemma {:induction false} RunOn(s: Pool, steps: seq<Step>, more: seq<Step>)
    requires Run(s, steps).Some?
    ensures Run(s, steps + more) == Run(Run(s, steps).value, more)
    ensures KeepsApart(s, steps + more) ==> KeepsApart(Run(s, steps).value, more)
    decreases |steps|
  {
    hide Take, Enabled, Apart;
    if steps == [] {
      assert steps + more == more;
    } else {
      assert (steps + more)[1..] == steps[1..] + more;
      RunOn(Take(s, steps[0]), steps[1..], more);
    }
  }

  lemma RunOne(s: Pool, steps: seq<Step>)
    requires steps != [] && Enabled(s, steps[0])
    ensures Run(s, steps) == Run(Take(s, steps[0]), steps[1..])
    ensures |steps| == 1 ==> Run(s, steps) == Some(Take(s, steps[0]))
    ensures KeepsApart(s, steps) ==> Apart(s, steps[0]) && KeepsApart(Take(s, steps[0]), steps[1..])
  {
  }
}
