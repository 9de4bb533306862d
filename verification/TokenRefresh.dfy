/** The token refresh of packages/proton-fetch/src (keyedSingleRunner.ts, refreshManager.ts and
    middleware/refreshMiddleware.ts) as a transition system. */
module TokenRefresh {
  // Any number of tabs and requests, the browser's lock between tabs, and each tab's queue of promise callbacks.

  import opened Results

  type Tab = nat
  type Key = (Tab, string)

  /** How a refresh ends: with the session renewed, without, with some other response, or by throwing. */
  datatype Outcome = Ok | Fail | Other(status: int) | Rejected

  /** The status of the refresh response, if there was one. */
  function OutcomeOf(status: Option<int>): Outcome {
    match status
    case None => Rejected
    case Some(code) => if code == 200 then Ok else if code in {400, 401, 422} then Fail else Other(code)
  }

  /** A refresh: waiting for the lock, waiting for the call it has made, waiting a little more, or over. */
  datatype TaskStage = Queued | Calling(call: nat) | Lingering(outcome: Outcome) | Settled(outcome: Outcome)

  /** The requests that wait for the task are called back in this order. */
  datatype Task = Task(tab: Tab, uid: string, stage: TaskStage, waiters: seq<nat>, calls: nat)

  datatype Stage =
    | Held(task: nat)
    | Sent
    | Joined(task: nat)
    | Finished(status: Option<int>)

  /** A request in the middleware; the refresh whose call it is, if it is one; how often it has been sent, has
      waited before being sent, and has joined a refresh after a 401. */
  datatype Request = Request(tab: Tab, uid: string, caller: Option<nat>, stage: Stage, awake: bool, sends: nat,
                             holds: nat, joins: nat)

  /** The refresh call itself, and a request without a uid, are sent on and their response returned as it is. */
  predicate Passes(q: Request) {
    q.caller.Some? || q.uid == ""
  }

  /** Callbacks of a settled task: the runner forgets it, then its waiters wake. */
  datatype Job = Forget(task: nat) | Wake(request: nat, task: nat)

  datatype System = System(
    requests: map<nat, Request>, tasks: map<nat, Task>, running: map<Key, nat>, locks: map<string, nat>,
    queues: map<Tab, seq<Job>>)

  const START := System(map[], map[], map[], map[], map[])

  datatype Step =
    | Arrive(request: nat, tab: Tab, uid: string)
    | Respond(request: nat, status: int, freshTask: nat)
    | FailToSend(request: nat)
    | Acquire(task: nat, call: nat)
    | Reply(task: nat)
    | Release(task: nat)
    | RunJob(tab: Tab)
    | Resume(request: nat)

  function Queue(s: System, tab: Tab): seq<Job> {
    if tab in s.queues then s.queues[tab] else []
  }

  function Waited(stage: Stage): Option<nat> {
    match stage
    case Held(t) => Some(t)
    case Joined(t) => Some(t)
    case _ => None
  }

  // The keyed runner

  /** The task running for the key, as the runner's get and run find it. */
  function Running(s: System, key: Key): Option<nat> {
    if key in s.running then Some(s.running[key]) else None
  }

  /** A request waits for a task: called back when it settles, or soon if it has settled. */
  function Await(s: System, r: nat, t: nat): System
    requires t in s.tasks
  {
    var task := s.tasks[t];
    if task.stage.Settled? then s.(queues := s.queues[task.tab := Queue(s, task.tab) + [Wake(r, t)]])
    else s.(tasks := s.tasks[t := task.(waiters := task.waiters + [r])])
  }

  /** The runner's run: the running task if there is one, else a new one that is marked as running. */
  function RunOnce(s: System, key: Key, freshTask: nat): System {
    if key in s.running then s
    else s.(tasks := s.tasks[freshTask := Task(key.0, key.1, Queued, [], 0)], running := s.running[key := freshTask])
  }

  /** A request enters the middleware: sent on, or held while a refresh for its uid is running. */
  function Enter(s: System, r: nat, tab: Tab, uid: string, caller: Option<nat>): System {
    var q := Request(tab, uid, caller, Sent, false, 1, 0, 0);
    var t := Running(s, (tab, uid));
    if !Passes(q) && t.Some? && t.value in s.tasks then
      Await(s.(requests := s.requests[r := q.(stage := Held(t.value), sends := 0, holds := 1)]), r, t.value)
    else s.(requests := s.requests[r := q])
  }

  // Steps

  predicate IsAnswered(s: System, r: nat) {
    r in s.requests && s.requests[r].stage.Finished?
  }

  predicate Enabled(s: System, step: Step) {
    match step
    case Arrive(r, _, _) => r !in s.requests
    case Respond(r, _, freshTask) => r in s.requests && s.requests[r].stage == Sent && freshTask !in s.tasks
    case FailToSend(r) => r in s.requests && s.requests[r].stage == Sent
    case Acquire(t, r) => t in s.tasks && s.tasks[t].stage == Queued && s.tasks[t].uid !in s.locks && r !in s.requests
    case Reply(t) => t in s.tasks && s.tasks[t].stage.Calling? && IsAnswered(s, s.tasks[t].stage.call)
    case Release(t) => t in s.tasks && s.tasks[t].stage.Lingering?
    case RunJob(tab) => Queue(s, tab) != []
    case Resume(r) => r in s.requests && s.requests[r].awake && Waited(s.requests[r].stage).Some?
                      && Waited(s.requests[r].stage).value in s.tasks
                      && s.tasks[Waited(s.requests[r].stage).value].stage.Settled?
  }

  function Wakes(waiters: seq<nat>, t: nat): (jobs: seq<Job>)
    ensures |jobs| == |waiters| && forall i :: 0 <= i < |jobs| ==> jobs[i] == Wake(waiters[i], t)
  {
    if waiters == [] then [] else [Wake(waiters[0], t)] + Wakes(waiters[1..], t)
  }

  /** The lock is let go, and the callbacks are queued: the runner's first, as it was the first to ask. */
  function Settle(s: System, t: nat, outcome: Outcome): System
    requires t in s.tasks
  {
    var task := s.tasks[t];
    s.(tasks := s.tasks[t := task.(stage := Settled(outcome))],
       locks := s.locks - {task.uid},
       queues := s.queues[task.tab := Queue(s, task.tab) + ([Forget(t)] + Wakes(task.waiters, t))])
  }

  /** The response has come; a little delay before the lock is let go. */
  function Linger(s: System, t: nat, outcome: Outcome): System
    requires t in s.tasks
  {
    s.(tasks := s.tasks[t := s.tasks[t].(stage := Lingering(outcome))])
  }

  /** What the middleware does with the outcome of the refresh it joined. */
  function Conclude(q: Request, outcome: Outcome): Request {
    match outcome
    case Ok => q.(stage := Sent, awake := false, sends := q.sends + 1)
    case Fail => q.(stage := Finished(Some(401)), awake := false)
    case Other(status) => q.(stage := Finished(Some(status)), awake := false)
    case Rejected => q.(stage := Finished(None), awake := false)
  }

  function Take(s: System, step: Step): System
    requires Enabled(s, step)
  {
    match step
    case Arrive(r, tab, uid) => Enter(s, r, tab, uid, None)
    case Respond(r, status, freshTask) =>
      var q := s.requests[r];
      if !Passes(q) && status == 401 && q.joins == 0 then
        var u := RunOnce(s, (q.tab, q.uid), freshTask);
        var t := u.running[(q.tab, q.uid)];
        if t in u.tasks then
          Await(u.(requests := s.requests[r := q.(stage := Joined(t), awake := false, joins := 1)]), r, t)
        else s
      else s.(requests := s.requests[r := q.(stage := Finished(Some(status)))])
    case FailToSend(r) => s.(requests := s.requests[r := s.requests[r].(stage := Finished(None))])
    case Acquire(t, r) =>
      var task := s.tasks[t];
      var u := s.(tasks := s.tasks[t := task.(stage := Calling(r), calls := task.calls + 1)],
                  locks := s.locks[task.uid := t]);
      Enter(u, r, task.tab, task.uid, Some(t))
    case Reply(t) =>
      var answer := s.requests[s.tasks[t].stage.call].stage.status;
      if answer.None? then Settle(s, t, Rejected)
      else Linger(s, t, OutcomeOf(answer))
    case Release(t) => Settle(s, t, s.tasks[t].stage.outcome)
    case RunJob(tab) =>
      var queue := Queue(s, tab);
      var u := s.(queues := s.queues[tab := queue[1..]]);
      (match queue[0]
       case Forget(t) =>
         if t in s.tasks then u.(running := s.running - {(s.tasks[t].tab, s.tasks[t].uid)}) else u
       case Wake(r, t) =>
         if r in s.requests && Waited(s.requests[r].stage) == Some(t) then
           u.(requests := s.requests[r := s.requests[r].(awake := true)])
         else u)
    case Resume(r) =>
      var q := s.requests[r];
      var outcome := s.tasks[Waited(q.stage).value].stage.outcome;
      s.(requests := s.requests[r := if q.stage.Held? then q.(stage := Sent, awake := false, sends := q.sends + 1)
                                     else Conclude(q, outcome)])
  }

  function Run(s: System, steps: seq<Step>): Option<System>
    decreases |steps|
  {
    if steps == [] then Some(s)
    else if Enabled(s, steps[0]) then Run(Take(s, steps[0]), steps[1..])
    else None
  }

  // The invariant

  predicate HoldsLock(stage: TaskStage) {
    stage.Calling? || stage.Lingering?
  }

  function KeyOf(task: Task): Key {
    (task.tab, task.uid)
  }

  ghost predicate TaskOk(s: System, t: nat)
    requires t in s.tasks
  {
    var task := s.tasks[t];
    && (!task.stage.Settled? ==> Running(s, KeyOf(task)) == Some(t))
    && (HoldsLock(task.stage) ==> task.uid in s.locks && s.locks[task.uid] == t)
    && task.calls == (if task.stage == Queued then 0 else 1)
    && (task.stage.Settled? && Running(s, KeyOf(task)) == Some(t) ==> Forget(t) in Queue(s, task.tab))
    && (task.stage.Calling? ==> task.stage.call in s.requests && s.requests[task.stage.call].caller == Some(t))
  }

  ghost predicate RequestOk(s: System, r: nat)
    requires r in s.requests
  {
    var q := s.requests[r];
    && q.holds <= 1 && q.joins <= 1 && q.sends <= 1 + q.joins
    && (q.stage.Held? ==> q.sends == 0 && q.joins == 0)
    && (q.stage.Sent? && q.joins == 0 ==> q.sends == 1)
    && (q.stage.Joined? ==> q.sends == 1 && q.joins == 1)
    && (Passes(q) ==> Waited(q.stage).None? && q.sends == 1 && q.holds == 0 && q.joins == 0)
    && (q.caller.Some? && q.stage.Sent? ==>
        q.caller.value in s.tasks && s.tasks[q.caller.value].stage == Calling(r)
            && s.tasks[q.caller.value].uid == q.uid)
    && (Waited(q.stage).Some? ==>
        var t := Waited(q.stage).value;
        && t in s.tasks && s.tasks[t].tab == q.tab && s.tasks[t].uid == q.uid
        && (!s.tasks[t].stage.Settled? ==> r in s.tasks[t].waiters && !q.awake)
        && (s.tasks[t].stage.Settled? ==> q.awake || Wake(r, t) in Queue(s, q.tab))
        && (q.awake ==> Running(s, (q.tab, q.uid)) != Some(t)))
  }

  /** A job of the tab's queue: it belongs to a task of the tab that has settled; the task is forgotten once, and
      before any of its waiters wakes. */
  ghost predicate JobOk(s: System, tab: Tab, i: nat)
    requires i < |Queue(s, tab)|
  {
    var queue := Queue(s, tab);
    var t := queue[i].task;
    && t in s.tasks && s.tasks[t].tab == tab && s.tasks[t].stage.Settled?
    && (queue[i].Forget? ==> Running(s, KeyOf(s.tasks[t])) == Some(t) && Forget(t) !in queue[..i])
    && (queue[i].Wake? ==> Forget(t) !in queue[i..])
  }

  ghost predicate Inv(s: System) {
    && (forall k :: k in s.running ==> s.running[k] in s.tasks && KeyOf(s.tasks[s.running[k]]) == k)
    && (forall u :: u in s.locks ==>
          s.locks[u] in s.tasks && s.tasks[s.locks[u]].uid == u && HoldsLock(s.tasks[s.locks[u]].stage))
    && (forall t :: t in s.tasks ==> TaskOk(s, t))
    && (forall r :: r in s.requests ==> RequestOk(s, r))
    && (forall tab, i :: 0 <= i < |Queue(s, tab)| ==> JobOk(s, tab, i))
  }

  // Every step keeps the invariant

  lemma AcquireKeeps(s: System, t: nat, r: nat)
    requires Inv(s) && Enabled(s, Acquire(t, r))
    ensures Inv(Take(s, Acquire(t, r)))
  {
    var u := Take(s, Acquire(t, r));
    assert TaskOk(s, t);
    forall x | x in u.tasks ensures TaskOk(u, x) { assert TaskOk(s, x); }
    forall x | x in u.requests ensures RequestOk(u, x) {
      if x != r {
        assert RequestOk(s, x);
      }
    }
    forall tab, i | 0 <= i < |Queue(u, tab)| ensures JobOk(u, tab, i) { assert JobOk(s, tab, i); }
  }

  lemma LingerKeeps(s: System, t: nat, outcome: Outcome)
    requires Inv(s) && Enabled(s, Reply(t))
    ensures Inv(Linger(s, t, outcome))
  {
    hide JobOk, TaskOk, RequestOk;
    var u := Linger(s, t, outcome);
    forall x | x in u.tasks ensures TaskOk(u, x) { LingerTask(s, t, outcome, x); }
    forall r | r in u.requests ensures RequestOk(u, r) { LingerRequest(s, t, outcome, r); }
    forall tab, i | 0 <= i < |Queue(u, tab)| ensures JobOk(u, tab, i) { LingerJob(s, t, outcome, tab, i); }
  }

  lemma LingerTask(s: System, t: nat, outcome: Outcome, x: nat)
    requires Enabled(s, Reply(t)) && x in s.tasks && TaskOk(s, x)
    ensures TaskOk(Linger(s, t, outcome), x)
  {
  }

  lemma LingerRequest(s: System, t: nat, outcome: Outcome, r: nat)
    requires Enabled(s, Reply(t)) && r in s.requests && RequestOk(s, r)
    ensures RequestOk(Linger(s, t, outcome), r)
  {
  }

  lemma LingerJob(s: System, t: nat, outcome: Outcome, tab: Tab, i: nat)
    requires Inv(s) && Enabled(s, Reply(t)) && i < |Queue(s, tab)|
    ensures i < |Queue(Linger(s, t, outcome), tab)| && JobOk(Linger(s, t, outcome), tab, i)
  {
    hide TaskOk, RequestOk;
    assert JobOk(s, tab, i);
  }

  lemma SettleKeeps(s: System, t: nat, outcome: Outcome)
    requires Inv(s) && t in s.tasks && HoldsLock(s.tasks[t].stage)
    requires s.tasks[t].stage.Calling? ==> IsAnswered(s, s.tasks[t].stage.call)
    ensures Inv(Settle(s, t, outcome))
  {
    hide JobOk, TaskOk, RequestOk;
    var u := Settle(s, t, outcome);
    forall x | x in u.tasks ensures TaskOk(u, x) { SettleTask(s, t, outcome, x); }
    forall r | r in u.requests ensures RequestOk(u, r) { SettleRequest(s, t, outcome, r); }
    forall tab, i | 0 <= i < |Queue(u, tab)| ensures JobOk(u, tab, i) { SettleJob(s, t, outcome, tab, i); }
    assert TaskOk(s, t);
    SettledLocks(s, t, outcome);
  }

  lemma SettledLocks(s: System, t: nat, outcome: Outcome)
    requires t in s.tasks && HoldsLock(s.tasks[t].stage) && TaskOk(s, t)
    requires forall k :: k in s.locks ==>
               s.locks[k] in s.tasks && s.tasks[s.locks[k]].uid == k && HoldsLock(s.tasks[s.locks[k]].stage)
    ensures var u := Settle(s, t, outcome);
            forall k :: k in u.locks
                ==> u.locks[k] in u.tasks && u.tasks[u.locks[k]].uid == k && HoldsLock(u.tasks[u.locks[k]].stage)
  {
  }

  lemma SettleTask(s: System, t: nat, outcome: Outcome, x: nat)
    requires t in s.tasks && x in s.tasks && HoldsLock(s.tasks[t].stage) && TaskOk(s, t) && TaskOk(s, x)
    ensures TaskOk(Settle(s, t, outcome), x)
  {
  }

  lemma SettleRequest(s: System, t: nat, outcome: Outcome, r: nat)
    requires t in s.tasks && HoldsLock(s.tasks[t].stage) && r in s.requests && RequestOk(s, r)
    requires s.tasks[t].stage.Calling? ==> IsAnswered(s, s.tasks[t].stage.call)
    ensures RequestOk(Settle(s, t, outcome), r)
  {
    var q := s.requests[r];
    var task := s.tasks[t];
    if Waited(q.stage) == Some(t) {
      var i :| 0 <= i < |task.waiters| && task.waiters[i] == r;
      assert Wakes(task.waiters, t)[i] == Wake(r, t);
    }
  }

  /** The callbacks of the task go behind all others, which are those of other tasks. */
  lemma SettleJob(s: System, t: nat, outcome: Outcome, tab: Tab, i: nat)
    requires Inv(s) && t in s.tasks && HoldsLock(s.tasks[t].stage) && i < |Queue(Settle(s, t, outcome), tab)|
    ensures JobOk(Settle(s, t, outcome), tab, i)
  {
    hide TaskOk, RequestOk, JobOk;
    var before := Queue(s, tab);
    forall j | 0 <= j < |before|
      ensures before[j].task != t
    {
      JobTask(s, tab, j);
    }
    if i < |before| {
      assert JobOk(s, tab, i);
      OldJob(s, t, outcome, tab, i);
    } else {
      TaskLocked(s, t);
      assert tab == s.tasks[t].tab;
      NewJob(s, t, outcome, i);
    }
  }

  lemma JobTask(s: System, tab: Tab, i: nat)
    requires Inv(s) && i < |Queue(s, tab)|
    ensures Queue(s, tab)[i].task in s.tasks && s.tasks[Queue(s, tab)[i].task].stage.Settled?
  {
    assert JobOk(s, tab, i);
  }

  lemma OldJob(s: System, t: nat, outcome: Outcome, tab: Tab, i: nat)
    requires t in s.tasks && i < |Queue(s, tab)| && JobOk(s, tab, i)
    requires forall j :: 0 <= j < |Queue(s, tab)| ==> Queue(s, tab)[j].task != t
    ensures i < |Queue(Settle(s, t, outcome), tab)| && JobOk(Settle(s, t, outcome), tab, i)
  {
    var before, after := Queue(s, tab), Queue(Settle(s, t, outcome), tab);
    if tab == s.tasks[t].tab {
      var more := [Forget(t)] + Wakes(s.tasks[t].waiters, t);
      assert after == before + more;
      assert after[..i] == before[..i] && after[i..] == before[i..] + more && after[i] == before[i];
      assert Forget(before[i].task) !in more;
    } else {
      assert after == before;
    }
  }

  lemma NewJob(s: System, t: nat, outcome: Outcome, i: nat)
    requires t in s.tasks && Running(s, KeyOf(s.tasks[t])) == Some(t)
    requires var tab := s.tasks[t].tab;
             |Queue(s, tab)| <= i < |Queue(Settle(s, t, outcome), tab)|
    requires forall j :: 0 <= j < |Queue(s, s.tasks[t].tab)| ==> Queue(s, s.tasks[t].tab)[j].task != t
    ensures JobOk(Settle(s, t, outcome), s.tasks[t].tab, i)
  {
    hide Wakes;
    var tab := s.tasks[t].tab;
    NewJobs(Queue(s, tab), Wakes(s.tasks[t].waiters, t), t, i);
  }

  lemma NewJobs(before: seq<Job>, wakes: seq<Job>, t: nat, i: nat)
    requires |before| <= i < |before + ([Forget(t)] + wakes)|
    requires forall j :: 0 <= j < |before| ==> before[j].task != t
    requires forall j :: 0 <= j < |wakes| ==> wakes[j].Wake? && wakes[j].task == t
    ensures var after := before + ([Forget(t)] + wakes);
            && after[i].task == t
            && (after[i].Forget? ==> Forget(t) !in after[..i])
            && (after[i].Wake? ==> Forget(t) !in after[i..])
  {
    var after := before + ([Forget(t)] + wakes);
    if i == |before| {
      assert after[..i] == before;
    } else {
      assert after[i..] == wakes[i - |before| - 1..];
      assert after[i] == wakes[i - |before| - 1];
    }
  }

  lemma TaskLocked(s: System, t: nat)
    requires Inv(s) && t in s.tasks && HoldsLock(s.tasks[t].stage)
    ensures Running(s, KeyOf(s.tasks[t])) == Some(t)
  {
    assert TaskOk(s, t);
  }

  // Waiting for a task

  /** A request that starts to wait for a task of its own tab and uid. */
  lemma AwaitKeeps(s: System, r: nat, q: Request, t: nat)
    requires Inv(s) && t in s.tasks && Waited(q.stage) == Some(t) && !q.awake
    requires !Passes(q) && (r in s.requests ==> s.requests[r].caller.None?)
    requires s.tasks[t].tab == q.tab && s.tasks[t].uid == q.uid
    requires q.holds <= 1 && q.joins <= 1
    requires q.stage.Held? ==> q.sends == 0 && q.joins == 0
    requires q.stage.Joined? ==> q.sends == 1 && q.joins == 1
    ensures Inv(Await(s.(requests := s.requests[r := q]), r, t))
  {
    hide JobOk, TaskOk, RequestOk;
    var u := Await(s.(requests := s.requests[r := q]), r, t);
    forall x | x in u.tasks ensures TaskOk(u, x) { AwaitTask(s, r, q, t, x); }
    forall x | x in u.requests ensures RequestOk(u, x) {
      if x != r {
        assert RequestOk(s, x);
        AwaitOther(s, r, q, t, x);
      } else {
        AwaitSelf(s, r, q, t);
      }
    }
    forall tab, i | 0 <= i < |Queue(u, tab)| ensures JobOk(u, tab, i) { AwaitJob(s, r, q, t, tab, i); }
  }

  lemma AwaitTask(s: System, r: nat, q: Request, t: nat, x: nat)
    requires Inv(s) && t in s.tasks && x in s.tasks && (r in s.requests ==> s.requests[r].caller.None?)
    ensures var u := Await(s.(requests := s.requests[r := q]), r, t);
            x in u.tasks && TaskOk(u, x)
  {
    assert TaskOk(s, x);
  }

  lemma AwaitOther(s: System, r: nat, q: Request, t: nat, x: nat)
    requires t in s.tasks && x in s.requests && x != r && RequestOk(s, x)
    ensures RequestOk(Await(s.(requests := s.requests[r := q]), r, t), x)
  {
  }

  lemma AwaitSelf(s: System, r: nat, q: Request, t: nat)
    requires Inv(s) && t in s.tasks && Waited(q.stage) == Some(t) && !q.awake
    requires !Passes(q) && (r in s.requests ==> s.requests[r].caller.None?)
    requires s.tasks[t].tab == q.tab && s.tasks[t].uid == q.uid
    requires q.holds <= 1 && q.joins <= 1
    requires q.stage.Held? ==> q.sends == 0 && q.joins == 0
    requires q.stage.Joined? ==> q.sends == 1 && q.joins == 1
    ensures var u := Await(s.(requests := s.requests[r := q]), r, t);
            r in u.requests && RequestOk(u, r)
  {
  }

  lemma AwaitJob(s: System, r: nat, q: Request, t: nat, tab: Tab, i: nat)
    requires Inv(s) && t in s.tasks && i < |Queue(Await(s.(requests := s.requests[r := q]), r, t), tab)|
    ensures JobOk(Await(s.(requests := s.requests[r := q]), r, t), tab, i)
  {
    hide TaskOk, RequestOk;
    var u := Await(s.(requests := s.requests[r := q]), r, t);
    var before, after := Queue(s, tab), Queue(u, tab);
    if i < |before| {
      assert JobOk(s, tab, i);
      assert after[..i] == before[..i] && after[i] == before[i];
      assert forall j :: i <= j < |before| ==> after[j] == before[j];
      assert forall j :: 0 <= j < |after[i..]| ==> after[i..][j] == after[i + j];
    } else {
      assert after[i..] == [Wake(r, t)];
    }
  }

  /** A request that is not waiting for anything any more, or not yet. */
  lemma RequestStepKeeps(s: System, r: nat, q: Request)
    requires Inv(s) && Waited(q.stage) == None && (q.caller.Some? ==> q.stage.Finished?)
    requires q.caller == if r in s.requests then s.requests[r].caller else None
    requires Passes(q) ==> q.sends == 1 && q.holds == 0 && q.joins == 0
    requires q.holds <= 1 && q.joins <= 1 && q.sends <= 1 + q.joins && (q.stage.Sent? && q.joins == 0 ==> q.sends == 1)
    ensures Inv(s.(requests := s.requests[r := q]))
  {
    var u := s.(requests := s.requests[r := q]);
    forall x | x in u.tasks ensures TaskOk(u, x) { assert TaskOk(s, x); }
    forall x | x in u.requests ensures RequestOk(u, x) {
      if x != r {
        assert RequestOk(s, x);
      }
    }
    forall tab, i | 0 <= i < |Queue(u, tab)| ensures JobOk(u, tab, i) { assert JobOk(s, tab, i); }
  }

  lemma ArriveKeeps(s: System, r: nat, tab: Tab, uid: string)
    requires Inv(s) && Enabled(s, Arrive(r, tab, uid))
    ensures Inv(Take(s, Arrive(r, tab, uid)))
  {
    hide TaskOk, RequestOk, JobOk, Await;
    var q := Request(tab, uid, None, Sent, false, 1, 0, 0);
    var t := Running(s, (tab, uid));
    if !Passes(q) && t.Some? {
      AwaitKeeps(s, r, q.(stage := Held(t.value), sends := 0, holds := 1), t.value);
    } else {
      RequestStepKeeps(s, r, q);
    }
  }

  /** The runner starts a task only for a key that has none. */
  lemma RunOnceKeeps(s: System, key: Key, freshTask: nat)
    requires Inv(s) && freshTask !in s.tasks
    ensures var u := RunOnce(s, key, freshTask);
            && Inv(u) && key in u.running && u.running[key] in u.tasks && KeyOf(u.tasks[u.running[key]]) == key
            && u.requests == s.requests
  {
    var u := RunOnce(s, key, freshTask);
    if key !in s.running {
      forall x | x in u.tasks ensures TaskOk(u, x) {
        if x != freshTask {
          assert TaskOk(s, x);
        }
      }
      forall x | x in u.requests ensures RequestOk(u, x) { assert RequestOk(s, x); }
      forall tab, i | 0 <= i < |Queue(u, tab)| ensures JobOk(u, tab, i) { assert JobOk(s, tab, i); }
    }
  }

  lemma RespondKeeps(s: System, r: nat, status: int, freshTask: nat)
    requires Inv(s) && Enabled(s, Respond(r, status, freshTask))
    ensures Inv(Take(s, Respond(r, status, freshTask)))
  {
    hide TaskOk, JobOk, Await, RunOnce;
    var q := s.requests[r];
    assert RequestOk(s, r);
    if !Passes(q) && status == 401 && q.joins == 0 {
      RunOnceKeeps(s, (q.tab, q.uid), freshTask);
      var u := RunOnce(s, (q.tab, q.uid), freshTask);
      var t := u.running[(q.tab, q.uid)];
      AwaitKeeps(u, r, q.(stage := Joined(t), awake := false, joins := 1), t);
    } else {
      RequestStepKeeps(s, r, q.(stage := Finished(Some(status))));
    }
  }

  lemma ResumeKeeps(s: System, r: nat)
    requires Inv(s) && Enabled(s, Resume(r))
    ensures Inv(Take(s, Resume(r)))
  {
    hide TaskOk, JobOk;
    var q := s.requests[r];
    assert RequestOk(s, r);
    var outcome := s.tasks[Waited(q.stage).value].stage.outcome;
    RequestStepKeeps(s, r, if q.stage.Held? then q.(stage := Sent, awake := false, sends := q.sends + 1)
                           else Conclude(q, outcome));
  }

  lemma FailToSendKeeps(s: System, r: nat)
    requires Inv(s) && Enabled(s, FailToSend(r))
    ensures Inv(Take(s, FailToSend(r)))
  {
    hide TaskOk, JobOk;
    assert RequestOk(s, r);
    RequestStepKeeps(s, r, s.requests[r].(stage := Finished(None)));
  }

  /** The runner's own callback comes first: when a waiter wakes, the task has been forgotten. */
  lemma WakeKeeps(s: System, tab: Tab)
    requires Inv(s) && Enabled(s, RunJob(tab)) && Queue(s, tab)[0].Wake?
    ensures Inv(Take(s, RunJob(tab)))
  {
    hide JobOk, TaskOk, RequestOk;
    var u := Take(s, RunJob(tab));
    WokenIsForgotten(s, tab);
    forall x | x in u.tasks ensures TaskOk(u, x) { TaskAfterWake(s, u, tab, x); }
    forall x | x in u.requests ensures RequestOk(u, x) { RequestAfterWake(s, tab, x); }
    forall other, i | 0 <= i < |Queue(u, other)| ensures JobOk(u, other, i) { LaterJob(s, u, tab, other, i); }
  }

  lemma WokenIsForgotten(s: System, tab: Tab)
    requires Inv(s) && Queue(s, tab) != [] && Queue(s, tab)[0].Wake?
    ensures var t := Queue(s, tab)[0].task;
            t in s.tasks && s.tasks[t].stage.Settled? && Running(s, KeyOf(s.tasks[t])) != Some(t)
  {
    hide RequestOk;
    assert JobOk(s, tab, 0);
    assert Queue(s, tab)[0..] == Queue(s, tab);
    assert TaskOk(s, Queue(s, tab)[0].task);
  }

  lemma RequestAfterWake(s: System, tab: Tab, x: nat)
    requires Enabled(s, RunJob(tab)) && Queue(s, tab)[0].Wake? && x in s.requests && RequestOk(s, x)
    requires var t := Queue(s, tab)[0].task;
             t in s.tasks && s.tasks[t].stage.Settled? && Running(s, KeyOf(s.tasks[t])) != Some(t)
    ensures x in Take(s, RunJob(tab)).requests && RequestOk(Take(s, RunJob(tab)), x)
  {
    var r, t := Queue(s, tab)[0].request, Queue(s, tab)[0].task;
    if x != r || Waited(s.requests[x].stage) != Some(t) {
      WaitedJob(s, tab, x);
    }
  }

  lemma TaskAfterWake(s: System, u: System, tab: Tab, x: nat)
    requires x in s.tasks && TaskOk(s, x) && Queue(s, tab) != [] && Queue(s, tab)[0].Wake?
    requires u.queues == s.queues[tab := Queue(s, tab)[1..]] && u.tasks == s.tasks && u.running == s.running
    requires u.locks == s.locks
    requires forall r :: r in s.requests ==> r in u.requests && u.requests[r].caller == s.requests[r].caller
    ensures TaskOk(u, x)
  {
    var queue := Queue(s, tab);
    assert queue == [queue[0]] + queue[1..];
  }

  /** The wake-up that another request still waits for stays in the queue. */
  lemma WaitedJob(s: System, tab: Tab, x: nat)
    requires Queue(s, tab) != [] && x in s.requests
    ensures forall t :: Wake(x, t) in Queue(s, tab) && Queue(s, tab)[0] != Wake(x, t) ==>
              Wake(x, t) in Queue(s, tab)[1..]
  {
    var queue := Queue(s, tab);
    assert queue == [queue[0]] + queue[1..];
  }

  /** Taking the first job leaves the others in order. */
  lemma LaterJob(s: System, u: System, tab: Tab, other: Tab, i: nat)
    requires Inv(s) && Queue(s, tab) != [] && i < |Queue(u, other)|
    requires u.queues == s.queues[tab := Queue(s, tab)[1..]] && u.tasks == s.tasks && u.running == s.running
    ensures JobOk(u, other, i)
  {
    hide TaskOk, RequestOk;
    var queue := Queue(s, tab);
    if other == tab {
      assert JobOk(s, tab, i + 1);
      assert queue[1..][..i] == queue[..i + 1][1..] && queue[1..][i..] == queue[i + 1..];
    } else {
      assert JobOk(s, other, i);
    }
  }

  lemma ForgetKeeps(s: System, tab: Tab)
    requires Inv(s) && Enabled(s, RunJob(tab)) && Queue(s, tab)[0].Forget?
    ensures Inv(Take(s, RunJob(tab)))
  {
    var u := Take(s, RunJob(tab));
    var queue := Queue(s, tab);
    var t := queue[0].task;
    assert JobOk(s, tab, 0);
    var key := KeyOf(s.tasks[t]);
    forall x | x in u.tasks ensures TaskOk(u, x) {
      assert TaskOk(s, x);
      assert queue == [queue[0]] + queue[1..];
    }
    forall x | x in u.requests ensures RequestOk(u, x) {
      assert RequestOk(s, x);
      WaitedJob(s, tab, x);
    }
    forall other, i | 0 <= i < |Queue(u, other)| ensures JobOk(u, other, i) { AfterForget(s, u, tab, t, other, i); }
  }

  lemma AfterForget(s: System, u: System, tab: Tab, t: nat, other: Tab, i: nat)
    requires Inv(s) && Queue(s, tab) != [] && Queue(s, tab)[0] == Forget(t) && i < |Queue(u, other)|
    requires t in s.tasks && Running(s, KeyOf(s.tasks[t])) == Some(t)
    requires u.queues == s.queues[tab := Queue(s, tab)[1..]] && u.tasks == s.tasks
    requires u.running == s.running - {KeyOf(s.tasks[t])}
    ensures JobOk(u, other, i)
  {
    hide TaskOk, RequestOk;
    var queue := Queue(s, tab);
    if other == tab {
      assert JobOk(s, tab, i + 1);
      assert queue[1..][..i] == queue[..i + 1][1..] && queue[1..][i..] == queue[i + 1..];
      assert queue[..i + 1][0] == Forget(t);
    } else {
      assert JobOk(s, other, i);
      assert JobOk(s, tab, 0);
    }
  }

  lemma StepKeeps(s: System, step: Step)
    requires Inv(s) && Enabled(s, step)
    ensures Inv(Take(s, step))
  {
    hide Inv, TaskOk, RequestOk, JobOk;
    match step
    case Arrive(r, tab, uid) => ArriveKeeps(s, r, tab, uid);
    case Respond(r, status, freshTask) => RespondKeeps(s, r, status, freshTask);
    case FailToSend(r) => FailToSendKeeps(s, r);
    case Acquire(t, r) => AcquireKeeps(s, t, r);
    case Reply(t) =>
      var answer := s.requests[s.tasks[t].stage.call].stage.status;
      if answer.None? {
        SettleKeeps(s, t, Rejected);
      } else {
        LingerKeeps(s, t, OutcomeOf(answer));
      }
    case Release(t) => SettleKeeps(s, t, s.tasks[t].stage.outcome);
    case RunJob(tab) =>
      if Queue(s, tab)[0].Wake? {
        WakeKeeps(s, tab);
      } else {
        ForgetKeeps(s, tab);
      }
    case Resume(r) => ResumeKeeps(s, r);
  }

  lemma {:induction false} RunKeeps(s: System, steps: seq<Step>)
    requires Inv(s) && Run(s, steps).Some?
    ensures Inv(Run(s, steps).value)
    decreases |steps|
  {
    hide Inv, Take, Enabled;
    if steps != [] {
      StepKeeps(s, steps[0]);
      RunKeeps(Take(s, steps[0]), steps[1..]);
    }
  }

  lemma ReachableInv(steps: seq<Step>)
    requires Run(START, steps).Some?
    ensures Inv(Run(START, steps).value)
  {
    hide Run;
    assert Inv(START);
    RunKeeps(START, steps);
  }

  // What the protocol guarantees

  /** At most one refresh is under way for a uid in a tab. */
  lemma OneTaskPerTab(steps: seq<Step>, t: nat, u: nat)
    requires Run(START, steps).Some?
    requires var s := Run(START, steps).value;
             && t in s.tasks && u in s.tasks && KeyOf(s.tasks[t]) == KeyOf(s.tasks[u])
             && !s.tasks[t].stage.Settled? && !s.tasks[u].stage.Settled?
    ensures t == u
  {
    hide Run;
    ReachableInv(steps);
    var s := Run(START, steps).value;
    assert TaskOk(s, t) && TaskOk(s, u);
  }

  /** At most one task holds the lock of a uid across all tabs. */
  lemma OneLockPerUid(s: System, t: nat, u: nat)
    requires Inv(s) && t in s.tasks && u in s.tasks && s.tasks[t].uid == s.tasks[u].uid
    requires HoldsLock(s.tasks[t].stage) && HoldsLock(s.tasks[u].stage)
    ensures t == u
  {
    assert TaskOk(s, t) && TaskOk(s, u);
  }

  /** At most one refresh call is out for a uid across all tabs. */
  lemma OneCallPerUid(steps: seq<Step>, q: nat, r: nat)
    requires Run(START, steps).Some?
    requires var s := Run(START, steps).value;
             && q in s.requests && r in s.requests && s.requests[q].uid == s.requests[r].uid
             && s.requests[q].caller.Some? && s.requests[r].caller.Some?
             && s.requests[q].stage == Sent && s.requests[r].stage == Sent
    ensures q == r
  {
    hide Run;
    ReachableInv(steps);
    var s := Run(START, steps).value;
    assert RequestOk(s, q) && RequestOk(s, r);
    OneLockPerUid(s, s.requests[q].caller.value, s.requests[r].caller.value);
  }

  /** A refresh call is sent at once, once, and waits for nothing; whatever its status, also 401, it is returned as
      it is, and no refresh is started or joined for it. */
  lemma RefreshCallPasses(steps: seq<Step>, r: nat, status: int, freshTask: nat)
    requires Run(START, steps).Some?
    requires var s := Run(START, steps).value; r in s.requests && s.requests[r].caller.Some?
    ensures var s := Run(START, steps).value;
            var q := s.requests[r];
            && Waited(q.stage).None? && q.sends == 1 && q.holds == 0 && q.joins == 0
            && (Enabled(s, Respond(r, status, freshTask)) ==>
                Take(s, Respond(r, status, freshTask))
                    == s.(requests := s.requests[r := q.(stage := Finished(Some(status)))]))
  {
    hide Run;
    ReachableInv(steps);
    assert RequestOk(Run(START, steps).value, r);
  }

  /** What the guard is for: when a refresh makes its call, that refresh is the one running for the uid in the tab,
      so that a call without the guard would be held until its own refresh is over. */
  lemma OwnRefreshRuns(steps: seq<Step>, t: nat, r: nat)
    requires Run(START, steps).Some? && Enabled(Run(START, steps).value, Acquire(t, r))
    ensures var s := Run(START, steps).value; Running(s, KeyOf(s.tasks[t])) == Some(t)
  {
    hide Run;
    ReachableInv(steps);
    assert TaskOk(Run(START, steps).value, t);
  }

  /** A refresh makes one call; a request waits for at most one refresh before it is sent, joins at most one
      after a 401, and is sent at most twice. */
  lemma BoundedWork(steps: seq<Step>)
    requires Run(START, steps).Some?
    ensures var s := Run(START, steps).value;
            && (forall t :: t in s.tasks ==> s.tasks[t].calls <= 1)
            && (forall r :: r in s.requests ==>
                  s.requests[r].holds <= 1 && s.requests[r].joins <= 1 && s.requests[r].sends <= 2)
  {
    hide Run;
    ReachableInv(steps);
    var s := Run(START, steps).value;
    assert forall t :: t in s.tasks ==> TaskOk(s, t);
    assert forall r :: r in s.requests ==> RequestOk(s, r);
  }

  /** By the time a request sees how its refresh ended, the runner has forgotten that refresh: what it starts next
      is a new one. */
  lemma ForgottenBeforeSeen(steps: seq<Step>, r: nat)
    requires Run(START, steps).Some? && Enabled(Run(START, steps).value, Resume(r))
    ensures var s := Run(START, steps).value;
            var q := s.requests[r];
            Running(s, (q.tab, q.uid)) != Waited(q.stage)
  {
    hide Run;
    ReachableInv(steps);
    var s := Run(START, steps).value;
    assert RequestOk(s, r);
  }

  // Every request is answered

  ghost function Total(m: map<nat, nat>): nat
    decreases m.Keys
  {
    if m == map[] then 0
    else
      var k :| k in m;
      assert (m - {k}).Keys < m.Keys;
      m[k] + Total(m - {k})
  }

  lemma {:induction false} TotalAt(m: map<nat, nat>, k: nat)
    requires k in m
    ensures Total(m) == m[k] + Total(m - {k})
    decreases m.Keys
  {
    var l :| l in m && Total(m) == m[l] + Total(m - {l});
    if l != k {
      assert (m - {l}).Keys < m.Keys && (m - {k}).Keys < m.Keys;
      TotalAt(m - {l}, k);
      TotalAt(m - {k}, l);
      assert m - {l} - {k} == m - {k} - {l};
    }
  }

  lemma TotalPut(m: map<nat, nat>, k: nat, v: nat)
    ensures Total(m[k := v]) == Total(m) - (if k in m then m[k] else 0) + v
  {
    TotalAt(m[k := v], k);
    assert m[k := v] - {k} == m - {k};
    if k in m {
      TotalAt(m, k);
    } else {
      assert m - {k} == m;
    }
  }

  /** What a request can still lead to, at most: sending it may lead to a refresh, a call and a wait. */
  function RequestWork(q: Request): nat {
    match q.stage
    case Held(_) => 10
    case Sent => if Passes(q) || q.joins > 0 then 1 else 9
    case Joined(_) => 2
    case Finished(_) => 0
  }

  /** The same for a refresh; its waiters are to be woken. */
  function TaskWork(task: Task): nat {
    match task.stage
    case Queued => 5 + |task.waiters|
    case Calling(_) => 3 + |task.waiters|
    case Lingering(_) => 2 + |task.waiters|
    case Settled(_) => 0
  }

  function RequestWorks(requests: map<nat, Request>): map<nat, nat> {
    map r | r in requests :: RequestWork(requests[r])
  }

  function TaskWorks(tasks: map<nat, Task>): map<nat, nat> {
    map t | t in tasks :: TaskWork(tasks[t])
  }

  function QueueWorks(queues: map<Tab, seq<Job>>): map<nat, nat> {
    map tab | tab in queues :: |queues[tab]|
  }

  ghost function Work(s: System): nat {
    Total(RequestWorks(s.requests)) + Total(TaskWorks(s.tasks)) + Total(QueueWorks(s.queues))
  }

  lemma PutRequest(requests: map<nat, Request>, r: nat, q: Request)
    ensures Total(RequestWorks(requests[r := q]))
         == Total(RequestWorks(requests)) - (if r in requests then RequestWork(requests[r]) else 0) + RequestWork(q)
  {
    TotalPut(RequestWorks(requests), r, RequestWork(q));
    assert RequestWorks(requests[r := q]) == RequestWorks(requests)[r := RequestWork(q)];
  }

  lemma PutTask(tasks: map<nat, Task>, t: nat, task: Task)
    ensures Total(TaskWorks(tasks[t := task]))
         == Total(TaskWorks(tasks)) - (if t in tasks then TaskWork(tasks[t]) else 0) + TaskWork(task)
  {
    TotalPut(TaskWorks(tasks), t, TaskWork(task));
    assert TaskWorks(tasks[t := task]) == TaskWorks(tasks)[t := TaskWork(task)];
  }

  lemma PutQueue(s: System, tab: Tab, queue: seq<Job>)
    ensures Total(QueueWorks(s.queues[tab := queue])) == Total(QueueWorks(s.queues)) - |Queue(s, tab)| + |queue|
  {
    TotalPut(QueueWorks(s.queues), tab, |queue|);
    assert QueueWorks(s.queues[tab := queue]) == QueueWorks(s.queues)[tab := |queue|];
  }

  /** A request that waits costs the wake-up that it will get. */
  lemma AwaitCosts(s: System, r: nat, t: nat)
    requires t in s.tasks
    ensures Work(Await(s, r, t)) == Work(s) + 1
  {
    hide Total;
    var task := s.tasks[t];
    if task.stage.Settled? {
      PutQueue(s, task.tab, Queue(s, task.tab) + [Wake(r, t)]);
    } else {
      PutTask(s.tasks, t, task.(waiters := task.waiters + [r]));
    }
  }

  lemma RunOnceCosts(s: System, key: Key, freshTask: nat)
    requires freshTask !in s.tasks
    ensures Work(RunOnce(s, key, freshTask)) <= Work(s) + 5
  {
    hide Total;
    PutTask(s.tasks, freshTask, Task(key.0, key.1, Queued, [], 0));
  }

  lemma RequestCosts(s: System, r: nat, q: Request)
    requires r in s.requests
    ensures Work(s.(requests := s.requests[r := q])) == Work(s) - RequestWork(s.requests[r]) + RequestWork(q)
  {
    hide Total;
    PutRequest(s.requests, r, q);
  }

  lemma SettleShrinks(s: System, t: nat, outcome: Outcome)
    requires t in s.tasks && HoldsLock(s.tasks[t].stage)
    ensures Work(Settle(s, t, outcome)) < Work(s)
  {
    hide Total;
    var task := s.tasks[t];
    PutTask(s.tasks, t, task.(stage := Settled(outcome)));
    PutQueue(s, task.tab, Queue(s, task.tab) + ([Forget(t)] + Wakes(task.waiters, t)));
  }

  lemma RespondShrinks(s: System, r: nat, status: int, freshTask: nat)
    requires Inv(s) && Enabled(s, Respond(r, status, freshTask))
    ensures Work(Take(s, Respond(r, status, freshTask))) < Work(s)
  {
    hide Work, Await, RunOnce;
    var q := s.requests[r];
    if !Passes(q) && status == 401 && q.joins == 0 {
      var key := (q.tab, q.uid);
      RunOnceKeeps(s, key, freshTask);
      RunOnceCosts(s, key, freshTask);
      var u := RunOnce(s, key, freshTask);
      var joined := q.(stage := Joined(u.running[key]), awake := false, joins := 1);
      RequestCosts(u, r, joined);
      AwaitCosts(u.(requests := u.requests[r := joined]), r, u.running[key]);
    } else {
      RequestCosts(s, r, q.(stage := Finished(Some(status))));
    }
  }

  lemma AcquireShrinks(s: System, t: nat, r: nat)
    requires Enabled(s, Acquire(t, r))
    ensures Work(Take(s, Acquire(t, r))) < Work(s)
  {
    hide Total;
    var task := s.tasks[t];
    PutTask(s.tasks, t, task.(stage := Calling(r), calls := task.calls + 1));
    PutRequest(s.requests, r, Request(task.tab, task.uid, Some(t), Sent, false, 1, 0, 0));
  }

  lemma JobShrinks(s: System, tab: Tab)
    requires Enabled(s, RunJob(tab))
    ensures Work(Take(s, RunJob(tab))) < Work(s)
  {
    hide Total;
    PutQueue(s, tab, Queue(s, tab)[1..]);
    if Queue(s, tab)[0].Wake? {
      var r := Queue(s, tab)[0].request;
      if r in s.requests {
        PutRequest(s.requests, r, s.requests[r].(awake := true));
      }
    }
  }

  lemma ResumeShrinks(s: System, r: nat)
    requires Inv(s) && Enabled(s, Resume(r))
    ensures Work(Take(s, Resume(r))) < Work(s)
  {
    hide Work;
    assert RequestOk(s, r);
    var q := s.requests[r];
    var outcome := s.tasks[Waited(q.stage).value].stage.outcome;
    RequestCosts(s, r, if q.stage.Held? then q.(stage := Sent, awake := false, sends := q.sends + 1)
                       else Conclude(q, outcome));
  }

  /** Every step other than a new request gets nearer to the end. */
  lemma WorkShrinks(s: System, step: Step)
    requires Inv(s) && Enabled(s, step) && !step.Arrive?
    ensures Work(Take(s, step)) < Work(s)
  {
    match step
    case Respond(r, status, freshTask) => RespondShrinks(s, r, status, freshTask);
    case FailToSend(r) => RequestCosts(s, r, s.requests[r].(stage := Finished(None)));
    case Acquire(t, r) => AcquireShrinks(s, t, r);
    case Reply(t) => ReplyShrinks(s, t);
    case Release(t) => SettleShrinks(s, t, s.tasks[t].stage.outcome);
    case RunJob(tab) => JobShrinks(s, tab);
    case Resume(r) => ResumeShrinks(s, r);
  }

  lemma ReplyShrinks(s: System, t: nat)
    requires Enabled(s, Reply(t))
    ensures Work(Take(s, Reply(t))) < Work(s)
  {
    hide Total;
    var answer := s.requests[s.tasks[t].stage.call].stage.status;
    if answer.None? {
      SettleShrinks(s, t, Rejected);
    } else {
      PutTask(s.tasks, t, s.tasks[t].(stage := Lingering(OutcomeOf(answer))));
    }
  }

  /** Without new requests a run can only be so long. */
  lemma {:induction false} RunsEnd(s: System, steps: seq<Step>)
    requires Inv(s) && Run(s, steps).Some? && forall i :: 0 <= i < |steps| ==> !steps[i].Arrive?
    ensures |steps| + Work(Run(s, steps).value) <= Work(s)
    decreases |steps|
  {
    hide Inv, Take, Enabled, Work;
    if steps != [] {
      WorkShrinks(s, steps[0]);
      StepKeeps(s, steps[0]);
      RunsEnd(Take(s, steps[0]), steps[1..]);
    }
  }

  /** As long as a request is unfinished, something can happen that is not a new request. A refresh waits only for
      the lock, and whoever holds the lock waits only for its call, the network and the clock. */
  lemma NeverStuck(s: System, r: nat) returns (step: Step)
    requires Inv(s) && r in s.requests && !s.requests[r].stage.Finished?
    ensures Enabled(s, step) && !step.Arrive?
  {
    assert RequestOk(s, r);
    var q := s.requests[r];
    if q.stage == Sent {
      step := FailToSend(r);
    } else {
      var t := Waited(q.stage).value;
      if s.tasks[t].stage.Settled? {
        step := if q.awake then Resume(r) else RunJob(q.tab);
      } else {
        step := NextForTask(s, t);
      }
    }
  }

  /** What can happen next so that the refresh goes on. */
  lemma NextForTask(s: System, t: nat) returns (step: Step)
    requires Inv(s) && t in s.tasks && !s.tasks[t].stage.Settled?
    ensures Enabled(s, step) && !step.Arrive?
  {
    var task := s.tasks[t];
    if task.stage == Queued {
      if task.uid in s.locks {
        step := NextForHolder(s, s.locks[task.uid]);
      } else {
        var r := NotAmong(s.requests.Keys);
        step := Acquire(t, r);
      }
    } else {
      step := NextForHolder(s, t);
    }
  }

  lemma NextForHolder(s: System, t: nat) returns (step: Step)
    requires Inv(s) && t in s.tasks && HoldsLock(s.tasks[t].stage)
    ensures Enabled(s, step) && !step.Arrive?
  {
    assert TaskOk(s, t);
    if s.tasks[t].stage.Calling? {
      var r := s.tasks[t].stage.call;
      assert RequestOk(s, r);
      step := if s.requests[r].stage.Finished? then Reply(t) else FailToSend(r);
    } else {
      step := Release(t);
    }
  }

  lemma {:induction false} NotAmong(xs: set<nat>) returns (n: nat)
    ensures n !in xs && forall x :: x in xs ==> x < n
    decreases xs
  {
    if xs == {} {
      n := 0;
    } else {
      var x :| x in xs;
      var m := NotAmong(xs - {x});
      n := if m <= x then x + 1 else m;
      assert forall y :: y in xs ==> y == x || y in xs - {x};
    }
  }

  /** A run after which nothing but a new request can happen has answered every request. */
  lemma AllAnswered(steps: seq<Step>, r: nat)
    requires Run(START, steps).Some?
    requires forall step :: Enabled(Run(START, steps).value, step) ==> step.Arrive?
    requires r in Run(START, steps).value.requests
    ensures Run(START, steps).value.requests[r].stage.Finished?
  {
    hide Run, Enabled;
    ReachableInv(steps);
    var s := Run(START, steps).value;
    if !s.requests[r].stage.Finished? {
      var step := NeverStuck(s, r);
      assert false;
    }
  }

  /** From any state that keeps the invariant, a run without new requests leads to one in which all are answered. */
  lemma {:induction false} Completes(s: System) returns (steps: seq<Step>)
    requires Inv(s)
    ensures Run(s, steps).Some? && forall i :: 0 <= i < |steps| ==> !steps[i].Arrive?
    ensures forall r :: r in Run(s, steps).value.requests ==> Run(s, steps).value.requests[r].stage.Finished?
    decreases Work(s)
  {
    hide Inv, Take, Enabled, Work;
    if r :| r in s.requests && !s.requests[r].stage.Finished? {
      var step := NeverStuck(s, r);
      WorkShrinks(s, step);
      StepKeeps(s, step);
      var more := Completes(Take(s, step));
      steps := [step] + more;
      assert steps[1..] == more;
    } else {
      steps := [];
    }
  }

  // The runner object of one tab

  class KeyedSingleRunner {
    var running: map<string, nat>

    constructor ()
      ensures running == map[]
    {
      running := map[];
    }

    method Get(key: string) returns (promise: Option<nat>)
      ensures promise == if key in running then Some(running[key]) else None
    {
      if key in running {
        return Some(running[key]);
      }
      return None;
    }

    /** The promise of the running task, or of the given one, which is then running. */
    method Run(key: string, task: nat) returns (promise: nat)
      modifies this
      ensures key in running && promise == running[key]
      ensures running == if key in old(running) then old(running) else old(running)[key := task]
    {
      if key in running {
        return running[key];
      }
      running := running[key := task];
      return task;
    }

    /** The callback of a task that has finished. */
    method Finished(key: string)
      modifies this
      ensures running == old(running) - {key}
    {
      running := running - {key};
    }
  }

  /** The transition system's runner does what the object of the tab does, and nothing for other tabs or uids. */
  lemma RunnerRuns(s: System, key: Key, task: nat, other: Key)
    ensures var before, after := Running(s, other), Running(RunOnce(s, key, task), other);
            after == if other == key && before.None? then Some(task) else before
  {
  }
}
