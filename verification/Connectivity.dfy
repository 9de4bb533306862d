/** The connectivity observer of packages/react-utils/src/connectivity/OnlineObserver.ts as a timed transition
    system, and the object whose methods are its transitions. */
module Connectivity {
  import opened Results

  datatype Config = Config(offlineDelay: nat, retryInterval: nat, backOnlineDuration: nat)

  datatype Status = Status(isOnline: bool, isBackOnline: bool)

  /** When a timer is due, and its place in the order of creation. */
  datatype Timer = Timer(due: nat, order: nat)

  /** The observer's fields, the time, the number of timers created, the pings without an answer, and how often
      the listeners have been told. */
  datatype World = World(
    listeners: set<nat>, navigatorOnline: bool, pingOffline: bool, lastSafe: bool, isOnline: bool, isBackOnline: bool,
    snapshot: Status, debounce: Option<Timer>, retry: Option<Timer>, backOnline: Option<Timer>, isPinging: bool,
    now: nat, timers: nat, pings: nat, told: nat)

  function Fields(w: World): Status {
    Status(w.isOnline, w.isBackOnline)
  }

  function New(online: bool): World {
    World({}, online, false, online, online, false, Status(online, false), None, None, None, false, 0, 0, 0, 0)
  }

  /** A new snapshot, and word to the listeners, if something has changed. */
  function Publish(w: World, notify: bool): World {
    if w.snapshot == Fields(w) then w
    else w.(snapshot := Fields(w), told := if notify then w.told + 1 else w.told)
  }

  function NewTimer(w: World, delay: nat): Timer {
    Timer(w.now + delay, w.timers)
  }

  function SetOnline(c: Config, w: World, isOnline: bool): World {
    if isOnline == w.isOnline then w
    else
      var u := w.(isOnline := isOnline, retry := None, backOnline := None, timers := w.timers + 1);
      if isOnline then Publish(u.(isBackOnline := true, backOnline := Some(NewTimer(w, c.backOnlineDuration))), true)
      else Publish(u.(retry := Some(NewTimer(w, c.retryInterval))), true)
  }

  predicate Safe(w: World) {
    w.navigatorOnline && !w.pingOffline
  }

  /** Going online is immediate; going offline waits. */
  function ApplySafeOnline(c: Config, w: World): World {
    if Safe(w) == w.lastSafe then w
    else
      var u := w.(lastSafe := Safe(w), debounce := None);
      if Safe(w) then SetOnline(c, u, true)
      else u.(debounce := Some(NewTimer(w, c.offlineDelay)), timers := w.timers + 1)
  }

  function SetPingOffline(c: Config, w: World, pingOffline: bool): World {
    if w.listeners == {} || pingOffline == w.pingOffline then w
    else ApplySafeOnline(c, w.(pingOffline := pingOffline))
  }

  function HandlePing(w: World): World {
    if w.isPinging then w else w.(isPinging := true, pings := w.pings + 1)
  }

  function StartObserving(c: Config, w: World, online: bool): World {
    var u := w.(pingOffline := false, navigatorOnline := online, lastSafe := online, isOnline := online,
                isBackOnline := false);
    Publish(if online then u else u.(retry := Some(NewTimer(w, c.retryInterval)), timers := w.timers + 1), false)
  }

  function StopObserving(w: World): World {
    w.(debounce := None, retry := None, backOnline := None)
  }

  /** What an unanswered ping comes to: a status, or a network failure. */
  datatype Answer = Response(status: nat) | NetworkFailure

  datatype Event =
    | Subscribe(listener: nat, online: bool)
    | Unsubscribe(listener: nat)
    | BrowserEvent(online: bool)
    | PingAnswer(answer: Answer)
    | DebounceFires
    | RetryFires
    | BackOnlineFires
    | TimePasses(duration: nat)

  predicate Before(a: Timer, b: Option<Timer>) {
    b.Some? ==> a.due < b.value.due || (a.due == b.value.due && a.order <= b.value.order)
  }

  /** The timer is due, and none is due before it; timers due together fire in order of creation. */
  predicate IsNext(w: World, t: Option<Timer>) {
    t.Some? && t.value.due <= w.now && Before(t.value, w.debounce) && Before(t.value, w.retry)
        && Before(t.value, w.backOnline)
  }

  predicate Enabled(w: World, e: Event) {
    match e
    case Subscribe(_, _) => true
    case Unsubscribe(_) => true
    case BrowserEvent(_) => w.listeners != {}
    case PingAnswer(_) => w.pings > 0
    case DebounceFires => IsNext(w, w.debounce)
    case RetryFires => IsNext(w, w.retry)
    case BackOnlineFires => IsNext(w, w.backOnline)
    case TimePasses(_) => true
  }

  function Handle(c: Config, w: World, e: Event): World
    requires Enabled(w, e)
  {
    match e
    case Subscribe(listener, online) =>
      var u := if w.listeners == {} then StartObserving(c, w, online) else w;
      u.(listeners := u.listeners + {listener})
    case Unsubscribe(listener) =>
      var u := w.(listeners := w.listeners - {listener});
      if u.listeners == {} then StopObserving(u) else u
    case BrowserEvent(online) => ApplySafeOnline(c, w.(navigatorOnline := online))
    case PingAnswer(answer) =>
      var u := match answer
               case Response(status) => if status >= 200 then SetPingOffline(c, w, false) else w
               case NetworkFailure => SetPingOffline(c, w, true);
      u.(isPinging := false, pings := u.pings - 1)
    case DebounceFires => SetOnline(c, w.(debounce := None), false)
    case RetryFires =>
      HandlePing(w.(retry := Some(NewTimer(w, c.retryInterval)), timers := w.timers + 1))
    case BackOnlineFires => Publish(HandlePing(w.(backOnline := None, isBackOnline := false)), true)
    case TimePasses(duration) => w.(now := w.now + duration)
  }

  // Timers and state

  /** The timers that are armed say what state the observer is in. */
  ghost predicate TimersAgree(w: World) {
    && w.lastSafe == Safe(w)
    && w.snapshot == Fields(w)
    && (w.listeners == {} ==> w.debounce.None? && w.retry.None? && w.backOnline.None?)
    && (w.listeners != {} ==>
        && (w.retry.Some? <==> !w.isOnline)
        && (w.debounce.Some? <==> w.isOnline && !w.lastSafe)
        && (w.backOnline.Some? <==> w.isOnline && w.isBackOnline)
        && (w.lastSafe ==> w.isOnline))
    && w.pings == (if w.isPinging then 1 else 0)
  }

  /** The same, while the safe state has changed and the transition it calls for is still to be made. */
  ghost predicate AlmostAgree(w: World) {
    && w.snapshot == Fields(w) && w.listeners != {} && w.lastSafe && w.debounce.None?
    && (w.retry.Some? <==> !w.isOnline)
    && (w.backOnline.Some? <==> w.isOnline && w.isBackOnline)
    && w.pings == (if w.isPinging then 1 else 0)
  }

  lemma OnlineAgrees(c: Config, w: World)
    requires AlmostAgree(w) && Safe(w)
    ensures TimersAgree(SetOnline(c, w, true)) && SetOnline(c, w, true).listeners == w.listeners
  {
  }

  lemma OfflineAgrees(c: Config, w: World)
    requires TimersAgree(w) && w.debounce.Some?
    ensures TimersAgree(SetOnline(c, w.(debounce := None), false))
  {
  }

  lemma ApplyAgrees(c: Config, w: World, navigatorOnline: bool, pingOffline: bool)
    requires TimersAgree(w) && w.listeners != {}
    ensures var u := ApplySafeOnline(c, w.(navigatorOnline := navigatorOnline, pingOffline := pingOffline));
            TimersAgree(u) && u.listeners == w.listeners
  {
    hide SetOnline;
    var u := w.(navigatorOnline := navigatorOnline, pingOffline := pingOffline);
    if Safe(u) != u.lastSafe && Safe(u) {
      OnlineAgrees(c, u.(lastSafe := true, debounce := None));
    }
  }

  lemma SubscribeAgrees(c: Config, w: World, listener: nat, online: bool)
    requires TimersAgree(w)
    ensures TimersAgree(Handle(c, w, Subscribe(listener, online)))
  {
  }

  lemma PingAgrees(c: Config, w: World, answer: Answer)
    requires TimersAgree(w) && w.pings > 0
    ensures TimersAgree(Handle(c, w, PingAnswer(answer)))
  {
    hide ApplySafeOnline;
    if w.listeners != {} {
      ApplyAgrees(c, w, w.navigatorOnline, false);
      ApplyAgrees(c, w, w.navigatorOnline, true);
      KeepsPings(c, w.(pingOffline := false));
      KeepsPings(c, w.(pingOffline := true));
    }
  }

  lemma KeepsPings(c: Config, w: World)
    ensures ApplySafeOnline(c, w).isPinging == w.isPinging && ApplySafeOnline(c, w).pings == w.pings
  {
  }

  /** Every event keeps the timers in agreement with the state, and at most one ping out. */
  lemma HandleAgrees(c: Config, w: World, e: Event)
    requires TimersAgree(w) && Enabled(w, e)
    ensures TimersAgree(Handle(c, w, e))
  {
    hide SetOnline, ApplySafeOnline, SetPingOffline, StartObserving;
    match e
    case Subscribe(listener, online) => SubscribeAgrees(c, w, listener, online);
    case Unsubscribe(_) =>
    case BrowserEvent(online) => ApplyAgrees(c, w, online, w.pingOffline);
    case PingAnswer(answer) => PingAgrees(c, w, answer);
    case DebounceFires => OfflineAgrees(c, w);
    case RetryFires =>
    case BackOnlineFires =>
    case TimePasses(_) =>
  }

  function Run(c: Config, w: World, events: seq<Event>): Option<World>
    decreases |events|
  {
    if events == [] then Some(w)
    else if Enabled(w, events[0]) then Run(c, Handle(c, w, events[0]), events[1..])
    else None
  }

  lemma {:induction false} RunAgrees(c: Config, w: World, events: seq<Event>)
    requires TimersAgree(w) && Run(c, w, events).Some?
    ensures TimersAgree(Run(c, w, events).value)
    decreases |events|
  {
    hide TimersAgree, Handle, Enabled;
    if events != [] {
      HandleAgrees(c, w, events[0]);
      RunAgrees(c, Handle(c, w, events[0]), events[1..]);
    }
  }

  /** After any events: the retry timer runs just while offline, the debounce timer just while a loss is being
      waited out, the back-online timer just while that is shown; the snapshot is what the fields say; without
      subscribers nothing is armed; and at most one ping is out. */
  lemma AlwaysAgrees(c: Config, online: bool, events: seq<Event>)
    requires Run(c, New(online), events).Some?
    ensures TimersAgree(Run(c, New(online), events).value) && Run(c, New(online), events).value.pings <= 1
  {
    hide Run;
    RunAgrees(c, New(online), events);
  }

  // Timing

  /** Since when the connection has been unsafe, without a break, as far as observed. */
  function UnsafeSince(since: Option<nat>, before: World, e: Event, after: World): Option<nat> {
    if Safe(after) then None
    else if since.None? || (e.Subscribe? && before.listeners == {}) then Some(after.now)
    else since
  }

  datatype Watched = Watched(w: World, since: Option<nat>)

  function Watch(c: Config, x: Watched, e: Event): Watched
    requires Enabled(x.w, e)
  {
    var u := Handle(c, x.w, e);
    Watched(u, UnsafeSince(x.since, x.w, e, u))
  }

  function WatchAll(c: Config, x: Watched, events: seq<Event>): Option<Watched>
    decreases |events|
  {
    if events == [] then Some(x)
    else if Enabled(x.w, events[0]) then WatchAll(c, Watch(c, x, events[0]), events[1..])
    else None
  }

  function Fresh(online: bool): Watched {
    Watched(New(online), if online then None else Some(0))
  }

  ghost predicate Timed(c: Config, x: Watched) {
    && TimersAgree(x.w)
    && (x.since.Some? <==> !Safe(x.w))
    && (x.since.Some? ==> x.since.value <= x.w.now)
    && (x.w.debounce.Some? ==> x.since.Some? && x.w.debounce.value.due == x.since.value + c.offlineDelay)
  }

  lemma ApplyDebounce(c: Config, w: World)
    ensures var u := ApplySafeOnline(c, w);
            && u.debounce == (if Safe(w) == w.lastSafe then w.debounce
                              else if Safe(w) then None
                              else Some(NewTimer(w, c.offlineDelay)))
            && u.now == w.now && u.navigatorOnline == w.navigatorOnline && u.pingOffline == w.pingOffline
            && (u.isOnline == w.isOnline || u.isOnline)
  {
  }

  lemma {:induction false} WatchTimed(c: Config, x: Watched, e: Event)
    requires Timed(c, x) && Enabled(x.w, e)
    ensures Timed(c, Watch(c, x, e))
  {
    hide ApplySafeOnline, TimersAgree;
    var w := x.w;
    HandleAgrees(c, w, e);
    Agreed(w);
    match e
    case BrowserEvent(online) => ApplyDebounce(c, w.(navigatorOnline := online));
    case PingAnswer(answer) => PingTimed(c, x, answer);
    case _ =>
  }

  lemma PingTimed(c: Config, x: Watched, answer: Answer)
    requires Timed(c, x) && x.w.pings > 0
    requires TimersAgree(Handle(c, x.w, PingAnswer(answer)))
    ensures Timed(c, Watch(c, x, PingAnswer(answer)))
  {
    hide ApplySafeOnline, TimersAgree;
    Agreed(x.w);
    ApplyDebounce(c, x.w.(pingOffline := false));
    ApplyDebounce(c, x.w.(pingOffline := true));
  }

  lemma Agreed(w: World)
    requires TimersAgree(w)
    ensures w.lastSafe == Safe(w) && (w.listeners == {} ==> w.debounce.None?)
    ensures w.debounce.Some? ==> w.isOnline && !w.lastSafe
    ensures w.debounce.Some? && w.backOnline.None? ==> !w.isBackOnline
  {
  }

  lemma {:induction false} WatchAllTimed(c: Config, x: Watched, events: seq<Event>)
    requires Timed(c, x) && WatchAll(c, x, events).Some?
    ensures Timed(c, WatchAll(c, x, events).value)
    decreases |events|
  {
    hide Timed, Watch, Enabled;
    if events != [] {
      WatchTimed(c, x, events[0]);
      WatchAllTimed(c, Watch(c, x, events[0]), events[1..]);
    }
  }

  /** While subscribed, offline is reported only when the connection has been unsafe for the whole of the delay,
      without a break. */
  lemma OfflineNeedsDelay(c: Config, online: bool, events: seq<Event>, e: Event)
    requires WatchAll(c, Fresh(online), events).Some? && Enabled(WatchAll(c, Fresh(online), events).value.w, e)
    requires var x := WatchAll(c, Fresh(online), events).value;
             x.w.listeners != {} && x.w.isOnline && !Handle(c, x.w, e).isOnline
    ensures var x := WatchAll(c, Fresh(online), events).value;
            x.since.Some? && x.w.now >= x.since.value + c.offlineDelay
  {
    hide WatchAll, ApplySafeOnline, TimersAgree;
    assert Timed(c, Fresh(online)) by {
      FreshTimed(c, online);
    }
    WatchAllTimed(c, Fresh(online), events);
    var w := WatchAll(c, Fresh(online), events).value.w;
    match e
    case BrowserEvent(on) => ApplyDebounce(c, w.(navigatorOnline := on));
    case PingAnswer(_) =>
      ApplyDebounce(c, w.(pingOffline := false));
      ApplyDebounce(c, w.(pingOffline := true));
    case _ =>
  }

  lemma FreshTimed(c: Config, online: bool)
    ensures Timed(c, Fresh(online))
  {
  }

  /** The back-online timer is always the first of the two to fire. */
  ghost predicate Ordered(c: Config, w: World) {
    && TimersAgree(w)
    && !(w.isBackOnline && !w.isOnline)
    && (w.backOnline.Some?
        ==> w.backOnline.value.order < w.timers && w.backOnline.value.due <= w.now + c.backOnlineDuration)
    && (w.backOnline.Some? && w.debounce.Some?
        ==> Before(w.backOnline.value, w.debounce) && w.backOnline.value.order < w.debounce.value.order)
  }

  lemma ApplyOrdered(c: Config, w: World, navigatorOnline: bool, pingOffline: bool)
    requires Ordered(c, w) && w.listeners != {} && c.offlineDelay >= c.backOnlineDuration
    ensures Ordered(c, ApplySafeOnline(c, w.(navigatorOnline := navigatorOnline, pingOffline := pingOffline)))
  {
    ApplyAgrees(c, w, navigatorOnline, pingOffline);
  }

  lemma {:induction false} HandleOrdered(c: Config, w: World, e: Event)
    requires Ordered(c, w) && Enabled(w, e) && c.offlineDelay >= c.backOnlineDuration
    ensures Ordered(c, Handle(c, w, e))
  {
    hide ApplySafeOnline;
    HandleAgrees(c, w, e);
    match e
    case BrowserEvent(online) => ApplyOrdered(c, w, online, w.pingOffline);
    case PingAnswer(answer) => PingOrdered(c, w, answer);
    case _ =>
  }

  lemma PingOrdered(c: Config, w: World, answer: Answer)
    requires Ordered(c, w) && w.pings > 0 && c.offlineDelay >= c.backOnlineDuration
    requires TimersAgree(Handle(c, w, PingAnswer(answer)))
    ensures Ordered(c, Handle(c, w, PingAnswer(answer)))
  {
    hide ApplySafeOnline, TimersAgree;
    if w.listeners != {} {
      ApplyOrdered(c, w, w.navigatorOnline, false);
      ApplyOrdered(c, w, w.navigatorOnline, true);
    }
  }

  lemma {:induction false} RunOrdered(c: Config, w: World, events: seq<Event>)
    requires Ordered(c, w) && Run(c, w, events).Some? && c.offlineDelay >= c.backOnlineDuration
    ensures Ordered(c, Run(c, w, events).value)
    decreases |events|
  {
    hide Ordered, Handle, Enabled;
    if events != [] {
      HandleOrdered(c, w, events[0]);
      RunOrdered(c, Handle(c, w, events[0]), events[1..]);
    }
  }

  /** Back online and offline at the same time is never reported when the delay before offline is at least as
      long as back-online is shown. */
  lemma NeverBoth(c: Config, online: bool, events: seq<Event>)
    requires Run(c, New(online), events).Some? && c.offlineDelay >= c.backOnlineDuration
    ensures var s := Run(c, New(online), events).value.snapshot;
            !(s.isBackOnline && !s.isOnline)
  {
    hide Run;
    RunOrdered(c, New(online), events);
  }

  /** With a shorter delay it is: the connection comes back and is lost again at once. */
  lemma BothOtherwise(c: Config) returns (events: seq<Event>)
    requires c.offlineDelay < c.backOnlineDuration
    ensures Run(c, New(false), events).Some?
    ensures var s := Run(c, New(false), events).value.snapshot;
            s.isBackOnline && !s.isOnline
  {
    events := [Subscribe(0, false), BrowserEvent(true), BrowserEvent(false), TimePasses(c.offlineDelay), DebounceFires];
    var w1 := Handle(c, New(false), Subscribe(0, false));
    var w2 := Handle(c, w1, BrowserEvent(true));
    var w3 := Handle(c, w2, BrowserEvent(false));
    var w4 := Handle(c, w3, TimePasses(c.offlineDelay));
    assert Enabled(w4, DebounceFires);
    var w5 := Handle(c, w4, DebounceFires);
    assert w5.snapshot == Status(false, true);
    assert events[1..][1..][1..][1..][1..] == [];
    hide Handle, Enabled;
    RunFrom(c, New(false), events);
    RunFrom(c, w1, events[1..]);
    RunFrom(c, w2, events[1..][1..]);
    RunFrom(c, w3, events[1..][1..][1..]);
    RunFrom(c, w4, events[1..][1..][1..][1..]);
  }

  lemma RunFrom(c: Config, w: World, events: seq<Event>)
    requires events != [] && Enabled(w, events[0])
    ensures Run(c, w, events) == Run(c, Handle(c, w, events[0]), events[1..])
    ensures |events| == 1 ==> Run(c, w, events) == Some(Handle(c, w, events[0]))
  {
  }

  // The object

  /** The browser: its clock and its timers. */
  class Window {
    var now: nat
    var timers: nat

    constructor ()
      ensures now == 0 && timers == 0
    {
      now, timers := 0, 0;
    }

    method SetTimer(delay: nat) returns (t: Option<Timer>)
      modifies `timers
      ensures t == Some(Timer(now + delay, old(timers))) && timers == old(timers) + 1
    {
      t := Some(Timer(now + delay, timers));
      timers := timers + 1;
    }

    method Pass(duration: nat)
      modifies `now
      ensures now == old(now) + duration
    {
      now := now + duration;
    }
  }

  class OnlineObserver {
    const c: Config
    const window: Window
    var listeners: set<nat>
    var navigatorOnline: bool
    var pingOffline: bool
    var lastSafe: bool
    var isOnline: bool
    var isBackOnline: bool
    var snapshot: Status
    var debounceTimer: Option<Timer>
    var retryTimer: Option<Timer>
    var backOnlineTimer: Option<Timer>
    var isPinging: bool
    /** Pings sent and not yet answered, and calls to listeners. */
    var pings: nat
    var told: nat

    function State(): World
      reads this, window
    {
      World(listeners, navigatorOnline, pingOffline, lastSafe, isOnline, isBackOnline, snapshot, debounceTimer,
            retryTimer, backOnlineTimer, isPinging, window.now, window.timers, pings, told)
    }

    constructor (c: Config, window: Window, online: bool)
      requires window.now == 0 && window.timers == 0
      ensures this.c == c && this.window == window && State() == New(online) && TimersAgree(State())
    {
      this.c, this.window := c, window;
      listeners, navigatorOnline, pingOffline, lastSafe := {}, online, false, online;
      isOnline, isBackOnline, snapshot := online, false, Status(online, false);
      debounceTimer, retryTimer, backOnlineTimer := None, None, None;
      isPinging, pings, told := false, 0, 0;
    }

    method Subscribed(listener: nat, online: bool)
      modifies this, window`timers
      ensures State() == Handle(c, old(State()), Subscribe(listener, online))
    {
      if listeners == {} {
        Start(online);
      }
      listeners := listeners + {listener};
    }

    /** The closure that subscribing returns; it may be called again. */
    method Unsubscribed(listener: nat)
      modifies this
      ensures State() == Handle(c, old(State()), Unsubscribe(listener))
    {
      listeners := listeners - {listener};
      if listeners == {} {
        debounceTimer := None;
        ClearTransition();
      }
    }

    method Start(online: bool)
      modifies this, window`timers
      ensures State() == StartObserving(c, old(State()), online)
    {
      hide Publish;
      ResetState(online);
      if !isOnline {
        retryTimer := window.SetTimer(c.retryInterval);
      }
      PublishSnapshot(false);
    }

    method ResetState(online: bool)
      modifies this
      ensures State() == old(State()).(pingOffline := false, navigatorOnline := online, lastSafe := online,
                                       isOnline := online, isBackOnline := false)
    {
      pingOffline, navigatorOnline, lastSafe, isOnline, isBackOnline := false, online, online, online, false;
    }

    method ClearTransition()
      modifies `retryTimer, `backOnlineTimer
      ensures State() == old(State()).(retry := None, backOnline := None)
    {
      retryTimer, backOnlineTimer := None, None;
    }

    method HandleBrowserEvent(online: bool)
      requires listeners != {}
      modifies this, window`timers
      ensures State() == Handle(c, old(State()), BrowserEvent(online))
    {
      navigatorOnline := online;
      ApplySafe();
    }

    method ApplySafe()
      modifies this, window`timers
      ensures State() == ApplySafeOnline(c, old(State()))
    {
      var safeOnline := navigatorOnline && !pingOffline;
      if safeOnline == lastSafe {
        return;
      }
      lastSafe := safeOnline;
      debounceTimer := None;
      if safeOnline {
        ChangeOnline(true);
        return;
      }
      debounceTimer := window.SetTimer(c.offlineDelay);
    }

    method ChangeOnline(online: bool)
      modifies this, window`timers
      ensures State() == SetOnline(c, old(State()), online)
    {
      hide Publish;
      if online == isOnline {
        return;
      }
      isOnline := online;
      ClearTransition();
      ArmTransition();
      PublishSnapshot(true);
    }

    /** The retry loop while offline, or the back-online indicator for its time. */
    method ArmTransition()
      modifies `isBackOnline, `retryTimer, `backOnlineTimer, window`timers
      ensures var w := old(State());
              State() == if w.isOnline
                         then w.(isBackOnline := true, backOnline := Some(NewTimer(w, c.backOnlineDuration)),
                                 timers := w.timers + 1)
                         else w.(retry := Some(NewTimer(w, c.retryInterval)), timers := w.timers + 1)
    {
      if !isOnline {
        retryTimer := window.SetTimer(c.retryInterval);
        return;
      }
      isBackOnline := true;
      backOnlineTimer := window.SetTimer(c.backOnlineDuration);
    }

    /** The debounce has run out. */
    method OnDebounce()
      requires IsNext(State(), debounceTimer)
      modifies this, window`timers
      ensures State() == Handle(c, old(State()), DebounceFires)
    {
      debounceTimer := None;
      ChangeOnline(false);
    }

    method OnRetry()
      requires IsNext(State(), retryTimer)
      modifies this, window`timers
      ensures State() == Handle(c, old(State()), RetryFires)
    {
      retryTimer := window.SetTimer(c.retryInterval);
      Ping();
    }

    method OnBackOnline()
      requires IsNext(State(), backOnlineTimer)
      modifies this
      ensures State() == Handle(c, old(State()), BackOnlineFires)
    {
      backOnlineTimer := None;
      isBackOnline := false;
      Ping();
      PublishSnapshot(true);
    }

    method Ping()
      modifies this
      ensures State() == HandlePing(old(State()))
    {
      if isPinging {
        return;
      }
      isPinging := true;
      pings := pings + 1;
    }

    method OnPingAnswer(answer: Answer)
      requires pings > 0
      modifies this, window`timers
      ensures State() == Handle(c, old(State()), PingAnswer(answer))
    {
      match answer {
        case Response(status) =>
          if status >= 200 {
            ChangePingOffline(false);
          }
        case NetworkFailure =>
          ChangePingOffline(true);
      }
      KeepsPings(c, old(State()).(pingOffline := false));
      KeepsPings(c, old(State()).(pingOffline := true));
      isPinging := false;
      pings := pings - 1;
    }

    method ChangePingOffline(offline: bool)
      modifies this, window`timers
      ensures State() == SetPingOffline(c, old(State()), offline)
    {
      if listeners == {} || offline == pingOffline {
        return;
      }
      pingOffline := offline;
      ApplySafe();
    }

    /** The next event: whatever comes, in any order, the timers go on saying what state the observer is in. */
    method OnEvent(e: Event)
      requires TimersAgree(State()) && Enabled(State(), e)
      modifies this, window
      ensures State() == Handle(c, old(State()), e) && TimersAgree(State())
    {
      HandleAgrees(c, State(), e);
      match e {
        case Subscribe(listener, online) => Subscribed(listener, online);
        case Unsubscribe(listener) => Unsubscribed(listener);
        case BrowserEvent(online) => HandleBrowserEvent(online);
        case PingAnswer(answer) => OnPingAnswer(answer);
        case DebounceFires => OnDebounce();
        case RetryFires => OnRetry();
        case BackOnlineFires => OnBackOnline();
        case TimePasses(duration) => window.Pass(duration);
      }
    }

    method PublishSnapshot(notify: bool)
      modifies `snapshot, `told
      ensures State() == Publish(old(State()), notify)
    {
      if snapshot.isOnline == isOnline && snapshot.isBackOnline == isBackOnline {
        return;
      }
      snapshot := Status(isOnline, isBackOnline);
      if notify {
        told := told + 1;
      }
    }
  }

  /** An observer through a whole run of events: it ends in the state of the run, its timers in agreement. */
  method Observe(c: Config, online: bool, events: seq<Event>) returns (o: OnlineObserver)
    requires Run(c, New(online), events).Some?
    ensures Some(o.State()) == Run(c, New(online), events) && TimersAgree(o.State())
  {
    hide TimersAgree, Handle, Enabled;
    var window := new Window();
    o := new OnlineObserver(c, window, online);
    for i := 0 to |events|
      invariant o.c == c && fresh(o) && fresh(o.window) && TimersAgree(o.State())
      invariant Run(c, o.State(), events[i..]) == Run(c, New(online), events)
    {
      assert events[i..][0] == events[i] && events[i..][1..] == events[i + 1..];
      o.OnEvent(events[i]);
    }
  }
}
