/** The pausable limiter of the GitHub secondary-rate-limit transport.

    `Core` is what the mutex protects together with the Go runtime's view of it: the
    channels made so far, how often each was closed, and the timer goroutines that have
    not fired.  `Limiter` is the object itself; each of its methods is one critical
    section and is proved equal to a function on `Core`.  `State` adds the clock, the
    waiters and the history of pauses, and the theorems range over every interleaving. */
module LimiterProtocol {
  import opened Options

  type Chan = nat

  /** The zero `time.Time` (1 January of year 1); every clock reading lies far above it. */
  const ZERO_TIME: int := 0
  /** A Duration is a signed 64-bit count of nanoseconds. */
  const DURATION_BOUND: int := 0x8000_0000_0000_0000

  predicate IsDuration(d: int) {
    -DURATION_BOUND <= d < DURATION_BOUND
  }

  // ----- The protected state and its critical sections -----

  datatype Core = Core(
    pauseUntil: int,
    pauseCh: Option<Chan>,
    made: nat,                // channels 0 .. made-1 exist
    closes: map<Chan, nat>,   // how often close() ran on each; a second close panics
    timers: map<Chan, int>)   // pending timer goroutines and the instant each may fire

  /** close(ch). */
  function Close(closes: map<Chan, nat>, ch: Chan): map<Chan, nat> {
    closes[ch := (if ch in closes then closes[ch] else 0) + 1]
  }

  function PauseForAt(c: Core, now: int, d: int): Core {
    var until := now + d;
    if until > c.pauseUntil then
      var closes := if c.pauseCh.Some? then Close(c.closes, c.pauseCh.value) else c.closes;
      Core(until, Some(c.made), c.made + 1, closes[c.made := 0], c.timers[c.made := until])
    else
      c
  }

  function TimerFired(c: Core, ch: Chan): Core {
    var rest := c.timers - {ch};
    if c.pauseCh == Some(ch) then
      Core(ZERO_TIME, None, c.made, Close(c.closes, ch), rest)
    else
      c.(timers := rest)
  }

  predicate IsClosed(c: Core, ch: Chan) {
    ch in c.closes && c.closes[ch] > 0
  }

  /** No pause means no channel; a pause means one open channel, with a timer of its own pending at the pause's
      end; and every other channel made so far was closed once. */
  ghost predicate CoreInv(c: Core) {
    && (c.pauseCh.None? <==> c.pauseUntil == ZERO_TIME)
    && (c.pauseCh.Some? ==>
          && c.pauseCh.value < c.made
          && c.pauseCh.value in c.timers
          && c.timers[c.pauseCh.value] == c.pauseUntil)
    && (forall ch: Chan :: ch in c.closes <==> ch < c.made)
    && (forall ch :: ch in c.closes ==> c.closes[ch] == if c.pauseCh == Some(ch) then 0 else 1)
    && (forall ch :: ch in c.timers ==> ch < c.made)
  }

  class Limiter {
    var pauseUntil: int
    var pauseCh: Option<Chan>
    var made: nat
    var closes: map<Chan, nat>
    var timers: map<Chan, int>

    function Contents(): Core
      reads this
    {
      Core(pauseUntil, pauseCh, made, closes, timers)
    }

    constructor ()
      ensures Contents() == Core(ZERO_TIME, None, 0, map[], map[])
    {
      pauseUntil, pauseCh, made, closes, timers := ZERO_TIME, None, 0, map[], map[];
    }

    /** The first locked section of Wait.  The caller gets no channel exactly when no pause is in force, and
        otherwise the one channel that is open, whose own timer is pending at the end of the pause. */
    method CapturePause() returns (ch: Option<Chan>)
      ensures ch == Contents().pauseCh
      ensures CoreInv(Contents()) ==> (ch.None? <==> pauseUntil == ZERO_TIME)
      ensures CoreInv(Contents()) && ch.Some? ==> ch.value in timers && timers[ch.value] == pauseUntil
      ensures CoreInv(Contents()) ==>
                forall other: Chan :: other < made ==> (!IsClosed(Contents(), other) <==> ch == Some(other))
    {
      ch := pauseCh;
    }

    method PauseFor(now: int, d: int)
      modifies this
      ensures Contents() == PauseForAt(old(Contents()), now, d)
      ensures old(CoreInv(Contents())) && now + d != ZERO_TIME ==> CoreInv(Contents())
    {
      var until := now + d;
      if until > pauseUntil {
        pauseUntil := until;
        if pauseCh.Some? {
          closes := Close(closes, pauseCh.value);
        }
        var ch := made;
        made := made + 1;
        closes := closes[ch := 0];
        pauseCh := Some(ch);
        timers := timers[ch := until];   // go func(ch) { <-NewTimer(d).C; ... }
      }
    }

    /** The locked section of the timer goroutine that was started with channel `ch`. */
    method TimerExpired(ch: Chan)
      requires ch in timers
      modifies this
      ensures Contents() == TimerFired(old(Contents()), ch)
      ensures old(CoreInv(Contents())) ==> CoreInv(Contents())
    {
      timers := timers - {ch};
      if pauseCh == Some(ch) {
        closes := Close(closes, ch);
        pauseCh := None;
        pauseUntil := ZERO_TIME;
      }
    }
  }

  // ----- Every interleaving of callers, waiters, timers and the clock -----

  /** One past call PauseFor(d), made at instant `at`. */
  datatype Request = Request(at: int, d: int) {
    function Deadline(): int { at + d }
  }

  /** `deadline` is pauseUntil, and `seen` the number of pauses requested, when Wait took its
      channel.  `at` and `known` are the clock and the number of pauses when it was let go. */
  datatype Waiter =
    | Blocked(ch: Chan, deadline: int, seen: nat)
    | Passed(deadline: int, seen: nat, at: int, known: nat)
    | Unpaused
    | Cancelled

  datatype State = State(
    now: int, core: Core, waiters: map<nat, Waiter>, requests: seq<Request>)

  datatype Step =
    | Tick(dt: nat)
    | PauseFor(d: int)
    | WaitCapture(w: nat)
    | WaitRelease(w: nat)
    | WaitCancel(w: nat)
    | TimerFire(ch: Chan)

  predicate Init(s: State) {
    && s.now > ZERO_TIME + DURATION_BOUND
    && s.core == Core(ZERO_TIME, None, 0, map[], map[])
    && s.waiters == map[]
    && s.requests == []
  }

  predicate Enabled(s: State, step: Step) {
    match step
    case Tick(_) => true
    case PauseFor(d) => IsDuration(d)
    case WaitCapture(w) => w !in s.waiters
    case WaitRelease(w) => w in s.waiters && s.waiters[w].Blocked? && IsClosed(s.core, s.waiters[w].ch)
    case WaitCancel(w) => w in s.waiters && s.waiters[w].Blocked?
    case TimerFire(ch) => ch in s.core.timers && s.now >= s.core.timers[ch]
  }

  function Apply(s: State, step: Step): State
    requires Enabled(s, step)
  {
    match step
    case Tick(dt) => s.(now := s.now + dt)
    case PauseFor(d) =>
      s.(core := PauseForAt(s.core, s.now, d), requests := s.requests + [Request(s.now, d)])
    case WaitCapture(w) =>
      s.(waiters := s.waiters[w :=
        if s.core.pauseCh.Some? then Blocked(s.core.pauseCh.value, s.core.pauseUntil, |s.requests|)
        else Unpaused])
    case WaitRelease(w) =>
      s.(waiters := s.waiters[w :=
        Passed(s.waiters[w].deadline, s.waiters[w].seen, s.now, |s.requests|)])
    case WaitCancel(w) => s.(waiters := s.waiters[w := Cancelled])
    case TimerFire(ch) => s.(core := TimerFired(s.core, ch))
  }

  predicate Legal(s: State, run: seq<Step>)
    decreases |run|
  {
    run == [] || (Enabled(s, run[0]) && Legal(Apply(s, run[0]), run[1..]))
  }

  function After(s: State, run: seq<Step>): State
    requires Legal(s, run)
    decreases |run|
  {
    if run == [] then s else After(Apply(s, run[0]), run[1..])
  }

  ghost predicate Reachable(s: State) {
    exists init, run :: Init(init) && Legal(init, run) && After(init, run) == s
  }

  /** Some pause numbered in [from, upTo) asked for strictly more than `deadline`. */
  ghost predicate Superseded(requests: seq<Request>, from: nat, upTo: nat, deadline: int) {
    exists i :: from <= i < upTo && i < |requests| && requests[i].Deadline() > deadline
  }

  // ----- The invariant -----

  ghost predicate HistoryInv(s: State) {
    && (forall r :: r in s.requests ==>
          ZERO_TIME < r.Deadline() && (r.Deadline() <= s.core.pauseUntil || r.Deadline() <= s.now))
    && (s.core.pauseCh.Some? ==> exists r :: r in s.requests && r.Deadline() == s.core.pauseUntil)
  }

  ghost predicate WaiterInv(s: State, w: Waiter) {
    match w
    case Blocked(ch, deadline, seen) =>
      && ch < s.core.made
      && seen <= |s.requests|
      && (s.core.pauseCh == Some(ch) ==>
            deadline == s.core.pauseUntil && !Superseded(s.requests, seen, |s.requests|, deadline))
      && (s.core.pauseCh != Some(ch) ==>
            deadline <= s.now || Superseded(s.requests, seen, |s.requests|, deadline))
    case Passed(deadline, seen, at, known) =>
      && at <= s.now
      && seen <= known <= |s.requests|
      && (at >= deadline || Superseded(s.requests, seen, known, deadline))
    case _ => true
  }

  ghost predicate Inv(s: State) {
    && s.now > ZERO_TIME + DURATION_BOUND
    && CoreInv(s.core)
    && HistoryInv(s)
    && forall w :: w in s.waiters ==> WaiterInv(s, s.waiters[w])
  }

  lemma PauseKeepsInv(s: State, d: int)
    requires Inv(s) && IsDuration(d)
    ensures Inv(Apply(s, PauseFor(d)))
  {
    var s' := Apply(s, PauseFor(d));
    var r := Request(s.now, d);
    assert s'.requests[|s.requests|] == r && r.Deadline() > ZERO_TIME;
    assert forall q :: q in s'.requests <==> q in s.requests || q == r;
    forall w | w in s'.waiters
      ensures WaiterInv(s', s'.waiters[w])
    {
      var x := s.waiters[w];
      assert WaiterInv(s, x);
      if x.Blocked? {
        if Superseded(s.requests, x.seen, |s.requests|, x.deadline) {
          var i :| x.seen <= i < |s.requests| && s.requests[i].Deadline() > x.deadline;
          assert s'.requests[i] == s.requests[i];
        }
        if r.Deadline() > s.core.pauseUntil && s.core.pauseCh == Some(x.ch) {
          assert s'.requests[|s.requests|].Deadline() > x.deadline;
        }
      } else if x.Passed? && x.at < x.deadline {
        var i :| x.seen <= i < x.known && i < |s.requests| && s.requests[i].Deadline() > x.deadline;
        assert s'.requests[i] == s.requests[i];
      }
    }
  }

  lemma StepKeepsInv(s: State, step: Step)
    requires Inv(s) && Enabled(s, step)
    ensures Inv(Apply(s, step))
  {
    match step
    case PauseFor(d) => PauseKeepsInv(s, d);
    case _ =>
  }

  lemma {:induction false} RunKeepsInv(s: State, run: seq<Step>)
    requires Inv(s) && Legal(s, run)
    ensures Inv(After(s, run))
    decreases |run|
  {
    if run == [] {
    } else {
      StepKeepsInv(s, run[0]);
      RunKeepsInv(Apply(s, run[0]), run[1..]);
    }
  }

  lemma InitInv(s: State)
    requires Init(s)
    ensures Inv(s)
  {
    assert s.core.closes == map[];
  }

  lemma ReachableInv(s: State)
    requires Reachable(s)
    ensures Inv(s)
  {
    var init, run :| Init(init) && Legal(init, run) && After(init, run) == s;
    InitInv(init);
    RunKeepsInv(init, run);
  }

  // ----- Theorems -----

  /** The largest deadline ever requested: the specification the limiter refines. */
  function MaxDeadline(requests: seq<Request>): (m: int)
    ensures forall r :: r in requests ==> r.Deadline() <= m
    ensures m == ZERO_TIME || exists r :: r in requests && r.Deadline() == m
  {
    if requests == [] then ZERO_TIME
    else
      var init, last := requests[..|requests| - 1], requests[|requests| - 1];
      assert requests == init + [last];
      var m := MaxDeadline(init);
      if last.Deadline() > m then last.Deadline() else m
  }

  /** No requested pause is ever forgotten or shortened while it runs. */
  lemma PauseIsHonoured(s: State, r: Request)
    requires Reachable(s) && r in s.requests && s.now < r.Deadline()
    ensures s.core.pauseCh.Some? && s.core.pauseUntil >= r.Deadline()
  {
    ReachableInv(s);
  }

  /** The limiter is paused exactly while the maximum of all requested deadlines lies ahead,
      and then pauseUntil is that maximum. */
  lemma RefinesMaxDeadline(s: State)
    requires Reachable(s)
    ensures s.core.pauseUntil > s.now <==> MaxDeadline(s.requests) > s.now
    ensures MaxDeadline(s.requests) > s.now ==>
              s.core.pauseCh.Some? && s.core.pauseUntil == MaxDeadline(s.requests)
  {
    ReachableInv(s);
  }

  /** A Wait that arrives while any requested pause is unexpired blocks. */
  lemma ArrivalDuringPauseBlocks(s: State, w: nat)
    requires Reachable(s) && w !in s.waiters && MaxDeadline(s.requests) > s.now
    ensures Apply(s, WaitCapture(w)).waiters[w].Blocked?
    ensures Apply(s, WaitCapture(w)).waiters[w].deadline == MaxDeadline(s.requests)
    ensures !Enabled(Apply(s, WaitCapture(w)), WaitRelease(w))
  {
    RefinesMaxDeadline(s);
    ReachableInv(s);
  }

  /** A Wait that took a pause and left it without a context error either reached the deadline it
      had captured or was let go by a strictly later pause requested in between. */
  lemma ReleaseHasTwoCauses(s: State, w: nat)
    requires Reachable(s) && w in s.waiters && s.waiters[w].Passed?
    ensures var x := s.waiters[w];
            x.at >= x.deadline || Superseded(s.requests, x.seen, x.known, x.deadline)
  {
    ReachableInv(s);
  }

  /** Before its captured deadline a blocked Wait can be released if and only if a strictly later
      pause has been requested since it blocked. */
  lemma EarlyReleaseIffSuperseded(s: State, w: nat)
    requires Reachable(s) && w in s.waiters && s.waiters[w].Blocked?
    requires s.now < s.waiters[w].deadline
    ensures Enabled(s, WaitRelease(w)) <==>
            Superseded(s.requests, s.waiters[w].seen, |s.requests|, s.waiters[w].deadline)
  {
    ReachableInv(s);
    assert WaiterInv(s, s.waiters[w]);
  }

  /** "Wait out the pause" is therefore false of the code: a second, longer pause releases a waiter
      of the first one at once, long before either deadline. */
  lemma LongerPauseReleasesEarly(init: State)
    requires Init(init)
    ensures var run := [PauseFor(10), WaitCapture(0), Tick(1), PauseFor(100), WaitRelease(0)];
            && Legal(init, run)
            && var s := After(init, run);
               s.waiters[0].Passed? && s.now < s.waiters[0].deadline < s.core.pauseUntil
  {
  }

  /** No channel is closed twice (so neither close() panics), a channel is open exactly when it is
      pauseCh, pauseCh is nil exactly when pauseUntil is the zero time, and then has its own timer. */
  lemma ChannelsAreClosedOnce(s: State)
    requires Reachable(s)
    ensures forall ch :: ch in s.core.closes ==> s.core.closes[ch] <= 1
    ensures forall ch :: ch in s.core.closes ==> (s.core.closes[ch] == 0 <==> s.core.pauseCh == Some(ch))
    ensures s.core.pauseCh.None? <==> s.core.pauseUntil == ZERO_TIME
    ensures s.core.pauseCh.Some? ==>
              s.core.pauseCh.value in s.core.closes && s.core.pauseCh.value in s.core.timers
  {
    ReachableInv(s);
  }

  /** Every blocked Wait can go now, or a pending timer is going to let it go. */
  lemma NoStrandedWaiter(s: State, w: nat)
    requires Reachable(s) && w in s.waiters && s.waiters[w].Blocked?
    ensures || Enabled(s, WaitRelease(w))
            || (s.core.pauseCh == Some(s.waiters[w].ch) && s.waiters[w].ch in s.core.timers)
    ensures s.core.timers == map[] ==> Enabled(s, WaitRelease(w))
  {
    ReachableInv(s);
    assert WaiterInv(s, s.waiters[w]);
  }

  function Fires(run: seq<Step>): nat {
    if run == [] then 0 else (if run[0].TimerFire? then 1 else 0) + Fires(run[1..])
  }

  /** Once PauseFor is no longer called, each timer step uses up one pending timer and nothing else
      makes any, so the number of pending timers is a termination measure. */
  lemma {:induction false} TimersRunOut(s: State, run: seq<Step>)
    requires Legal(s, run) && forall step :: step in run ==> !step.PauseFor?
    ensures |After(s, run).core.timers| + Fires(run) == |s.core.timers|
    decreases |run|
  {
    if run == [] {
    } else {
      var s' := Apply(s, run[0]);
      if run[0].TimerFire? {
        var ch := run[0].ch;
        assert s'.core.timers.Keys == s.core.timers.Keys - {ch};
        assert |s'.core.timers.Keys| == |s.core.timers.Keys| - 1;
      }
      TimersRunOut(s', run[1..]);
    }
  }

  /** Some pending timer can fire after a wait, and then one timer fewer is pending. */
  lemma NextTimer(s: State) returns (wait: nat, ch: Chan)
    requires Inv(s) && s.core.timers != map[]
    ensures Enabled(s, Tick(wait)) && Enabled(Apply(s, Tick(wait)), TimerFire(ch))
    ensures var s' := Apply(Apply(s, Tick(wait)), TimerFire(ch));
            Inv(s') && |s'.core.timers| < |s.core.timers| && s'.waiters == s.waiters
  {
    ch :| ch in s.core.timers;
    wait := if s.core.timers[ch] > s.now then s.core.timers[ch] - s.now else 0;
    var s1 := Apply(s, Tick(wait));
    var s2 := Apply(s1, TimerFire(ch));
    StepKeepsInv(s, Tick(wait));
    StepKeepsInv(s1, TimerFire(ch));
    assert s2.core.timers.Keys == s.core.timers.Keys - {ch};
    assert |s2.core.timers.Keys| < |s.core.timers.Keys|;
  }

  /** Waiting long enough and letting every pending timer fire empties the timer set without any
      further pause; after it every waiter still blocked can be released. */
  lemma {:induction false} DrainRun(s: State) returns (run: seq<Step>)
    requires Inv(s)
    ensures Legal(s, run) && forall step :: step in run ==> step.Tick? || step.TimerFire?
    ensures After(s, run).core.timers == map[] && After(s, run).waiters == s.waiters
    ensures After(s, run).core.pauseCh.None?
    ensures forall w :: w in s.waiters && s.waiters[w].Blocked? ==> Enabled(After(s, run), WaitRelease(w))
    decreases |s.core.timers|
  {
    if s.core.timers == map[] {
      run := [];
      assert forall w :: w in s.waiters ==> WaiterInv(s, s.waiters[w]);
    } else {
      var wait, ch := NextTimer(s);
      var s2 := Apply(Apply(s, Tick(wait)), TimerFire(ch));
      var rest := DrainRun(s2);
      run := [TimerFire(ch)] + rest;
      assert run[1..] == rest;
      run := [Tick(wait)] + run;
      assert run[1..] == [TimerFire(ch)] + rest;
    }
  }

  /** The timer of a superseded pause ends without touching the pause in force or any channel. */
  lemma StaleTimerChangesNothing(s: State, ch: Chan)
    requires Reachable(s) && Enabled(s, TimerFire(ch)) && MaxDeadline(s.requests) > s.now
    ensures var s' := Apply(s, TimerFire(ch));
            s' == s.(core := s.core.(timers := s'.core.timers)) && s'.core.timers == s.core.timers - {ch}
  {
    RefinesMaxDeadline(s);
    ReachableInv(s);
  }
}
