/** The retrying HTTP transport above the limiter: how long one response pauses it, and what the
    recursive RoundTrip does over a whole stream of answers. */
module SecondaryRateLimit {
  import opened Options
  import opened LimiterProtocol

  const SECOND: int := 1_000_000_000
  const STATUS_FORBIDDEN: int := 403
  const STATUS_TOO_MANY_REQUESTS: int := 429
  /** Unix seconds of the zero time.Time, for which reset.IsZero() holds. */
  const ZERO_TIME_UNIX: int := -62_135_596_800
  /** The largest number of seconds a Duration can hold. */
  const MAX_SECONDS: int := 9_223_372_036

  /** A header that is missing, does not parse, or parses to a signed 64-bit number. */
  datatype Header = Absent | Malformed | Number(n: int)

  /** A response and the wall clock (Unix nanoseconds) at which processLimit looks at it. */
  datatype Response = Response(
    status: int, retryAfter: Header, remaining: Header, reset: Header, clock: int)

  predicate IsLimited(r: Response) {
    r.status == STATUS_FORBIDDEN || r.status == STATUS_TOO_MANY_REQUESTS
  }

  // ----- Durations are signed 64-bit nanoseconds -----

  /** Duration arithmetic wraps around. */
  function WrapDuration(x: int): (d: int)
    ensures IsDuration(d) && (IsDuration(x) ==> d == x)
    ensures (x - d) % (2 * DURATION_BOUND) == 0
  {
    (x + DURATION_BOUND) % (2 * DURATION_BOUND) - DURATION_BOUND
  }

  /** time.Until saturates. */
  function ClampDuration(x: int): (d: int)
    ensures IsDuration(d) && (IsDuration(x) ==> d == x)
  {
    if x < -DURATION_BOUND then -DURATION_BOUND
    else if x >= DURATION_BOUND then DURATION_BOUND - 1
    else x
  }

  function RetryAfter(r: Response): int {
    if r.retryAfter.Number? then WrapDuration(r.retryAfter.n * SECOND) else 0
  }

  function Remaining(r: Response): int {
    if r.remaining.Number? then r.remaining.n else 0
  }

  predicate HasReset(r: Response) {
    r.reset.Number? && r.reset.n != ZERO_TIME_UNIX
  }

  /** The argument processLimit passes to PauseFor. */
  function PauseOf(r: Response, fallback: int): (d: int)
    requires IsDuration(fallback)
    ensures IsDuration(d)
  {
    if RetryAfter(r) > 0 then RetryAfter(r)
    else if Remaining(r) == 0 && HasReset(r) then ClampDuration(r.reset.n * SECOND - r.clock)
    else fallback
  }

  /** A positive Retry-After is the pause it asks for if and only if it fits a Duration: beyond
      MAX_SECONDS the product wraps, and the pause is some other length. */
  lemma RetryAfterHonouredIff(r: Response, fallback: int)
    requires IsDuration(fallback) && r.retryAfter.Number? && r.retryAfter.n > 0
    ensures PauseOf(r, fallback) == r.retryAfter.n * SECOND <==> r.retryAfter.n <= MAX_SECONDS
  {
  }

  /** The answer names an instant to wait for, and it has passed. */
  predicate ResetHasPassed(r: Response) {
    RetryAfter(r) <= 0 && Remaining(r) == 0 && HasReset(r) && r.reset.n * SECOND <= r.clock
  }

  /** A limited answer makes the transport back off at all if and only if its reset has not passed already;
      with a reset behind the local clock the call is retried at once. */
  lemma BacksOffIff(r: Response, fallback: int)
    requires IsDuration(fallback) && fallback > 0
    ensures PauseOf(r, fallback) > 0 <==> !ResetHasPassed(r)
  {
  }

  // ----- What the headers ask for -----

  /** Retry-After is missing, malformed, or not positive. */
  predicate NoRetryAfter(r: Response) {
    r.retryAfter.Number? ==> -9_223_372_036 <= r.retryAfter.n <= 0
  }

  predicate PositiveRetryAfter(r: Response) {
    r.retryAfter.Number? && 0 < r.retryAfter.n <= 9_223_372_036
  }

  /** Retry-After does not fit a Duration. */
  predicate OverflowingRetryAfter(r: Response) {
    r.retryAfter.Number? && (r.retryAfter.n < -9_223_372_036 || r.retryAfter.n > 9_223_372_036)
  }

  /** The reset is named and counts: nothing remains, or nothing readable says how much does. */
  predicate NamesReset(r: Response) {
    && (r.remaining.Absent? || r.remaining.Malformed? || r.remaining == Number(0))
    && r.reset.Number? && r.reset.n != -62_135_596_800
  }

  /** Something remains, or no usable reset is named. */
  predicate NamesNoReset(r: Response) {
    || (r.remaining.Number? && r.remaining.n != 0)
    || r.reset.Absent? || r.reset.Malformed? || r.reset == Number(-62_135_596_800)
  }

  /** Without a positive Retry-After the pause ends at the named reset, as far as a Duration reaches. */
  lemma ResetPause(r: Response, fallback: int)
    requires IsDuration(fallback) && NoRetryAfter(r) && NamesReset(r)
    ensures var wait := r.reset.n * 1_000_000_000 - r.clock;
            && (IsDuration(wait) ==> PauseOf(r, fallback) == wait)
            && (wait > 9_223_372_036_854_775_807 ==> PauseOf(r, fallback) == 9_223_372_036_854_775_807)
            && (wait < -9_223_372_036_854_775_808 ==> PauseOf(r, fallback) == -9_223_372_036_854_775_808)
  {
  }

  /** Without a positive Retry-After, and if something remains or no usable reset is named, the pause is the default. */
  lemma DefaultPause(r: Response, fallback: int)
    requires IsDuration(fallback) && NoRetryAfter(r) && NamesNoReset(r)
    ensures PauseOf(r, fallback) == fallback
  {
  }

  /** A Retry-After that is too large wraps: to some other positive pause, or to none, and then the other headers
      decide as if it were missing. */
  lemma OverflowPause(r: Response, fallback: int, wrapped: int)
    requires IsDuration(fallback) && OverflowingRetryAfter(r)
    requires IsDuration(wrapped) && (r.retryAfter.n * 1_000_000_000 - wrapped) % 0x1_0000_0000_0000_0000 == 0
    ensures PauseOf(r, fallback) == if wrapped > 0 then wrapped else PauseOf(r.(retryAfter := Absent), fallback)
  {
    var n := r.retryAfter.n * SECOND;
    assert (n - WrapDuration(n)) % (2 * DURATION_BOUND) == 0;
    SameResidue(n, wrapped, WrapDuration(n));
  }

  lemma SameResidue(n: int, a: int, b: int)
    requires IsDuration(a) && IsDuration(b)
    requires (n - a) % (2 * DURATION_BOUND) == 0 && (n - b) % (2 * DURATION_BOUND) == 0
    ensures a == b
  {
  }

  /** These cases, with RetryAfterHonouredIff, leave no response out. */
  lemma CasesAreComplete(r: Response)
    ensures PositiveRetryAfter(r) || OverflowingRetryAfter(r) || NoRetryAfter(r)
    ensures NamesReset(r) <==> !NamesNoReset(r)
  {
  }

  /** One second more than a Duration can hold wraps to a negative length, and the default pause is taken. */
  lemma RetryAfterOverflows(fallback: int)
    requires IsDuration(fallback)
    ensures var r := Response(STATUS_TOO_MANY_REQUESTS, Number(MAX_SECONDS + 1), Absent, Absent, 0);
            PauseOf(r, fallback) == fallback
  {
  }

  /** A reset one second ago asks for a pause that ended one second ago. */
  lemma PastResetRetriesAtOnce(fallback: int)
    requires IsDuration(fallback)
    ensures PauseOf(Response(STATUS_FORBIDDEN, Absent, Number(0), Number(1), 2 * SECOND), fallback) == -SECOND
  {
  }

  // ----- RoundTrip -----

  /** What one pass through RoundTrip meets: a limiter Wait that fails, a transport error, or a response. */
  datatype Attempt = WaitFails(error: string) | BaseFails(error: string) | Answered(response: Response)

  /** `Unfinished`: every attempt of the script was rate limited, so the call is still retrying. */
  datatype Outcome = Returned(response: Response) | Failed(error: string) | Unfinished

  predicate Retried(a: Attempt) {
    a.Answered? && IsLimited(a.response)
  }

  /** How many responses are rate limited before the first attempt that is not. */
  function LimitedPrefix(script: seq<Attempt>): (k: nat)
    ensures k <= |script|
    ensures forall i :: 0 <= i < k ==> Retried(script[i])
    ensures k < |script| ==> !Retried(script[k])
  {
    if script == [] || !Retried(script[0]) then 0 else 1 + LimitedPrefix(script[1..])
  }

  class Waiter {
    const defaultRetryAfter: int
    var pauses: seq<int>        // arguments of limiter.PauseFor, in call order
    var baseCalls: nat
    var retriesOk: nat
    var retriesError: nat

    constructor (defaultRetryAfter: int)
      ensures this.defaultRetryAfter == defaultRetryAfter
      ensures pauses == [] && baseCalls == retriesOk == retriesError == 0
    {
      this.defaultRetryAfter := defaultRetryAfter;
      pauses, baseCalls, retriesOk, retriesError := [], 0, 0, 0;
    }

    method ProcessLimit(r: Response) returns (limited: bool)
      requires IsDuration(defaultRetryAfter)
      modifies this`pauses
      ensures limited <==> r.status == 403 || r.status == 429
      ensures pauses == old(pauses) + if limited then [PauseOf(r, defaultRetryAfter)] else []
    {
      if r.status != STATUS_FORBIDDEN && r.status != STATUS_TOO_MANY_REQUESTS {
        return false;
      }
      var retryAfter, remaining, reset := 0, 0, None;
      if r.retryAfter.Number? {
        retryAfter := WrapDuration(r.retryAfter.n * SECOND);
      }
      if r.remaining.Number? {
        remaining := r.remaining.n;
      }
      if r.reset.Number? && r.reset.n != ZERO_TIME_UNIX {
        reset := Some(r.reset.n);
      }
      if retryAfter > 0 {
        pauses := pauses + [retryAfter];
      } else if remaining == 0 && reset.Some? {
        pauses := pauses + [ClampDuration(reset.value * SECOND - r.clock)];
      } else {
        pauses := pauses + [defaultRetryAfter];
      }
      return true;
    }

    /** Runs against the finite prefix `script` of an arbitrary stream of attempts. */
    method RoundTrip(script: seq<Attempt>) returns (out: Outcome)
      requires IsDuration(defaultRetryAfter)
      modifies this
      ensures var k := LimitedPrefix(script);
        // The result is decided by the first attempt that is not rate limited.
        && out == (if k == |script| then Unfinished
                   else if script[k].Answered? then Returned(script[k].response)
                   else Failed(script[k].error))
        // One base call for each limited response and one for the last attempt, unless its Wait failed.
        && baseCalls == old(baseCalls) + k + (if k < |script| && !script[k].WaitFails? then 1 else 0)
        // Exactly the limited responses pause the limiter, in order.
        && |pauses| == |old(pauses)| + k && old(pauses) <= pauses
        && (forall i :: 0 <= i < k ==>
              pauses[|old(pauses)| + i] == PauseOf(script[i].response, defaultRetryAfter))
        // Every retry of the call is counted once, and all with the outcome of the whole call.
        && retriesOk == old(retriesOk) + (if out.Returned? then k else 0)
        && retriesError == old(retriesError) + (if out.Failed? then k else 0)
      decreases |script|
    {
      if script == [] {
        return Unfinished;
      }
      if script[0].WaitFails? {
        return Failed(script[0].error);
      }
      baseCalls := baseCalls + 1;
      if script[0].BaseFails? {
        return Failed(script[0].error);
      }
      var limited := ProcessLimit(script[0].response);
      if limited {
        out := RoundTrip(script[1..]);
        if out.Failed? {
          retriesError := retriesError + 1;
        } else if out.Returned? {
          retriesOk := retriesOk + 1;
        }
        return out;
      }
      return Returned(script[0].response);
    }
  }

  /** A call that returns a response returns the first one that is not 403 or 429, whatever follows
      it in the stream: longer prefixes of the same stream give the same answer. */
  lemma FirstUnlimitedWins(script: seq<Attempt>, more: seq<Attempt>)
    requires LimitedPrefix(script) < |script|
    ensures LimitedPrefix(script + more) == LimitedPrefix(script)
    ensures (script + more)[LimitedPrefix(script)] == script[LimitedPrefix(script)]
  {
  }

  // ----- The transport and the limiter together -----

  /** A limited response pauses the limiter at least until the instant it asked for: any Wait that
      arrives before then, the retry of this very call included, blocks. */
  lemma LimitedResponseBlocksNewCalls(s: State, r: Response, fallback: int, later: nat, w: nat)
    requires Reachable(s) && IsDuration(fallback) && w !in s.waiters
    requires later < PauseOf(r, fallback)
    ensures var s' := Apply(Apply(s, PauseFor(PauseOf(r, fallback))), Tick(later));
            Apply(s', WaitCapture(w)).waiters[w].Blocked?
  {
    var s1 := Apply(s, PauseFor(PauseOf(r, fallback)));
    ReachableInv(s);
    StepKeepsInv(s, PauseFor(PauseOf(r, fallback)));
    StepKeepsInv(s1, Tick(later));
    assert s1.requests[|s.requests|] == Request(s.now, PauseOf(r, fallback));
    assert s1.requests[|s.requests|] in s1.requests;
  }
}
