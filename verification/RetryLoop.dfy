/** The retry loop around a provider call: exponential backoff with jitter under a deadline. */
module RetryLoop {
  import opened Wrappers

  const MAX_RETRY_DURATION_MS: int := 600000
  const INITIAL_BACKOFF_MS: nat := 1000
  const MAX_BACKOFF_MS: nat := 60000
  const MS: int := 1000000
  const SECOND: int := 1000000000

  // ---------------------------------------------------------------- the clock

  /** C division, which truncates toward zero. */
  function TruncDiv(a: int, b: int): int
    requires b > 0
  {
    if a >= 0 then a / b else -((-a) / b)
  }

  /** The elapsed milliseconds as the loop computes them from the seconds and nanoseconds of two
      clock readings, each given here in nanoseconds. */
  function Elapsed(start: nat, now: nat): int {
    1000 * (now / SECOND - start / SECOND) + TruncDiv(now % SECOND - start % SECOND, MS)
  }

  // ---------------------------------------------------------------- one iteration

  datatype Response = Succeeded | Refused | Retryable

  /** What the outside world contributes to one iteration: the interrupt flag and the clock at its
      top, the provider's answer, the clock after the call, and the random number. */
  datatype Attempt = Attempt(interrupted: bool, top: nat, response: Response, after: nat, random: nat)

  datatype Result = Interrupted | DeadlinePassed | Answer | NonRetryable

  /** An iteration ends the loop, with or without having called the provider, or sleeps. */
  datatype Iteration = Stop(result: Result, called: bool) | Sleep(delay: nat, truncated: bool)

  function Delay(backoff: nat, random: nat): (d: int)
    requires 1000 <= backoff
    ensures 4 * d > 3 * backoff && d <= backoff
  {
    backoff - random % (backoff / 4)
  }

  function NextBackoff(backoff: nat): (b: nat)
    requires 1000 <= backoff <= MAX_BACKOFF_MS
    ensures 1000 <= b <= MAX_BACKOFF_MS
  {
    if 2 * backoff > MAX_BACKOFF_MS then MAX_BACKOFF_MS else 2 * backoff
  }

  function Iterate(start: nat, max: int, attemptNum: nat, backoff: nat, a: Attempt): Iteration
    requires 1000 <= backoff <= MAX_BACKOFF_MS
  {
    if a.interrupted then Stop(Interrupted, false)
    else if attemptNum > 1 && Elapsed(start, a.top) >= max then Stop(DeadlinePassed, false)
    else
      match a.response
      case Succeeded => Stop(Answer, true)
      case Refused => Stop(NonRetryable, true)
      case Retryable =>
        var delay, remaining := Delay(backoff, a.random), max - Elapsed(start, a.after);
        if delay <= remaining then Sleep(delay, false)
        else if remaining <= 0 then Stop(DeadlinePassed, true)
        else Sleep(remaining, true)
  }

  // ---------------------------------------------------------------- whole runs

  /** The script is possible: the clock does not run backwards, and a sleep lasts at least as long
      as it was asked to. */
  predicate Possible(start: nat, max: int, attemptNum: nat, backoff: nat, script: seq<Attempt>)
    requires 1000 <= backoff <= MAX_BACKOFF_MS
    decreases |script|
  {
    script == [] ||
    (var a := script[0];
     && start <= a.top <= a.after
     && match Iterate(start, max, attemptNum, backoff, a)
        case Stop(_, _) => true
        case Sleep(delay, _) =>
          && (|script| > 1 ==> script[1].top >= a.after + delay * MS)
          && Possible(start, max, attemptNum + 1, NextBackoff(backoff), script[1..]))
  }

  /** How the loop ends on a script, None when the script ends first. */
  function Ending(start: nat, max: int, attemptNum: nat, backoff: nat, script: seq<Attempt>): Option<Result>
    requires 1000 <= backoff <= MAX_BACKOFF_MS
    decreases |script|
  {
    if script == [] then None
    else
      match Iterate(start, max, attemptNum, backoff, script[0])
      case Stop(result, _) => Some(result)
      case Sleep(_, _) => Ending(start, max, attemptNum + 1, NextBackoff(backoff), script[1..])
  }

  /** How often the provider is called on the way. */
  function Calls(start: nat, max: int, attemptNum: nat, backoff: nat, script: seq<Attempt>): nat
    requires 1000 <= backoff <= MAX_BACKOFF_MS
    decreases |script|
  {
    if script == [] then 0
    else
      match Iterate(start, max, attemptNum, backoff, script[0])
      case Stop(_, called) => if called then 1 else 0
      case Sleep(_, _) => 1 + Calls(start, max, attemptNum + 1, NextBackoff(backoff), script[1..])
  }

  // ---------------------------------------------------------------- facts about the clock

  /** The computed milliseconds are the true ones, rounded down or up. */
  lemma {:induction false} ElapsedRounds(start: nat, now: nat)
    requires start <= now
    ensures var d := now - start; Elapsed(start, now) == d / MS || (d % MS != 0 && Elapsed(start, now) == d / MS + 1)
  {
    var s0, n0, s1, n1 := start / SECOND, start % SECOND, now / SECOND, now % SECOND;
    var d := now - start;
    assert d == (s1 - s0) * SECOND + (n1 - n0);
    if n1 >= n0 {
      WholeMs(s1 - s0, n1 - n0);
    } else {
      WholeMs(s1 - s0, -(n0 - n1));
      NegativeDiv(n0 - n1);
    }
  }

  lemma WholeMs(s: int, n: int)
    ensures (s * SECOND + n) / MS == 1000 * s + n / MS && (s * SECOND + n) % MS == n % MS
  {
  }

  lemma NegativeDiv(n: int)
    requires n >= 0
    ensures (-n) / MS == -(n / MS) - (if n % MS == 0 then 0 else 1) && ((-n) % MS == 0 <==> n % MS == 0)
  {
  }

  /** A later reading never shows fewer milliseconds. */
  lemma {:induction false} ElapsedMonotone(start: nat, a: nat, b: nat)
    requires start <= a <= b
    ensures Elapsed(start, a) <= Elapsed(start, b)
  {
    var n0, sa, na, sb, nb := start % SECOND, a / SECOND, a % SECOND, b / SECOND, b % SECOND;
    assert sa <= sb;
    if sa == sb {
      TruncMonotone(na - n0, nb - n0);
    } else {
      TruncMonotone(na - n0, SECOND + (nb - n0));
      TruncShift(nb - n0);
    }
  }

  lemma TruncMonotone(a: int, b: int)
    requires a <= b
    ensures TruncDiv(a, MS) <= TruncDiv(b, MS)
  {
  }

  /** Truncation loses at most what a whole second adds. */
  lemma TruncShift(a: int)
    requires -SECOND < a < SECOND
    ensures TruncDiv(SECOND + a, MS) <= 1000 + TruncDiv(a, MS)
  {
  }

  /** A sleep that starts at reading `a` with all the milliseconds that are left, and is over at
      reading `b`. */
  predicate TruncatedSleep(start: nat, max: int, a: nat, b: nat) {
    start <= a && Elapsed(start, a) < max && b >= a + (max - Elapsed(start, a)) * MS
  }

  /** Exactly for a maximum under a second or of whole seconds, the deadline always shows as passed
      after such a sleep. For every other maximum the rounding can hide the last millisecond. */
  lemma {:induction false} TruncatedSleepReachesDeadlineExactly(max: int)
    ensures (forall start: nat, a: nat, b: nat :: TruncatedSleep(start, max, a, b) ==> Elapsed(start, b) >= max) <==>
            max < 1000 || max % 1000 == 0
  {
    if max < 1000 || max % 1000 == 0 {
      forall start: nat, a: nat, b: nat | TruncatedSleep(start, max, a, b) ensures Elapsed(start, b) >= max {
        if max < 1000 { ShortSleepReachesDeadline(start, max, a, b); } else { WholeSecondsReachDeadline(start, max, a, b); }
      }
    } else {
      RoundingHidesDeadline(max);
    }
  }

  /** The failing clock readings: a start half a millisecond into its second, and a sleep that
      starts on a full second. */
  lemma {:induction false} RoundingHidesDeadline(max: int)
    requires max >= 1000 && max % 1000 != 0
    ensures var start, a := 500000, max / 1000 * SECOND;
            && TruncatedSleep(start, max, a, a + (max - Elapsed(start, a)) * MS)
            && Elapsed(start, a + (max - Elapsed(start, a)) * MS) == max - 1
  {
    var k, r := max / 1000, max % 1000;
    var a := k * SECOND;
    SecondsOf(a, k, 0);
    assert Elapsed(500000, a) == 1000 * k;
    SecondsOf(a + r * MS, k, r * MS);
    assert TruncDiv(r * MS - 500000, MS) == r - 1;
  }

  lemma WholeSecondsReachDeadline(start: nat, max: int, a: nat, b: nat)
    requires max % 1000 == 0 && TruncatedSleep(start, max, a, b)
    ensures Elapsed(start, b) >= max
  {
    var n0, sd, n := start % SECOND, a / SECOND - start / SECOND, a % SECOND - start % SECOND;
    var t := TruncDiv(n, MS);
    var k := max / 1000 - sd;
    assert max == 1000 * (max / 1000);
    var c := a + (max - Elapsed(start, a)) * MS;
    Remainder(n);
    var whole := a / SECOND + k;
    var nanos := a % SECOND - t * MS;
    assert c == whole * SECOND + nanos;
    SecondsOf(c, whole, nanos);
    assert c % SECOND - n0 == n - t * MS;
    assert Elapsed(start, c) == 1000 * (whole - start / SECOND) + TruncDiv(n - t * MS, MS);
    assert Elapsed(start, c) == max;
    ElapsedMonotone(start, c, b);
  }

  /** With less than a second in all, a reading in the start's own second is rounded down, and one
      in the next second is rounded up before and after the sleep. */
  lemma ShortSleepReachesDeadline(start: nat, max: int, a: nat, b: nat)
    requires max < 1000 && TruncatedSleep(start, max, a, b)
    ensures Elapsed(start, b) >= max
  {
    var n0, sd, n := start % SECOND, a / SECOND - start / SECOND, a % SECOND - start % SECOND;
    var t := TruncDiv(n, MS);
    var c := a + (max - Elapsed(start, a)) * MS;
    assert 0 <= sd <= 1 by { TruncBounds(n); }
    Remainder(n);
    if sd == 0 {
      var nanos := a % SECOND + (max - t) * MS;
      if nanos < SECOND {
        SecondsOf(c, a / SECOND, nanos);
        TruncOf(max, n - t * MS);
      } else {
        SecondsOf(c, a / SECOND + 1, nanos - SECOND);
        TruncOf(max - 1000, n - t * MS);
      }
    } else {
      var nanos := a % SECOND + (max - 1000 - t) * MS;
      SecondsOf(c, a / SECOND, nanos);
      TruncOf(max - 1000, n - t * MS);
    }
    ElapsedMonotone(start, c, b);
  }

  lemma TruncBounds(n: int)
    requires -SECOND < n < SECOND
    ensures -1000 < TruncDiv(n, MS) < 1000
  {
  }

  /** Truncating ms milliseconds and a rest r: never less than ms when r is not negative, exactly ms
      when both are negative or zero. */
  lemma TruncOf(ms: int, r: int)
    requires -MS < r < MS
    ensures r >= 0 ==> TruncDiv(ms * MS + r, MS) >= ms
    ensures ms <= 0 && r <= 0 ==> TruncDiv(ms * MS + r, MS) == ms
  {
  }

  lemma Remainder(n: int)
    ensures var r := n - TruncDiv(n, MS) * MS; TruncDiv(r, MS) == 0 && (if n >= 0 then 0 <= r <= n else n <= r <= 0)
  {
  }

  lemma SecondsOf(c: int, whole: int, nanos: int)
    requires c == whole * SECOND + nanos && 0 <= nanos < SECOND
    ensures c / SECOND == whole && c % SECOND == nanos
  {
  }

  // ---------------------------------------------------------------- single sleeps

  /** Every sleep is positive and starts early enough to end by the maximum as measured; one that
      is not cut short lasts more than three quarters of the backoff. */
  lemma {:induction false} SleepsStayWithinMaximum(start: nat, max: int, attemptNum: nat, backoff: nat, a: Attempt)
    requires 1000 <= backoff <= MAX_BACKOFF_MS
    requires Iterate(start, max, attemptNum, backoff, a).Sleep?
    ensures var s := Iterate(start, max, attemptNum, backoff, a);
            && s.delay > 0 && Elapsed(start, a.after) + s.delay <= max
            && (s.truncated ==> Elapsed(start, a.after) + s.delay == max)
            && (!s.truncated ==> 4 * s.delay > 3 * backoff && s.delay <= backoff)
  {
  }

  // ---------------------------------------------------------------- how long the loop can last

  /** The shortest sleep for a backoff that is not cut short. */
  function Shortest(backoff: nat): nat
    requires 1000 <= backoff
  {
    backoff - backoff / 4 + 1
  }

  /** The backoff of the n-th attempt. */
  function BackoffOf(n: nat): (b: nat)
    requires n >= 1
    ensures 1000 <= b <= MAX_BACKOFF_MS
  {
    if n == 1 then INITIAL_BACKOFF_MS else NextBackoff(BackoffOf(n - 1))
  }

  /** The least time spent sleeping before the n-th attempt when no sleep is cut short. */
  function SleptBefore(n: nat): nat
    requires n >= 1
  {
    if n == 1 then 0 else SleptBefore(n - 1) + Shortest(BackoffOf(n - 1))
  }

  lemma NineteenSleeps()
    ensures SleptBefore(20) > MAX_RETRY_DURATION_MS && SleptBefore(19) == 587268
  {
    assert BackoffOf(3) == 4000 && SleptBefore(3) == 751 + 1501;
    assert BackoffOf(5) == 16000 && SleptBefore(5) == 2252 + 3001 + 6001;
    assert BackoffOf(7) == 60000 && SleptBefore(7) == 11254 + 12001 + 24001;
    assert BackoffOf(9) == 60000 && SleptBefore(9) == 47256 + 2 * 45001;
    assert BackoffOf(11) == 60000 && SleptBefore(11) == 47256 + 4 * 45001;
    assert BackoffOf(13) == 60000 && SleptBefore(13) == 47256 + 6 * 45001;
    assert BackoffOf(15) == 60000 && SleptBefore(15) == 47256 + 8 * 45001;
    assert BackoffOf(17) == 60000 && SleptBefore(17) == 47256 + 10 * 45001;
    assert BackoffOf(19) == 60000 && SleptBefore(19) == 47256 + 12 * 45001;
  }

  /** At the top of attempt n the deadline has passed, or all sleeps so far were full ones. */
  predicate SleptEnough(start: nat, max: int, n: nat, top: nat)
    requires n >= 1
  {
    Elapsed(start, top) >= max || top - start >= SleptBefore(n) * MS
  }

  lemma SleepKeepsSlept(start: nat, max: int, n: nat, a: Attempt, next: nat)
    requires n >= 1 && start <= a.top <= a.after && max % 1000 == 0
    requires SleptEnough(start, max, n, a.top)
    requires Iterate(start, max, n, BackoffOf(n), a).Sleep?
    requires next >= a.after + Iterate(start, max, n, BackoffOf(n), a).delay * MS
    ensures SleptEnough(start, max, n + 1, next)
  {
    hide Elapsed;
    var s := Iterate(start, max, n, BackoffOf(n), a);
    if s.truncated {
      WholeSecondsReachDeadline(start, max, a.after, next);
    } else {
      assert s.delay >= Shortest(BackoffOf(n));
      if Elapsed(start, a.top) >= max { ElapsedMonotone(start, a.top, next); }
    }
  }

  /** The 19-call bound from attempt n on. */
  lemma {:induction false} CallsFrom(start: nat, n: nat, script: seq<Attempt>)
    requires 1 <= n <= 20 && Possible(start, MAX_RETRY_DURATION_MS, n, BackoffOf(n), script)
    requires script != [] ==> SleptEnough(start, MAX_RETRY_DURATION_MS, n, script[0].top)
    ensures Calls(start, MAX_RETRY_DURATION_MS, n, BackoffOf(n), script) <= 20 - n
    ensures |script| > 20 - n ==> Ending(start, MAX_RETRY_DURATION_MS, n, BackoffOf(n), script).Some?
    decreases |script|
  {
    hide Elapsed, SleptEnough;
    if script != [] {
      var a := script[0];
      if n == 20 { DeadlineAtTwenty(start, a.top); }
      var s := Iterate(start, MAX_RETRY_DURATION_MS, n, BackoffOf(n), a);
      if s.Sleep? {
        if |script| > 1 { SleepKeepsSlept(start, MAX_RETRY_DURATION_MS, n, a, script[1].top); }
        CallsFrom(start, n + 1, script[1..]);
      }
    }
  }

  lemma DeadlineAtTwenty(start: nat, top: nat)
    requires start <= top && SleptEnough(start, MAX_RETRY_DURATION_MS, 20, top)
    ensures Elapsed(start, top) >= MAX_RETRY_DURATION_MS
  {
    hide Elapsed, SleptBefore;
    NineteenSleeps();
    ElapsedRounds(start, top);
    AtLeastMs(top - start, MAX_RETRY_DURATION_MS);
  }

  lemma AtLeastMs(d: int, k: int)
    ensures d >= k * MS ==> d / MS >= k
  {
  }

  /** With the default maximum the provider is called at most 19 times, whatever it answers and
      however long the calls take, and the loop ends by its twentieth iteration. */
  lemma {:induction false} AtMostNineteenCalls(start: nat, script: seq<Attempt>)
    requires Possible(start, MAX_RETRY_DURATION_MS, 1, INITIAL_BACKOFF_MS, script)
    ensures Calls(start, MAX_RETRY_DURATION_MS, 1, INITIAL_BACKOFF_MS, script) <= 19
    ensures |script| >= 20 ==> Ending(start, MAX_RETRY_DURATION_MS, 1, INITIAL_BACKOFF_MS, script).Some?
  {
    hide Elapsed;
    assert BackoffOf(1) == INITIAL_BACKOFF_MS && SleptBefore(1) == 0;
    CallsFrom(start, 1, script);
  }

  // ---------------------------------------------------------------- the bound is reached

  /** Calls that take no time and always fail, with the greatest jitter each time. */
  function Unlucky(n: nat): Attempt
    requires n >= 1
  {
    Attempt(false, SleptBefore(n) * MS, Retryable, SleptBefore(n) * MS, BackoffOf(n) / 4 - 1)
  }

  function UnluckyFrom(n: nat): (script: seq<Attempt>)
    requires 1 <= n <= 20
    ensures |script| == 20 - n && (n < 20 ==> script[0] == Unlucky(n))
    decreases 20 - n
  {
    if n == 20 then [] else [Unlucky(n)] + UnluckyFrom(n + 1)
  }

  lemma {:induction false} SleptMonotone(n: nat, m: nat)
    requires 1 <= n <= m
    ensures SleptBefore(n) <= SleptBefore(m)
  {
    if n < m { SleptMonotone(n, m - 1); }
  }

  lemma EighteenFullSleeps(n: nat)
    requires 1 <= n <= 19
    ensures SleptBefore(n) < MAX_RETRY_DURATION_MS && (n < 19 ==> SleptBefore(n) + Shortest(BackoffOf(n)) <= MAX_RETRY_DURATION_MS)
  {
    hide SleptBefore, BackoffOf, Shortest;
    NineteenSleeps();
    SleptMonotone(n, 19);
    if n < 19 {
      SleptStep(n);
      SleptMonotone(n + 1, 19);
    }
  }

  lemma SleptStep(n: nat)
    requires n >= 1
    ensures SleptBefore(n + 1) == SleptBefore(n) + Shortest(BackoffOf(n))
  {
  }

  lemma ShortestDelay(backoff: nat)
    requires 1000 <= backoff
    ensures Delay(backoff, backoff / 4 - 1) == Shortest(backoff)
  {
  }

  lemma ElapsedFromZero(ms: nat)
    ensures Elapsed(0, ms * MS) == ms
  {
    ElapsedRounds(0, ms * MS);
    assert ms * MS / MS == ms && ms * MS % MS == 0;
  }

  /** An unlucky iteration sleeps, fully up to the eighteenth. */
  lemma UnluckyIteration(n: nat)
    requires 1 <= n <= 19
    ensures var s := Iterate(0, MAX_RETRY_DURATION_MS, n, BackoffOf(n), Unlucky(n));
            s.Sleep? && (n < 19 ==> s == Sleep(Shortest(BackoffOf(n)), false))
  {
    hide Elapsed, SleptBefore, BackoffOf, Delay, Shortest;
    EighteenFullSleeps(n);
    ElapsedFromZero(SleptBefore(n));
    ShortestDelay(BackoffOf(n));
  }

  lemma {:induction false} UnluckyRun(n: nat)
    requires 1 <= n <= 20
    ensures Possible(0, MAX_RETRY_DURATION_MS, n, BackoffOf(n), UnluckyFrom(n))
    ensures Calls(0, MAX_RETRY_DURATION_MS, n, BackoffOf(n), UnluckyFrom(n)) == 20 - n
    decreases 20 - n
  {
    hide Iterate, SleptBefore, Shortest;
    if n < 20 {
      UnluckyIteration(n);
      UnluckyRun(n + 1);
      assert UnluckyFrom(n)[1..] == UnluckyFrom(n + 1);
      SleptStep(n);
      assert SleptBefore(n + 1) * MS == SleptBefore(n) * MS + Shortest(BackoffOf(n)) * MS;
    }
  }

  /** Nineteen calls do happen. */
  lemma {:induction false} NineteenCallsHappen() returns (script: seq<Attempt>)
    ensures Possible(0, MAX_RETRY_DURATION_MS, 1, INITIAL_BACKOFF_MS, script)
    ensures Calls(0, MAX_RETRY_DURATION_MS, 1, INITIAL_BACKOFF_MS, script) == 19
  {
    hide Iterate, Possible, Calls;
    script := UnluckyFrom(1);
    assert BackoffOf(1) == INITIAL_BACKOFF_MS;
    UnluckyRun(1);
  }

  // ---------------------------------------------------------------- termination for every maximum

  lemma EachSleepAddsTime(start: nat, max: int, n: nat, backoff: nat, a: Attempt, next: nat)
    requires 1000 <= backoff <= MAX_BACKOFF_MS && start <= a.top <= a.after
    requires Iterate(start, max, n, backoff, a).Sleep?
    requires next >= a.after + Iterate(start, max, n, backoff, a).delay * MS
    ensures next - start >= (a.top - start) + MS
  {
    hide Elapsed;
  }

  /** For every maximum the loop ends: after n - 1 sleeps at least n - 1 milliseconds have passed. */
  lemma {:induction false} EndsFrom(start: nat, max: int, n: nat, backoff: nat, script: seq<Attempt>)
    requires n >= 1 && 1000 <= backoff <= MAX_BACKOFF_MS && Possible(start, max, n, backoff, script)
    requires script != [] ==> script[0].top - start >= (n - 1) * MS
    ensures |script| >= 2 && |script| + n - 2 >= max ==> Ending(start, max, n, backoff, script).Some?
    decreases |script|
  {
    hide Elapsed;
    if |script| >= 2 && |script| + n - 2 >= max {
      var a := script[0];
      var s := Iterate(start, max, n, backoff, a);
      if s.Sleep? {
        EachSleepAddsTime(start, max, n, backoff, a, script[1].top);
        if |script| > 2 {
          EndsFrom(start, max, n + 1, NextBackoff(backoff), script[1..]);
        } else {
          LastAttempt(start, max, n + 1, NextBackoff(backoff), script[1..]);
        }
      }
    }
  }

  lemma LastAttempt(start: nat, max: int, n: nat, backoff: nat, script: seq<Attempt>)
    requires n >= 2 && n - 1 >= max && |script| == 1 && 1000 <= backoff <= MAX_BACKOFF_MS
    requires start <= script[0].top && script[0].top - start >= (n - 1) * MS
    ensures Ending(start, max, n, backoff, script).Some?
  {
    hide Elapsed;
    ElapsedRounds(start, script[0].top);
    assert (script[0].top - start) / MS >= n - 1;
  }

  // ---------------------------------------------------------------- which result

  /** The clock shows the maximum as used up. */
  predicate Over(start: nat, max: int, now: nat) { Elapsed(start, now) >= max }

  /** The provider is called in attempt i: nobody interrupts before it, and except for the first one
      there is time left. */
  predicate CalledAt(start: nat, max: int, script: seq<Attempt>, i: nat)
    requires i < |script|
  {
    !script[i].interrupted && (i == 0 || !Over(start, max, script[i].top))
  }

  /** After attempt i there is another one: the provider was called, asks for a retry, and there is
      still time. */
  predicate RetriedAt(start: nat, max: int, script: seq<Attempt>, i: nat)
    requires i < |script|
  {
    CalledAt(start, max, script, i) && script[i].response == Retryable && !Over(start, max, script[i].after)
  }

  /** The loop ends with the first attempt i that is not retried, after i calls and perhaps one more,
      and what happened in that attempt decides the result. */
  ghost predicate EndsAt(start: nat, max: int, script: seq<Attempt>, i: nat, result: Result, calls: nat) {
    && i < |script|
    && (forall j :: 0 <= j < i ==> RetriedAt(start, max, script, j))
    && !RetriedAt(start, max, script, i)
    && (result == Interrupted <==> script[i].interrupted)
    && (result == Answer <==> CalledAt(start, max, script, i) && script[i].response == Succeeded)
    && (result == NonRetryable <==> CalledAt(start, max, script, i) && script[i].response == Refused)
    && calls == i + if CalledAt(start, max, script, i) then 1 else 0
  }

  /** The outcome of attempt i, whatever the backoff has become by then. */
  lemma IterateOutcome(start: nat, max: int, script: seq<Attempt>, i: nat, backoff: nat)
    requires i < |script| && 1000 <= backoff <= MAX_BACKOFF_MS
    ensures var it := Iterate(start, max, i + 1, backoff, script[i]);
            && (it.Sleep? <==> RetriedAt(start, max, script, i))
            && (it.Stop? ==>
                  && (it.called <==> CalledAt(start, max, script, i))
                  && (it.result == Interrupted <==> script[i].interrupted)
                  && (it.result == Answer <==> CalledAt(start, max, script, i) && script[i].response == Succeeded)
                  && (it.result == NonRetryable <==> CalledAt(start, max, script, i) && script[i].response == Refused))
  {
    hide Elapsed;
  }

  lemma {:induction false} EndsFromAttempt(start: nat, max: int, script: seq<Attempt>, i: nat, backoff: nat) returns (last: nat)
    requires i <= |script| && 1000 <= backoff <= MAX_BACKOFF_MS
    requires forall j :: 0 <= j < i ==> RetriedAt(start, max, script, j)
    requires Ending(start, max, i + 1, backoff, script[i..]).Some?
    ensures EndsAt(start, max, script, last, Ending(start, max, i + 1, backoff, script[i..]).value,
                   i + Calls(start, max, i + 1, backoff, script[i..]))
    decreases |script| - i
  {
    hide Iterate, RetriedAt, CalledAt;
    NotYetOver(start, max, i + 1, backoff, script, i);
    IterateOutcome(start, max, script, i, backoff);
    if RetriedAt(start, max, script, i) {
      last := EndsFromAttempt(start, max, script, i + 1, NextBackoff(backoff));
    } else {
      last := i;
    }
  }

  /** What the loop reports, read off the script alone: it ends at the first attempt that is not
      retried, with the result of that attempt, having called the provider in every one before. */
  lemma {:induction false} ReportsLastAttempt(start: nat, max: int, script: seq<Attempt>) returns (last: nat)
    requires Ending(start, max, 1, INITIAL_BACKOFF_MS, script).Some?
    ensures EndsAt(start, max, script, last, Ending(start, max, 1, INITIAL_BACKOFF_MS, script).value,
                   Calls(start, max, 1, INITIAL_BACKOFF_MS, script))
  {
    hide Ending, Calls, EndsAt;
    assert script[0..] == script;
    last := EndsFromAttempt(start, max, script, 0, INITIAL_BACKOFF_MS);
  }

  // ---------------------------------------------------------------- the program

  /** The loop of call_api_with_retries, driven by a script long enough for its maximum: it always
      ends before the script does. */
  method CallWithRetries(start: nat, max: int, script: seq<Attempt>) returns (result: Result, calls: nat)
    requires Possible(start, max, 1, INITIAL_BACKOFF_MS, script) && |script| >= 2 && |script| > max
    ensures Ending(start, max, 1, INITIAL_BACKOFF_MS, script) == Some(result)
    ensures calls == Calls(start, max, 1, INITIAL_BACKOFF_MS, script)
    ensures exists last :: EndsAt(start, max, script, last, result, calls)
  {
    hide Elapsed, Iterate, Possible, EndsAt;
    var attemptNum := 1;
    var backoff := INITIAL_BACKOFF_MS;
    calls := 0;
    var i := 0;
    assert script[0..] == script;
    EndsAtAll(start, max, script);
    ghost var last := ReportsLastAttempt(start, max, script);
    while true
      invariant attemptNum == i + 1 && i <= |script| && 1000 <= backoff <= MAX_BACKOFF_MS
      invariant Ending(start, max, attemptNum, backoff, script[i..]) == Ending(start, max, 1, INITIAL_BACKOFF_MS, script)
      invariant calls + Calls(start, max, attemptNum, backoff, script[i..]) == Calls(start, max, 1, INITIAL_BACKOFF_MS, script)
      invariant Ending(start, max, 1, INITIAL_BACKOFF_MS, script).Some?
      decreases |script| - i
    {
      NotYetOver(start, max, attemptNum, backoff, script, i);
      var a := script[i];
      var r, called, delay := OneAttempt(start, max, attemptNum, backoff, a);
      if called { calls := calls + 1; }
      if r.Some? { return r.value, calls; }
      backoff := backoff * 2;
      if backoff > MAX_BACKOFF_MS { backoff := MAX_BACKOFF_MS; }
      attemptNum := attemptNum + 1;
      i := i + 1;
    }
  }

  lemma EndsAtAll(start: nat, max: int, script: seq<Attempt>)
    requires Possible(start, max, 1, INITIAL_BACKOFF_MS, script) && |script| >= 2 && |script| > max
    ensures Ending(start, max, 1, INITIAL_BACKOFF_MS, script).Some?
  {
    hide Elapsed, Iterate;
    EndsFrom(start, max, 1, INITIAL_BACKOFF_MS, script);
  }

  lemma NotYetOver(start: nat, max: int, attemptNum: nat, backoff: nat, script: seq<Attempt>, i: nat)
    requires i <= |script| && 1000 <= backoff <= MAX_BACKOFF_MS
    requires Ending(start, max, attemptNum, backoff, script[i..]).Some?
    ensures i < |script| && script[i..][0] == script[i] && script[i..][1..] == script[i + 1..]
  {
    hide Iterate;
  }

  /** The body of the loop up to the sleep: a result when the loop ends there, else the delay. */
  method OneAttempt(start: nat, max: int, attemptNum: nat, backoff: nat, a: Attempt)
      returns (result: Option<Result>, called: bool, delay: int)
    requires 1000 <= backoff <= MAX_BACKOFF_MS
    ensures match Iterate(start, max, attemptNum, backoff, a)
            case Stop(r, c) => result == Some(r) && called == c
            case Sleep(d, _) => result == None && called && delay == d
  {
    hide Elapsed;
    called, delay := false, 0;
    if a.interrupted { return Some(Interrupted), called, delay; }
    if attemptNum > 1 && Elapsed(start, a.top) >= max { return Some(DeadlinePassed), called, delay; }
    called := true;
    if a.response == Succeeded { return Some(Answer), called, delay; }
    if a.response != Retryable { return Some(NonRetryable), called, delay; }
    var jitter := a.random % (backoff / 4);
    delay := backoff - jitter;
    var remaining := max - Elapsed(start, a.after);
    if delay > remaining {
      delay := remaining;
      if delay <= 0 { return Some(DeadlinePassed), called, delay; }
    }
    result := None;
  }
}
