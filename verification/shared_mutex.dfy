/**
 * The timeout-bounded gate around a named system-wide mutex: probe without waiting, retry
 * after a fixed interval, give up once the stopwatch exceeds the timeout, and on success
 * release the mutex before running the work.
 *
 * The mutex and the clock are an oracle: `free(k)` is the outcome of the (k+1)-th
 * zero-wait probe, and `elapsed(k)` is the stopwatch reading, in milliseconds, at the
 * timeout check that follows the (k+1)-th failed probe and its sleep.
 */
module SharedMutex {
  import opened Seqs

  /** A gate: the mutex name, the timeout and the retry interval, all in milliseconds. */
  datatype Gate = Gate(name: string, timeout: int, retryIntervalMs: int)

  datatype Oracle = Oracle(free: nat -> bool, elapsed: nat -> int)

  /** Whether the `logWait` and `logError` callbacks are non-null. */
  datatype Callbacks = Callbacks(logWait: bool, logError: bool)

  /** The observable steps of one execution, in order. */
  datatype Event =
    | Probe(acquired: bool)                     // mutex.WaitOne(0)
    | Waiting(attempt: nat, name: string)       // logWait "#{count} Waiting for shared access to {name}."
    | Sleep(ms: int)                            // Thread.Sleep(RetryIntervalMs)
    | TimeoutCheck(expired: bool)               // stopwatch.Elapsed > _timeout
    | TimeoutReported(name: string, timeout: int) // logError "Failed to acquire {name} in {timeout}."
    | AcquiredReported(name: string)            // logWait "Acquired shared access to {name} in ..."
    | Release                                   // mutex.ReleaseMutex()
    | Work                                      // functionToExecute()

  /**
   * Each sleep lasts at least the retry interval, so the stopwatch reads at least one
   * interval at the first check and grows by at least one interval per round.
   */
  ghost predicate Paced(o: Oracle, retry: int) {
    && retry > 0
    && o.elapsed(0) >= retry
    && forall k: nat :: Spaced(o, retry, k)
  }

  /** The check after failed probe `k + 2` comes at least one interval after the one before. */
  ghost predicate Spaced(o: Oracle, retry: int, k: nat) {
    o.elapsed(k + 1) >= o.elapsed(k) + retry
  }

  /** How an execution ends, with the number of probes that failed. */
  datatype Decision = Acquired(failedProbes: nat) | TimedOut(failedProbes: nat)

  /** The stopwatch at the last check before probe `k`, and 0 before the first probe. */
  function LastCheck(o: Oracle, k: nat): int {
    if k == 0 then 0 else o.elapsed(k - 1)
  }

  /**
   * The outcome of the probing from probe `k` on: the first free probe wins unless a
   * check after an earlier failed probe found the stopwatch strictly beyond the timeout.
   */
  function Decide(o: Oracle, timeout: int, retry: int, k: nat): (d: Decision)
    requires Paced(o, retry)
    requires k == 0 || o.elapsed(k - 1) <= timeout
    ensures d.failedProbes >= k
    ensures forall j: nat :: k <= j < d.failedProbes ==> !o.free(j)
    ensures d.Acquired? ==> o.free(d.failedProbes)
    ensures d.Acquired? ==> forall j: nat :: k <= j < d.failedProbes ==> o.elapsed(j) <= timeout
    ensures d.TimedOut? ==> d.failedProbes > k && o.elapsed(d.failedProbes - 1) > timeout
    ensures d.TimedOut? ==> forall j: nat :: k <= j < d.failedProbes - 1 ==> o.elapsed(j) <= timeout
    decreases timeout - LastCheck(o, k)
  {
    if o.free(k) then Acquired(k)
    else if o.elapsed(k) > timeout then TimedOut(k + 1)
    else
      assert k > 0 ==> Spaced(o, retry, k - 1);
      Decide(o, timeout, retry, k + 1)
  }

  lemma DecideContinues(o: Oracle, timeout: int, retry: int, k: nat)
    requires Paced(o, retry)
    requires k == 0 || o.elapsed(k - 1) <= timeout
    requires !o.free(k) && o.elapsed(k) <= timeout
    ensures Decide(o, timeout, retry, k + 1) == Decide(o, timeout, retry, k)
  {
  }

  lemma DecideStops(o: Oracle, timeout: int, retry: int, k: nat)
    requires Paced(o, retry)
    requires k == 0 || o.elapsed(k - 1) <= timeout
    ensures o.free(k) ==> Decide(o, timeout, retry, k) == Acquired(k)
    ensures !o.free(k) && o.elapsed(k) > timeout ==> Decide(o, timeout, retry, k) == TimedOut(k + 1)
  {
  }

  /** One failed probe numbered `attempt`, its sleep and the check that follows. */
  function FailedRound(g: Gate, cb: Callbacks, attempt: nat, expired: bool): seq<Event> {
    [Probe(false)]
    + (if cb.logWait then [Waiting(attempt, g.name)] else [])
    + [Sleep(g.retryIntervalMs), TimeoutCheck(expired)]
  }

  /** Failed rounds numbered 1 to `n`, none of which expired. */
  function WaitRounds(g: Gate, cb: Callbacks, n: nat): seq<Event>
    decreases n
  {
    if n == 0 then [] else WaitRounds(g, cb, n - 1) + FailedRound(g, cb, n, false)
  }

  /** The rounds that end with an unexpired check before the decision. */
  function Completed(d: Decision): nat {
    match d
    case Acquired(n) => n
    case TimedOut(n) => if n == 0 then 0 else n - 1
  }

  /** The events after the completed rounds: the winning probe and the work, or the expired round. */
  function Ending(g: Gate, cb: Callbacks, d: Decision): seq<Event> {
    match d
    case Acquired(n) =>
      [Probe(true)]
      + (if cb.logWait then [AcquiredReported(g.name)] else [])
      + [Release, Work]
    case TimedOut(n) =>
      if n == 0 then []
      else FailedRound(g, cb, n, true) + (if cb.logError then [TimeoutReported(g.name, g.timeout)] else [])
  }

  /** The events of an execution that ends with decision `d`. */
  function Trace(g: Gate, cb: Callbacks, d: Decision): seq<Event> {
    WaitRounds(g, cb, Completed(d)) + Ending(g, cb, d)
  }

  predicate IsWaiting(e: Event) { e.Waiting? }
  predicate IsFailedProbe(e: Event) { e == Probe(false) }
  predicate IsWork(e: Event) { e.Work? }
  predicate IsTimeoutReport(e: Event) { e.TimeoutReported? }
  predicate IsAcquiredReport(e: Event) { e.AcquiredReported? }

  /** Events that exist only because a callback is non-null. */
  predicate IsLog(e: Event) { e.Waiting? || e.TimeoutReported? || e.AcquiredReported? }
  predicate IsNotLog(e: Event) { !IsLog(e) }

  /** The events a round of waiting can hold. */
  predicate IsRoundEvent(e: Event) { e == Probe(false) || e.Waiting? || e.Sleep? || e.TimeoutCheck? }

  /** The wait messages numbered 1 to `n`. */
  function WaitMessages(g: Gate, n: nat): (w: seq<Event>)
    ensures |w| == n
    ensures forall i :: 0 <= i < n ==> w[i] == Waiting(i + 1, g.name)
    decreases n
  {
    if n == 0 then [] else WaitMessages(g, n - 1) + [Waiting(n, g.name)]
  }

  /** Every sleep is followed at once by a timeout check, and every check follows a sleep. */
  ghost predicate CheckFollowsSleep(t: seq<Event>) {
    forall i :: 0 <= i < |t| ==> PairedAt(t, i)
  }

  ghost predicate PairedAt(t: seq<Event>, i: nat)
    requires i < |t|
  {
    && (t[i].TimeoutCheck? ==> 0 < i && t[i - 1].Sleep?)
    && (t[i].Sleep? ==> i + 1 < |t| && t[i + 1].TimeoutCheck?)
  }

  lemma CheckFollowsSleepAppend(a: seq<Event>, b: seq<Event>)
    requires CheckFollowsSleep(a) && CheckFollowsSleep(b)
    ensures CheckFollowsSleep(a + b)
  {
    var t := a + b;
    forall i | 0 <= i < |t|
      ensures PairedAt(t, i)
    {
      if i < |a| {
        assert PairedAt(a, i);
        if i + 1 < |a| { assert t[i + 1] == a[i + 1]; }
        if 0 < i { assert t[i - 1] == a[i - 1]; }
      } else {
        assert PairedAt(b, i - |a|);
        if i + 1 < |t| { assert t[i + 1] == b[i + 1 - |a|]; }
        if i - |a| > 0 { assert t[i - 1] == b[i - 1 - |a|]; }
      }
    }
  }

  /** A round's events filtered by `p`, element by element. */
  lemma FilterRound(g: Gate, cb: Callbacks, n: nat, expired: bool, p: Event -> bool)
    ensures var waitLog := if cb.logWait then [Waiting(n, g.name)] else [];
      Filter(FailedRound(g, cb, n, expired), p)
      == Filter([Probe(false)], p) + Filter(waitLog, p)
       + Filter([Sleep(g.retryIntervalMs)], p) + Filter([TimeoutCheck(expired)], p)
  {
    var waitLog := if cb.logWait then [Waiting(n, g.name)] else [];
    var a := [Probe(false)];
    var c := [Sleep(g.retryIntervalMs)];
    var d := [TimeoutCheck(expired)];
    assert FailedRound(g, cb, n, expired) == a + waitLog + c + d;
    FilterAppend(a + waitLog + c, d, p);
    FilterAppend(a + waitLog, c, p);
    FilterAppend(a, waitLog, p);
  }

  /** A round filtered by `p`, spelled out event by event. */
  lemma RoundKeeps(g: Gate, cb: Callbacks, n: nat, expired: bool, p: Event -> bool)
    ensures Filter(FailedRound(g, cb, n, expired), p)
      == (if p(Probe(false)) then [Probe(false)] else [])
       + (if cb.logWait && p(Waiting(n, g.name)) then [Waiting(n, g.name)] else [])
       + (if p(Sleep(g.retryIntervalMs)) then [Sleep(g.retryIntervalMs)] else [])
       + (if p(TimeoutCheck(expired)) then [TimeoutCheck(expired)] else [])
  {
    FilterRound(g, cb, n, expired, p);
    FilterSingle(Probe(false), p);
    FilterSingle(Waiting(n, g.name), p);
    FilterSingle(Sleep(g.retryIntervalMs), p);
    FilterSingle(TimeoutCheck(expired), p);
  }

  lemma RoundWaits(g: Gate, cb: Callbacks, n: nat, expired: bool)
    ensures Filter(FailedRound(g, cb, n, expired), IsWaiting) == (if cb.logWait then [Waiting(n, g.name)] else [])
  {
    RoundKeeps(g, cb, n, expired, IsWaiting);
  }

  lemma RoundProbes(g: Gate, cb: Callbacks, n: nat, expired: bool)
    ensures Filter(FailedRound(g, cb, n, expired), IsFailedProbe) == [Probe(false)]
  {
    RoundKeeps(g, cb, n, expired, IsFailedProbe);
  }

  lemma RoundWithoutLogs(g: Gate, cb: Callbacks, n: nat, expired: bool)
    ensures Filter(FailedRound(g, cb, n, expired), IsNotLog) == FailedRound(g, Callbacks(false, false), n, expired)
  {
    RoundKeeps(g, cb, n, expired, IsNotLog);
  }

  lemma RoundPaired(g: Gate, cb: Callbacks, n: nat, expired: bool)
    ensures CheckFollowsSleep(FailedRound(g, cb, n, expired))
    ensures forall e :: e in FailedRound(g, cb, n, expired) ==> IsRoundEvent(e)
  {
    var r := FailedRound(g, cb, n, expired);
    assert forall i :: 0 <= i < |r| ==> PairedAt(r, i);
  }

  /** The wait messages of `n` rounds are numbered 1 to `n`, one per round. */
  lemma {:induction false} WaitRoundsNumbered(g: Gate, cb: Callbacks, n: nat)
    ensures Filter(WaitRounds(g, cb, n), IsWaiting) == (if cb.logWait then WaitMessages(g, n) else [])
    decreases n
  {
    if n > 0 {
      WaitRoundsNumbered(g, cb, n - 1);
      RoundWaits(g, cb, n, false);
      FilterAppend(WaitRounds(g, cb, n - 1), FailedRound(g, cb, n, false), IsWaiting);
    }
  }

  /** `n` rounds hold exactly `n` failed probes. */
  lemma {:induction false} WaitRoundsProbes(g: Gate, cb: Callbacks, n: nat)
    ensures |Filter(WaitRounds(g, cb, n), IsFailedProbe)| == n
    decreases n
  {
    if n > 0 {
      WaitRoundsProbes(g, cb, n - 1);
      RoundProbes(g, cb, n, false);
      FilterAppend(WaitRounds(g, cb, n - 1), FailedRound(g, cb, n, false), IsFailedProbe);
    }
  }

  /** Without their log messages, the rounds are those of a gate with no callbacks. */
  lemma {:induction false} WaitRoundsWithoutLogs(g: Gate, cb: Callbacks, n: nat)
    ensures Filter(WaitRounds(g, cb, n), IsNotLog) == WaitRounds(g, Callbacks(false, false), n)
    decreases n
  {
    if n > 0 {
      WaitRoundsWithoutLogs(g, cb, n - 1);
      RoundWithoutLogs(g, cb, n, false);
      FilterAppend(WaitRounds(g, cb, n - 1), FailedRound(g, cb, n, false), IsNotLog);
    }
  }

  /** In the rounds every sleep is followed by its check, and nothing but round events occurs. */
  lemma {:induction false} WaitRoundsPaired(g: Gate, cb: Callbacks, n: nat)
    ensures CheckFollowsSleep(WaitRounds(g, cb, n))
    ensures forall e :: e in WaitRounds(g, cb, n) ==> IsRoundEvent(e)
    decreases n
  {
    if n > 0 {
      WaitRoundsPaired(g, cb, n - 1);
      RoundPaired(g, cb, n, false);
      CheckFollowsSleepAppend(WaitRounds(g, cb, n - 1), FailedRound(g, cb, n, false));
    }
  }

  /** Every round starts with a failed probe. */
  lemma {:induction false} WaitRoundsStart(g: Gate, cb: Callbacks, n: nat)
    requires n > 0
    ensures WaitRounds(g, cb, n) != [] && WaitRounds(g, cb, n)[0] == Probe(false)
    decreases n
  {
    if n > 1 {
      WaitRoundsStart(g, cb, n - 1);
    }
  }

  /**
   * The first event is always a probe, so at least one probe precedes any timeout check,
   * whatever the timeout; and a free first probe acquires even when the timeout is not positive.
   */
  lemma ProbeComesFirst(g: Gate, o: Oracle, cb: Callbacks)
    requires Paced(o, g.retryIntervalMs)
    ensures var d := Decide(o, g.timeout, g.retryIntervalMs, 0);
      var t := Trace(g, cb, d);
      t != [] && t[0] == Probe(o.free(0))
    ensures o.free(0) ==> Decide(o, g.timeout, g.retryIntervalMs, 0) == Acquired(0)
  {
    var d := Decide(o, g.timeout, g.retryIntervalMs, 0);
    if Completed(d) > 0 {
      WaitRoundsStart(g, cb, Completed(d));
    }
  }

  /** The acquisition ending filtered by `p`, element by element. */
  lemma FilterAcquiredEnding(g: Gate, cb: Callbacks, n: nat, p: Event -> bool)
    ensures Filter(Ending(g, cb, Acquired(n)), p)
      == Filter([Probe(true)], p)
       + Filter(if cb.logWait then [AcquiredReported(g.name)] else [], p)
       + Filter([Release], p) + Filter([Work], p)
  {
    var acq := if cb.logWait then [AcquiredReported(g.name)] else [];
    assert Ending(g, cb, Acquired(n)) == [Probe(true)] + acq + [Release] + [Work];
    FilterAppend([Probe(true)] + acq + [Release], [Work], p);
    FilterAppend([Probe(true)] + acq, [Release], p);
    FilterAppend([Probe(true)], acq, p);
  }

  /** The timeout ending filtered by `p`: the expired round, then the report. */
  lemma FilterTimedOutEnding(g: Gate, cb: Callbacks, n: nat, p: Event -> bool)
    requires n > 0
    ensures Filter(Ending(g, cb, TimedOut(n)), p)
      == Filter(FailedRound(g, cb, n, true), p)
       + Filter(if cb.logError then [TimeoutReported(g.name, g.timeout)] else [], p)
  {
    FilterAppend(FailedRound(g, cb, n, true), if cb.logError then [TimeoutReported(g.name, g.timeout)] else [], p);
  }

  /** The timeout ending filtered by `p`, spelled out event by event. */
  lemma TimedOutEndingKeeps(g: Gate, cb: Callbacks, n: nat, p: Event -> bool)
    requires n > 0
    ensures Filter(Ending(g, cb, TimedOut(n)), p)
      == (if p(Probe(false)) then [Probe(false)] else [])
       + (if cb.logWait && p(Waiting(n, g.name)) then [Waiting(n, g.name)] else [])
       + (if p(Sleep(g.retryIntervalMs)) then [Sleep(g.retryIntervalMs)] else [])
       + (if p(TimeoutCheck(true)) then [TimeoutCheck(true)] else [])
       + (if cb.logError && p(TimeoutReported(g.name, g.timeout)) then [TimeoutReported(g.name, g.timeout)] else [])
  {
    FilterTimedOutEnding(g, cb, n, p);
    RoundKeeps(g, cb, n, true, p);
    FilterSingle(TimeoutReported(g.name, g.timeout), p);
  }

  /** A trace filtered by `p` is the filtered rounds followed by the filtered ending. */
  lemma FilterTrace(g: Gate, cb: Callbacks, d: Decision, p: Event -> bool)
    ensures Filter(Trace(g, cb, d), p) == Filter(WaitRounds(g, cb, Completed(d)), p) + Filter(Ending(g, cb, d), p)
  {
    FilterAppend(WaitRounds(g, cb, Completed(d)), Ending(g, cb, d), p);
  }

  /** Nothing but round events happens while waiting. */
  lemma RoundsHoldNone(g: Gate, cb: Callbacks, n: nat, p: Event -> bool)
    requires forall e :: IsRoundEvent(e) ==> !p(e)
    ensures Filter(WaitRounds(g, cb, n), p) == []
  {
    WaitRoundsPaired(g, cb, n);
    FilterNone(WaitRounds(g, cb, n), p);
  }

  /** No decision of the probing is a timeout without a failed probe. */
  predicate Reachable(d: Decision) {
    d.TimedOut? ==> d.failedProbes > 0
  }

  lemma {:induction false} TraceWaits(g: Gate, cb: Callbacks, d: Decision)
    requires Reachable(d)
    ensures Filter(Trace(g, cb, d), IsWaiting) == (if cb.logWait then WaitMessages(g, d.failedProbes) else [])
  {
    FilterTrace(g, cb, d, IsWaiting);
    WaitRoundsNumbered(g, cb, Completed(d));
    match d
    case Acquired(n) =>
      AcquiredEndingKeeps(g, cb, n, IsWaiting);
    case TimedOut(n) =>
      TimedOutEndingKeeps(g, cb, n, IsWaiting);
  }

  lemma {:induction false} TraceProbes(g: Gate, cb: Callbacks, d: Decision)
    requires Reachable(d)
    ensures |Filter(Trace(g, cb, d), IsFailedProbe)| == d.failedProbes
  {
    FilterTrace(g, cb, d, IsFailedProbe);
    WaitRoundsProbes(g, cb, Completed(d));
    match d
    case Acquired(n) =>
      AcquiredEndingKeeps(g, cb, n, IsFailedProbe);
    case TimedOut(n) =>
      TimedOutEndingKeeps(g, cb, n, IsFailedProbe);
  }

  /**
   * Wait messages are numbered 1, 2, 3, ... with exactly one per failed probe.
   */
  lemma WaitsAreNumbered(g: Gate, o: Oracle, cb: Callbacks)
    requires Paced(o, g.retryIntervalMs)
    ensures var d := Decide(o, g.timeout, g.retryIntervalMs, 0);
      var t := Trace(g, cb, d);
      && Filter(t, IsWaiting) == (if cb.logWait then WaitMessages(g, d.failedProbes) else [])
      && |Filter(t, IsFailedProbe)| == d.failedProbes
  {
    var d := Decide(o, g.timeout, g.retryIntervalMs, 0);
    TraceWaits(g, cb, d);
    TraceProbes(g, cb, d);
  }

  lemma {:induction false} TracePaired(g: Gate, cb: Callbacks, d: Decision)
    ensures CheckFollowsSleep(Trace(g, cb, d))
  {
    WaitRoundsPaired(g, cb, Completed(d));
    var e := Ending(g, cb, d);
    match d {
      case Acquired(n) =>
        if cb.logWait {
          assert e == [Probe(true), AcquiredReported(g.name), Release, Work];
        } else {
          assert e == [Probe(true), Release, Work];
        }
        assert forall i :: 0 <= i < |e| ==> PairedAt(e, i);
      case TimedOut(n) =>
        if n > 0 {
          RoundPaired(g, cb, n, true);
          var log := if cb.logError then [TimeoutReported(g.name, g.timeout)] else [];
          assert forall i :: 0 <= i < |log| ==> PairedAt(log, i);
          CheckFollowsSleepAppend(FailedRound(g, cb, n, true), log);
        }
    }
    CheckFollowsSleepAppend(WaitRounds(g, cb, Completed(d)), e);
  }

  /** Every sleep is followed at once by the timeout check, and no check comes before a sleep. */
  lemma CheckAfterSleep(g: Gate, o: Oracle, cb: Callbacks)
    requires Paced(o, g.retryIntervalMs)
    ensures CheckFollowsSleep(Trace(g, cb, Decide(o, g.timeout, g.retryIntervalMs, 0)))
  {
    TracePaired(g, cb, Decide(o, g.timeout, g.retryIntervalMs, 0));
  }

  /** The acquisition ending filtered by `p`, spelled out event by event. */
  lemma AcquiredEndingKeeps(g: Gate, cb: Callbacks, n: nat, p: Event -> bool)
    ensures Filter(Ending(g, cb, Acquired(n)), p)
      == (if p(Probe(true)) then [Probe(true)] else [])
       + (if cb.logWait && p(AcquiredReported(g.name)) then [AcquiredReported(g.name)] else [])
       + (if p(Release) then [Release] else [])
       + (if p(Work) then [Work] else [])
  {
    FilterAcquiredEnding(g, cb, n, p);
    FilterSingle(Probe(true), p);
    FilterSingle(AcquiredReported(g.name), p);
    FilterSingle(Release, p);
    FilterSingle(Work, p);
  }

  /** The acquisition ending holds one work event and the acquisition message only when logged. */
  lemma AcquiredEndingFilters(g: Gate, cb: Callbacks, n: nat)
    ensures Filter(Ending(g, cb, Acquired(n)), IsWork) == [Work]
    ensures Filter(Ending(g, cb, Acquired(n)), IsTimeoutReport) == []
    ensures Filter(Ending(g, cb, Acquired(n)), IsAcquiredReport) == (if cb.logWait then [AcquiredReported(g.name)] else [])
  {
    AcquiredEndingKeeps(g, cb, n, IsWork);
    AcquiredEndingKeeps(g, cb, n, IsTimeoutReport);
    AcquiredEndingKeeps(g, cb, n, IsAcquiredReport);
  }

  lemma {:induction false} AcquiredTrace(g: Gate, cb: Callbacks, n: nat)
    ensures var t := Trace(g, cb, Acquired(n));
      && |t| >= 2 && t[|t| - 2] == Release && t[|t| - 1] == Work
      && Filter(t, IsWork) == [Work]
      && Filter(t, IsTimeoutReport) == []
      && Filter(t, IsAcquiredReport) == (if cb.logWait then [AcquiredReported(g.name)] else [])
  {
    var d := Acquired(n);
    FilterTrace(g, cb, d, IsWork);
    FilterTrace(g, cb, d, IsTimeoutReport);
    FilterTrace(g, cb, d, IsAcquiredReport);
    RoundsHoldNone(g, cb, n, IsWork);
    RoundsHoldNone(g, cb, n, IsTimeoutReport);
    RoundsHoldNone(g, cb, n, IsAcquiredReport);
    AcquiredEndingFilters(g, cb, n);
  }

  /**
   * After an acquisition the mutex is released, then the work runs once as the last event;
   * one acquisition message is logged when `logWait` is given and no timeout is reported.
   */
  lemma WorkRunsOnceAfterRelease(g: Gate, o: Oracle, cb: Callbacks)
    requires Paced(o, g.retryIntervalMs)
    requires Decide(o, g.timeout, g.retryIntervalMs, 0).Acquired?
    ensures var t := Trace(g, cb, Decide(o, g.timeout, g.retryIntervalMs, 0));
      && |t| >= 2 && t[|t| - 2] == Release && t[|t| - 1] == Work
      && Filter(t, IsWork) == [Work]
      && Filter(t, IsTimeoutReport) == []
      && Filter(t, IsAcquiredReport) == (if cb.logWait then [AcquiredReported(g.name)] else [])
  {
    AcquiredTrace(g, cb, Decide(o, g.timeout, g.retryIntervalMs, 0).failedProbes);
  }

  /** The expired round and the report hold no work, no release and no acquisition message. */
  lemma TimedOutEndingHolds(g: Gate, cb: Callbacks, n: nat)
    requires n > 0
    ensures forall e :: e in Ending(g, cb, TimedOut(n)) ==> IsRoundEvent(e) || e == TimeoutReported(g.name, g.timeout)
  {
    RoundPaired(g, cb, n, true);
  }

  lemma {:induction false} TimedOutTrace(g: Gate, cb: Callbacks, n: nat)
    requires n > 0
    ensures var t := Trace(g, cb, TimedOut(n));
      && Filter(t, IsWork) == []
      && Release !in t
      && Filter(t, IsAcquiredReport) == []
  {
    var d := TimedOut(n);
    WaitRoundsPaired(g, cb, n - 1);
    TimedOutEndingHolds(g, cb, n);
    FilterTrace(g, cb, d, IsWork);
    FilterTrace(g, cb, d, IsAcquiredReport);
    RoundsHoldNone(g, cb, n - 1, IsWork);
    RoundsHoldNone(g, cb, n - 1, IsAcquiredReport);
    FilterNone(Ending(g, cb, d), IsWork);
    FilterNone(Ending(g, cb, d), IsAcquiredReport);
  }

  lemma {:induction false} TimedOutReport(g: Gate, cb: Callbacks, n: nat)
    requires n > 0
    ensures Filter(Trace(g, cb, TimedOut(n)), IsTimeoutReport)
      == (if cb.logError then [TimeoutReported(g.name, g.timeout)] else [])
  {
    FilterTrace(g, cb, TimedOut(n), IsTimeoutReport);
    RoundsHoldNone(g, cb, n - 1, IsTimeoutReport);
    TimedOutEndingKeeps(g, cb, n, IsTimeoutReport);
  }

  /**
   * On timeout the work never runs and the mutex is never released; the timeout is
   * reported once when `logError` is given, and no acquisition is reported.
   */
  lemma TimeoutSkipsWork(g: Gate, o: Oracle, cb: Callbacks)
    requires Paced(o, g.retryIntervalMs)
    requires Decide(o, g.timeout, g.retryIntervalMs, 0).TimedOut?
    ensures var t := Trace(g, cb, Decide(o, g.timeout, g.retryIntervalMs, 0));
      && Filter(t, IsWork) == []
      && Release !in t
      && Filter(t, IsTimeoutReport) == (if cb.logError then [TimeoutReported(g.name, g.timeout)] else [])
      && Filter(t, IsAcquiredReport) == []
  {
    TimedOutTrace(g, cb, Decide(o, g.timeout, g.retryIntervalMs, 0).failedProbes);
    TimedOutReport(g, cb, Decide(o, g.timeout, g.retryIntervalMs, 0).failedProbes);
  }

  lemma AcquiredEndingWithoutLogs(g: Gate, cb: Callbacks, n: nat)
    ensures Filter(Ending(g, cb, Acquired(n)), IsNotLog) == Ending(g, Callbacks(false, false), Acquired(n))
  {
    AcquiredEndingKeeps(g, cb, n, IsNotLog);
  }

  lemma TimedOutEndingWithoutLogs(g: Gate, cb: Callbacks, n: nat)
    requires n > 0
    ensures Filter(Ending(g, cb, TimedOut(n)), IsNotLog) == Ending(g, Callbacks(false, false), TimedOut(n))
  {
    TimedOutEndingKeeps(g, cb, n, IsNotLog);
  }

  lemma {:induction false} TraceWithoutLogs(g: Gate, cb: Callbacks, d: Decision)
    ensures Filter(Trace(g, cb, d), IsNotLog) == Trace(g, Callbacks(false, false), d)
  {
    FilterTrace(g, cb, d, IsNotLog);
    WaitRoundsWithoutLogs(g, cb, Completed(d));
    match d
    case Acquired(n) =>
      AcquiredEndingWithoutLogs(g, cb, n);
    case TimedOut(n) =>
      if n > 0 {
        TimedOutEndingWithoutLogs(g, cb, n);
      }
  }

  /**
   * The callbacks do not steer: the decision does not depend on them, and removing their
   * messages from a trace leaves the trace of a gate with no callbacks.
   */
  lemma CallbacksDoNotSteer(g: Gate, o: Oracle, cb: Callbacks)
    requires Paced(o, g.retryIntervalMs)
    ensures var d := Decide(o, g.timeout, g.retryIntervalMs, 0);
      Filter(Trace(g, cb, d), IsNotLog) == Trace(g, Callbacks(false, false), d)
  {
    TraceWithoutLogs(g, cb, Decide(o, g.timeout, g.retryIntervalMs, 0));
  }

  /** With a paced clock the check after failed probe `k + 1` reads at least `k + 1` intervals. */
  lemma {:induction false} ElapsedGrows(o: Oracle, retry: int, k: nat)
    requires Paced(o, retry)
    ensures o.elapsed(k) >= (k + 1) * retry
    decreases k
  {
    if k > 0 {
      ElapsedGrows(o, retry, k - 1);
      assert Spaced(o, retry, k - 1);
    }
  }

  /**
   * The number of probes is bounded by the timeout: every round that did not expire
   * took at least one retry interval, so at most `timeout / retry` rounds pass unexpired.
   */
  lemma ProbesBounded(g: Gate, o: Oracle)
    requires Paced(o, g.retryIntervalMs)
    ensures var d := Decide(o, g.timeout, g.retryIntervalMs, 0);
      Completed(d) * g.retryIntervalMs <= (if Completed(d) == 0 then 0 else g.timeout)
  {
    var d := Decide(o, g.timeout, g.retryIntervalMs, 0);
    var n := Completed(d);
    if n > 0 {
      ElapsedGrows(o, g.retryIntervalMs, n - 1);
      assert o.elapsed(n - 1) <= g.timeout;
    }
  }

  /** A timeout shorter than one interval gives up after the first failed probe. */
  lemma ShortTimeoutGivesUpAtOnce(g: Gate, o: Oracle)
    requires Paced(o, g.retryIntervalMs)
    requires g.timeout < g.retryIntervalMs && !o.free(0)
    ensures Decide(o, g.timeout, g.retryIntervalMs, 0) == TimedOut(1)
  {
  }

  lemma RoundCompletes(g: Gate, cb: Callbacks, n: nat, expired: bool, before: seq<Event>, round: seq<Event>)
    requires before == WaitRounds(g, cb, n)
    requires round == [Probe(false)] + (if cb.logWait then [Waiting(n + 1, g.name)] else []) + [Sleep(g.retryIntervalMs)]
    ensures !expired ==> before + round + [TimeoutCheck(false)] == WaitRounds(g, cb, n + 1)
    ensures expired ==>
      (before + round + [TimeoutCheck(true)] + (if cb.logError then [TimeoutReported(g.name, g.timeout)] else [])
       == Trace(g, cb, TimedOut(n + 1)))
  {
    assert round + [TimeoutCheck(expired)] == FailedRound(g, cb, n + 1, expired);
  }

  lemma AcquiredCompletes(g: Gate, cb: Callbacks, n: nat, before: seq<Event>)
    requires before == WaitRounds(g, cb, n)
    ensures before + [Probe(true)] + (if cb.logWait then [AcquiredReported(g.name)] else []) + [Release] + [Work]
      == Trace(g, cb, Acquired(n))
  {
  }

  /**
   * `Execute`: probe until a probe acquires the mutex or a check finds the timeout
   * exceeded. The result is the work's result after an acquisition, and false on timeout.
   * As in the source, the attempt counter only advances when a wait message is logged;
   * `probes`, the number of failed probes, indexes the oracle and has no counterpart in the source.
   */
  method Execute(g: Gate, o: Oracle, cb: Callbacks, workResult: bool) returns (ok: bool, trace: seq<Event>)
    requires Paced(o, g.retryIntervalMs)
    ensures var d := Decide(o, g.timeout, g.retryIntervalMs, 0);
      && ok == (d.Acquired? && workResult)
      && trace == Trace(g, cb, d)
  {
    var count := 1;
    var probes := 0;
    trace := [];
    while !o.free(probes)
      invariant cb.logWait ==> count == probes + 1
      invariant probes == 0 || o.elapsed(probes - 1) <= g.timeout
      invariant Decide(o, g.timeout, g.retryIntervalMs, probes) == Decide(o, g.timeout, g.retryIntervalMs, 0)
      invariant trace == WaitRounds(g, cb, probes)
      decreases g.timeout - LastCheck(o, probes)
    {
      var waitLog := [];
      if cb.logWait {
        waitLog := [Waiting(count, g.name)];
        count := count + 1;
      }
      var round := [Probe(false)] + waitLog + [Sleep(g.retryIntervalMs)];
      RoundCompletes(g, cb, probes, o.elapsed(probes) > g.timeout, trace, round);
      trace := trace + round;
      if o.elapsed(probes) > g.timeout {
        trace := trace + [TimeoutCheck(true)] + (if cb.logError then [TimeoutReported(g.name, g.timeout)] else []);
        DecideStops(o, g.timeout, g.retryIntervalMs, probes);
        return false, trace;
      }
      trace := trace + [TimeoutCheck(false)];
      assert probes > 0 ==> Spaced(o, g.retryIntervalMs, probes - 1);
      DecideContinues(o, g.timeout, g.retryIntervalMs, probes);
      probes := probes + 1;
    }
    DecideStops(o, g.timeout, g.retryIntervalMs, probes);
    ghost var before := trace;
    trace := trace + [Probe(true)] + (if cb.logWait then [AcquiredReported(g.name)] else []) + [Release];
    ok := workResult;
    trace := trace + [Work];
    AcquiredCompletes(g, cb, probes, before);
  }
}
