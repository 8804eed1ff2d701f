/** The history of one repository's sync calls, and what the scheduling gates force on it.
    `Legal` is the log an execution produces (Engine proves so); everything below it is about
    every legal log, hence about every run. */
module SyncLog {
  import opened Common
  import opened Backoff

  datatype Kind = Startup | Scheduled | Manual

  datatype Event =
    | Start(kind: Kind, enabled: bool, at: int)
    | Succeeded(base: int, at: int)
    | Failed(base: int, at: int)

  datatype Gate = Gate(entry: Entry, due: Option<int>)

  /** Effect of one event on the backoff record and on the schedule; a manual start resets first. */
  function AfterEvent(g: Gate, e: Event): Gate {
    match e
    case Start(kind, _, _) => if kind == Manual then g.(entry := FRESH) else g
    case Succeeded(base, at) => Gate(FRESH, Some(at + ScheduleStep(base)))
    case Failed(base, at) => g.(entry := AfterFailure(g.entry, base, at))
  }

  function Replay(log: seq<Event>): Gate {
    if log == [] then Gate(FRESH, None) else AfterEvent(Replay(DropLast(log)), Last(log))
  }

  predicate MayStart(past: seq<Event>, kind: Kind, enabled: bool, at: int) {
    match kind
    case Manual => true
    case Startup => enabled && past == []
    case Scheduled => enabled && !Skips(Replay(past).entry, at) && Due(Replay(past).due, at)
  }

  /** Calls alternate start and outcome, time does not run backwards, starts pass their gate. */
  predicate Admits(past: seq<Event>, e: Event) {
    && (past != [] ==> Last(past).at <= e.at)
    && (e.Start? <==> |past| % 2 == 0)
    && (e.Start? ==> MayStart(past, e.kind, e.enabled, e.at))
  }

  predicate Legal(log: seq<Event>) {
    log == [] || (Legal(DropLast(log)) && Admits(DropLast(log), Last(log)))
  }

  lemma LegalThen(log: seq<Event>, e: Event)
    requires Legal(log) && Admits(log, e)
    ensures Legal(log + [e]) && Replay(log + [e]) == AfterEvent(Replay(log), e)
  {
    AppendLast(log, e);
  }

  lemma {:induction false} LegalAt(log: seq<Event>, i: nat)
    requires Legal(log) && i < |log|
    ensures Legal(log[..i]) && Admits(log[..i], log[i])
    decreases |log|
  {
    if i < |log| - 1 {
      LegalAt(DropLast(log), i);
      assert DropLast(log)[..i] == log[..i];
    }
  }

  lemma ReplayStep(log: seq<Event>, i: nat)
    requires i < |log|
    ensures Replay(log[..i + 1]) == AfterEvent(Replay(log[..i]), log[i])
  {
    assert DropLast(log[..i + 1]) == log[..i];
  }

  lemma {:induction false} TimesMonotone(log: seq<Event>, i: nat, j: nat)
    requires Legal(log) && i <= j < |log|
    ensures log[i].at <= log[j].at
    decreases j
  {
    if i < j {
      LegalAt(log, j);
      TimesMonotone(log, i, j - 1);
    }
  }

  // ---- Scheduled-gate safety ---------------------------------------------------------------

  /** Between a success and position j every later success asked for an interval of at least d. */
  predicate NoShorterSuccess(log: seq<Event>, i: nat, j: nat, d: int)
    requires i <= j <= |log|
  {
    forall k | i < k < j && log[k].Succeeded? :: d <= ScheduleStep(log[k].base)
  }

  lemma {:induction false} DueAfterSuccess(log: seq<Event>, i: nat, j: nat)
    requires Legal(log) && i < j <= |log| && log[i].Succeeded?
    requires NoShorterSuccess(log, i, j, ScheduleStep(log[i].base))
    ensures Replay(log[..j]).due.Some? && Replay(log[..j]).due.value >= log[i].at + ScheduleStep(log[i].base)
    decreases j
  {
    ReplayStep(log, j - 1);
    if j - 1 > i {
      DueAfterSuccess(log, i, j - 1);
      TimesMonotone(log, i, j - 1);
    }
  }

  /** After a success at s with interval d no scheduled sync starts before s + d, whatever
      manual syncs lie between, unless a later success asked for a shorter interval. */
  lemma SuccessSpacing(log: seq<Event>, i: nat, j: nat)
    requires Legal(log) && i < j < |log|
    requires log[i].Succeeded? && log[j].Start? && log[j].kind == Scheduled
    requires NoShorterSuccess(log, i, j, ScheduleStep(log[i].base))
    ensures log[j].enabled && log[j].at >= log[i].at + ScheduleStep(log[i].base)
  {
    LegalAt(log, j);
    DueAfterSuccess(log, i, j);
  }

  function LastSuccess(log: seq<Event>): (i: Option<nat>)
    ensures i.Some? ==> i.value < |log| && log[i.value].Succeeded?
  {
    if log == [] then None else if Last(log).Succeeded? then Some(|log| - 1) else LastSuccess(DropLast(log))
  }

  /** When the success at position i lets the next scheduled sync start. */
  function DueFrom(log: seq<Event>, i: nat): int
    requires i < |log| && log[i].Succeeded?
  {
    log[i].at + ScheduleStep(log[i].base)
  }

  /** The due time is set by the last success alone. */
  lemma {:induction false} DueIsLastSuccess(log: seq<Event>)
    ensures var i := LastSuccess(log);
            Replay(log).due == if i.None? then None else Some(DueFrom(log, i.value))
  {
    if log != [] {
      DueIsLastSuccess(DropLast(log));
    }
  }

  /** No scheduled sync can follow the log before time t. */
  ghost predicate NoneScheduledBefore(log: seq<Event>, t: int) {
    forall at | at < t && (log != [] ==> Last(log).at <= at) :: !MayStart(log, Scheduled, true, at)
  }

  /** Whether the interval after an earlier success still protects the next scheduled start: exactly
      when the repository is suspended, or time, backoff or the last success already reach that far. */
  lemma {:induction false} SpacingExactly(log: seq<Event>, i: nat)
    requires Legal(log) && i < |log| && log[i].Succeeded?
    ensures var e, t := Replay(log).entry, DueFrom(log, i);
            && LastSuccess(log).Some?
            && (NoneScheduledBefore(log, t) <==>
                  || e.suspended || Last(log).at >= t
                  || (e.nextAllowed.Some? && e.nextAllowed.value >= t)
                  || DueFrom(log, LastSuccess(log).value) >= t)
  {
    var e, t := Replay(log).entry, DueFrom(log, i);
    SuccessBefore(log, i);
    DueIsLastSuccess(log);
    var due := DueFrom(log, LastSuccess(log).value);
    var last := Last(log).at;
    var soonest := if e.nextAllowed.Some? && e.nextAllowed.value > last then e.nextAllowed.value else last;
    var at := if due > soonest then due else soonest;
    if !e.suspended && at < t {
      assert MayStart(log, Scheduled, true, at);
    }
  }

  lemma {:induction false} SuccessBefore(log: seq<Event>, i: nat)
    requires i < |log| && log[i].Succeeded?
    ensures LastSuccess(log).Some?
    decreases |log|
  {
    if !Last(log).Succeeded? {
      SuccessBefore(DropLast(log), i);
    }
  }

  const SHRINKING_LOG := [Start(Startup, true, 0), Succeeded(100 * SECOND, 0), Start(Manual, true, 0), Succeeded(SECOND, 0),
                          Start(Scheduled, true, SECOND)]

  /** A manual success with a shorter interval does let a scheduled sync start early: 1 s after a
      success with a 100 s interval. */
  lemma SpacingShrinks()
    ensures Legal(SHRINKING_LOG) && SHRINKING_LOG[4].at < DueFrom(SHRINKING_LOG, 1)
  {
    var log1 := [] + [Start(Startup, true, 0)];
    LegalThen([], Start(Startup, true, 0));
    var log2 := log1 + [Succeeded(100 * SECOND, 0)];
    LegalThen(log1, Succeeded(100 * SECOND, 0));
    var log3 := log2 + [Start(Manual, true, 0)];
    LegalThen(log2, Start(Manual, true, 0));
    var log4 := log3 + [Succeeded(SECOND, 0)];
    LegalThen(log3, Succeeded(SECOND, 0));
    LegalThen(log4, Start(Scheduled, true, SECOND));
    assert log4 + [Start(Scheduled, true, SECOND)] == SHRINKING_LOG;
  }

  // ---- Throttling of failed attempts -------------------------------------------------------

  /** n consecutive failed calls with interval b from position i: the first begins a streak
      (nothing failed since the last success or reset), the others are scheduled. */
  predicate Streak(log: seq<Event>, i: nat, n: nat, b: int) {
    && 0 < n && i % 2 == 0 && i + 2 * n <= |log|
    && Replay(log[..i + 1]).entry.failures == 0
    && (forall k | 0 <= k < n :: Attempt(log, i + 2 * k, b))
    && (forall k | 0 < k < n :: log[i + 2 * k].Start? && log[i + 2 * k].kind == Scheduled)
  }

  predicate Attempt(log: seq<Event>, p: nat, b: int) {
    p + 1 < |log| && log[p].Start? && log[p + 1].Failed? && log[p + 1].base == b
  }

  lemma {:induction false} EntryShape(log: seq<Event>)
    requires Legal(log)
    ensures var e := Replay(log).entry;
            && (e.suspended <==> e.failures >= MAX_SYNC_FAILURES)
            && (e.nextAllowed.None? <==> e.failures == 0)
            && e.failures <= MAX_SYNC_FAILURES
            && (|log| % 2 == 1 ==> e.failures < MAX_SYNC_FAILURES)
  {
    if log != [] {
      EntryShape(DropLast(log));
    }
  }

  /** Inside a streak the record counts its failures and holds the delay from the last one. */
  lemma {:induction false} StreakEntry(log: seq<Event>, i: nat, n: nat, b: int, k: nat)
    requires Legal(log) && Streak(log, i, n, b) && k < n
    ensures Replay(log[..i + 2 * k + 1]).entry.failures == k
    ensures Replay(log[..i + 2 * k + 2]).entry ==
            AfterFailure(Replay(log[..i + 2 * k + 1]).entry, b, log[i + 2 * k + 1].at)
    decreases k
  {
    hide Delay64;
    var p := i + 2 * k;
    assert Attempt(log, p, b);
    ReplayStep(log, p + 1);
    if k > 0 {
      StreakEntry(log, i, n, b, k - 1);
      ReplayStep(log, p);
    }
  }

  lemma {:induction false} StreakGap64(log: seq<Event>, i: nat, n: nat, b: int, k: nat)
    requires Legal(log) && Streak(log, i, n, b) && 1 <= k < n
    ensures k < MAX_SYNC_FAILURES && log[i + 2 * k].at >= log[i + 2 * k - 1].at + Delay64(k, b)
  {
    hide Delay64;
    var p := i + 2 * k;
    assert Attempt(log, i + 2 * (k - 1), b);
    StreakEntry(log, i, n, b, k - 1);
    LegalAt(log, p);
    assert log[p].kind == Scheduled;
  }

  /** The attempt after failure k starts at least min(2^k, 8) intervals after that failure. */
  lemma StreakGap(log: seq<Event>, i: nat, n: nat, b: int, k: nat)
    requires Legal(log) && Streak(log, i, n, b) && 0 < b <= MAX_EXACT_BASE && 1 <= k < n
    ensures log[i + 2 * k].at >= log[i + 2 * k - 1].at + PromisedDelay(k, b)
  {
    StreakGap64(log, i, n, b, k);
    DelayExact(k, b);
  }

  /** Intervals that must pass between the first failure and the attempt after failure k. */
  function Waiting(k: nat): nat {
    if k == 0 then 0 else Waiting(k - 1) + Min(Pow2(k), 8)
  }

  lemma WaitingTotals()
    ensures Waiting(9) == 62
  {
    Pow2Table();
    assert Waiting(3) == 14;
    assert Waiting(5) == 30;
    assert Waiting(7) == 46;
  }

  lemma WaitingStep(k: nat, b: int)
    requires k > 0
    ensures Waiting(k) * b == Waiting(k - 1) * b + PromisedDelay(k, b)
  {
  }

  lemma {:induction false} StreakDuration(log: seq<Event>, i: nat, n: nat, b: int, k: nat)
    requires Legal(log) && Streak(log, i, n, b) && 0 < b <= MAX_EXACT_BASE && 1 <= k < n
    ensures log[i + 2 * k].at >= log[i + 1].at + Waiting(k) * b
    decreases k
  {
    StreakGap(log, i, n, b, k);
    if k > 1 {
      StreakDuration(log, i, n, b, k - 1);
      TimesMonotone(log, i + 2 * (k - 1), i + 2 * k - 1);
    }
    WaitingStep(k, b);
  }

  lemma LegalPrefix(log: seq<Event>, i: nat)
    requires Legal(log) && i <= |log|
    ensures Legal(log[..i])
  {
    if i < |log| {
      LegalAt(log, i);
    } else {
      assert log[..i] == log;
    }
  }

  lemma SuspendedAt(log: seq<Event>, i: nat)
    requires Legal(log) && i <= |log|
    ensures var e := Replay(log[..i]).entry;
            e.failures <= MAX_SYNC_FAILURES && (e.suspended <==> e.failures >= MAX_SYNC_FAILURES)
  {
    LegalPrefix(log, i);
    EntryShape(log[..i]);
  }

  /** After the n-th failed attempt the record counts n failures, and ten of them suspend. */
  lemma StreakCount(log: seq<Event>, i: nat, n: nat, b: int)
    requires Legal(log) && Streak(log, i, n, b)
    ensures var e := Replay(log[..i + 2 * n]).entry;
            e.failures == n <= MAX_SYNC_FAILURES && (e.suspended <==> n == MAX_SYNC_FAILURES)
  {
    hide Delay64;
    StreakEntry(log, i, n, b, n - 1);
    assert i + 2 * (n - 1) + 2 == i + 2 * n;
    SuspendedAt(log, i + 2 * n);
  }

  /** A streak ends at ten failures, and then nothing but a manual trigger starts a call. */
  lemma StreakEnd(log: seq<Event>, i: nat, n: nat, b: int)
    requires Legal(log) && Streak(log, i, n, b)
    ensures n <= MAX_SYNC_FAILURES
    ensures n == MAX_SYNC_FAILURES && i + 2 * n < |log| ==>
              log[i + 2 * n].Start? && log[i + 2 * n].kind == Manual
  {
    hide Delay64;
    StreakCount(log, i, n, b);
    if i + 2 * n < |log| {
      LegalAt(log, i + 2 * n);
    }
  }

  /** After the k-th failure of a streak, at time t, the backoff bars exactly the times before
      t + min(2^k, 8) intervals; after the tenth it bars every time. */
  lemma {:induction false} BarsExactly(log: seq<Event>, i: nat, k: nat, b: int, now: int)
    requires Legal(log) && Streak(log, i, k, b) && i + 2 * k == |log| && 0 < b <= MAX_EXACT_BASE
    ensures Skips(Replay(log).entry, now) <==> k == 10 || now < Last(log).at + PromisedDelay(k, b)
  {
    hide Delay64, PromisedDelay, Skips;
    StreakEntry(log, i, k, b, k - 1);
    StreakCount(log, i, k, b);
    assert log[..i + 2 * k] == log;
    var before := Replay(log[..i + 2 * k - 1]).entry;
    assert i + 2 * (k - 1) + 1 == i + 2 * k - 1 && i + 2 * (k - 1) + 2 == i + 2 * k;
    SuspendedAt(log, i + 2 * k - 1);
    FailureBars(before, b, Last(log).at, now);
  }

  /** The whole throttling promise: at most ten failures, only a manual trigger starts the repository
      again after that, each gap as long as the delay the code computes; and with an interval whose
      delays do not overflow the documented gaps, 62 intervals to the tenth attempt. */
  lemma {:induction false} Throttled(log: seq<Event>, i: nat, n: nat, b: int)
    requires Legal(log) && Streak(log, i, n, b)
    ensures n <= MAX_SYNC_FAILURES
    ensures n == MAX_SYNC_FAILURES && i + 20 < |log| ==> log[i + 20].Start? && log[i + 20].kind == Manual
    ensures forall k | 1 <= k < n :: log[i + 2 * k].at >= log[i + 2 * k - 1].at + Delay64(k, b)
    ensures 0 < b <= MAX_EXACT_BASE ==>
              && (forall k | 1 <= k < n :: log[i + 2 * k].at >= log[i + 2 * k - 1].at + PromisedDelay(k, b))
              && (n == MAX_SYNC_FAILURES ==> log[i + 18].at >= log[i + 1].at + 62 * b)
  {
    hide Delay64, PromisedDelay;
    StreakEnd(log, i, n, b);
    forall k | 1 <= k < n
      ensures log[i + 2 * k].at >= log[i + 2 * k - 1].at + Delay64(k, b)
    {
      StreakGap64(log, i, n, b, k);
    }
    if 0 < b <= MAX_EXACT_BASE {
      forall k | 1 <= k < n
        ensures log[i + 2 * k].at >= log[i + 2 * k - 1].at + PromisedDelay(k, b)
      {
        StreakGap(log, i, n, b, k);
      }
      if n == MAX_SYNC_FAILURES {
        StreakDuration(log, i, n, b, 9);
        WaitingTotals();
      }
    }
  }
}
