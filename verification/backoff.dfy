/** Retry state of one repository and its int64 arithmetic (main.go, syncBackoff and its helpers). */
module Backoff {
  import opened Common

  const MAX_SYNC_FAILURES := 10
  const SECOND := 1_000_000_000
  const TWO63 := 0x8000_0000_0000_0000
  const TWO64 := 0x1_0000_0000_0000_0000
  /** Largest base interval (ns) for which no int64 product in the backoff formula overflows. */
  const MAX_EXACT_BASE := 18_014_398_509_481_983

  /** Two's-complement result of an int64 operation whose mathematical result is x. */
  function Wrap64(x: int): int {
    (x + TWO63) % TWO64 - TWO63
  }

  function Pow2(n: nat): nat {
    if n == 0 then 1 else 2 * Pow2(n - 1)
  }

  function Min(a: int, b: int): int {
    if a < b then a else b
  }

  function EffectiveInterval(syncInterval: int, defaultInterval: int): int {
    if syncInterval > 0 then Wrap64(syncInterval * SECOND)
    else if defaultInterval > 0 then defaultInterval
    else 60 * SECOND
  }

  /** The delay as the code computes it, in int64. */
  function Delay64(failures: nat, base: int): int {
    var backoff := Wrap64(Pow2(failures) * base);
    var maxBackoff := Wrap64(8 * base);
    if backoff > maxBackoff then maxBackoff else backoff
  }

  /** The delay the documentation promises: 2^failures intervals, capped at 8 intervals. */
  function PromisedDelay(failures: nat, base: int): int {
    Min(Pow2(failures), 8) * base
  }

  lemma Pow2Table()
    ensures Pow2(1) == 2 && Pow2(2) == 4 && Pow2(3) == 8 && Pow2(4) == 16 && Pow2(5) == 32
    ensures Pow2(6) == 64 && Pow2(7) == 128 && Pow2(8) == 256 && Pow2(9) == 512
  {
    assert Pow2(3) == 8;
    assert Pow2(5) == 32;
    assert Pow2(7) == 128;
  }

  lemma Wrap64InRange(x: int)
    requires -TWO63 <= x < TWO63
    ensures Wrap64(x) == x
  {
  }

  lemma DelayExact(failures: nat, base: int)
    requires 1 <= failures < MAX_SYNC_FAILURES && 0 < base <= MAX_EXACT_BASE
    ensures Delay64(failures, base) == PromisedDelay(failures, base)
  {
    Pow2Table();
    var factor := Pow2(failures);
    assert factor in {2, 4, 8, 16, 32, 64, 128, 256, 512} by {
      assert failures in {1, 2, 3, 4, 5, 6, 7, 8, 9};
    }
    assert 0 < factor * base < TWO63;
    assert factor <= 8 <==> factor * base <= 8 * base;
    Wrap64InRange(factor * base);
    Wrap64InRange(8 * base);
  }

  /** A product that has left int64 but not yet come around makes the delay negative. */
  lemma WrongDelay(failures: nat, base: int, product: int)
    requires 0 < base && Pow2(failures) >= 8 && product == Pow2(failures) * base && TWO63 <= product < TWO64
    ensures Delay64(failures, base) < 0 < PromisedDelay(failures, base)
  {
    assert Wrap64(product) < 0;
  }

  /** With three failures the delay is at most the largest int64, which eight such intervals exceed. */
  lemma ShortDelay(base: int)
    requires 8 * base >= TWO63
    ensures Delay64(3, base) < PromisedDelay(3, base)
  {
    Pow2Table();
    var product := 8 * base;
    assert Wrap64(product) < TWO63;
  }

  /** Past the bound some reachable failure count gets a wrong delay: at the first product
      that leaves int64 the wrapped delay is negative. */
  lemma {:induction false} DelayOverflows(base: int) returns (failures: nat)
    requires MAX_EXACT_BASE < base < TWO63
    ensures 1 <= failures < MAX_SYNC_FAILURES
    ensures Delay64(failures, base) != PromisedDelay(failures, base)
  {
    Pow2Table();
    hide Delay64, PromisedDelay, Pow2;
    if 8 * base >= TWO63 {
      failures := 3;
      ShortDelay(base);
    } else if 16 * base >= TWO63 {
      failures := 4;
      WrongDelay(4, base, 16 * base);
    } else if 32 * base >= TWO63 {
      failures := 5;
      WrongDelay(5, base, 32 * base);
    } else if 64 * base >= TWO63 {
      failures := 6;
      WrongDelay(6, base, 64 * base);
    } else if 128 * base >= TWO63 {
      failures := 7;
      WrongDelay(7, base, 128 * base);
    } else if 256 * base >= TWO63 {
      failures := 8;
      WrongDelay(8, base, 256 * base);
    } else {
      failures := 9;
      WrongDelay(9, base, 512 * base);
    }
  }

  ghost predicate DelaysAsPromised(base: int, exactBase: int) {
    forall failures | 1 <= failures < MAX_SYNC_FAILURES ::
      Delay64(failures, base) == PromisedDelay(failures, exactBase)
  }

  /** The promised delay is met at every failure count a repository can reach exactly when
      its interval in whole seconds is at most 18,014,398. */
  lemma DelayExactIff(seconds: int, defaultInterval: int)
    requires 0 < seconds < TWO63
    ensures var base := EffectiveInterval(seconds, defaultInterval);
            seconds <= 18_014_398 <==> base == seconds * SECOND && DelaysAsPromised(base, seconds * SECOND)
  {
    var base := EffectiveInterval(seconds, defaultInterval);
    if seconds <= 18_014_398 {
      Wrap64InRange(seconds * SECOND);
      forall failures | 1 <= failures < MAX_SYNC_FAILURES
        ensures Delay64(failures, base) == PromisedDelay(failures, seconds * SECOND)
      {
        DelayExact(failures, base);
      }
    } else if base == seconds * SECOND {
      var failures := DelayOverflows(base);
    }
  }

  /** One second past the bound, exactly the ninth failure gets a wrong delay, and a negative one. */
  lemma TightAtNine()
    ensures var base := EffectiveInterval(18_014_399, 0);
            forall failures | 1 <= failures < MAX_SYNC_FAILURES ::
              if failures == 9 then Delay64(failures, base) < 0 else Delay64(failures, base) == PromisedDelay(failures, base)
  {
    var base := EffectiveInterval(18_014_399, 0);
    assert base == 18_014_399_000_000_000;
    Pow2Table();
    forall failures | 1 <= failures < MAX_SYNC_FAILURES
      ensures if failures == 9 then Delay64(failures, base) < 0 else Delay64(failures, base) == PromisedDelay(failures, base)
    {
      DelayAt(failures, base);
    }
  }

  lemma DelayAt(failures: nat, base: int)
    requires 1 <= failures < MAX_SYNC_FAILURES && base == 18_014_399_000_000_000
    ensures if failures == 9 then Delay64(failures, base) < 0 else Delay64(failures, base) == PromisedDelay(failures, base)
  {
    Pow2Table();
    var factor := Pow2(failures);
    assert failures in {1, 2, 3, 4, 5, 6, 7, 8, 9};
    assert factor in {2, 4, 8, 16, 32, 64, 128, 256} || failures == 9;
  }

  // ---- The per-repository record and its table -------------------------------------------

  /** `nextAllowed` None is Go's zero time. */
  datatype Entry = Entry(failures: nat, nextAllowed: Option<int>, suspended: bool)

  const FRESH := Entry(0, None, false)

  function AfterFailure(e: Entry, base: int, now: int): Entry {
    var n := e.failures + 1;
    if n >= MAX_SYNC_FAILURES then Entry(n, e.nextAllowed, true)
    else Entry(n, Some(now + Delay64(n, base)), e.suspended)
  }

  predicate Skips(e: Entry, now: int) {
    e.suspended || (e.nextAllowed.Some? && now < e.nextAllowed.value)
  }

  predicate Due(next: Option<int>, now: int) {
    next.None? || now >= next.value
  }

  /** markScheduled replaces a non-positive interval by a minute. */
  function ScheduleStep(interval: int): int {
    if interval <= 0 then 60 * SECOND else interval
  }

  /** What a failure does to the gate: the tenth bars every time, an earlier one exactly the times
      before the promised delay has passed. */
  lemma FailureBars(e: Entry, base: int, now: int, later: int)
    requires e.failures < MAX_SYNC_FAILURES && !e.suspended && 0 < base <= MAX_EXACT_BASE
    ensures AfterFailure(e, base, now).failures == e.failures + 1
    ensures Skips(AfterFailure(e, base, now), later) <==>
            e.failures == 9 || later < now + PromisedDelay(e.failures + 1, base)
  {
    if e.failures + 1 < MAX_SYNC_FAILURES {
      DelayExact(e.failures + 1, base);
    }
    hide Delay64, PromisedDelay;
  }

  class SyncBackoff {
    var failures: nat
    var nextAllowed: Option<int>
    var suspended: bool

    constructor ()
      ensures View() == FRESH
    {
      failures, nextAllowed, suspended := 0, None, false;
    }

    function View(): Entry
      reads this
    {
      Entry(failures, nextAllowed, suspended)
    }

    method RecordFailure(base: int, now: int) returns (nowSuspended: bool)
      modifies this
      ensures View() == AfterFailure(old(View()), base, now)
      ensures failures == old(failures) + 1 && (nowSuspended <==> failures >= 10)
      ensures suspended == (old(suspended) || nowSuspended)
      ensures nextAllowed.Some? && !nowSuspended && 0 < base <= MAX_EXACT_BASE ==>
                nextAllowed == Some(now + PromisedDelay(failures, base))
      ensures nowSuspended ==> nextAllowed == old(nextAllowed)
      ensures !nowSuspended ==> nextAllowed.Some?
    {
      if failures + 1 < MAX_SYNC_FAILURES && 0 < base <= MAX_EXACT_BASE {
        DelayExact(failures + 1, base);
      }
      hide PromisedDelay;
      failures := failures + 1;
      if failures >= MAX_SYNC_FAILURES {
        suspended := true;
        return true;
      }
      var backoff := Wrap64(Pow2(failures) * base);
      var maxBackoff := Wrap64(8 * base);
      if backoff > maxBackoff {
        backoff := maxBackoff;
      }
      nextAllowed := Some(now + backoff);
      return false;
    }

    method Reset()
      modifies this
      ensures View() == FRESH
    {
      failures := 0;
      nextAllowed := None;
      suspended := false;
    }
  }

  /** repoBackoffs and repoNextDue: pointers to records behind a map, and plain times. */
  class BackoffTables {
    var repoBackoffs: map<string, SyncBackoff>
    var repoNextDue: map<string, int>

    ghost predicate Valid()
      reads this
    {
      forall a, b | a in repoBackoffs && b in repoBackoffs && a != b :: repoBackoffs[a] != repoBackoffs[b]
    }

    function At(repo: string): Entry
      reads this, repoBackoffs.Values
    {
      if repo in repoBackoffs then repoBackoffs[repo].View() else FRESH
    }

    function DueAt(repo: string): Option<int>
      reads this
    {
      if repo in repoNextDue then Some(repoNextDue[repo]) else None
    }

    constructor ()
      ensures Valid()
      ensures forall r :: At(r) == FRESH && DueAt(r) == None
    {
      repoBackoffs, repoNextDue := map[], map[];
    }

    method GetBackoff(repo: string) returns (b: SyncBackoff)
      requires Valid()
      modifies this`repoBackoffs
      ensures Valid()
      ensures repoBackoffs.Keys == old(repoBackoffs.Keys) + {repo} && b == repoBackoffs[repo]
      ensures forall r | r in old(repoBackoffs) :: repoBackoffs[r] == old(repoBackoffs[r])
      ensures repo !in old(repoBackoffs) ==> fresh(b)
      ensures forall r :: At(r) == old(At(r))
    {
      if repo !in repoBackoffs {
        var created := new SyncBackoff();
        repoBackoffs := repoBackoffs[repo := created];
      }
      b := repoBackoffs[repo];
    }

    method RecordSyncFailure(repo: string, base: int, now: int) returns (nowSuspended: bool)
      requires Valid()
      modifies this`repoBackoffs, repoBackoffs.Values
      ensures Valid()
      ensures forall r :: At(r) == if r == repo then AfterFailure(old(At(repo)), base, now) else old(At(r))
      ensures nowSuspended <==> old(At(repo)).failures + 1 >= 10
      ensures !nowSuspended && 0 < base <= MAX_EXACT_BASE ==>
                At(repo).nextAllowed == Some(now + PromisedDelay(old(At(repo)).failures + 1, base))
    {
      hide PromisedDelay, AfterFailure;
      var b := GetBackoff(repo);
      nowSuspended := b.RecordFailure(base, now);
    }

    /** recordSyncSuccess and resetBackoff have the same body. */
    method ResetBackoff(repo: string)
      requires Valid()
      modifies this`repoBackoffs, repoBackoffs.Values
      ensures Valid()
      ensures forall r :: At(r) == if r == repo then FRESH else old(At(r))
    {
      var b := GetBackoff(repo);
      b.Reset();
    }

    method ShouldSkipSync(repo: string, now: int) returns (skip: bool)
      requires Valid()
      modifies this`repoBackoffs
      ensures Valid() && forall r :: At(r) == old(At(r))
      ensures skip <==> Skips(At(repo), now)
    {
      var b := GetBackoff(repo);
      if b.suspended {
        return true;
      }
      if b.nextAllowed.Some? && now < b.nextAllowed.value {
        return true;
      }
      return false;
    }

    method DueForSync(repo: string, now: int) returns (due: bool)
      ensures due <==> Due(DueAt(repo), now)
    {
      if repo !in repoNextDue {
        return true;
      }
      return !(now < repoNextDue[repo]);
    }

    method MarkScheduled(repo: string, interval: int, now: int)
      modifies this`repoNextDue
      ensures forall r :: DueAt(r) == if r == repo then Some(now + ScheduleStep(interval)) else old(DueAt(r))
    {
      var step := interval;
      if step <= 0 {
        step := 60 * SECOND;
      }
      repoNextDue := repoNextDue[repo := now + step];
    }
  }
}
