/** The scheduling tables against the history: every run produces a legal log for every
    repository, the tables are that log replayed, and the store's status agrees with them. */
module EngineGate {
  import opened Common
  import opened Backoff
  import opened SyncLog
  import opened Engine

  /** A call for r has started and not yet recorded its outcome. */
  predicate InCall(s: State, r: string) {
    s.job.Some? && s.job.value.repo.name == r && !s.job.value.phase.Unlock?
  }

  ghost predicate GateAt(s: State, r: string) {
    var log := LogOf(s, r);
    && Legal(log)
    && (log != [] ==> Last(log).at <= s.env.clock)
    && (|log| % 2 == 1 <==> InCall(s, r))
    && Replay(log) == Gate(EntryOf(s, r), DueOf(s, r))
  }

  /** Between calls the store shows ok or error as the failure count says; during a call, syncing. */
  ghost predicate StatusAt(s: State, r: string) {
    if InCall(s, r) then
      !s.job.value.phase.Mark? ==> r in s.tables.repos && s.tables.repos[r].status == Syncing
    else
      && (r in s.tables.repos <==> LogOf(s, r) != [])
      && (r in s.tables.repos ==> s.tables.repos[r].status == if EntryOf(s, r).failures == 0 then Ok else Error)
  }

  /** During startup the repositories still to come have never been attempted. */
  predicate StartupAt(s: State) {
    && (s.main.Boot? ==> s.hist.log == map[] && s.job.None?)
    && (s.main.Starting? ==>
          && DistinctNames(s.main.todo)
          && (forall i | 0 <= i < |s.main.todo| :: LogOf(s, s.main.todo[i].name) == [])
          && (s.job.Some? ==> forall i | 0 <= i < |s.main.todo| :: s.main.todo[i].name != s.job.value.repo.name))
  }

  ghost predicate GateMatch(s: State) {
    StartupAt(s) && forall r :: GateAt(s, r) && StatusAt(s, r)
  }

  predicate SameGates(t: Tables, t': Tables) {
    t'.repos == t.repos && t'.backoff == t.backoff && t'.nextDue == t.nextDue
  }

  /** Steps that leave the tables, the log and the running call's identity alone. */
  lemma GateFrame(s: State, s': State, r: string)
    requires GateAt(s, r) && StatusAt(s, r)
    requires s'.env.clock >= s.env.clock && s'.hist.log == s.hist.log
    requires SameGates(s.tables, s'.tables)
    requires InCall(s', r) == InCall(s, r)
    requires InCall(s, r) && !s'.job.value.phase.Mark? ==> !s.job.value.phase.Mark?
    ensures GateAt(s', r) && StatusAt(s', r)
  {
  }

  // ---- A call begins ---------------------------------------------------------------------------

  /** What beginning a call changes. */
  lemma BeginEffects(s: State, main: Main, tables: Tables, repo: RepoConfig, kind: Kind, dflt: int, r: string)
    ensures var s' := Begin(s, main, tables, repo, kind, dflt);
            && s'.tables == tables && s'.env == s.env
            && s'.job.Some? && s'.job.value.repo == repo && s'.job.value.phase.Mark?
            && LogOf(s', r) == if r == repo.name then LogOf(s, r) + [Start(kind, repo.enabled, s.env.clock)] else LogOf(s, r)
  {
    hide EffectiveInterval;
  }

  lemma GateBegin(s: State, main: Main, tables: Tables, repo: RepoConfig, kind: Kind, dflt: int, r: string)
    requires s.job.None? && GateAt(s, r) && StatusAt(s, r)
    requires tables == if kind == Manual then s.tables.(backoff := s.tables.backoff[repo.name := FRESH]) else s.tables
    requires MayStart(LogOf(s, repo.name), kind, repo.enabled, s.env.clock)
    ensures var s' := Begin(s, main, tables, repo, kind, dflt); GateAt(s', r) && StatusAt(s', r)
  {
    BeginEffects(s, main, tables, repo, kind, dflt, r);
    hide Begin, MayStart, LogOf, AfterFailure, Legal, Replay;
    if r == repo.name {
      LegalThen(LogOf(s, r), Start(kind, repo.enabled, s.env.clock));
    }
  }

  lemma GateProceed(s: State, s': State, r: string)
    requires s.job.None? && GateMatch(s) && Proceeded(s) == Some(s')
    ensures GateAt(s', r) && StatusAt(s', r)
  {
    assert GateAt(s, r) && StatusAt(s, r);
    if s'.job.None? {
      GateFrame(s, s', r);
    } else {
      assert s.main.Starting? || s.main.Round? || s.main.Triggered?;
      var repo := s.main.todo[0];
      assert GateAt(s, repo.name);
      var kind := Begun(s, s');
      GateBegin(s, s'.main, s'.tables, repo, kind, s.main.dflt, r);
    }
  }

  /** Which call a loop iteration began, and that its gate let it. */
  lemma Begun(s: State, s': State) returns (kind: Kind)
    requires s.job.None? && StartupAt(s) && Proceeded(s) == Some(s') && s'.job.Some?
    requires (s.main.Starting? || s.main.Round? || s.main.Triggered?) && s.main.todo != [] ==>
               GateAt(s, s.main.todo[0].name)
    ensures (s.main.Starting? || s.main.Round? || s.main.Triggered?) && s.main.todo != []
    ensures s' == Begin(s, s'.main, s'.tables, s.main.todo[0], kind, s.main.dflt)
    ensures s'.tables == if kind == Manual then s.tables.(backoff := s.tables.backoff[s.main.todo[0].name := FRESH]) else s.tables
    ensures MayStart(LogOf(s, s.main.todo[0].name), kind, s.main.todo[0].enabled, s.env.clock)
  {
    kind := if s.main.Starting? then Startup else if s.main.Round? then Scheduled else Manual;
  }

  lemma GateMainStep(s: State, m: MainAction, s': State, r: string)
    requires s.job.None? && GateMatch(s) && NextMain(s, m) == Some(s')
    ensures GateAt(s', r) && StatusAt(s', r)
  {
    if m == Proceed {
      GateProceed(s, s', r);
    } else {
      assert GateAt(s, r) && StatusAt(s, r);
      GateFrame(s, s', r);
    }
  }

  // ---- A call records ----------------------------------------------------------------------------

  /** The event that recording the outcome adds to the log. */
  function Outcome(s: State, j: Sync): Event {
    if j.phase.Fail? then Failed(j.base, s.env.clock) else Succeeded(j.base, s.env.clock)
  }

  /** What recording an outcome changes: for the call's repository what the event does, otherwise nothing. */
  lemma RecordEffects(s: State, s': State, r: string)
    requires s.job.Some? && NextSync(s, s.job.value, Record) == Some(s')
    ensures var j := s.job.value;
            && (j.phase.Fail? || j.phase.Succeed?) && s'.env == s.env
            && s'.job.Some? && s'.job.value.repo == j.repo && s'.job.value.phase.Unlock?
            && (r != j.repo.name ==>
                  && LogOf(s', r) == LogOf(s, r) && EntryOf(s', r) == EntryOf(s, r) && DueOf(s', r) == DueOf(s, r)
                  && (r in s'.tables.repos <==> r in s.tables.repos)
                  && (r in s.tables.repos ==> s'.tables.repos[r] == s.tables.repos[r]))
            && (r == j.repo.name ==>
                  && LogOf(s', r) == LogOf(s, r) + [Outcome(s, j)]
                  && Gate(EntryOf(s', r), DueOf(s', r)) == AfterEvent(Gate(EntryOf(s, r), DueOf(s, r)), Outcome(s, j))
                  && r in s'.tables.repos && s'.tables.repos[r].status == if j.phase.Fail? then Error else Ok)
  {
    hide AfterFailure, ScheduleStep;
  }

  lemma FailureCounts(e: Entry, base: int, now: int)
    ensures AfterFailure(e, base, now).failures > 0
  {
    hide Delay64;
  }

  lemma GateRecord(s: State, s': State, r: string)
    requires s.job.Some? && GateAt(s, r) && StatusAt(s, r) && NextSync(s, s.job.value, Record) == Some(s')
    ensures GateAt(s', r) && StatusAt(s', r)
  {
    var j := s.job.value;
    RecordEffects(s, s', r);
    hide NextSync, Legal, Replay, LogOf, EntryOf, DueOf, AfterFailure;
    if r == j.repo.name {
      LegalThen(LogOf(s, r), Outcome(s, j));
      FailureCounts(EntryOf(s, r), j.base, s.env.clock);
    }
  }

  lemma GateSyncQuiet(s: State, x: SyncAction, s': State)
    requires s.job.Some? && NextSync(s, s.job.value, x) == Some(s') && x != Record && x != MarkSyncing
    ensures s'.env.clock == s.env.clock && s'.hist.log == s.hist.log
    ensures SameGates(s.tables, s'.tables)
  {
    if x == NextStack && s'.job.value.phase.Composing? {
      assert s'.tables == WithStack(s.tables, s.job.value.repo.name, s'.job.value.phase.stack);
    } else {
      assert s'.tables == s.tables;
    }
  }

  lemma InCallQuiet(s: State, x: SyncAction, s': State, r: string)
    requires s.job.Some? && NextSync(s, s.job.value, x) == Some(s') && x != Record && x != MarkSyncing
    ensures InCall(s', r) == InCall(s, r)
    ensures InCall(s, r) ==> !s.job.value.phase.Mark?
  {
  }

  lemma GateSyncStep(s: State, x: SyncAction, s': State, r: string)
    requires s.job.Some? && GateAt(s, r) && StatusAt(s, r) && NextSync(s, s.job.value, x) == Some(s')
    ensures GateAt(s', r) && StatusAt(s', r)
  {
    if x == Record {
      GateRecord(s, s', r);
    } else if x != MarkSyncing {
      GateSyncQuiet(s, x, s');
      InCallQuiet(s, x, s', r);
      GateFrame(s, s', r);
    }
  }

  // ---- All steps -----------------------------------------------------------------------------------

  lemma GateOther(s: State, a: Action, s': State, r: string)
    requires Next(s, a) == Some(s') && !a.MainStep? && !a.SyncStep?
    ensures s'.main == s.main && s'.env.clock >= s.env.clock && s'.hist.log == s.hist.log
    ensures SameGates(s.tables, s'.tables)
    ensures s'.job.Some? <==> s.job.Some?
    ensures s.job.Some? ==> s'.job.value.repo == s.job.value.repo
    ensures InCall(s', r) == InCall(s, r)
    ensures InCall(s, r) && !s'.job.value.phase.Mark? ==> !s.job.value.phase.Mark?
  {
    match a
    case GitStep(t, g) => GitFrame(s, t, g, s');
    case ApplyStep(id, x) => ApplyFrame(s, id, x, s');
    case _ =>
  }

  lemma GateStepAt(s: State, a: Action, s': State, r: string)
    requires GateMatch(s) && Next(s, a) == Some(s')
    ensures GateAt(s', r) && StatusAt(s', r)
  {
    assert GateAt(s, r) && StatusAt(s, r);
    match a
    case MainStep(m) => GateMainStep(s, m, s', r);
    case SyncStep(x) => GateSyncStep(s, x, s', r);
    case _ =>
      GateOther(s, a, s', r);
      GateFrame(s, s', r);
  }

  lemma StartupSyncStep(s: State, x: SyncAction, s': State)
    requires s.job.Some? && StartupAt(s) && NextSync(s, s.job.value, x) == Some(s')
    ensures StartupAt(s')
  {
    SyncFrame(s, s.job.value, x, s');
    forall r | r != s.job.value.repo.name
      ensures LogOf(s', r) == LogOf(s, r)
    {
      if x != Record && x != MarkSyncing { GateSyncQuiet(s, x, s'); }
    }
  }

  lemma StartupMainStep(s: State, m: MainAction, s': State)
    requires s.job.None? && StartupAt(s) && NextMain(s, m) == Some(s')
    ensures StartupAt(s')
  {
    if s.main.Starting? {
      StartupProceed(s, s');
    } else {
      assert !s'.main.Boot?;
      assert s'.main.Starting? ==> s.main.Boot? && s'.hist.log == map[] && s'.job.None?;
    }
  }

  lemma StartupProceed(s: State, s': State)
    requires s.job.None? && StartupAt(s) && s.main.Starting? && Proceeded(s) == Some(s')
    ensures StartupAt(s')
  {
    if s.main.todo != [] {
      var first, rest := s.main.todo[0], s.main.todo[1..];
      assert s'.main.todo == rest;
      forall i | 0 <= i < |rest|
        ensures rest[i].name != first.name && LogOf(s', rest[i].name) == []
      {
        assert rest[i] == s.main.todo[i + 1];
      }
    }
  }

  lemma GateStep(s: State, a: Action, s': State)
    requires GateMatch(s) && Next(s, a) == Some(s')
    ensures GateMatch(s')
  {
    forall r
      ensures GateAt(s', r) && StatusAt(s', r)
    {
      GateStepAt(s, a, s', r);
    }
    match a
    case MainStep(m) => StartupMainStep(s, m, s');
    case SyncStep(x) => StartupSyncStep(s, x, s');
    case _ => GateOther(s, a, s', "");
  }

  lemma {:induction false} GateRun(s: State, cloneDir: string, clock: int, run: seq<Action>)
    requires Reached(s, cloneDir, clock, run)
    ensures GateMatch(s)
    decreases |run|
  {
    if run != [] {
      var before := Exec(Init(cloneDir, clock), DropLast(run)).value;
      GateRun(before, cloneDir, clock, DropLast(run));
      GateStep(before, Last(run), s);
    }
  }

  // ---- What that means for every run -----------------------------------------------------------------

  /** Every run: calls and outcomes alternate, and every scheduled start had the repository
      enabled, not suspended, and past both its backoff and its due time. */
  lemma ScheduledGateSafety(s: State, cloneDir: string, clock: int, run: seq<Action>, r: string, i: nat)
    requires Reached(s, cloneDir, clock, run) && i < |LogOf(s, r)|
    ensures var log := LogOf(s, r);
            && (log[i].Start? <==> i % 2 == 0)
            && (log[i].Start? && log[i].kind == Scheduled ==>
                  var g := Replay(log[..i]);
                  && log[i].enabled && !g.entry.suspended
                  && (g.entry.nextAllowed.Some? ==> log[i].at >= g.entry.nextAllowed.value)
                  && (g.due.Some? ==> log[i].at >= g.due.value))
  {
    GateRun(s, cloneDir, clock, run);
    assert GateAt(s, r);
    LegalAt(LogOf(s, r), i);
  }

  /** Every run: a round that is not cancelled takes the listed repositories one by one, and starts
      a call for the next one exactly when it is enabled and its history lets it. */
  lemma ScheduledExactly(s: State, cloneDir: string, clock: int, run: seq<Action>, s': State)
    requires Reached(s, cloneDir, clock, run) && Next(s, MainStep(Proceed)) == Some(s')
    requires s.main.Round? && s.main.todo != [] && !s.env.cancelled
    ensures s'.main == Round(s.main.repos, s.main.todo[1..], s.main.dflt)
    ensures var repo := s.main.todo[0];
            var g := Replay(LogOf(s, repo.name));
            && (s'.job.Some? <==> repo.enabled && !Skips(g.entry, s.env.clock) && Due(g.due, s.env.clock))
            && (s'.job.Some? ==>
                  && s'.job.value.repo == repo && s'.job.value.kind == Scheduled
                  && s'.job.value.base == EffectiveInterval(repo.syncInterval, s.main.dflt))
  {
    GateRun(s, cloneDir, clock, run);
    assert GateAt(s, s.main.todo[0].name);
  }

  /** Every run: after a success at time t with interval d no scheduled sync of the repository
      starts before t + d, even across manual syncs, unless a later success used a shorter one. */
  lemma SpacingOverRuns(s: State, cloneDir: string, clock: int, run: seq<Action>, r: string, i: nat, j: nat)
    requires Reached(s, cloneDir, clock, run)
    requires var log := LogOf(s, r);
             && i < j < |log| && log[i].Succeeded? && log[j].Start? && log[j].kind == Scheduled
             && NoShorterSuccess(log, i, j, ScheduleStep(log[i].base))
    ensures LogOf(s, r)[j].at >= LogOf(s, r)[i].at + ScheduleStep(LogOf(s, r)[i].base)
  {
    GateRun(s, cloneDir, clock, run);
    assert GateAt(s, r);
    SuccessSpacing(LogOf(s, r), i, j);
  }

  /** Every run: a streak of n failed attempts with one interval b is throttled as documented, the
      lengths of its gaps as far as no delay overflows. */
  lemma ThrottlingOverRuns(s: State, cloneDir: string, clock: int, run: seq<Action>, r: string, i: nat, n: nat, b: int)
    requires Reached(s, cloneDir, clock, run)
    requires Streak(LogOf(s, r), i, n, b)
    ensures var log := LogOf(s, r);
            && n <= MAX_SYNC_FAILURES
            && (n == MAX_SYNC_FAILURES && i + 20 < |log| ==> log[i + 20].Start? && log[i + 20].kind == Manual)
            && (forall k | 1 <= k < n :: log[i + 2 * k].at >= log[i + 2 * k - 1].at + Delay64(k, b))
    ensures var log := LogOf(s, r);
            0 < b <= MAX_EXACT_BASE ==>
              && (forall k | 1 <= k < n :: log[i + 2 * k].at >= log[i + 2 * k - 1].at + PromisedDelay(k, b))
              && (n == MAX_SYNC_FAILURES ==> log[i + 18].at >= log[i + 1].at + 62 * b)
  {
    hide Delay64, PromisedDelay;
    GateRun(s, cloneDir, clock, run);
    assert GateAt(s, r);
    Throttled(LogOf(s, r), i, n, b);
  }

  /** Every run: the backoff table is well formed, and between calls it and the store agree on
      every repository; none is left syncing, and every call so far recorded one outcome. */
  lemma TablesAgree(s: State, cloneDir: string, clock: int, run: seq<Action>, r: string)
    requires Reached(s, cloneDir, clock, run)
    ensures var e := EntryOf(s, r);
            && (e.suspended <==> e.failures >= MAX_SYNC_FAILURES) && e.failures <= MAX_SYNC_FAILURES
            && (e.nextAllowed.None? <==> e.failures == 0)
    ensures !InCall(s, r) ==>
              && |LogOf(s, r)| % 2 == 0
              && (r in s.tables.repos <==> LogOf(s, r) != [])
              && (r in s.tables.repos ==>
                    && s.tables.repos[r].status != Syncing
                    && (s.tables.repos[r].status == Ok <==> EntryOf(s, r).failures == 0)
                    && (s.tables.repos[r].status == Error <==> EntryOf(s, r).failures >= 1))
  {
    GateRun(s, cloneDir, clock, run);
    assert GateAt(s, r) && StatusAt(s, r);
    EntryShape(LogOf(s, r));
  }
}
