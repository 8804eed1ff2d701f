/** The trigger queue: nothing accepted is lost, reordered or synced twice. */
module EngineQueue {
  import opened Common
  import opened Backoff
  import opened SyncLog
  import opened Engine

  /** The names of `repos` that were triggered, in listing order. */
  function TriggeredNames(repos: seq<RepoConfig>, got: seq<string>): seq<string> {
    if repos == [] then []
    else (if repos[0].name in got then [repos[0].name] else []) + TriggeredNames(repos[1..], got)
  }

  function GotAll(batches: seq<Batch>): seq<string> {
    if batches == [] then [] else GotAll(DropLast(batches)) + Last(batches).got
  }

  function GotNow(m: Main): seq<string> {
    match m
    case Draining(_, _, got) => got
    case Triggered(_, _, got, _, _) => got
    case _ => []
  }

  predicate BatchComplete(b: Batch) {
    DistinctNames(b.repos) && b.synced == TriggeredNames(b.repos, b.got)
  }

  predicate LoopOk(m: Main) {
    match m
    case Round(repos, _, _) => DistinctNames(repos)
    case Select(repos, _) => DistinctNames(repos)
    case Draining(repos, _, _) => DistinctNames(repos)
    case Triggered(repos, _, got, synced, todo) =>
      DistinctNames(repos) && synced + TriggeredNames(todo, got) == TriggeredNames(repos, got)
    case _ => true
  }

  ghost predicate QueueMatch(s: State) {
    && |s.queue| <= QUEUE_CAP
    && s.hist.accepted == GotAll(s.hist.batches) + GotNow(s.main) + s.queue
    && LoopOk(s.main)
    && (forall i | 0 <= i < |s.hist.batches| :: BatchComplete(s.hist.batches[i]))
  }

  lemma QueueBatch(batches: seq<Batch>, b: Batch)
    ensures GotAll(batches + [b]) == GotAll(batches) + b.got
  {
    AppendLast(batches, b);
  }

  /** One iteration of the loop over the listing after a drain. */
  function AfterTriggered(m: Main): Main
    requires m.Triggered? && m.todo != []
  {
    var name := m.todo[0].name;
    Triggered(m.repos, m.dflt, m.got, if name in m.got then m.synced + [name] else m.synced, m.todo[1..])
  }

  lemma TriggeredCases(s: State, s': State)
    requires s.job.None? && s.main.Triggered? && Proceeded(s) == Some(s')
    ensures s'.queue == s.queue && s'.hist.accepted == s.hist.accepted
    ensures s.main.todo == [] ==> s'.main == Top && s'.hist.log == s.hist.log
    ensures s.main.todo == [] ==> s'.hist.batches == s.hist.batches + [Batch(s.main.got, s.main.repos, s.main.synced)]
    ensures s.main.todo != [] ==> s'.main == AfterTriggered(s.main) && s'.hist.batches == s.hist.batches
    ensures s.main.todo != [] ==> s'.hist.log == if s.main.todo[0].name !in s.main.got then s.hist.log else
              Append(s.hist.log, s.main.todo[0].name, Start(Manual, s.main.todo[0].enabled, s.env.clock))
  {
  }

  lemma LoopTriggered(m: Main)
    requires LoopOk(m) && m.Triggered? && m.todo != []
    ensures LoopOk(AfterTriggered(m)) && GotNow(AfterTriggered(m)) == m.got
  {
  }

  lemma LoopFinished(m: Main)
    requires LoopOk(m) && m.Triggered? && m.todo == []
    ensures BatchComplete(Batch(m.got, m.repos, m.synced))
  {
  }

  lemma QueueFinished(s: State, s': State, b: Batch)
    requires QueueMatch(s) && BatchComplete(b) && GotNow(s.main) == b.got && s'.main == Top
    requires s'.queue == s.queue && s'.hist.accepted == s.hist.accepted && s'.hist.batches == s.hist.batches + [b]
    ensures QueueMatch(s')
  {
    QueueBatch(s.hist.batches, b);
  }

  lemma QueueSame(s: State, s': State)
    requires QueueMatch(s) && LoopOk(s'.main) && GotNow(s'.main) == GotNow(s.main)
    requires s'.queue == s.queue && s'.hist.accepted == s.hist.accepted && s'.hist.batches == s.hist.batches
    ensures QueueMatch(s')
  {
  }

  lemma QueueTriggered(s: State, s': State)
    requires s.job.None? && QueueMatch(s) && s.main.Triggered? && Proceeded(s) == Some(s')
    ensures QueueMatch(s')
  {
    TriggeredCases(s, s');
    if s.main.todo == [] {
      LoopFinished(s.main);
      QueueFinished(s, s', Batch(s.main.got, s.main.repos, s.main.synced));
    } else {
      LoopTriggered(s.main);
      QueueSame(s, s');
    }
  }

  /** Receiving, on its own and in the drain loop, moves the head of the queue to the names got. */
  lemma MainCases(s: State, m: MainAction, s': State)
    requires s.job.None? && NextMain(s, m) == Some(s') && !(m == Proceed && s.main.Triggered?)
    ensures s'.hist.accepted == s.hist.accepted && s'.hist.batches == s.hist.batches
    ensures GotNow(s'.main) + s'.queue == GotNow(s.main) + s.queue && |s'.queue| <= |s.queue|
  {
    if m == Receive || (m == Proceed && s.main.Draining?) {
      assert s'.hist == s.hist;
      if s.queue != [] {
        assert s.queue == [s.queue[0]] + s.queue[1..];
      }
    } else {
      QuietCases(s, m, s');
    }
  }

  lemma QuietCases(s: State, m: MainAction, s': State)
    requires s.job.None? && NextMain(s, m) == Some(s') && m != Receive
    requires m == Proceed ==> !s.main.Triggered? && !s.main.Draining?
    ensures s'.hist.accepted == s.hist.accepted && s'.hist.batches == s.hist.batches
    ensures s'.queue == s.queue && GotNow(s'.main) == GotNow(s.main) == []
  {
    if m == Proceed {
      QuietProceed(s, s');
    } else {
      assert s'.hist == s.hist && s'.queue == s.queue;
    }
  }

  lemma QuietProceed(s: State, s': State)
    requires s.job.None? && Proceeded(s) == Some(s') && !s.main.Triggered? && !s.main.Draining?
    ensures s'.hist.accepted == s.hist.accepted && s'.hist.batches == s.hist.batches
    ensures s'.queue == s.queue && GotNow(s'.main) == GotNow(s.main) == []
  {
    hide Skips, Due, EntryOf, DueOf;
  }

  lemma MainLogs(s: State, m: MainAction, s': State)
    requires s.job.None? && NextMain(s, m) == Some(s') && !(m == Proceed && s.main.Triggered?)
    ensures s'.job.None? ==> s'.hist.log == s.hist.log
    ensures s'.job.Some? ==> s'.job.value.kind != Manual
    ensures s'.job.Some? ==> s'.hist.log == Append(s.hist.log, s'.job.value.repo.name,
              Start(s'.job.value.kind, s'.job.value.repo.enabled, s.env.clock))
  {
    if m == Proceed {
      ProceedLogs(s, s');
    } else {
      assert s'.hist == s.hist && s'.job.None?;
    }
  }

  lemma ProceedLogs(s: State, s': State)
    requires s.job.None? && Proceeded(s) == Some(s') && !s.main.Triggered?
    ensures s'.job.None? ==> s'.hist.log == s.hist.log
    ensures s'.job.Some? ==> s'.job.value.kind != Manual
    ensures s'.job.Some? ==> s'.hist.log == Append(s.hist.log, s'.job.value.repo.name,
              Start(s'.job.value.kind, s'.job.value.repo.enabled, s.env.clock))
  {
    hide Skips, Due, EntryOf, DueOf;
  }

  lemma LoopMainStep(s: State, m: MainAction, s': State)
    requires s.job.None? && LoopOk(s.main) && NextMain(s, m) == Some(s') && !(m == Proceed && s.main.Triggered?)
    ensures LoopOk(s'.main)
  {
    if m == Proceed {
      LoopProceed(s, s');
    }
  }

  lemma LoopProceed(s: State, s': State)
    requires s.job.None? && LoopOk(s.main) && Proceeded(s) == Some(s') && !s.main.Triggered?
    ensures LoopOk(s'.main)
  {
    hide DistinctNames;
  }

  lemma QueueMainStep(s: State, m: MainAction, s': State)
    requires s.job.None? && QueueMatch(s) && NextMain(s, m) == Some(s')
    ensures QueueMatch(s')
  {
    if m == Proceed && s.main.Triggered? {
      QueueTriggered(s, s');
    } else {
      MainCases(s, m, s');
      LoopMainStep(s, m, s');
      SamePrefix(GotAll(s.hist.batches), GotNow(s.main), s.queue, GotNow(s'.main), s'.queue);
    }
  }

  lemma SamePrefix(p: seq<string>, a: seq<string>, b: seq<string>, a': seq<string>, b': seq<string>)
    requires a' + b' == a + b
    ensures p + a' + b' == p + a + b
  {
    assert p + a' + b' == p + (a' + b');
    assert p + a + b == p + (a + b);
  }

  lemma QueueStep(s: State, a: Action, s': State)
    requires QueueMatch(s) && Next(s, a) == Some(s')
    ensures QueueMatch(s')
  {
    match a
    case MainStep(m) => QueueMainStep(s, m, s');
    case SyncStep(x) => QueueSyncStep(s, x, s');
    case GitStep(t, g) => GitFrame(s, t, g, s');
    case ApplyStep(id, x) => ApplyFrame(s, id, x, s');
    case _ =>
  }

  lemma QueueSyncStep(s: State, x: SyncAction, s': State)
    requires s.job.Some? && QueueMatch(s) && NextSync(s, s.job.value, x) == Some(s')
    ensures QueueMatch(s')
  {
    SyncFrame(s, s.job.value, x, s');
    assert s'.hist.accepted == s.hist.accepted && s'.hist.batches == s.hist.batches;
  }

  // ---- Manual syncs counted ------------------------------------------------------------------

  function ManualStarts(log: seq<Event>): nat {
    if log == [] then 0
    else ManualStarts(DropLast(log)) + if Last(log).Start? && Last(log).kind == Manual then 1 else 0
  }

  function SyncedAll(batches: seq<Batch>): seq<string> {
    if batches == [] then [] else SyncedAll(DropLast(batches)) + Last(batches).synced
  }

  function SyncedNow(m: Main): seq<string> {
    if m.Triggered? then m.synced else []
  }

  /** The names manually synced so far, in order. */
  function Synced(s: State): seq<string> {
    SyncedAll(s.hist.batches) + SyncedNow(s.main)
  }

  ghost predicate ManualMatch(s: State, r: string) {
    ManualStarts(LogOf(s, r)) == multiset(Synced(s))[r]
  }

  lemma ManualAppend(log: seq<Event>, e: Event)
    ensures ManualStarts(log + [e]) == ManualStarts(log) + if e.Start? && e.kind == Manual then 1 else 0
  {
    AppendLast(log, e);
  }

  /** What an iteration over the triggered repositories adds to the names synced so far. */
  lemma SyncedTriggered(s: State, s': State)
    requires s.job.None? && s.main.Triggered? && Proceeded(s) == Some(s')
    ensures Synced(s') ==
            Synced(s) + if s.main.todo != [] && s.main.todo[0].name in s.main.got then [s.main.todo[0].name] else []
  {
    TriggeredCases(s, s');
    hide Proceeded;
    if s.main.todo == [] {
      AppendLast(s.hist.batches, Batch(s.main.got, s.main.repos, s.main.synced));
    }
  }

  lemma ManualTriggered(s: State, s': State, r: string)
    requires s.job.None? && ManualMatch(s, r) && s.main.Triggered? && Proceeded(s) == Some(s')
    ensures ManualMatch(s', r)
  {
    TriggeredCases(s, s');
    SyncedTriggered(s, s');
    hide Proceeded, Synced;
    if s.main.todo != [] && s.main.todo[0].name in s.main.got {
      ManualAppend(LogOf(s, r), Start(Manual, s.main.todo[0].enabled, s.env.clock));
    }
  }

  lemma ManualMainStep(s: State, m: MainAction, s': State, r: string)
    requires s.job.None? && ManualMatch(s, r) && NextMain(s, m) == Some(s')
    ensures ManualMatch(s', r)
  {
    if m == Proceed && s.main.Triggered? {
      ManualTriggered(s, s', r);
    } else {
      MainCases(s, m, s');
      MainLogs(s, m, s');
      NoneSynced(s, m, s');
      if s'.job.Some? {
        ManualAppend(LogOf(s, r), Start(s'.job.value.kind, s'.job.value.repo.enabled, s.env.clock));
      }
    }
  }

  lemma NoneSynced(s: State, m: MainAction, s': State)
    requires s.job.None? && NextMain(s, m) == Some(s') && !(m == Proceed && s.main.Triggered?)
    ensures SyncedNow(s'.main) == SyncedNow(s.main) == []
  {
  }

  lemma SyncLogs(s: State, x: SyncAction, s': State)
    requires s.job.Some? && NextSync(s, s.job.value, x) == Some(s')
    ensures s'.main == s.main && s'.hist.batches == s.hist.batches && s'.hist.accepted == s.hist.accepted
    ensures s'.hist.log == if x != Record then s.hist.log else Append(s.hist.log, s.job.value.repo.name,
              if s.job.value.phase.Fail? then Failed(s.job.value.base, s.env.clock) else Succeeded(s.job.value.base, s.env.clock))
  {
    if x != Record && x != HeadOk {
      assert s'.hist == s.hist;
    }
  }

  lemma ManualSyncStep(s: State, x: SyncAction, s': State, r: string)
    requires s.job.Some? && ManualMatch(s, r) && NextSync(s, s.job.value, x) == Some(s')
    ensures ManualMatch(s', r)
  {
    SyncLogs(s, x, s');
    if x == Record && r == s.job.value.repo.name {
      ManualAppend(LogOf(s, r), Last(LogOf(s', r)));
    }
  }

  lemma ManualStep(s: State, a: Action, s': State, r: string)
    requires ManualMatch(s, r) && Next(s, a) == Some(s')
    ensures ManualMatch(s', r)
  {
    match a
    case MainStep(m) => ManualMainStep(s, m, s', r);
    case SyncStep(x) => ManualSyncStep(s, x, s', r);
    case GitStep(t, g) => GitFrame(s, t, g, s');
    case ApplyStep(id, x) => ApplyFrame(s, id, x, s');
    case _ =>
  }

  lemma {:induction false} QueueRun(s: State, cloneDir: string, clock: int, run: seq<Action>, r: string)
    requires Reached(s, cloneDir, clock, run)
    ensures QueueMatch(s) && ManualMatch(s, r)
    decreases |run|
  {
    if run != [] {
      var before := Exec(Init(cloneDir, clock), DropLast(run)).value;
      QueueRun(before, cloneDir, clock, DropLast(run), r);
      QueueStep(before, Last(run), s);
      ManualStep(before, Last(run), s, r);
    }
  }

  predicate Listed(repos: seq<RepoConfig>, name: string) {
    exists k :: 0 <= k < |repos| && repos[k].name == name
  }

  lemma ListedFirst(repos: seq<RepoConfig>, name: string)
    requires repos != [] && DistinctNames(repos)
    ensures DistinctNames(repos[1..])
    ensures Listed(repos, name) <==> repos[0].name == name || Listed(repos[1..], name)
    ensures !(repos[0].name == name && Listed(repos[1..], name))
  {
    var rest := repos[1..];
    assert forall k | 0 <= k < |rest| :: rest[k] == repos[k + 1];
    if k :| 0 <= k < |repos| && repos[k].name == name && k > 0 {
      assert rest[k - 1].name == name;
    }
  }

  lemma {:induction false} TriggeredOnce(repos: seq<RepoConfig>, got: seq<string>, name: string)
    requires DistinctNames(repos)
    ensures multiset(TriggeredNames(repos, got))[name] == if name in got && Listed(repos, name) then 1 else 0
  {
    if repos != [] {
      ListedFirst(repos, name);
      TriggeredOnce(repos[1..], got, name);
    }
  }

  /** Every run: what was accepted is what was drained followed by what is buffered, in order; the
      buffer never exceeds its capacity; in every finished round each drained name that the
      listing contains was synced exactly once and no other was; and the manual starts in each
      repository's log are exactly those syncs. */
  lemma TriggersConserved(s: State, cloneDir: string, clock: int, run: seq<Action>, r: string)
    requires Reached(s, cloneDir, clock, run)
    ensures s.hist.accepted == GotAll(s.hist.batches) + GotNow(s.main) + s.queue
    ensures |s.queue| <= QUEUE_CAP
    ensures forall i | 0 <= i < |s.hist.batches| ::
              var b := s.hist.batches[i];
              multiset(b.synced)[r] == if r in b.got && Listed(b.repos, r) then 1 else 0
    ensures ManualStarts(LogOf(s, r)) == multiset(Synced(s))[r]
  {
    QueueRun(s, cloneDir, clock, run, r);
    forall i | 0 <= i < |s.hist.batches|
      ensures var b := s.hist.batches[i];
              multiset(b.synced)[r] == if r in b.got && Listed(b.repos, r) then 1 else 0
    {
      assert BatchComplete(s.hist.batches[i]);
      TriggeredOnce(s.hist.batches[i].repos, s.hist.batches[i].got, r);
    }
  }

  /** Every run: from the end of startup until the loop stops every request is answered, and it is
      accepted, behind all that were accepted before, if and only if it has a name and fewer than 16
      accepted names are still to be received. */
  lemma AcceptedExactly(s: State, cloneDir: string, clock: int, run: seq<Action>, repo: string)
    requires Reached(s, cloneDir, clock, run) && !s.main.Boot? && !s.main.Starting? && !s.main.Stopped?
    ensures Next(s, SyncRequest(repo)).Some?
    ensures var s' := Next(s, SyncRequest(repo)).value;
            && s'.hist.accepted == s.hist.accepted +
                 (if repo != "" && |s.hist.accepted| - |GotAll(s.hist.batches) + GotNow(s.main)| < 16 then [repo] else [])
            && s' == s.(queue := s'.queue, hist := s.hist.(accepted := s'.hist.accepted))
  {
    QueueRun(s, cloneDir, clock, run, repo);
  }

  // ---- The drain ends -------------------------------------------------------------------------

  function Times(n: nat, a: Action): seq<Action> {
    seq(n, _ => a)
  }

  function Drained(s: State, got: seq<string>): State
    requires s.main.Draining?
  {
    s.(main := Triggered(s.main.repos, s.main.dflt, got, [], s.main.repos), queue := [])
  }

  lemma DrainOne(s: State) returns (s': State)
    requires s.job.None? && s.main.Draining?
    ensures Next(s, MainStep(Proceed)) == Some(s')
    ensures s.queue == [] ==> s' == Drained(s, s.main.got + s.queue)
    ensures s.queue != [] ==> s'.job.None? && s'.main.Draining? && s'.queue == s.queue[1..]
    ensures s.queue != [] ==> Drained(s', s'.main.got + s'.queue) == Drained(s, s.main.got + s.queue)
  {
    s' := Next(s, MainStep(Proceed)).value;
    if s.queue == [] {
      assert s.main.got + s.queue == s.main.got;
    } else {
      assert s'.main.got + s'.queue == s.main.got + s.queue;
    }
  }

  /** With no producer in between, the drain loop empties the queue in one iteration per buffered
      name plus one, and has received them all in order. */
  lemma {:induction false} DrainEnds(s: State)
    requires s.job.None? && s.main.Draining?
    ensures Exec(s, Times(|s.queue| + 1, MainStep(Proceed))) == Some(Drained(s, s.main.got + s.queue))
    decreases |s.queue|
  {
    var a := MainStep(Proceed);
    var rest := Times(|s.queue|, a);
    assert Times(|s.queue| + 1, a) == [] + [a] + rest;
    var s' := DrainOne(s);
    Then(s, [], s, a, s');
    ExecConcat(s, [] + [a], s', rest);
    if s.queue == [] {
      assert rest == [];
    } else {
      hide Exec, Next, Drained;
      DrainEnds(s');
    }
  }
}
