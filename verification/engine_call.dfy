/** One whole undisturbed call of syncRepoFromDB, from its start to its unlock: that the call can be
    completed, and everything it leaves behind. */
module EngineCall {
  import opened Common
  import opened Backoff
  import opened SyncLog
  import opened Keys
  import opened Engine
  import opened EngineDisk
  import Git

  /** The tables after composing the stacks `todo` of `repo` in order. */
  function WithStacks(t: Tables, repo: string, todo: seq<string>): Tables
    decreases todo
  {
    if todo == [] then t else WithStacks(WithStack(t, repo, todo[0]), repo, todo[1..])
  }

  /** What composing the stacks `todo` reads while neither disk nor links change. */
  function Readings(s: State, repo: RepoConfig, todo: seq<string>): seq<Reading>
    decreases todo
  {
    if todo == [] then [] else [ReadAt(s, repo, todo[0]), ReadAt(s, repo, todo[0])] + Readings(s, repo, todo[1..])
  }

  /** s and s' agree on all that a compose run reads. */
  predicate SameDisk(s: State, s': State) {
    s'.disk == s.disk && s'.env.links == s.env.links && s'.env.cloneDir == s.env.cloneDir
  }

  lemma {:induction false} SameReadings(s: State, s': State, repo: RepoConfig, todo: seq<string>)
    requires SameDisk(s, s')
    ensures Readings(s', repo, todo) == Readings(s, repo, todo)
    decreases todo
  {
    if todo != [] {
      SameReadings(s, s', repo, todo[1..]);
    }
  }

  lemma {:induction false} ReadingsInside(s: State, repo: RepoConfig, todo: seq<string>)
    ensures ReadingsRight(s.env.cloneDir, repo.name, Readings(s, repo, todo), HeadAt(s, repo.name))
    decreases todo
  {
    hide ReadsOwn, ReadAt, HeadAt;
    if todo != [] {
      if ReadsOwn(s.env.cloneDir, repo.name, ReadAt(s, repo, todo[0])) {
        ReadInside(s, repo, todo[0]);
      }
      ReadingsInside(s, repo, todo[1..]);
    }
  }

  /** The state after the call has locked, fetched `tip` and reset to it. */
  function Fetched(s: State, j: Sync, path: Git.Path, tip: Commit): State {
    s.(job := Some(j.(phase := ReadHead, known := LastSHA(s, j.repo.name), tip := Some(tip))),
       locks := s.locks[j.repo.name := MainLoop],
       tables := WithStatus(s.tables, j.repo.name, Syncing),
       disk := s.disk[path := Clone(tip, tip)])
  }

  lemma LockStage(s: State, j: Sync) returns (run: seq<Action>, s': State)
    requires s.job == Some(j) && j.phase.Mark? && j.repo.name !in s.locks
    ensures Exec(s, run) == Some(s')
    ensures s' == s.(job := Some(j.(phase := InGit(Setup), known := LastSHA(s, j.repo.name))),
                     locks := s.locks[j.repo.name := MainLoop], tables := WithStatus(s.tables, j.repo.name, Syncing))
  {
    var s1 := Next(s, SyncStep(MarkSyncing)).value;
    Then(s, [], s, SyncStep(MarkSyncing), s1);
    s' := Next(s1, SyncStep(LockRepo)).value;
    run := [] + [SyncStep(MarkSyncing)] + [SyncStep(LockRepo)];
    Then(s, [] + [SyncStep(MarkSyncing)], s1, SyncStep(LockRepo), s');
  }

  /** A git command of the main loop, in terms of what it does to the clone. */
  lemma GitThen(s: State, run: seq<Action>, mid: State, j: Sync, g: GitAction) returns (run': seq<Action>, s': State)
    requires Exec(s, run) == Some(mid) && mid.job == Some(j) && j.phase.InGit?
    requires GitCommand(mid, j.repo.name, j.phase.git, g).Some?
    ensures Exec(s, run') == Some(s') && Next(mid, GitStep(MainLoop, g)) == Some(s')
  {
    s' := Next(mid, GitStep(MainLoop, g)).value;
    run' := run + [GitStep(MainLoop, g)];
    Then(s, run, mid, GitStep(MainLoop, g), s');
  }

  lemma FetchStage(s: State, run: seq<Action>, mid: State, j: Sync, path: Git.Path, tip: Commit) returns (run': seq<Action>, s': State)
    requires Exec(s, run) == Some(mid) && mid.job == Some(j) && j.phase == InGit(Fetching)
    requires Git.SafeRepoPath(mid.env.cloneDir, j.repo.name) == Some(path) && path in mid.disk
    ensures Exec(s, run') == Some(s')
    ensures s' == mid.(job := Some(j.(phase := ReadHead, tip := Some(tip))), disk := mid.disk[path := Clone(tip, tip)])
  {
    hide Git.SafeRepoPath;
    var r1, s1 := GitThen(s, run, mid, j, FetchDone(tip));
    run', s' := GitThen(s, r1, s1, s1.job.value, ResetDone);
  }

  lemma GitStage(s: State, j: Sync, path: Git.Path, tip: Commit) returns (run: seq<Action>, s': State)
    requires s.job == Some(j) && j.phase.Mark? && j.repo.name !in s.locks
    requires Git.SafeRepoPath(s.env.cloneDir, j.repo.name) == Some(path)
    ensures Exec(s, run) == Some(s') && s' == Fetched(s, j, path, tip)
  {
    hide Git.SafeRepoPath;
    var r1, s1 := LockStage(s, j);
    var r2, s2 := GitThen(s, r1, s1, s1.job.value, Ready);
    if path !in s.disk {
      r2, s2 := GitThen(s, r2, s2, s2.job.value, CloneDone(Clone(tip, tip)));
    }
    run, s' := FetchStage(s, r2, s2, s2.job.value, path, tip);
  }

  lemma SyncThen(s: State, run: seq<Action>, mid: State, j: Sync, x: SyncAction) returns (run': seq<Action>, s': State)
    requires Exec(s, run) == Some(mid) && mid.job == Some(j) && NextSync(mid, j, x).Some?
    ensures Exec(s, run') == Some(s') && NextSync(mid, j, x) == Some(s')
  {
    s' := NextSync(mid, j, x).value;
    run' := run + [SyncStep(x)];
    Then(s, run, mid, SyncStep(x), s');
  }

  lemma {:induction false} StackStage(s: State, run: seq<Action>, mid: State, j: Sync, todo: seq<string>)
    returns (run': seq<Action>, s': State)
    requires Exec(s, run) == Some(mid) && mid.job == Some(j) && j.phase == Stacks(todo)
    ensures Exec(s, run') == Some(s')
    ensures s' == mid.(job := Some(j.(phase := Succeed, reading := j.reading + Readings(mid, j.repo, todo))),
                       tables := WithStacks(mid.tables, j.repo.name, todo))
    decreases |todo|
  {
    hide ReadAt, Exec, Key;
    if todo == [] {
      run', s' := SyncThen(s, run, mid, j, NextStack);
      assert j.reading + Readings(mid, j.repo, todo) == j.reading;
    } else {
      var r1, s1 := SyncThen(s, run, mid, j, NextStack);
      var j1 := s1.job.value;
      var r2, s2 := SyncThen(s, r1, s1, j1, ComposeDone);
      var j2 := s2.job.value;
      SameRead(mid, s1, j.repo, todo[0]);
      var here := ReadAt(mid, j.repo, todo[0]);
      assert j2.reading == j.reading + [here, here];
      run', s' := StackStage(s, r2, s2, j2, todo[1..]);
      SameReadings(mid, s2, j.repo, todo[1..]);
      assert j2.reading + Readings(mid, j.repo, todo[1..]) == j.reading + Readings(mid, j.repo, todo);
    }
  }

  lemma SameRead(s: State, s': State, repo: RepoConfig, stack: string)
    requires SameDisk(s, s')
    ensures ReadAt(s', repo, stack) == ReadAt(s, repo, stack)
  {
  }

  /** From reading HEAD to the end of the stack pass, which is skipped when the commit is known. */
  lemma PassStage(s: State, run: seq<Action>, mid: State, j: Sync, entries: seq<string>, h: Commit)
    returns (run': seq<Action>, s': State)
    requires Exec(s, run) == Some(mid) && mid.job == Some(j) && j.phase.ReadHead? && HeadAt(mid, j.repo.name) == Some(h)
    requires j.reading == [] && forall e | e in entries :: Git.EntryName(e)
    ensures Exec(s, run') == Some(s')
    ensures var todo := if Some(h) == j.known then [] else entries;
            s' == mid.(
              job := Some(j.(phase := Succeed, seen := Some(h), reading := Readings(mid, j.repo, todo))),
              tables := WithStacks(mid.tables, j.repo.name, todo),
              hist := mid.hist.(observed := Append(mid.hist.observed, j.repo.name, h),
                                passes := if Some(h) == j.known then mid.hist.passes else Append(mid.hist.passes, j.repo.name, h)))
  {
    hide HeadAt, ReadAt, Exec, Git.EntryName;
    run', s' := SyncThen(s, run, mid, j, HeadOk);
    if Some(h) != j.known {
      run', s' := SyncThen(s, run', s', s'.job.value, ListStacks(entries));
      SameReadings(mid, s', j.repo, entries);
      run', s' := StackStage(s, run', s', s'.job.value, entries);
      assert [] + Readings(mid, j.repo, entries) == Readings(mid, j.repo, entries);
    }
  }

  lemma {:induction false} StacksAdded(t: Tables, repo: string, todo: seq<string>)
    ensures var t' := WithStacks(t, repo, todo);
            && t'.repos == t.repos && t'.backoff == t.backoff && t'.nextDue == t.nextDue
            && (forall k :: k in t'.stacks <==> k in t.stacks || exists e :: e in todo && k == Key(repo, e))
    decreases todo
  {
    if todo != [] {
      StacksAdded(WithStack(t, repo, todo[0]), repo, todo[1..]);
      assert todo == [todo[0]] + todo[1..];
      assert forall k | k in WithStack(t, repo, todo[0]).stacks :: k in t.stacks || (todo[0] in todo && k == Key(repo, todo[0]));
    }
  }

  lemma EndStage(s: State, run: seq<Action>, mid: State, j: Sync) returns (run': seq<Action>, s': State)
    requires Exec(s, run) == Some(mid) && mid.job == Some(j) && j.phase.Succeed? && j.seen.Some?
    ensures Exec(s, run') == Some(s')
    ensures s' == RecordOk(mid, j).(job := None, locks := mid.locks - {j.repo.name})
  {
    var r1, s1 := SyncThen(s, run, mid, j, Record);
    run', s' := SyncThen(s, r1, s1, s1.job.value, UnlockRepo);
  }

  /** The stacks a call composes: none when it finds the commit it knows. */
  function ToCompose(s: State, j: Sync, tip: Commit, entries: seq<string>): seq<string> {
    if LastSHA(s, j.repo.name) == Some(tip) then [] else entries
  }

  function FinishedTables(s: State, j: Sync, tip: Commit, todo: seq<string>): Tables {
    var r := j.repo.name;
    var t := WithStacks(WithStatus(s.tables, r, Syncing), r, todo);
    t.(repos := t.repos[r := RepoState(Ok, Some(tip))], backoff := t.backoff[r := FRESH],
       nextDue := t.nextDue[r := s.env.clock + ScheduleStep(j.base)])
  }

  function FinishedHistory(s: State, j: Sync, tip: Commit, reading: seq<Reading>): History {
    var r := j.repo.name;
    s.hist.(log := Append(s.hist.log, r, Succeeded(j.base, s.env.clock)),
            observed := Append(s.hist.observed, r, tip),
            passes := if LastSHA(s, r) == Some(tip) then s.hist.passes else Append(s.hist.passes, r, tip),
            reports := s.hist.reports + [Report(j.repo, tip, Some(tip), reading)])
  }

  lemma WholeRun(s: State, j: Sync, path: Git.Path, tip: Commit, entries: seq<string>) returns (run: seq<Action>, s': State)
    requires s.job == Some(j) && j.phase.Mark? && j.reading == [] && j.repo.name !in s.locks
    requires Git.SafeRepoPath(s.env.cloneDir, j.repo.name) == Some(path) && forall e | e in entries :: Git.EntryName(e)
    ensures Exec(s, run) == Some(s')
    ensures var todo := ToCompose(s, j, tip, entries);
            s' == s.(job := None, disk := s.disk[path := Clone(tip, tip)],
                     tables := FinishedTables(s, j, tip, todo),
                     hist := FinishedHistory(s, j, tip, Readings(s', j.repo, todo)))
  {
    hide Git.SafeRepoPath, Git.EntryName, WithStacks, WithStatus, Readings, Exec, Append, ScheduleStep, LastSHA, HeadAt;
    var r1, s1 := GitStage(s, j, path, tip);
    HeadThere(s1, j.repo.name, path);
    var r2, s2 := PassStage(s, r1, s1, s1.job.value, entries, tip);
    run, s' := EndStage(s, r2, s2, s2.job.value);
    SameReadings(s1, s', j.repo, ToCompose(s, j, tip, entries));
    assert s'.locks == s.locks;
  }

  lemma HeadThere(s: State, repo: string, path: Git.Path)
    requires Git.SafeRepoPath(s.env.cloneDir, repo) == Some(path) && path in s.disk
    ensures HeadAt(s, repo) == Some(s.disk[path].head)
  {
    hide Git.SafeRepoPath;
  }

  lemma FinishedTablesShow(s: State, s': State, j: Sync, tip: Commit, todo: seq<string>)
    requires s'.tables == FinishedTables(s, j, tip, todo)
    ensures var r := j.repo.name;
            && LastSHA(s', r) == Some(tip) && r in s'.tables.repos && s'.tables.repos[r].status == Ok
            && EntryOf(s', r) == FRESH && DueOf(s', r) == Some(s.env.clock + ScheduleStep(j.base))
            && (forall k :: k in s'.tables.stacks <==> k in s.tables.stacks || exists e :: e in todo && k == Key(r, e))
  {
    StacksAdded(WithStatus(s.tables, j.repo.name, Syncing), j.repo.name, todo);
    hide WithStacks, ScheduleStep, Key;
  }

  lemma FinishedHistoryShows(s: State, s': State, j: Sync, tip: Commit, reading: seq<Reading>)
    requires s'.hist == FinishedHistory(s, j, tip, reading)
    ensures var r := j.repo.name;
            && LogOf(s', r) == LogOf(s, r) + [Succeeded(j.base, s.env.clock)]
            && PassesOf(s', r) == PassesOf(s, r) + (if LastSHA(s, r) == Some(tip) then [] else [tip])
            && s'.hist.reports == s.hist.reports + [Report(j.repo, tip, Some(tip), reading)]
  {
    hide LastSHA;
  }

  /** A call that nobody disturbs, of a repository with a valid name whose lock is free, can be
      completed with any remote tip and any stacks directory. Then the clone is at the tip; the store
      shows it with status ok; the backoff is reset and the next sync due one interval later; the lock
      is free; and the stacks were composed exactly when the tip is not the commit stored before the
      call, each reading the tip at both ends if the stacks directory leads into the clone. */
  lemma {:induction false} WholeSync(s: State, j: Sync, tip: Commit, entries: seq<string>) returns (run: seq<Action>, s': State)
    requires s.job == Some(j) && j.phase.Mark? && j.reading == [] && j.repo.name !in s.locks
    requires Git.ValidRepoName(j.repo.name) && forall e | e in entries :: Git.EntryName(e)
    ensures Exec(s, run) == Some(s')
    ensures var r := j.repo.name;
            && s'.job.None? && s'.main == s.main && s'.locks == s.locks && s'.env.clock == s.env.clock
            && HeadAt(s', r) == LastSHA(s', r) == Some(tip) && s'.tables.repos[r].status == Ok
            && EntryOf(s', r) == FRESH && DueOf(s', r) == Some(s.env.clock + ScheduleStep(j.base))
            && LogOf(s', r) == LogOf(s, r) + [Succeeded(j.base, s.env.clock)]
    ensures var r := j.repo.name;
            var todo := ToCompose(s, j, tip, entries);
            var reading := Readings(s', j.repo, todo);
            && PassesOf(s', r) == PassesOf(s, r) + (if LastSHA(s, r) == Some(tip) then [] else [tip])
            && s'.hist.reports == s.hist.reports + [Report(j.repo, tip, Some(tip), reading)]
            && ReadingsRight(s.env.cloneDir, r, reading, Some(tip))
            && (forall k :: k in s'.tables.stacks <==> k in s.tables.stacks || exists e :: e in todo && k == Key(r, e))
  {
    Git.RepoDirectory(s.env.cloneDir, j.repo.name);
    var path := Git.SafeRepoPath(s.env.cloneDir, j.repo.name).value;
    hide Git.SafeRepoPath, Git.ValidRepoName, Git.EntryName, Exec, ReadingsRight, FinishedTables, FinishedHistory, Readings;
    run, s' := WholeRun(s, j, path, tip, entries);
    HeadThere(s', j.repo.name, path);
    FinishedTablesShow(s, s', j, tip, ToCompose(s, j, tip, entries));
    FinishedHistoryShows(s, s', j, tip, Readings(s', j.repo, ToCompose(s, j, tip, entries)));
    ReadingsInside(s', j.repo, ToCompose(s, j, tip, entries));
  }
}
