/** Commit stability: what a full sync reads from disk is one commit, under every interleaving. */
module EngineDisk {
  import opened Common
  import opened Engine
  import opened EngineLocks
  import Git

  /** A git command of one repository leaves another repository's clone alone. */
  lemma GitElsewhere(s: State, repo: string, phase: GitPhase, a: GitAction, other: string)
    requires GitCommand(s, repo, phase, a).Some? && other != repo
    ensures CloneAt(s.(disk := GitCommand(s, repo, phase, a).value.0), other) == CloneAt(s, other)
  {
    Git.RepoDirectory(s.env.cloneDir, repo);
    Git.RepoDirectory(s.env.cloneDir, other);
    if Git.ValidRepoName(repo) && Git.ValidRepoName(other) {
      Git.DirectoriesDistinct(s.env.cloneDir, repo, other);
    }
  }

  /** While a thread holds a repository's lock, only that thread's own git commands move the
      repository's HEAD; a fetch never does. */
  lemma HeadMovesByHolder(s: State, a: Action, s': State, t: Thread, r: string)
    requires LocksMatch(s) && Next(s, a) == Some(s') && Holds(s, t, r)
    ensures HeadAt(s', r) != HeadAt(s, r) ==>
              a.GitStep? && a.thread == t && (a.git.CloneDone? || a.git.ResetDone? || a.git.GitError?)
  {
    if a.GitStep? {
      GitFrame(s, a.thread, a.git, s');
      var site := GitSite(s, a.thread).value;
      if site.0 != r {
        GitElsewhere(s, site.0, site.1, a.git, r);
      } else {
        assert Holds(s, a.thread, r);
      }
    } else {
      DiskFrame(s, a, s');
    }
  }

  // ---- The invariant -----------------------------------------------------------------------

  predicate CloneReady(s: State, repo: string, phase: GitPhase) {
    match phase
    case Setup => true
    case Cloning => Git.SafeRepoPath(s.env.cloneDir, repo).Some?
    case _ => HeadAt(s, repo).Some?
  }

  /** The compose run found its stack in the repository's own clone. */
  predicate ReadsOwn(cloneDir: string, name: string, x: Reading) {
    x.dir.Some? && Git.InClone(cloneDir, name, x.dir.value)
  }

  /** Such a compose run reads the clone's HEAD. */
  lemma ReadInside(s: State, repo: RepoConfig, stack: string)
    requires ReadsOwn(s.env.cloneDir, repo.name, ReadAt(s, repo, stack))
    ensures ReadAt(s, repo, stack).commit == HeadAt(s, repo.name)
  {
    Git.RepoDirectory(s.env.cloneDir, repo.name);
    Git.StackInside(s.env.cloneDir, repo.name, DirOf(s, repo).value, stack);
  }

  /** Every compose run that found its stack in the own clone read `commit`. */
  predicate ReadingsRight(cloneDir: string, name: string, reading: seq<Reading>, commit: Option<Commit>) {
    forall i | 0 <= i < |reading| && ReadsOwn(cloneDir, name, reading[i]) :: reading[i].commit == commit
  }

  predicate JobReads(s: State, j: Sync) {
    var head := HeadAt(s, j.repo.name);
    && (j.phase.InGit? ==> CloneReady(s, j.repo.name, j.phase.git))
    && (j.phase == InGit(Resetting) ==> Some(CloneAt(s, j.repo.name).value.fetched) == j.tip)
    && (j.phase.ReadHead? ==> head.Some? && head == j.tip)
    && (j.phase.ReadDir? || j.phase.Stacks? || j.phase.Composing? || j.phase.Succeed? ==> j.seen.Some?)
    && (j.seen.Some? ==> head == j.seen == j.tip)
    && ReadingsRight(s.env.cloneDir, j.repo.name, j.reading, j.seen)
    && (j.phase.Mark? || j.phase.Wait? || j.phase.InGit? || j.phase.ReadHead? || j.phase.Fail? ==> j.seen.None? && j.reading == [])
  }

  predicate ReportStable(cloneDir: string, p: Report) {
    && Git.ValidRepoName(p.repo.name) && p.tip == Some(p.sha)
    && ReadingsRight(cloneDir, p.repo.name, p.reading, Some(p.sha))
  }

  predicate HandlerReady(s: State, id: nat)
    requires id in s.pool.applies
  {
    var h := s.pool.applies[id];
    h.phase.ApplyGit? ==> CloneReady(s, h.repo, h.phase.git)
  }

  ghost predicate DiskMatch(s: State) {
    && (s.job.Some? ==> JobReads(s, s.job.value))
    && (forall id | id in s.pool.applies :: HandlerReady(s, id))
    && (forall i | 0 <= i < |s.hist.reports| :: ReportStable(s.env.cloneDir, s.hist.reports[i]))
  }

  /** A successful git command leaves the clone ready for the next one; a fetch leaves the tip in
      the tracking ref and a reset makes that HEAD. */
  lemma CommandReady(s: State, repo: string, phase: GitPhase, a: GitAction)
    requires CloneReady(s, repo, phase) && GitCommand(s, repo, phase, a).Some?
    ensures var r := GitCommand(s, repo, phase, a).value;
            var s' := s.(disk := r.0);
            && (r.1.Continue? ==> CloneReady(s', repo, r.1.phase))
            && (r.1 == Continue(Resetting) ==> a.FetchDone? && CloneAt(s', repo).value.fetched == a.tip)
            && (a.FetchDone? ==> r.1 == Continue(Resetting))
            && (r.1.Done? ==> phase.Resetting? && HeadAt(s', repo) == Some(CloneAt(s, repo).value.fetched))
  {
  }

  lemma DiskGitStep(s: State, t: Thread, g: GitAction, s': State)
    requires LocksMatch(s) && DiskMatch(s) && NextGit(s, t, g) == Some(s')
    ensures DiskMatch(s')
  {
    GitFrame(s, t, g, s');
    var (repo, phase) := GitSite(s, t).value;
    assert Holds(s, t, repo);
    assert CloneReady(s, repo, phase) by {
      if t.Handler? { assert HandlerReady(s, t.id); }
    }
    CommandReady(s, repo, phase, g);
    forall id | id in s'.pool.applies
      ensures HandlerReady(s', id)
    {
      assert HandlerReady(s, id);
      if Handler(id) != t && s.pool.applies[id].phase.ApplyGit? {
        assert Holds(s, Handler(id), s.pool.applies[id].repo);
        GitElsewhere(s, repo, phase, g, s.pool.applies[id].repo);
      }
    }
    JobGitStep(s, t, g, s');
  }

  lemma JobGitStep(s: State, t: Thread, g: GitAction, s': State)
    requires LocksMatch(s) && DiskMatch(s) && NextGit(s, t, g) == Some(s')
    ensures s'.job.Some? ==> JobReads(s', s'.job.value)
  {
    GitFrame(s, t, g, s');
    var (repo, phase) := GitSite(s, t).value;
    assert Holds(s, t, repo);
    if t == MainLoop {
      CommandReady(s, repo, phase, g);
    } else if s.job.Some? && InLockedPhase(s.job.value.phase) {
      assert Holds(s, MainLoop, s.job.value.repo.name);
      GitElsewhere(s, repo, phase, g, s.job.value.repo.name);
    }
  }

  /** A compose run of a stack in the clone reads the commit seen. */
  lemma JobComposes(s: State, x: SyncAction, s': State)
    requires s.job.Some? && JobReads(s, s.job.value) && NextSync(s, s.job.value, x) == Some(s') && (x.NextStack? || x.ComposeDone?)
    ensures s'.job.Some? && JobReads(s', s'.job.value)
  {
    hide Git.SafeRepoPath, ReadsOwn, ReadAt;
    SyncFrame(s, s.job.value, x, s');
    var j := s.job.value;
    if j.phase.Composing? || (j.phase.Stacks? && j.phase.todo != []) {
      var stack := if j.phase.Composing? then j.phase.stack else j.phase.todo[0];
      if ReadsOwn(s.env.cloneDir, j.repo.name, ReadAt(s, j.repo, stack)) {
        ReadInside(s, j.repo, stack);
      }
    }
  }

  lemma JobSyncStep(s: State, x: SyncAction, s': State)
    requires s.job.Some? && JobReads(s, s.job.value) && NextSync(s, s.job.value, x) == Some(s')
    ensures s'.job.Some? ==> JobReads(s', s'.job.value)
  {
    hide Git.SafeRepoPath, ReadsOwn, ReadAt;
    if x.NextStack? || x.ComposeDone? {
      JobComposes(s, x, s');
    } else {
      SyncFrame(s, s.job.value, x, s');
      assert s'.job.Some? ==> s'.job.value.reading == s.job.value.reading;
    }
  }

  lemma ReportsSyncStep(s: State, x: SyncAction, s': State)
    requires s.job.Some? && DiskMatch(s) && NextSync(s, s.job.value, x) == Some(s')
    ensures forall i | 0 <= i < |s'.hist.reports| :: ReportStable(s'.env.cloneDir, s'.hist.reports[i])
  {
    if x == Record && s.job.value.phase.Succeed? {
      var added := Report(s.job.value.repo, s.job.value.seen.value, s.job.value.tip, s.job.value.reading);
      assert s'.hist.reports == s.hist.reports + [added];
      Git.RepoDirectory(s.env.cloneDir, added.repo.name);
      assert ReportStable(s.env.cloneDir, added);
    } else {
      assert s'.hist.reports == s.hist.reports;
    }
  }

  lemma DiskSyncStep(s: State, x: SyncAction, s': State)
    requires s.job.Some? && DiskMatch(s) && NextSync(s, s.job.value, x) == Some(s')
    ensures DiskMatch(s')
  {
    hide Git.SafeRepoPath;
    JobSyncStep(s, x, s');
    ReportsSyncStep(s, x, s');
    SyncFrame(s, s.job.value, x, s');
    assert forall id | id in s'.pool.applies :: HandlerReady(s, id);
  }

  lemma DiskApplyStep(s: State, id: nat, x: ApplyAction, s': State)
    requires DiskMatch(s) && NextApply(s, id, x) == Some(s')
    ensures DiskMatch(s')
  {
    ApplyFrame(s, id, x, s');
    forall i | i in s'.pool.applies
      ensures HandlerReady(s', i)
    {
      assert HandlerReady(s, i);
    }
  }

  lemma DiskRequest(s: State, repo: string, stack: string)
    requires DiskMatch(s)
    ensures DiskMatch(RequestApply(s, repo, stack))
  {
    var s' := RequestApply(s, repo, stack);
    forall i | i in s'.pool.applies
      ensures HandlerReady(s', i)
    {
      assert i in s.pool.applies ==> HandlerReady(s, i);
    }
  }

  lemma DiskStep(s: State, a: Action, s': State)
    requires LocksMatch(s) && DiskMatch(s) && Next(s, a) == Some(s')
    ensures DiskMatch(s')
  {
    match a
    case GitStep(t, g) => DiskGitStep(s, t, g, s');
    case ApplyStep(id, x) => DiskApplyStep(s, id, x, s');
    case ApplyRequest(repo, stack) => DiskRequest(s, repo, stack);
    case SyncStep(x) => DiskSyncStep(s, x, s');
    case MainStep(m) => DiskMainStep(s, m, s');
    case _ => DiskEnvStep(s, a, s');
  }

  lemma DiskEnvStep(s: State, a: Action, s': State)
    requires DiskMatch(s) && Next(s, a) == Some(s') && (a.Advance? || a.Cancel? || a.Relink? || a.SyncRequest?)
    ensures DiskMatch(s')
  {
    hide Git.SafeRepoPath;
    assert forall id | id in s'.pool.applies :: HandlerReady(s, id);
  }

  lemma DiskMainStep(s: State, m: MainAction, s': State)
    requires s.job.None? && DiskMatch(s) && NextMain(s, m) == Some(s')
    ensures DiskMatch(s')
  {
    hide Git.SafeRepoPath;
    MainFrame(s, m, s');
    assert forall id | id in s'.pool.applies :: HandlerReady(s, id);
  }

  lemma {:induction false} DiskRun(s: State, cloneDir: string, clock: int, run: seq<Action>)
    requires Reached(s, cloneDir, clock, run)
    ensures DiskMatch(s)
    decreases |run|
  {
    if run != [] {
      var before := Exec(Init(cloneDir, clock), DropLast(run)).value;
      DiskRun(before, cloneDir, clock, DropLast(run));
      LocksRun(before, cloneDir, clock, DropLast(run));
      DiskStep(before, Last(run), s);
    }
  }

  /** Every run: from the moment a full sync has read HEAD until it unlocks, HEAD on disk is that
      commit and is the remote tip the call fetched; every successful sync was of a valid name and
      stored the tip it fetched; and that commit is what each of its compose runs read, at either
      end, when its stacks directory led into the repository's own clone. */
  lemma CommitStability(s: State, cloneDir: string, clock: int, run: seq<Action>)
    requires Reached(s, cloneDir, clock, run)
    ensures forall i, k | 0 <= i < |s.hist.reports| && 0 <= k < |s.hist.reports[i].reading|
                          && ReadsOwn(cloneDir, s.hist.reports[i].repo.name, s.hist.reports[i].reading[k]) ::
              s.hist.reports[i].reading[k].commit == Some(s.hist.reports[i].sha)
    ensures forall i | 0 <= i < |s.hist.reports| ::
              s.hist.reports[i].tip == Some(s.hist.reports[i].sha) && Git.ValidRepoName(s.hist.reports[i].repo.name)
    ensures s.job.Some? && s.job.value.seen.Some? ==>
              HeadAt(s, s.job.value.repo.name) == s.job.value.seen == s.job.value.tip
  {
    hide ReadsOwn, Git.ValidRepoName;
    DiskRun(s, cloneDir, clock, run);
    SameCloneDir(s, cloneDir, clock, run);
    assert forall i | 0 <= i < |s.hist.reports| :: ReportStable(cloneDir, s.hist.reports[i]);
    forall i, k | 0 <= i < |s.hist.reports| && 0 <= k < |s.hist.reports[i].reading|
                  && ReadsOwn(cloneDir, s.hist.reports[i].repo.name, s.hist.reports[i].reading[k])
      ensures s.hist.reports[i].reading[k].commit == Some(s.hist.reports[i].sha)
    {
      assert ReportStable(cloneDir, s.hist.reports[i]);
    }
  }

  lemma {:induction false} SameCloneDir(s: State, cloneDir: string, clock: int, run: seq<Action>)
    requires Reached(s, cloneDir, clock, run)
    ensures s.env.cloneDir == cloneDir
    decreases |run|
  {
    if run != [] {
      var before := Exec(Init(cloneDir, clock), DropLast(run)).value;
      SameCloneDir(before, cloneDir, clock, DropLast(run));
      if Last(run).GitStep? {
        GitFrame(before, Last(run).thread, Last(run).git, s);
      } else {
        DiskFrame(before, Last(run), s);
      }
    }
  }

  /** A thread's own program counter is the same in s' as in s. */
  predicate Rests(s: State, s': State, t: Thread) {
    match t
    case MainLoop => s'.job == s.job
    case Handler(id) => id in s.pool.applies ==> id in s'.pool.applies && s'.pool.applies[id] == s.pool.applies[id]
  }

  lemma RestsApply(s: State, id: nat, x: ApplyAction, s': State, t: Thread)
    requires NextApply(s, id, x) == Some(s') && t != Handler(id)
    ensures Rests(s, s', t)
  {
  }

  lemma RestsGit(s: State, u: Thread, g: GitAction, s': State, t: Thread)
    requires NextGit(s, u, g) == Some(s') && t != u
    ensures Rests(s, s', t)
  {
  }

  /** Only a thread's own steps move its program counter. */
  lemma OthersRest(s: State, a: Action, s': State, t: Thread)
    requires PoolMatch(s.pool) && Next(s, a) == Some(s') && !StepOf(t, a)
    ensures Rests(s, s', t)
  {
    match a
    case MainStep(m) => MainFrame(s, m, s');
    case SyncStep(x) => SyncFrame(s, s.job.value, x, s');
    case ApplyStep(id, x) => RestsApply(s, id, x, s', t);
    case GitStep(u, g) => RestsGit(s, u, g, s', t);
    case ApplyRequest(_, _) => assert s.pool.nextId !in s.pool.applies;
    case _ =>
  }

  lemma {:induction false} FrozenFrom(s: State, more: seq<Action>, s': State, t: Thread, r: string)
    requires LocksMatch(s) && PoolMatch(s.pool) && Exec(s, more) == Some(s') && Holds(s, t, r)
    requires forall a | a in more :: !StepOf(t, a)
    ensures LocksMatch(s') && PoolMatch(s'.pool) && Holds(s', t, r) && HeadAt(s', r) == HeadAt(s, r)
    decreases |more|
  {
    if more != [] {
      var before, a := Exec(s, DropLast(more)).value, Last(more);
      FrozenFrom(s, DropLast(more), before, t, r);
      PoolStep(before, a, s');
      LocksStep(before, a, s');
      OthersRest(before, a, s', t);
      HeadMovesByHolder(before, a, s', t, r);
    }
  }

  /** Every run: however many steps the others take, a thread that holds a repository's lock and
      rests still holds it afterwards, and finds HEAD where it was. */
  lemma HeadFrozenForOthers(s: State, cloneDir: string, clock: int, run: seq<Action>, more: seq<Action>, s': State, t: Thread, r: string)
    requires Reached(s, cloneDir, clock, run) && Exec(s, more) == Some(s') && Holds(s, t, r)
    requires forall a | a in more :: !StepOf(t, a)
    ensures Holds(s', t, r) && HeadAt(s', r) == HeadAt(s, r)
  {
    LocksRun(s, cloneDir, clock, run);
    FrozenFrom(s, more, s', t, r);
  }

  /** Every run: a repository's HEAD moves only by a step of the thread that holds its lock, and that
      step is a finished clone, a reset, which takes it to the commit fetched, or a clone or reset that
      failed; a fetch, failed or not, leaves it where it was. */
  lemma HeadMoves(s: State, cloneDir: string, clock: int, run: seq<Action>, a: Action, s': State, r: string)
    requires Reached(s, cloneDir, clock, run) && Next(s, a) == Some(s') && HeadAt(s', r) != HeadAt(s, r)
    ensures a.GitStep? && Holds(s, a.thread, r) && GitSite(s, a.thread).Some? && GitSite(s, a.thread).value.0 == r
    ensures var phase := GitSite(s, a.thread).value.1;
            || (a.git.CloneDone? && phase.Cloning? && HeadAt(s', r) == Some(a.git.clone.head))
            || (a.git.ResetDone? && phase.Resetting? && CloneAt(s, r).Some? && HeadAt(s', r) == Some(CloneAt(s, r).value.fetched))
            || (a.git.GitError? && (phase.Cloning? || phase.Resetting?))
  {
    LocksRun(s, cloneDir, clock, run);
    if a.GitStep? {
      GitFrame(s, a.thread, a.git, s');
      var (repo, phase) := GitSite(s, a.thread).value;
      assert Holds(s, a.thread, repo);
      if repo != r {
        GitElsewhere(s, repo, phase, a.git, r);
      } else {
        CommandMoves(s, r, phase, a.git);
      }
    } else {
      DiskFrame(s, a, s');
    }
  }

  lemma CommandMoves(s: State, repo: string, phase: GitPhase, g: GitAction)
    requires GitCommand(s, repo, phase, g).Some?
    ensures var s' := s.(disk := GitCommand(s, repo, phase, g).value.0);
            HeadAt(s', repo) == HeadAt(s, repo)
            || (g.CloneDone? && phase.Cloning? && HeadAt(s', repo) == Some(g.clone.head))
            || (g.ResetDone? && phase.Resetting? && CloneAt(s, repo).Some? && HeadAt(s', repo) == Some(CloneAt(s, repo).value.fetched))
            || (g.GitError? && (phase.Cloning? || phase.Resetting?))
  {
    hide Git.SafeRepoPath;
  }
}
