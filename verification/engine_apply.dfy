/** What a per-stack apply gets done: whatever git does, the goroutine composes its stack once. */
module EngineApply {
  import opened Common
  import opened Keys
  import opened Engine
  import opened EngineLocks
  import opened EngineDisk
  import opened EngineRuns
  import Git

  /** How often a run takes the step. */
  function Count(run: seq<Action>, a: Action): nat {
    if run == [] then 0 else Count(DropLast(run), a) + if Last(run) == a then 1 else 0
  }

  lemma CountAppend(run: seq<Action>, last: Action, a: Action)
    ensures Count(run + [last], a) == Count(run, a) + if last == a then 1 else 0
  {
    AppendLast(run, last);
  }

  /** The steps of goroutine `id` so far. */
  datatype Tally = Tally(found: nat, missed: nat, begun: nat, ended: nat, left: nat)

  function TallyOf(run: seq<Action>, id: nat): Tally {
    Tally(Count(run, ApplyStep(id, Found(true))), Count(run, ApplyStep(id, Found(false))),
          Count(run, ApplyStep(id, BeginCompose)), Count(run, ApplyStep(id, EndCompose)), Count(run, ApplyStep(id, Leave)))
  }

  function After(t: Tally, x: ApplyAction): Tally {
    match x
    case Found(ok) => if ok then t.(found := t.found + 1) else t.(missed := t.missed + 1)
    case BeginCompose => t.(begun := t.begun + 1)
    case EndCompose => t.(ended := t.ended + 1)
    case Leave => t.(left := t.left + 1)
    case _ => t
  }

  lemma TallyAppend(run: seq<Action>, a: Action, id: nat)
    ensures TallyOf(run + [a], id) ==
            if a.ApplyStep? && a.id == id then After(TallyOf(run, id), a.apply) else TallyOf(run, id)
  {
    CountAppend(run, a, ApplyStep(id, Found(true)));
    CountAppend(run, a, ApplyStep(id, Found(false)));
    CountAppend(run, a, ApplyStep(id, BeginCompose));
    CountAppend(run, a, ApplyStep(id, EndCompose));
    CountAppend(run, a, ApplyStep(id, Leave));
    hide Count;
  }

  const NOTHING := Tally(0, 0, 0, 0, 0)

  predicate TallyRight(p: Pool, id: nat, t: Tally) {
    if id in p.applies then
      match p.applies[id].phase
      case Lookup => t == NOTHING
      case ApplyCompose => t == Tally(1, 0, 1, 0, 0)
      case Exit => t == Tally(1, 0, 1, 1, 0) || t == Tally(0, 1, 0, 0, 0)
      case _ => t == Tally(1, 0, 0, 0, 0)
    else if id < p.nextId then t == Tally(1, 0, 1, 1, 1) || t == Tally(0, 1, 0, 0, 1)
    else t == NOTHING
  }

  lemma OwnTally(s: State, id: nat, x: ApplyAction, s': State, t: Tally)
    requires PoolMatch(s.pool) && NextApply(s, id, x) == Some(s') && TallyRight(s.pool, id, t)
    ensures TallyRight(s'.pool, id, After(t, x))
  {
    hide WithStack;
  }

  lemma GitTally(s: State, id: nat, g: GitAction, s': State, t: Tally)
    requires NextGit(s, Handler(id), g) == Some(s') && TallyRight(s.pool, id, t)
    ensures TallyRight(s'.pool, id, t)
  {
    hide GitCommand;
  }

  lemma RequestTally(s: State, repo: string, stack: string, id: nat, t: Tally)
    requires PoolMatch(s.pool) && TallyRight(s.pool, id, t)
    ensures TallyRight(RequestApply(s, repo, stack).pool, id, t)
  {
    hide Key;
    assert s.pool.nextId !in s.pool.applies;
  }

  /** Steps of others leave the goroutine, or its absence, as it is. */
  lemma AbsentStays(s: State, a: Action, s': State, id: nat)
    requires Next(s, a) == Some(s') && !StepOf(Handler(id), a) && !a.ApplyRequest?
    ensures s'.pool.nextId == s.pool.nextId
    ensures id !in s.pool.applies ==> id !in s'.pool.applies
  {
    match a
    case MainStep(m) => MainFrame(s, m, s');
    case SyncStep(x) => SyncFrame(s, s.job.value, x, s');
    case ApplyStep(other, x) => AbsentApply(s, other, x, s', id);
    case GitStep(u, g) => AbsentGit(s, u, g, s', id);
    case _ =>
  }

  lemma AbsentApply(s: State, other: nat, x: ApplyAction, s': State, id: nat)
    requires NextApply(s, other, x) == Some(s') && other != id
    ensures s'.pool.nextId == s.pool.nextId && (id !in s.pool.applies ==> id !in s'.pool.applies)
  {
    hide WithStack;
  }

  lemma AbsentGit(s: State, u: Thread, g: GitAction, s': State, id: nat)
    requires NextGit(s, u, g) == Some(s') && u != Handler(id)
    ensures s'.pool.nextId == s.pool.nextId && (id !in s.pool.applies ==> id !in s'.pool.applies)
  {
    hide GitCommand;
  }

  lemma TallyStep(s: State, a: Action, s': State, id: nat, t: Tally)
    requires PoolMatch(s.pool) && Next(s, a) == Some(s') && TallyRight(s.pool, id, t)
    ensures TallyRight(s'.pool, id, if a.ApplyStep? && a.id == id then After(t, a.apply) else t)
  {
    if StepOf(Handler(id), a) {
      if a.ApplyStep? {
        OwnTally(s, id, a.apply, s', t);
      } else {
        GitTally(s, id, a.git, s', t);
      }
    } else if a.ApplyRequest? {
      RequestTally(s, a.repo, a.stack, id, t);
    } else {
      OthersRest(s, a, s', Handler(id));
      AbsentStays(s, a, s', id);
      hide Next;
    }
  }

  lemma {:induction false} TallyRun(s: State, cloneDir: string, clock: int, run: seq<Action>, id: nat)
    requires Reached(s, cloneDir, clock, run)
    ensures TallyRight(s.pool, id, TallyOf(run, id))
    decreases |run|
  {
    if run != [] {
      var past, a := DropLast(run), Last(run);
      var before := Exec(Init(cloneDir, clock), past).value;
      assert run == past + [a];
      TallyRun(before, cloneDir, clock, past, id);
      LocksRun(before, cloneDir, clock, past);
      TallyAppend(past, a, id);
      TallyStep(before, a, s, id, TallyOf(past, id));
    }
  }

  /** Every run: a goroutine that has left either missed its stack or repository and composed nothing,
      or found them and composed the stack exactly once, whatever git did; and it runs compose from
      the one step to the other. */
  lemma ComposedOnce(s: State, cloneDir: string, clock: int, run: seq<Action>, id: nat)
    requires Reached(s, cloneDir, clock, run)
    ensures id < s.pool.nextId && id !in s.pool.applies ==>
              && Count(run, ApplyStep(id, Found(true))) + Count(run, ApplyStep(id, Found(false))) == 1
              && Count(run, ApplyStep(id, BeginCompose)) == Count(run, ApplyStep(id, Found(true)))
              && Count(run, ApplyStep(id, EndCompose)) == Count(run, ApplyStep(id, Found(true)))
    ensures id in s.pool.applies ==>
              (RunsCompose(s, Handler(id), KeyOf(s.pool.applies[id])) <==>
                 Count(run, ApplyStep(id, BeginCompose)) == 1 && Count(run, ApplyStep(id, EndCompose)) == 0)
  {
    TallyRun(s, cloneDir, clock, run, id);
    hide Count, Exec;
  }

  // ---- One whole undisturbed apply ---------------------------------------------------------------

  /** How gitSyncToDisk ends for an apply. */
  datatype GitOutcome = Synced(tip: Commit) | Fails(at: GitPhase, left: Option<Clone>)

  /** The outcomes a repository can have: without a directory only the first check fails, and only a
      missing clone is cloned. */
  predicate Possible(s: State, repo: string, outcome: GitOutcome) {
    var path := Git.SafeRepoPath(s.env.cloneDir, repo);
    if path.None? then outcome.Fails? && outcome.at.Setup?
    else outcome.Fails? && outcome.at.Cloning? ==> path.value !in s.disk
  }

  /** s' differs from s on disk at most in the clone of the repository. */
  ghost predicate DiskElsewhere(s: State, s': State, repo: string) {
    forall p | Git.SafeRepoPath(s.env.cloneDir, repo) != Some(p) ::
      (p in s'.disk <==> p in s.disk) && (p in s.disk ==> s'.disk[p] == s.disk[p])
  }

  /** A run from s0 that has brought the goroutine's git work from s, where it was set up, to s'. */
  ghost predicate GitProgress(s0: State, run: seq<Action>, s: State, s': State, id: nat, repo: string, stack: string, phase: ApplyPhase) {
    && Exec(s0, run) == Some(s') && DiskElsewhere(s, s', repo)
    && id in s'.pool.applies && s'.pool.applies[id] == Apply(repo, stack, phase)
    && s' == s.(disk := s'.disk, pool := s'.pool) && s'.pool == s.pool.(applies := s.pool.applies[id := Apply(repo, stack, phase)])
  }

  lemma GitGoes(s0: State, run: seq<Action>, s: State, mid: State, id: nat, repo: string, stack: string, phase: GitPhase, g: GitAction)
    returns (run': seq<Action>, s': State)
    requires GitProgress(s0, run, s, mid, id, repo, stack, ApplyGit(phase)) && GitCommand(mid, repo, phase, g).Some?
    ensures GitProgress(s0, run', s, s', id, repo, stack,
              match GitCommand(mid, repo, phase, g).value.1 case Continue(p) => ApplyGit(p) case _ => ApplyUnlock)
    ensures s'.disk == GitCommand(mid, repo, phase, g).value.0
  {
    run', s' := ApplyGitThen(s0, run, mid, id, g);
    hide Git.SafeRepoPath, Exec;
  }

  lemma Fetches(s0: State, run: seq<Action>, s: State, mid: State, id: nat, repo: string, stack: string, path: Git.Path, outcome: GitOutcome)
    returns (run': seq<Action>, s': State)
    requires GitProgress(s0, run, s, mid, id, repo, stack, ApplyGit(Fetching))
    requires Git.SafeRepoPath(s.env.cloneDir, repo) == Some(path) && path in mid.disk
    requires outcome.Fails? ==> outcome.at.Fetching? || outcome.at.Resetting?
    ensures GitProgress(s0, run', s, s', id, repo, stack, ApplyUnlock)
    ensures outcome.Synced? ==> path in s'.disk && s'.disk[path].head == outcome.tip
    ensures outcome.Fails? && outcome.at.Fetching? ==> path in s'.disk && s'.disk[path].head == mid.disk[path].head
  {
    hide Git.SafeRepoPath, DiskElsewhere;
    if outcome.Fails? && outcome.at.Fetching? {
      run', s' := GitGoes(s0, run, s, mid, id, repo, stack, Fetching, GitError(outcome.left));
    } else {
      var tip := if outcome.Synced? then outcome.tip else Commit(0);
      var r1, s1 := GitGoes(s0, run, s, mid, id, repo, stack, Fetching, FetchDone(tip));
      run', s' := GitGoes(s0, r1, s, s1, id, repo, stack, Resetting, if outcome.Synced? then ResetDone else GitError(outcome.left));
    }
  }

  /** From the lock to the unlock. */
  lemma GitPart(s0: State, run: seq<Action>, s: State, id: nat, repo: string, stack: string, outcome: GitOutcome)
    returns (run': seq<Action>, s': State)
    requires Exec(s0, run) == Some(s) && id in s.pool.applies && s.pool.applies[id] == Apply(repo, stack, ApplyGit(Setup))
    requires Possible(s, repo, outcome)
    ensures GitProgress(s0, run', s, s', id, repo, stack, ApplyUnlock)
    ensures outcome.Synced? ==> HeadAt(s', repo) == Some(outcome.tip)
    ensures outcome.Fails? && (outcome.at.Setup? || outcome.at.Fetching?) && HeadAt(s, repo).Some? ==> HeadAt(s', repo) == HeadAt(s, repo)
  {
    assert GitProgress(s0, run, s, s, id, repo, stack, ApplyGit(Setup)) by {
      assert s.pool.applies[id := s.pool.applies[id]] == s.pool.applies;
    }
    hide Git.SafeRepoPath, GitProgress;
    if outcome.Fails? && outcome.at.Setup? {
      run', s' := GitGoes(s0, run, s, s, id, repo, stack, Setup, GitError(outcome.left));
      SameHeadAt(s0, run', s, s', id, repo, stack);
    } else {
      var path := Git.SafeRepoPath(s.env.cloneDir, repo).value;
      var r1, s1 := GitGoes(s0, run, s, s, id, repo, stack, Setup, Ready);
      SameCloneDirAt(s0, r1, s, s1, id, repo, stack, if path in s.disk then ApplyGit(Fetching) else ApplyGit(Cloning));
      if path !in s.disk {
        if outcome.Fails? && outcome.at.Cloning? {
          run', s' := GitGoes(s0, r1, s, s1, id, repo, stack, Cloning, GitError(outcome.left));
          return;
        }
        r1, s1 := GitGoes(s0, r1, s, s1, id, repo, stack, Cloning, CloneDone(Clone(Commit(0), Commit(0))));
      }
      run', s' := Fetches(s0, r1, s, s1, id, repo, stack, path, outcome);
      SameCloneDirAt(s0, run', s, s', id, repo, stack, ApplyUnlock);
    }
  }

  lemma SameCloneDirAt(s0: State, run: seq<Action>, s: State, s': State, id: nat, repo: string, stack: string, phase: ApplyPhase)
    requires GitProgress(s0, run, s, s', id, repo, stack, phase)
    ensures s'.env == s.env
  {
  }

  lemma SameHeadAt(s0: State, run: seq<Action>, s: State, s': State, id: nat, repo: string, stack: string)
    requires GitProgress(s0, run, s, s', id, repo, stack, ApplyUnlock) && s'.disk == s.disk
    ensures HeadAt(s', repo) == HeadAt(s, repo)
  {
  }

  /** From the unlock to the end of the goroutine; `compose` is where it runs compose. */
  lemma ComposePart(s0: State, run: seq<Action>, s: State, id: nat, repo: string, stack: string)
    returns (mid: seq<Action>, compose: State, run': seq<Action>, s': State)
    requires Exec(s0, run) == Some(s) && id in s.pool.applies && s.pool.applies[id] == Apply(repo, stack, ApplyUnlock)
    ensures Exec(s0, mid) == Some(compose) && RunsCompose(compose, Handler(id), Key(repo, stack)) && mid <= run'
    ensures Exec(s0, run') == Some(s')
    ensures s' == s.(locks := s.locks - {repo}, tables := WithStack(s.tables, repo, stack),
                     pool := s.pool.(applies := s.pool.applies - {id}, applying := s.pool.applying - {Key(repo, stack)}))
  {
    hide Exec, Key;
    var r1, s1 := Step(s0, run, s, ApplyStep(id, UnlockAfterGit));
    mid, compose := Step(s0, r1, s1, ApplyStep(id, BeginCompose));
    var s3 := Next(compose, ApplyStep(id, EndCompose)).value;
    var r3 := mid + [ApplyStep(id, EndCompose)];
    Then(s0, mid, compose, ApplyStep(id, EndCompose), s3);
    s' := Next(s3, ApplyStep(id, Leave)).value;
    run' := r3 + [ApplyStep(id, Leave)];
    Then(s0, r3, s3, ApplyStep(id, Leave), s');
    assert s'.pool.applies == s.pool.applies - {id};
  }

  /** From any state with the stack stored, its key not applying and the lock free, an apply nobody
      disturbs can be completed, whatever git does: it runs compose on the way, and afterwards lock,
      goroutine and key are gone, the stack is stored, and of the disk at most the repository's clone
      has changed, to the tip if git succeeded. */
  lemma WholeApply(s: State, repo: string, stack: string, outcome: GitOutcome)
    returns (mid: seq<Action>, compose: State, run: seq<Action>, s': State)
    requires PoolMatch(s.pool) && Serving(s.main) && repo != "" && stack != ""
    requires Key(repo, stack) in s.tables.stacks && Key(repo, stack) !in s.pool.applying && repo !in s.locks
    requires Possible(s, repo, outcome)
    ensures Exec(s, mid) == Some(compose) && RunsCompose(compose, Handler(s.pool.nextId), Key(repo, stack)) && mid <= run
    ensures Exec(s, run) == Some(s')
    ensures s' == s.(disk := s'.disk, tables := WithStack(s.tables, repo, stack), pool := s.pool.(nextId := s.pool.nextId + 1))
    ensures DiskElsewhere(s, s', repo) && (outcome.Synced? ==> HeadAt(s', repo) == Some(outcome.tip))
    ensures outcome.Fails? && (outcome.at.Setup? || outcome.at.Fetching?) && HeadAt(s, repo).Some? ==> HeadAt(s', repo) == HeadAt(s, repo)
  {
    assert Exec(s, []) == Some(s);
    hide Exec, Key, Git.SafeRepoPath, HeadAt, RunsCompose, DiskElsewhere, WithStack;
    var id := s.pool.nextId;
    assert id !in s.pool.applies;
    var r1, s1 := ApplyLocks(s, [], s, repo, stack);
    SameHeads(s, s1, repo);
    var r2, s2 := GitPart(s, r1, s1, id, repo, stack, outcome);
    mid, compose, run, s' := ComposePart(s, r2, s2, id, repo, stack);
    SameHeads(s2, s', repo);
    SameElsewhere(s, s1, s2, s', repo);
    PoolBack(s.pool, id, Apply(repo, stack, ApplyGit(Setup)), Apply(repo, stack, ApplyUnlock), Key(repo, stack));
    LockBack(s.locks, repo, Handler(id));
  }

  lemma PoolBack(p: Pool, id: nat, first: Apply, second: Apply, key: string)
    requires id !in p.applies && key !in p.applying
    ensures p.applies[id := first][id := second] - {id} == p.applies && p.applying + {key} - {key} == p.applying
  {
  }

  lemma LockBack(locks: map<string, Thread>, repo: string, t: Thread)
    requires repo !in locks
    ensures locks[repo := t] - {repo} == locks
  {
  }

  lemma SameElsewhere(s: State, s1: State, s2: State, s': State, repo: string)
    requires s1.disk == s.disk && s1.env == s.env && s'.disk == s2.disk && DiskElsewhere(s1, s2, repo)
    ensures DiskElsewhere(s, s', repo)
  {
  }

  lemma SameHeads(s: State, s': State, repo: string)
    requires s'.disk == s.disk && s'.env == s.env
    ensures HeadAt(s', repo) == HeadAt(s, repo)
  {
  }
}
