/** Runs that show what the program can do: what a stacks directory outside the clone leads to, and
    how a shorter interval ends the protection of a longer one. */
module EngineRuns {
  import opened Common
  import opened Backoff
  import opened SyncLog
  import opened Keys
  import opened Engine
  import opened EngineCall
  import EngineDisk
  import EngineSha
  import Git

  lemma Step(s: State, run: seq<Action>, mid: State, a: Action) returns (run': seq<Action>, s': State)
    requires Exec(s, run) == Some(mid) && Next(mid, a).Some?
    ensures Exec(s, run') == Some(s') && Next(mid, a) == Some(s')
  {
    s' := Next(mid, a).value;
    run' := run + [a];
    Then(s, run, mid, a, s');
  }

  /** A whole call at the end of a run. */
  lemma Call(s: State, run: seq<Action>, mid: State, j: Sync, path: Git.Path, tip: Commit, entries: seq<string>)
    returns (run': seq<Action>, s': State)
    requires Exec(s, run) == Some(mid) && mid.job == Some(j) && j.phase.Mark? && j.reading == [] && j.repo.name !in mid.locks
    requires Git.SafeRepoPath(mid.env.cloneDir, j.repo.name) == Some(path) && forall e | e in entries :: Git.EntryName(e)
    ensures Exec(s, run') == Some(s')
    ensures var todo := ToCompose(mid, j, tip, entries);
            s' == mid.(job := None, disk := mid.disk[path := Clone(tip, tip)],
                       tables := FinishedTables(mid, j, tip, todo),
                       hist := FinishedHistory(mid, j, tip, Readings(s', j.repo, todo)))
  {
    hide Git.SafeRepoPath, Git.EntryName, Exec, FinishedTables, FinishedHistory, ToCompose, Readings;
    var call, s1 := WholeRun(mid, j, path, tip, entries);
    ExecConcat(s, run, mid, call);
    run', s' := run + call, s1;
  }

  /** The initial state, with whatever links there are. */
  predicate Fresh(s: State, cloneDir: string) {
    s == Init(cloneDir, 0).(env := s.env) && s.env == Env(cloneDir, 0, false, s.env.links, s.env.relinked)
  }

  /** The first call of all: a startup sync, from the initial state with the links there are. */
  function FirstCall(s0: State, repo: RepoConfig): State {
    Begin(s0, Starting([], 0), s0.tables, repo, Startup, 0)
  }

  /** The startup sync of one repository. */
  lemma StartupSync(cloneDir: string, s0: State, run0: seq<Action>, repo: RepoConfig, path: Git.Path, tip: Commit, entries: seq<string>)
    returns (run: seq<Action>, s: State)
    requires Exec(Init(cloneDir, 0), run0) == Some(s0) && Fresh(s0, cloneDir)
    requires repo.enabled && Git.SafeRepoPath(cloneDir, repo.name) == Some(path) && forall e | e in entries :: Git.EntryName(e)
    ensures Exec(Init(cloneDir, 0), run) == Some(s)
    ensures var begun := FirstCall(s0, repo);
            s == begun.(job := None, disk := map[path := Clone(tip, tip)],
                        tables := FinishedTables(begun, begun.job.value, tip, entries),
                        hist := FinishedHistory(begun, begun.job.value, tip, Readings(s, repo, entries)))
  {
    hide Git.SafeRepoPath, Git.EntryName, FinishedTables, FinishedHistory, Readings;
    var init := Init(cloneDir, 0);
    var r1, s1 := Step(init, run0, s0, MainStep(List([repo], 0)));
    assert [repo][1..] == [];
    var r2, s2 := Step(init, r1, s1, MainStep(Proceed));
    run, s := Call(init, r2, s2, s2.job.value, path, tip, entries);
  }

  // ---- The stacks directory ----------------------------------------------------------------------

  /** The compose runs of the repository that found its stacks in `dir` read the commit stored. */
  ghost predicate StoredAt(s: State, name: string, dir: Git.Path) {
    forall i, k | 0 <= i < |s.hist.reports| && 0 <= k < |s.hist.reports[i].reading|
                  && s.hist.reports[i].repo.name == name && s.hist.reports[i].reading[k].dir == Some(dir) ::
      s.hist.reports[i].reading[k].commit == Some(s.hist.reports[i].sha)
  }

  ghost predicate AlwaysStoredAt(cloneDir: string, name: string, dir: Git.Path) {
    forall s, clock, run | Reached(s, cloneDir, clock, run) :: StoredAt(s, name, dir)
  }

  /** The first sync of a repository whose stacks directory leads out of its clone composes a stack
      that lies in no clone. `s0` is the initial state, with the links there are. */
  lemma OutsideSync(s0: State, run0: seq<Action>, cloneDir: string, repo: RepoConfig, dir: Git.Path) returns (run: seq<Action>, s: State)
    requires Exec(Init(cloneDir, 0), run0) == Some(s0) && Fresh(s0, cloneDir)
    requires Git.ValidRepoName(repo.name) && repo.enabled && DirOf(s0, repo) == Some(dir) && !Git.InClone(cloneDir, repo.name, dir)
    ensures Reached(s, cloneDir, 0, run) && s.env.relinked == s0.env.relinked
    ensures |s.hist.reports| == 1 && s.hist.reports[0].repo == repo && |s.hist.reports[0].reading| == 2
    ensures s.hist.reports[0].reading[0].dir == Some(dir) && s.hist.reports[0].reading[0].commit.None?
  {
    Git.RepoDirectory(cloneDir, repo.name);
    var path := Git.SafeRepoPath(cloneDir, repo.name).value;
    var stack := if repo.name == "x" then "y" else "x";
    Git.StackInside(cloneDir, repo.name, dir, stack);
    hide Git.SafeRepoPath, Git.ValidRepoName, Git.InClone, Git.StackClone, Git.StacksDir, FinishedTables;
    run, s := StartupSync(cloneDir, s0, run0, repo, path, Commit(0), [stack]);
    assert DirOf(s, repo) == DirOf(s0, repo);
    assert Readings(s, repo, [stack]) == [ReadAt(s, repo, stack), ReadAt(s, repo, stack)] by { assert [stack][1..] == []; }
  }

  /** A compose run is sure to read what its call stores exactly when the directory it finds its
      stacks in, links followed, lies in the repository's clone. */
  lemma StoredAtIff(cloneDir: string, name: string, dir: Git.Path)
    requires Git.ValidRepoName(name)
    ensures AlwaysStoredAt(cloneDir, name, dir) <==> Git.InClone(cloneDir, name, dir)
  {
    if Git.InClone(cloneDir, name, dir) {
      forall s, clock, run | Reached(s, cloneDir, clock, run)
        ensures StoredAt(s, name, dir)
      {
        hide Git.InClone, Git.ValidRepoName;
        EngineDisk.CommitStability(s, cloneDir, clock, run);
      }
    } else {
      var repo := RepoConfig(name, ".", 1, true);
      Git.RepoDirectory(cloneDir, name);
      var links := map[Git.StacksDir(cloneDir, name, ".").value := dir];
      var run0, s0 := Step(Init(cloneDir, 0), [], Init(cloneDir, 0), Relink(links));
      hide Git.InClone, Git.ValidRepoName, Git.StacksDir;
      var run, s := OutsideSync(s0, run0, cloneDir, repo, dir);
      assert !StoredAt(s, name, dir);
    }
  }

  // ---- Without symbolic links --------------------------------------------------------------------

  predicate DirsPlain(cloneDir: string, repo: RepoConfig, reading: seq<Reading>) {
    forall i | 0 <= i < |reading| :: reading[i].dir == Git.StacksDir(cloneDir, repo.name, repo.stacksDir)
  }

  /** As long as there are no links, stacks are found in the directory the configuration names. */
  ghost predicate PlainMatch(s: State) {
    s.env.relinked ||
    (&& s.env.links == map[]
     && (s.job.Some? ==> DirsPlain(s.env.cloneDir, s.job.value.repo, s.job.value.reading))
     && (forall i | 0 <= i < |s.hist.reports| :: DirsPlain(s.env.cloneDir, s.hist.reports[i].repo, s.hist.reports[i].reading)))
  }

  lemma PlainSyncStep(s: State, x: SyncAction, s': State)
    requires s.job.Some? && PlainMatch(s) && NextSync(s, s.job.value, x) == Some(s')
    ensures PlainMatch(s')
  {
    hide CommitIn, HeadAt, Git.StacksDir, WithStack, WithStatus;
    SyncFrame(s, s.job.value, x, s');
    if x == Record {
      EngineSha.RecordEffects(s, s');
    }
  }

  lemma PlainStep(s: State, a: Action, s': State)
    requires PlainMatch(s) && Next(s, a) == Some(s')
    ensures PlainMatch(s')
  {
    hide DirsPlain;
    match a
    case SyncStep(x) => PlainSyncStep(s, x, s');
    case MainStep(m) => PlainMainStep(s, m, s');
    case GitStep(t, g) =>
      GitFrame(s, t, g, s');
      EngineSha.GitJobFrame(s, t, g, s');
    case ApplyStep(id, x) => ApplyFrame(s, id, x, s');
    case _ =>
  }

  lemma PlainMainStep(s: State, m: MainAction, s': State)
    requires s.job.None? && PlainMatch(s) && NextMain(s, m) == Some(s')
    ensures PlainMatch(s')
  {
    hide NextMain;
    MainFrame(s, m, s');
    MainHistory(s, m, s');
  }

  lemma {:induction false} PlainRun(s: State, cloneDir: string, clock: int, run: seq<Action>)
    requires Reached(s, cloneDir, clock, run)
    ensures PlainMatch(s)
    decreases |run|
  {
    if run != [] {
      var before := Exec(Init(cloneDir, clock), DropLast(run)).value;
      PlainRun(before, cloneDir, clock, DropLast(run));
      PlainStep(before, Last(run), s);
    }
  }

  /** In every run without symbolic links, every compose run of the repository with this stacks
      directory reads the commit that its call stores. */
  ghost predicate ComposesStored(cloneDir: string, name: string, stacksDir: string) {
    forall s, clock, run | Reached(s, cloneDir, clock, run) && !s.env.relinked :: ReportsStored(s, name, stacksDir)
  }

  ghost predicate ReportsStored(s: State, name: string, stacksDir: string) {
    forall i, k | 0 <= i < |s.hist.reports| && 0 <= k < |s.hist.reports[i].reading|
                  && s.hist.reports[i].repo.name == name && s.hist.reports[i].repo.stacksDir == stacksDir ::
      s.hist.reports[i].reading[k].commit == Some(s.hist.reports[i].sha)
  }

  /** Where there are no links, composing what is stored is guaranteed exactly when the stacks
      directory, joined to the clone's destination string, lies in the clone. */
  lemma ComposesStoredIff(cloneDir: string, name: string, stacksDir: string, dest: string)
    requires Git.ValidRepoName(name) && dest != "" && Git.SafeRepoPath(cloneDir, name) == Some(Git.Clean(dest))
    ensures ComposesStored(cloneDir, name, stacksDir) <==> Git.Within(Git.Clean(dest), Git.Join(dest, stacksDir))
  {
    var dir := Git.Join(dest, stacksDir);
    Git.StacksDirIsJoin(cloneDir, name, stacksDir, dest);
    assert Git.InClone(cloneDir, name, dir) <==> Git.Within(Git.Clean(dest), dir);
    hide Git.InClone, Git.ValidRepoName, Git.StacksDir, Git.Join, Git.Within;
    if Git.InClone(cloneDir, name, dir) {
      forall s, clock, run | Reached(s, cloneDir, clock, run) && !s.env.relinked
        ensures ReportsStored(s, name, stacksDir)
      {
        PlainStored(s, cloneDir, clock, run, name, stacksDir, dir);
      }
    } else {
      var s0 := Init(cloneDir, 0);
      var run, s := OutsideSync(s0, [], cloneDir, RepoConfig(name, stacksDir, 1, true), dir);
      assert !ReportsStored(s, name, stacksDir);
    }
  }

  lemma PlainStored(s: State, cloneDir: string, clock: int, run: seq<Action>, name: string, stacksDir: string, dir: Git.Path)
    requires Reached(s, cloneDir, clock, run) && !s.env.relinked
    requires Git.StacksDir(cloneDir, name, stacksDir) == Some(dir) && Git.InClone(cloneDir, name, dir)
    ensures ReportsStored(s, name, stacksDir)
  {
    hide Git.InClone, Git.ValidRepoName, Git.StacksDir;
    PlainRun(s, cloneDir, clock, run);
    EngineDisk.SameCloneDir(s, cloneDir, clock, run);
    EngineDisk.CommitStability(s, cloneDir, clock, run);
    forall i, k | 0 <= i < |s.hist.reports| && 0 <= k < |s.hist.reports[i].reading|
                  && s.hist.reports[i].repo.name == name && s.hist.reports[i].repo.stacksDir == stacksDir
      ensures s.hist.reports[i].reading[k].commit == Some(s.hist.reports[i].sha)
    {
      assert DirsPlain(cloneDir, s.hist.reports[i].repo, s.hist.reports[i].reading);
      assert EngineDisk.ReadsOwn(cloneDir, name, s.hist.reports[i].reading[k]);
    }
  }

  // ---- A stacks directory in another clone -------------------------------------------------------

  /** A per-stack apply of an unlocked repository, from the request to its lock. */
  lemma ApplyLocks(s: State, run: seq<Action>, mid: State, repo: string, stack: string) returns (run': seq<Action>, s': State)
    requires Exec(s, run) == Some(mid) && Serving(mid.main) && repo != "" && stack != ""
    requires Key(repo, stack) in mid.tables.stacks && Key(repo, stack) !in mid.pool.applying && repo !in mid.locks
    ensures Exec(s, run') == Some(s')
    ensures var id := mid.pool.nextId;
            s' == mid.(locks := mid.locks[repo := Handler(id)],
                       pool := Pool(mid.pool.applies[id := Apply(repo, stack, ApplyGit(Setup))], id + 1, mid.pool.applying + {Key(repo, stack)}))
  {
    hide Exec, Key;
    var id := mid.pool.nextId;
    var r1, s1 := Step(s, run, mid, ApplyRequest(repo, stack));
    var r2, s2 := Step(s, r1, s1, ApplyStep(id, Found(true)));
    run', s' := Step(s, r2, s2, ApplyStep(id, LockForApply));
  }

  /** One git command of an apply goroutine. */
  lemma ApplyGitThen(s: State, run: seq<Action>, mid: State, id: nat, g: GitAction) returns (run': seq<Action>, s': State)
    requires Exec(s, run) == Some(mid) && id in mid.pool.applies && mid.pool.applies[id].phase.ApplyGit?
    requires GitCommand(mid, mid.pool.applies[id].repo, mid.pool.applies[id].phase.git, g).Some?
    ensures Exec(s, run') == Some(s')
    ensures var h := mid.pool.applies[id]; var r := GitCommand(mid, h.repo, h.phase.git, g).value;
            s' == mid.(disk := r.0, pool := At(mid.pool, id, match r.1 case Continue(p) => ApplyGit(p) case _ => ApplyUnlock))
  {
    hide GitCommand, Exec;
    run', s' := Step(s, run, mid, GitStep(Handler(id), g));
  }

  /** A per-stack apply of an unlocked repository, up to its unlock: it moves that clone and nothing
      else on disk. */
  lemma ApplyMoves(s: State, run: seq<Action>, mid: State, repo: string, stack: string, path: Git.Path, tip: Commit)
    returns (run': seq<Action>, s': State)
    requires Exec(s, run) == Some(mid) && Serving(mid.main) && repo != "" && stack != ""
    requires Key(repo, stack) in mid.tables.stacks && Key(repo, stack) !in mid.pool.applying && repo !in mid.locks
    requires Git.SafeRepoPath(mid.env.cloneDir, repo) == Some(path) && path in mid.disk
    ensures Exec(s, run') == Some(s')
    ensures s' == mid.(disk := mid.disk[path := Clone(tip, tip)], pool := s'.pool, locks := s'.locks)
    ensures forall r | r in mid.locks :: r in s'.locks
  {
    hide Git.SafeRepoPath, Exec, Key;
    var id := mid.pool.nextId;
    var r1, s1 := ApplyLocks(s, run, mid, repo, stack);
    var r2, s2 := ApplyGitThen(s, r1, s1, id, Ready);
    var r3, s3 := ApplyGitThen(s, r2, s2, id, FetchDone(tip));
    run', s' := ApplyGitThen(s, r3, s3, id, ResetDone);
  }

  /** The main loop is composing stack "x" of `repo`, having read HEAD at `tip`. */
  predicate ComposingX(s: State, repo: RepoConfig, tip: Commit, read: Reading) {
    && s.job.Some? && s.main.Round? && repo.name in s.locks
    && s.job.value.repo == repo && s.job.value.phase == Composing("x", [])
    && s.job.value.seen == s.job.value.tip == Some(tip) && s.job.value.reading == [read]
  }

  /** From a scheduled start of a repository never synced, up to the compose run of its first stack. */
  lemma UpToCompose(s: State, run: seq<Action>, mid: State, j: Sync, path: Git.Path, tip: Commit) returns (run': seq<Action>, s': State)
    requires Exec(s, run) == Some(mid) && mid.job == Some(j) && j.phase.Mark? && j.reading == [] && mid.main.Round?
    requires j.repo.name !in mid.locks && LastSHA(mid, j.repo.name).None? && Git.SafeRepoPath(mid.env.cloneDir, j.repo.name) == Some(path)
    ensures Exec(s, run') == Some(s')
    ensures s'.env.cloneDir == mid.env.cloneDir && s'.env.links == mid.env.links && s'.env.relinked == mid.env.relinked
    ensures s'.disk == mid.disk[path := Clone(tip, tip)] && s'.main == mid.main && s'.pool == mid.pool
    ensures s'.locks == mid.locks[j.repo.name := MainLoop] && (forall k | k in mid.tables.stacks :: k in s'.tables.stacks)
    ensures ComposingX(s', j.repo, tip, ReadAt(s', j.repo, "x")) && s'.hist.reports == mid.hist.reports
  {
    hide Git.SafeRepoPath, Exec, Key, ReadAt, HeadAt, LastSHA;
    var call, s1 := GitStage(mid, j, path, tip);
    ExecConcat(s, run, mid, call);
    HeadThere(s1, j.repo.name, path);
    var r2, s2 := SyncThen(s, run + call, s1, s1.job.value, HeadOk);
    var r3, s3 := SyncThen(s, r2, s2, s2.job.value, ListStacks(["x"]));
    run', s' := SyncThen(s, r3, s3, s3.job.value, NextStack);
    SameRead(s3, s', j.repo, "x");
    assert [] + [ReadAt(s', j.repo, "x")] == [ReadAt(s', j.repo, "x")];
  }

  /** The rest of that call. */
  lemma FromCompose(s: State, run: seq<Action>, mid: State, repo: RepoConfig, tip: Commit, read: Reading)
    returns (run': seq<Action>, s': State)
    requires Exec(s, run) == Some(mid) && ComposingX(mid, repo, tip, read)
    ensures Exec(s, run') == Some(s') && s'.env.relinked == mid.env.relinked
    ensures s'.hist.reports == mid.hist.reports + [Report(repo, tip, Some(tip), [read, ReadAt(mid, repo, "x")])]
  {
    hide Exec, Key, ReadAt, HeadAt, LastSHA;
    var r1, s1 := SyncThen(s, run, mid, mid.job.value, ComposeDone);
    var r2, s2 := SyncThen(s, r1, s1, s1.job.value, NextStack);
    run', s' := SyncThen(s, r2, s2, s2.job.value, Record);
    assert [read] + [ReadAt(mid, repo, "x")] == [read, ReadAt(mid, repo, "x")];
  }

  /** A stacks directory that leads to the top of another repository's clone. */
  lemma ReadOf(s: State, repo: RepoConfig, stack: string, other: string)
    requires Git.ValidRepoName(other) && DirOf(s, repo) == Git.SafeRepoPath(s.env.cloneDir, other)
    ensures ReadAt(s, repo, stack) == Reading(stack, Git.SafeRepoPath(s.env.cloneDir, other), HeadAt(s, other))
  {
    Git.RepoDirectory(s.env.cloneDir, other);
    Git.StackInside(s.env.cloneDir, other, Git.SafeRepoPath(s.env.cloneDir, other).value, stack);
  }

  /** After the startup sync of `first` a round begins a call for `second`, never synced before. */
  lemma SecondStart(s: State, run: seq<Action>, mid: State, second: RepoConfig) returns (run': seq<Action>, s': State)
    requires Exec(s, run) == Some(mid) && mid.job.None? && mid.main == Starting([], 0) && !mid.env.cancelled && second.enabled
    requires second.name !in mid.tables.backoff && second.name !in mid.tables.nextDue
    ensures Exec(s, run') == Some(s') && s' == Begin(mid, Round([second], [], 0), mid.tables, second, Scheduled, 0)
  {
    hide Exec;
    var r1, s1 := Step(s, run, mid, MainStep(Proceed));
    var r2, s2 := Step(s, r1, s1, MainStep(List([second], 0)));
    run', s' := Step(s, r2, s2, MainStep(Proceed));
    assert [second][1..] == [];
  }

  /** The main loop composes stack "x" of `repo` out of b's clone, which is at `before`; nobody holds
      b's lock, and b's own stack "x" is stored. */
  ghost predicate BetweenNeighbours(s: State, cloneDir: string, repo: RepoConfig, b: string, tip: Commit, before: Commit) {
    && s.env.cloneDir == cloneDir && DirOf(s, repo) == Git.SafeRepoPath(cloneDir, b) && b !in s.locks
    && ComposingX(s, repo, tip, Reading("x", Git.SafeRepoPath(cloneDir, b), Some(before)))
    && s.pool == Pool(map[], 0, {}) && Key(b, "x") in s.tables.stacks && |s.hist.reports| == 1
    && HeadAt(s, b) == Some(before)
  }

  lemma NeighbourHalf(cloneDir: string, s0: State, run0: seq<Action>, repo: RepoConfig, b: string, tip: Commit, before: Commit)
    returns (run: seq<Action>, s: State)
    requires Exec(Init(cloneDir, 0), run0) == Some(s0) && Fresh(s0, cloneDir)
    requires Git.ValidRepoName(repo.name) && Git.ValidRepoName(b) && repo.name != b && repo.enabled
    requires DirOf(s0, repo) == Git.SafeRepoPath(cloneDir, b)
    ensures Reached(s, cloneDir, 0, run) && s.env.relinked == s0.env.relinked
    ensures BetweenNeighbours(s, cloneDir, repo, b, tip, before)
  {
    var a := repo.name;
    Git.RepoDirectory(cloneDir, a);
    Git.RepoDirectory(cloneDir, b);
    Git.DirectoriesDistinct(cloneDir, a, b);
    var pathA, pathB := Git.SafeRepoPath(cloneDir, a).value, Git.SafeRepoPath(cloneDir, b).value;
    var repoB := RepoConfig(b, ".", 1, true);
    assert Git.EntryName("x");
    hide Git.SafeRepoPath, Git.ValidRepoName, Git.StacksDir, Git.EntryName, Exec, Key, ReadAt, HeadAt, FinishedTables, Readings;
    var init := Init(cloneDir, 0);
    var r1, s1 := StartupSync(cloneDir, s0, run0, repoB, pathB, before, ["x"]);
    NeighbourStored(s1, s0, repoB, before, a);
    var r2, s2 := SecondStart(init, r1, s1, repo);
    run, s := UpToCompose(init, r2, s2, s2.job.value, pathA, tip);
    HeadThere(s, b, pathB);
    ReadOf(s, repo, "x", b);
  }

  /** When its stacks directory leads into b's clone, a repository's compose run reads that clone, and
      a per-stack apply of b moves it meanwhile. */
  lemma NeighbourFrom(cloneDir: string, s0: State, run0: seq<Action>, repo: RepoConfig, b: string, tip: Commit, before: Commit, after: Commit)
    returns (run: seq<Action>, s: State)
    requires Exec(Init(cloneDir, 0), run0) == Some(s0) && Fresh(s0, cloneDir)
    requires Git.ValidRepoName(repo.name) && Git.ValidRepoName(b) && repo.name != b && repo.enabled
    requires DirOf(s0, repo) == Git.SafeRepoPath(cloneDir, b)
    ensures Reached(s, cloneDir, 0, run) && s.env.relinked == s0.env.relinked && |s.hist.reports| == 2
    ensures var dir := Git.SafeRepoPath(cloneDir, b);
            s.hist.reports[1] == Report(repo, tip, Some(tip), [Reading("x", dir, Some(before)), Reading("x", dir, Some(after))])
  {
    var r1, s1 := NeighbourHalf(cloneDir, s0, run0, repo, b, tip, before);
    Git.RepoDirectory(cloneDir, b);
    assert b != "";
    var path := Git.SafeRepoPath(cloneDir, b).value;
    hide Git.SafeRepoPath, Git.ValidRepoName, Git.StacksDir, Exec, Key, ReadAt;
    var r2, s2 := ApplyMoves(Init(cloneDir, 0), r1, s1, b, "x", path, after);
    ReadOf(s2, repo, "x", b);
    run, s := FromCompose(Init(cloneDir, 0), r2, s2, repo, tip, Reading("x", Some(path), Some(before)));
  }

  /** A stacks directory "../b" makes the compose runs of a read b's clone, which a per-stack apply of
      b moves while they run: neither end need be the commit stored for a, and the two ends differ. */
  lemma NeighbourRun(cloneDir: string, a: string, b: string, tip: Commit, before: Commit, after: Commit) returns (run: seq<Action>, s: State)
    requires Git.ValidRepoName(a) && Git.ValidRepoName(b) && a != b
    ensures Reached(s, cloneDir, 0, run) && !s.env.relinked && |s.hist.reports| == 2
    ensures var dir := Git.SafeRepoPath(cloneDir, b);
            s.hist.reports[1] ==
            Report(RepoConfig(a, "../" + b, 1, true), tip, Some(tip), [Reading("x", dir, Some(before)), Reading("x", dir, Some(after))])
  {
    Git.RepoDirectory(cloneDir, b);
    Git.NeighbourStacks(cloneDir, a, b);
    hide Git.SafeRepoPath, Git.ValidRepoName, Git.StacksDir;
    run, s := NeighbourFrom(cloneDir, Init(cloneDir, 0), [], RepoConfig(a, "../" + b, 1, true), b, tip, before, after);
  }

  /** So does any stacks directory inside a's clone that is a symbolic link to b's clone. */
  lemma LinkedNeighbourRun(cloneDir: string, a: string, stacksDir: string, b: string, tip: Commit, before: Commit, after: Commit)
    returns (run: seq<Action>, s: State)
    requires Git.ValidRepoName(a) && Git.ValidRepoName(b) && a != b
    ensures Reached(s, cloneDir, 0, run) && |s.hist.reports| == 2
    ensures var dir := Git.SafeRepoPath(cloneDir, b);
            s.hist.reports[1] ==
            Report(RepoConfig(a, stacksDir, 1, true), tip, Some(tip), [Reading("x", dir, Some(before)), Reading("x", dir, Some(after))])
  {
    Git.RepoDirectory(cloneDir, a);
    Git.RepoDirectory(cloneDir, b);
    var links := map[Git.StacksDir(cloneDir, a, stacksDir).value := Git.SafeRepoPath(cloneDir, b).value];
    var run0, s0 := Step(Init(cloneDir, 0), [], Init(cloneDir, 0), Relink(links));
    hide Git.SafeRepoPath, Git.ValidRepoName, Git.StacksDir;
    run, s := NeighbourFrom(cloneDir, s0, run0, RepoConfig(a, stacksDir, 1, true), b, tip, before, after);
  }

  /** What the startup sync of b has put into the tables. */
  lemma NeighbourStored(s: State, s0: State, repo: RepoConfig, tip: Commit, other: string)
    requires s0.tables == Tables(map[], map[], map[], map[]) && other != repo.name
    requires var begun := FirstCall(s0, repo); s.tables == FinishedTables(begun, begun.job.value, tip, ["x"])
    ensures Key(repo.name, "x") in s.tables.stacks
    ensures other !in s.tables.backoff && other !in s.tables.nextDue && other !in s.tables.repos
  {
    var begun := FirstCall(s0, repo);
    StacksAdded(WithStatus(begun.tables, repo.name, Syncing), repo.name, ["x"]);
    assert "x" in ["x"];
  }

  // ---- The trigger channel ---------------------------------------------------------------------

  /** Sixteen names, or fewer, are accepted in a row with no receive between them. */
  lemma {:induction false} SixteenAccepted(cloneDir: string, names: seq<string>) returns (run: seq<Action>, s: State)
    requires |names| <= 16 && "" !in names
    ensures Reached(s, cloneDir, 0, run) && MainStep(Receive) !in run && s.main == Top
    ensures s.hist.accepted == s.queue == names
    decreases |names|
  {
    hide Exec;
    var init := Init(cloneDir, 0);
    if names == [] {
      var s0 := Next(init, MainStep(List([], 0))).value;
      StepFrom(init, MainStep(List([], 0)), s0);
      s := Next(s0, MainStep(Proceed)).value;
      run := [MainStep(List([], 0))] + [MainStep(Proceed)];
      Then(init, [MainStep(List([], 0))], s0, MainStep(Proceed), s);
    } else {
      var past, before := SixteenAccepted(cloneDir, DropLast(names));
      s := Next(before, SyncRequest(Last(names))).value;
      run := past + [SyncRequest(Last(names))];
      Then(init, past, before, SyncRequest(Last(names)), s);
      assert names == DropLast(names) + [Last(names)];
    }
  }

  lemma StepFrom(s: State, a: Action, s': State)
    requires Next(s, a) == Some(s')
    ensures Exec(s, [a]) == Some(s')
  {
    assert DropLast([a]) == [];
  }

  // ---- A shorter interval ----------------------------------------------------------------------

  /** From the end of the startup sync to a round that skips the repository. */
  lemma SkippedRound(s: State, run: seq<Action>, mid: State, repo: RepoConfig) returns (run': seq<Action>, s': State)
    requires Exec(s, run) == Some(mid) && mid.job.None? && mid.main == Starting([], 0) && !mid.env.cancelled
    requires !Due(DueOf(mid, repo.name), mid.env.clock)
    ensures Exec(s, run') == Some(s') && s' == mid.(main := Select([repo], 0))
  {
    hide Exec, Due, DueOf, Skips, EntryOf;
    var r1, s1 := Step(s, run, mid, MainStep(Proceed));
    var r2, s2 := Step(s, r1, s1, MainStep(List([repo], 0)));
    assert DueOf(s2, repo.name) == DueOf(mid, repo.name) by { SameDue(mid, s2, repo.name); }
    var r3, s3 := Step(s, r2, s2, MainStep(Proceed));
    assert [repo][1..] == [];
    run', s' := Step(s, r3, s3, MainStep(Proceed));
  }

  lemma SameDue(s: State, s': State, repo: string)
    requires s'.tables == s.tables
    ensures DueOf(s', repo) == DueOf(s, repo)
  {
  }

  /** A trigger is accepted, drained, and its repository's manual sync begins. */
  lemma TriggeredSync(s: State, run: seq<Action>, mid: State, repo: RepoConfig) returns (run': seq<Action>, s': State)
    requires Exec(s, run) == Some(mid) && mid.job.None? && mid.main == Select([repo], 0) && mid.queue == [] && repo.name != ""
    ensures Exec(s, run') == Some(s')
    ensures var hist := mid.hist.(accepted := mid.hist.accepted + [repo.name]);
            s' == Begin(mid.(hist := hist), Triggered([repo], 0, [repo.name], [repo.name], []),
                        mid.tables.(backoff := mid.tables.backoff[repo.name := FRESH]), repo, Manual, 0)
  {
    hide Exec;
    var r1, s1 := Step(s, run, mid, SyncRequest(repo.name));
    var r2, s2 := Step(s, r1, s1, MainStep(Receive));
    assert s2.queue == [] && s2.main == Draining([repo], 0, [repo.name]);
    var r3, s3 := Step(s, r2, s2, MainStep(Proceed));
    run', s' := Step(s, r3, s3, MainStep(Proceed));
    assert [repo][1..] == [] && [] + [repo.name] == [repo.name];
  }

  /** The manual syncs are done, time passes, and the next round starts the repository again. */
  lemma NextScheduled(s: State, run: seq<Action>, mid: State, repo: RepoConfig, elapsed: nat) returns (run': seq<Action>, s': State)
    requires Exec(s, run) == Some(mid) && mid.job.None? && mid.main.Triggered? && mid.main.todo == []
    requires !mid.env.cancelled && repo.enabled && EntryOf(mid, repo.name) == FRESH && Due(DueOf(mid, repo.name), mid.env.clock + elapsed)
    ensures Exec(s, run') == Some(s')
    ensures s'.hist.log == Append(mid.hist.log, repo.name, Start(Scheduled, true, mid.env.clock + elapsed))
  {
    hide Exec, Append;
    var r1, s1 := Step(s, run, mid, MainStep(Proceed));
    var r2, s2 := Step(s, r1, s1, Advance(elapsed));
    var r3, s3 := Step(s, r2, s2, MainStep(List([repo], 0)));
    run', s' := Step(s, r3, s3, MainStep(Proceed));
  }

  /** The manual sync with an interval of 1 s, at time 0. */
  lemma ShortManual(s: State, run: seq<Action>, mid: State, name: string, path: Git.Path) returns (run': seq<Action>, s': State)
    requires var short := RepoConfig(name, ".", 1, true);
             Exec(s, run) == Some(mid) && mid.job.None? && mid.main == Select([short], 0) && mid.queue == [] && mid.env.clock == 0
    requires name != "" && name !in mid.locks && Git.SafeRepoPath(mid.env.cloneDir, name) == Some(path)
    ensures Exec(s, run') == Some(s')
    ensures s'.job.None? && s'.main.Triggered? && s'.main.todo == [] && s'.env.cancelled == mid.env.cancelled && s'.env.clock == 0
    ensures EntryOf(s', name) == FRESH && DueOf(s', name) == Some(SECOND)
    ensures LogOf(s', name) == LogOf(mid, name) + [Start(Manual, true, 0)] + [Succeeded(SECOND, 0)]
  {
    hide Git.SafeRepoPath, Exec, Readings;
    var r1, s1 := TriggeredSync(s, run, mid, RepoConfig(name, ".", 1, true));
    assert LogOf(s1, name) == LogOf(mid, name) + [Start(Manual, true, 0)];
    hide FinishedTables, FinishedHistory, LogOf;
    run', s' := Call(s, r1, s1, s1.job.value, path, Commit(0), []);
    CallDone(s1, s', s1.job.value, Commit(0));
  }

  /** Until the scheduled start: a startup sync at 100 s, then a manual one after the interval was
      set to 1 s. */
  lemma ShorterInterval(cloneDir: string, name: string) returns (run: seq<Action>, s: State)
    requires Git.ValidRepoName(name)
    ensures Exec(Init(cloneDir, 0), run) == Some(s)
    ensures s.job.None? && s.main.Triggered? && s.main.todo == [] && !s.env.cancelled && s.env.clock == 0
    ensures EntryOf(s, name) == FRESH && DueOf(s, name) == Some(SECOND)
    ensures LogOf(s, name) == SHRINKING_LOG[..4]
  {
    Git.RepoDirectory(cloneDir, name);
    var path := Git.SafeRepoPath(cloneDir, name).value;
    var long := RepoConfig(name, ".", 100, true);
    assert name != "";
    hide Git.SafeRepoPath, Git.ValidRepoName, Exec, Readings, FinishedTables, FinishedHistory;
    var s0 := Init(cloneDir, 0);
    var r1, s1 := StartupSync(cloneDir, s0, [], long, path, Commit(0), []);
    StartupDone(s1, cloneDir, long, path, Commit(0));
    var r2, s2 := SkippedRound(s0, r1, s1, RepoConfig(name, ".", 1, true));
    run, s := ShortManual(s0, r2, s2, name, path);
    assert LogOf(s2, name) == LogOf(s1, name);
    assert SHRINKING_LOG[..4] == SHRINKING_LOG[..2] + [Start(Manual, true, 0)] + [Succeeded(SECOND, 0)];
  }

  /** What a finished call has put into the tables and the log. */
  lemma CallDone(s: State, s': State, j: Sync, tip: Commit)
    requires var todo := ToCompose(s, j, tip, []);
             s'.tables == FinishedTables(s, j, tip, todo) && s'.hist == FinishedHistory(s, j, tip, Readings(s', j.repo, todo))
    ensures EntryOf(s', j.repo.name) == FRESH && DueOf(s', j.repo.name) == Some(s.env.clock + ScheduleStep(j.base))
    ensures LogOf(s', j.repo.name) == LogOf(s, j.repo.name) + [Succeeded(j.base, s.env.clock)]
  {
  }

  lemma StartupDone(s: State, cloneDir: string, repo: RepoConfig, path: Git.Path, tip: Commit)
    requires repo.enabled && repo.syncInterval == 100
    requires var begun := FirstCall(Init(cloneDir, 0), repo);
             s == begun.(job := None, disk := map[path := Clone(tip, tip)],
                         tables := FinishedTables(begun, begun.job.value, tip, []),
                         hist := FinishedHistory(begun, begun.job.value, tip, Readings(s, repo, [])))
    ensures DueOf(s, repo.name) == Some(100 * SECOND) && s.env.clock == 0
    ensures LogOf(s, repo.name) == SHRINKING_LOG[..2]
  {
    assert [] + [Start(Startup, true, 0)] + [Succeeded(100 * SECOND, 0)] == SHRINKING_LOG[..2];
  }

  /** The history in which a shorter interval ends the protection of a longer one is that of a run. */
  lemma SpacingShrinksRun(cloneDir: string, name: string) returns (run: seq<Action>, s: State)
    requires Git.ValidRepoName(name)
    ensures Reached(s, cloneDir, 0, run) && LogOf(s, name) == SHRINKING_LOG
    ensures SHRINKING_LOG[4].kind == Scheduled && SHRINKING_LOG[4].at < DueFrom(SHRINKING_LOG, 1)
  {
    SpacingShrinks();
    hide Git.ValidRepoName, Exec;
    var r1, s1 := ShorterInterval(cloneDir, name);
    run, s := NextScheduled(Init(cloneDir, 0), r1, s1, RepoConfig(name, ".", 1, true), SECOND);
    assert SHRINKING_LOG[..4] + [Start(Scheduled, true, SECOND)] == SHRINKING_LOG;
  }
}
