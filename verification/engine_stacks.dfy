/** Every stack in the store belongs to a repository in the store, under its own key. */
module EngineStacks {
  import opened Common
  import opened Keys
  import opened Engine
  import EngineDisk
  import EngineGate
  import Git
  import StateStore

  /** A slash-free pair whose repository the store knows. */
  predicate KnownPair(t: Tables, repo: string, stack: string) {
    '/' !in repo && '/' !in stack && repo in t.repos
  }

  predicate StacksKnown(t: Tables) {
    forall k | k in t.stacks :: k == Key(t.stacks[k].0, t.stacks[k].1) && KnownPair(t, t.stacks[k].0, t.stacks[k].1)
  }

  predicate JobStacks(s: State, j: Sync) {
    match j.phase
    case Stacks(todo) => forall e | e in todo :: '/' !in e
    case Composing(_, todo) => forall e | e in todo :: '/' !in e
    case _ => true
  }

  ghost predicate StacksMatch(s: State) {
    && StacksKnown(s.tables)
    && (s.job.Some? ==> JobStacks(s, s.job.value))
    && (forall id | id in s.pool.applies :: KnownPair(s.tables, s.pool.applies[id].repo, s.pool.applies[id].stack))
  }

  lemma WithStackKnown(t: Tables, repo: string, stack: string)
    requires StacksKnown(t) && KnownPair(t, repo, stack)
    ensures StacksKnown(WithStack(t, repo, stack))
  {
  }

  /** A request that finds its key names exactly the stored pair. */
  lemma RequestKnown(t: Tables, repo: string, stack: string)
    requires StacksKnown(t) && Key(repo, stack) in t.stacks
    ensures KnownPair(t, repo, stack)
  {
    var stored := t.stacks[Key(repo, stack)];
    KeyInjective(stored.0, stored.1, repo, stack);
  }

  lemma NextStackKnown(s: State, s': State)
    requires s.job.Some? && StacksMatch(s) && EngineDisk.DiskMatch(s) && EngineGate.GateMatch(s)
    requires NextSync(s, s.job.value, NextStack) == Some(s')
    ensures StacksKnown(s'.tables)
  {
    var j := s.job.value;
    if j.phase.todo != [] {
      Git.RepoDirectory(s.env.cloneDir, j.repo.name);
      assert EngineGate.StatusAt(s, j.repo.name);
      assert j.phase.todo[0] in j.phase.todo;
      WithStackKnown(s.tables, j.repo.name, j.phase.todo[0]);
    }
  }

  lemma SyncTables(s: State, x: SyncAction, s': State)
    requires s.job.Some? && NextSync(s, s.job.value, x) == Some(s')
    ensures s.tables.repos.Keys <= s'.tables.repos.Keys
    ensures x != NextStack ==> s'.tables.stacks == s.tables.stacks
    ensures x == NextStack ==> s'.tables.repos == s.tables.repos
    ensures s'.pool == s.pool
  {
    SyncFrame(s, s.job.value, x, s');
  }

  lemma SyncJobStacks(s: State, x: SyncAction, s': State)
    requires s.job.Some? && JobStacks(s, s.job.value) && NextSync(s, s.job.value, x) == Some(s')
    ensures s'.job.Some? ==> JobStacks(s', s'.job.value)
  {
    hide ReadAt, HeadAt, Append, WithStack, WithStatus, LastSHA;
  }

  lemma StacksSyncStep(s: State, x: SyncAction, s': State)
    requires s.job.Some? && StacksMatch(s) && EngineDisk.DiskMatch(s) && EngineGate.GateMatch(s)
    requires NextSync(s, s.job.value, x) == Some(s')
    ensures StacksMatch(s')
  {
    SyncTables(s, x, s');
    SyncJobStacks(s, x, s');
    if x == NextStack {
      NextStackKnown(s, s');
    }
  }

  lemma StacksApplyStep(s: State, id: nat, x: ApplyAction, s': State)
    requires StacksMatch(s) && NextApply(s, id, x) == Some(s')
    ensures StacksMatch(s')
  {
    if x == BeginCompose {
      WithStackKnown(s.tables, s.pool.applies[id].repo, s.pool.applies[id].stack);
    }
  }

  lemma StacksRequest(s: State, repo: string, stack: string)
    requires StacksMatch(s)
    ensures StacksMatch(RequestApply(s, repo, stack))
  {
    if RequestApply(s, repo, stack) != s {
      RequestKnown(s.tables, repo, stack);
    }
  }

  lemma StacksOther(s: State, a: Action, s': State)
    requires StacksMatch(s) && Next(s, a) == Some(s')
    requires a.MainStep? || a.GitStep?
    ensures StacksMatch(s')
  {
    match a
    case MainStep(m) =>
      MainFrame(s, m, s');
      MainTables(s, m, s');
    case GitStep(t, g) =>
      GitFrame(s, t, g, s');
  }

  lemma StacksStep(s: State, a: Action, s': State)
    requires StacksMatch(s) && EngineDisk.DiskMatch(s) && EngineGate.GateMatch(s) && Next(s, a) == Some(s')
    ensures StacksMatch(s')
  {
    match a
    case SyncStep(x) => StacksSyncStep(s, x, s');
    case ApplyStep(id, x) => StacksApplyStep(s, id, x, s');
    case ApplyRequest(repo, stack) => StacksRequest(s, repo, stack);
    case MainStep(_) => StacksOther(s, a, s');
    case GitStep(_, _) => StacksOther(s, a, s');
    case _ =>
  }

  /** Every run: each stored stack sits under its own slash-free key and its repository is stored
      too; a live apply goroutine works for such a pair. */
  lemma {:induction false} EveryStackHasItsRepo(s: State, cloneDir: string, clock: int, run: seq<Action>)
    requires Reached(s, cloneDir, clock, run)
    ensures StacksMatch(s)
    ensures forall k | k in s.tables.stacks :: s.tables.stacks[k].0 in s.tables.repos
    decreases |run|
  {
    if run != [] {
      var before := Exec(Init(cloneDir, clock), DropLast(run)).value;
      EveryStackHasItsRepo(before, cloneDir, clock, DropLast(run));
      EngineDisk.DiskRun(before, cloneDir, clock, DropLast(run));
      EngineGate.GateRun(before, cloneDir, clock, DropLast(run));
      StacksStep(before, Last(run), s);
    }
  }

  /** The store's contents hold the same repositories and stacks as the engine's tables. */
  predicate StoreShows(t: Tables, repoView: map<string, StateStore.RepoRecord>, stackView: map<string, StateStore.StackRecord>) {
    && repoView.Keys == t.repos.Keys && (forall r | r in repoView :: repoView[r].name == r)
    && stackView.Keys == t.stacks.Keys && (forall k | k in stackView :: (stackView[k].repoName, stackView[k].name) == t.stacks[k])
  }

  /** Every run: whatever orders the two map iterations take, /api/status shows every stored stack
      exactly once, under its repository. */
  lemma {:induction false} StatusOverRuns(s: State, cloneDir: string, clock: int, run: seq<Action>,
                                          repoView: map<string, StateStore.RepoRecord>, repos: seq<StateStore.RepoRecord>,
                                          stackView: map<string, StateStore.StackRecord>, stacks: seq<StateStore.StackRecord>)
    requires Reached(s, cloneDir, clock, run)
    ensures StoreShows(s.tables, repoView, stackView) && StateStore.ListsAll(repos, repoView) && StateStore.ListsAll(stacks, stackView) ==>
              forall k | k in stackView :: StateStore.DistinctRepos(repos) && StateStore.Nested(repos, stacks)[stackView[k]] == 1
  {
    hide StateStore.ListsAll, StateStore.DistinctRepos, StateStore.Nested;
    EveryStackHasItsRepo(s, cloneDir, clock, run);
    if StoreShows(s.tables, repoView, stackView) && StateStore.ListsAll(repos, repoView) && StateStore.ListsAll(stacks, stackView) {
      forall k | k in stackView
        ensures StateStore.DistinctRepos(repos) && StateStore.Nested(repos, stacks)[stackView[k]] == 1
      {
        StateStore.StatusComplete(repoView, repos, stackView, stacks, k);
      }
    }
  }
}
