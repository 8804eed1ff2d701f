/** The sync engine as a step system: one main loop (startup sync, scheduled rounds, trigger
    drain) and any number of per-stack apply goroutines, over shared locks, clones on disk and
    tables. `Next` is one atomic step; anything the environment decides (time, listings, git
    outcomes, HTTP requests) is in the action's label. */
module Engine {
  import opened Common
  import opened Backoff
  import opened SyncLog
  import opened Keys
  import Git

  datatype Commit = Commit(id: nat)

  /** The columns of a repos row that the engine looks at. */
  datatype RepoConfig = RepoConfig(name: string, stacksDir: string, syncInterval: int, enabled: bool)

  datatype Status = Ok | Error | Syncing
  /** LastSHA None is the empty string. */
  datatype RepoState = RepoState(status: Status, lastSHA: Option<Commit>)

  /** A clone on disk: HEAD with its working tree, and the remote-tracking ref. */
  datatype Clone = Clone(head: Commit, fetched: Commit)

  datatype GitPhase = Setup | Cloning | Fetching | Resetting

  /** What a compose run reads: the directory its stacks directory leads to, links followed, and the
      commit of the clone that contains the stack there, None when no clone does. */
  datatype Reading = Reading(stack: string, dir: Option<Git.Path>, commit: Option<Commit>)

  /** Program points of syncRepoFromDB. The lock is held from InGit to Unlock. */
  datatype Phase =
    | Mark | Wait
    | InGit(git: GitPhase) | ReadHead | ReadDir
    | Stacks(todo: seq<string>) | Composing(stack: string, todo: seq<string>)
    | Succeed | Fail | Unlock

  /** One call of syncRepoFromDB. `tip` is the remote tip it fetched, and `reading` collects
      what every compose run reads at both its ends; no step depends on these two. */
  datatype Sync = Sync(repo: RepoConfig, kind: Kind, base: int, phase: Phase,
                       known: Option<Commit>, seen: Option<Commit>,
                       tip: Option<Commit>, reading: seq<Reading>)

  /** Program points of the per-stack apply goroutine. The lock is held in ApplyGit and ApplyUnlock. */
  datatype ApplyPhase = Lookup | ApplyWait | ApplyGit(git: GitPhase) | ApplyUnlock | ApplyStart | ApplyCompose | Exit
  datatype Apply = Apply(repo: string, stack: string, phase: ApplyPhase)

  datatype Thread = MainLoop | Handler(id: nat)

  /** Where the main loop is, between sync calls. */
  datatype Main =
    | Boot
    | Starting(todo: seq<RepoConfig>, dflt: int)
    | Top
    | Round(repos: seq<RepoConfig>, todo: seq<RepoConfig>, dflt: int)
    | Select(repos: seq<RepoConfig>, dflt: int)
    | Draining(repos: seq<RepoConfig>, dflt: int, got: seq<string>)
    | Triggered(repos: seq<RepoConfig>, dflt: int, got: seq<string>, synced: seq<string>, todo: seq<RepoConfig>)
    | Stopped

  /** One drained batch: the names received, the listing, and the manual syncs run for it. */
  datatype Batch = Batch(got: seq<string>, repos: seq<RepoConfig>, synced: seq<string>)
  /** One successful sync: the commit stored as LastSHA, the remote tip it fetched, and what its
      compose runs read. */
  datatype Report = Report(repo: RepoConfig, sha: Commit, tip: Option<Commit>, reading: seq<Reading>)

  /** What happened so far; no step depends on it. */
  datatype History = History(
    log: map<string, seq<Event>>,
    observed: map<string, seq<Commit>>, passes: map<string, seq<Commit>>,
    reports: seq<Report>, accepted: seq<string>, batches: seq<Batch>)

  /** Live apply goroutines, and the server's `applying` set. */
  datatype Pool = Pool(applies: map<nat, Apply>, nextId: nat, applying: set<string>)

  /** The state store, the backoff table and the schedule table. */
  datatype Tables = Tables(repos: map<string, RepoState>, stacks: map<string, (string, string)>,
                           backoff: map<string, Entry>, nextDue: map<string, int>)

  /** What the environment alone changes; `links` are the symbolic links on disk, `relinked` whether
      there ever were any. */
  datatype Env = Env(cloneDir: string, clock: int, cancelled: bool, links: map<Git.Path, Git.Path>, relinked: bool)

  datatype State = State(
    env: Env, main: Main, job: Option<Sync>, queue: seq<string>, pool: Pool,
    locks: map<string, Thread>, disk: map<Git.Path, Clone>, tables: Tables, hist: History)

  datatype Action =
    | Advance(elapsed: nat)
    | Cancel
    | Relink(links: map<Git.Path, Git.Path>)
    | SyncRequest(repo: string)
    | ApplyRequest(repo: string, stack: string)
    | MainStep(main: MainAction)
    | SyncStep(sync: SyncAction)
    | GitStep(thread: Thread, git: GitAction)
    | ApplyStep(id: nat, apply: ApplyAction)

  datatype MainAction = List(listing: seq<RepoConfig>, dflt: int) | Proceed | TickerFired | Receive | Stop
  datatype SyncAction = MarkSyncing | LockRepo | HeadOk | HeadError | ListStacks(entries: seq<string>) | NextStack | ComposeDone | Record | UnlockRepo
  datatype GitAction = Ready | CloneDone(clone: Clone) | FetchDone(tip: Commit) | ResetDone | GitError(left: Option<Clone>)
  datatype ApplyAction = Found(ok: bool) | LockForApply | UnlockAfterGit | BeginCompose | EndCompose | Leave

  const QUEUE_CAP := 16

  function Init(cloneDir: string, clock: int): State {
    State(Env(cloneDir, clock, false, map[], false), Boot, None, [], Pool(map[], 0, {}), map[], map[], Tables(map[], map[], map[], map[]),
          History(map[], map[], map[], [], [], []))
  }

  function KeyOf(a: Apply): string {
    Key(a.repo, a.stack)
  }

  function CloneAt(s: State, repo: string): Option<Clone> {
    var path := Git.SafeRepoPath(s.env.cloneDir, repo);
    if path.Some? && path.value in s.disk then Some(s.disk[path.value]) else None
  }

  function HeadAt(s: State, repo: string): Option<Commit> {
    var clone := CloneAt(s, repo);
    if clone.Some? then Some(clone.value.head) else None
  }

  /** The stacks directory with symbolic links followed. */
  function DirOf(s: State, repo: RepoConfig): Option<Git.Path> {
    var dir := Git.StacksDir(s.env.cloneDir, repo.name, repo.stacksDir);
    if dir.None? then None else Some(Git.LeadsTo(s.env.links, dir.value))
  }

  /** The commit of the clone that contains the entry `stack` of a directory. */
  function CommitIn(s: State, dir: Git.Path, stack: string): Option<Commit> {
    var clone := Git.StackClone(s.env.cloneDir, dir, stack);
    if clone.Some? && clone.value in s.disk then Some(s.disk[clone.value].head) else None
  }

  /** What a compose run of the stack reads now. */
  function ReadAt(s: State, repo: RepoConfig, stack: string): Reading {
    var dir := DirOf(s, repo);
    Reading(stack, dir, if dir.Some? then CommitIn(s, dir.value, stack) else None)
  }

  function LastSHA(s: State, repo: string): Option<Commit> {
    if repo in s.tables.repos then s.tables.repos[repo].lastSHA else None
  }

  function EntryOf(s: State, repo: string): Entry {
    Look(s.tables.backoff, repo, FRESH)
  }

  function DueOf(s: State, repo: string): Option<int> {
    if repo in s.tables.nextDue then Some(s.tables.nextDue[repo]) else None
  }

  function LogOf(s: State, repo: string): seq<Event> {
    Look(s.hist.log, repo, [])
  }

  function ObservedOf(s: State, repo: string): seq<Commit> {
    Look(s.hist.observed, repo, [])
  }

  function PassesOf(s: State, repo: string): seq<Commit> {
    Look(s.hist.passes, repo, [])
  }

  function Append<T>(m: map<string, seq<T>>, k: string, x: T): map<string, seq<T>> {
    m[k := Look(m, k, []) + [x]]
  }

  /** repos.name is UNIQUE, so a listing never repeats a name. */
  predicate DistinctNames(listing: seq<RepoConfig>) {
    forall i, j | 0 <= i < j < |listing| :: listing[i].name != listing[j].name
  }

  // ---- The main loop -----------------------------------------------------------------------

  function Serving(m: Main): bool {
    !m.Boot? && !m.Starting? && !m.Stopped?
  }

  /** The call of syncRepoFromDB begins: its interval is fixed, its start is logged. */
  function Begin(s: State, main: Main, tables: Tables, repo: RepoConfig, kind: Kind, dflt: int): State {
    s.(main := main, tables := tables,
       job := Some(Sync(repo, kind, EffectiveInterval(repo.syncInterval, dflt), Mark, None, None, None, [])),
       hist := s.hist.(log := Append(s.hist.log, repo.name, Start(kind, repo.enabled, s.env.clock))))
  }

  function NextMain(s: State, a: MainAction): Option<State>
    requires s.job.None?
  {
    match a
    case List(listing, dflt) =>
      if !DistinctNames(listing) then None
      else if s.main.Boot? then Some(s.(main := Starting(listing, dflt)))
      else if s.main.Top? then Some(s.(main := Round(listing, listing, dflt)))
      else None
    case Proceed => Proceeded(s)
    case TickerFired => if s.main.Select? then Some(s.(main := Top)) else None
    case Receive =>
      if !s.main.Select? || s.queue == [] then None
      else Some(s.(main := Draining(s.main.repos, s.main.dflt, [s.queue[0]]), queue := s.queue[1..]))
    case Stop => if s.main.Select? && s.env.cancelled then Some(s.(main := Stopped)) else None
  }

  /** The next iteration, or the end, of the loop the main loop is in. */
  function Proceeded(s: State): Option<State>
    requires s.job.None?
  {
    match s.main
    case Starting(todo, dflt) =>
      if todo == [] then Some(s.(main := Top))
      else
        var main := Starting(todo[1..], dflt);
        Some(if todo[0].enabled then Begin(s, main, s.tables, todo[0], Startup, dflt) else s.(main := main))
    case Round(repos, todo, dflt) =>
      if todo == [] || s.env.cancelled then Some(s.(main := Select(repos, dflt)))
      else
        var r := todo[0];
        var main := Round(repos, todo[1..], dflt);
        if !r.enabled || Skips(EntryOf(s, r.name), s.env.clock) || !Due(DueOf(s, r.name), s.env.clock) then Some(s.(main := main))
        else Some(Begin(s, main, s.tables, r, Scheduled, dflt))
    case Draining(repos, dflt, got) =>
      if s.queue == [] then Some(s.(main := Triggered(repos, dflt, got, [], repos)))
      else Some(s.(main := Draining(repos, dflt, got + [s.queue[0]]), queue := s.queue[1..]))
    case Triggered(repos, dflt, got, synced, todo) =>
      if todo == [] then
        Some(s.(main := Top, hist := s.hist.(batches := s.hist.batches + [Batch(got, repos, synced)])))
      else
        var r := todo[0];
        if r.name !in got then Some(s.(main := Triggered(repos, dflt, got, synced, todo[1..])))
        else
          var tables := s.tables.(backoff := s.tables.backoff[r.name := FRESH]);
          Some(Begin(s, Triggered(repos, dflt, got, synced + [r.name], todo[1..]), tables, r, Manual, dflt))
    case _ => None
  }

  // ---- One sync call -----------------------------------------------------------------------

  function WithStatus(t: Tables, repo: string, status: Status): Tables {
    t.(repos := t.repos[repo := Look(t.repos, repo, RepoState(Ok, None)).(status := status)])
  }

  function WithStack(t: Tables, repo: string, stack: string): Tables {
    t.(stacks := t.stacks[Key(repo, stack) := (repo, stack)])
  }

  function WithPhase(s: State, j: Sync, p: Phase): State {
    s.(job := Some(j.(phase := p)))
  }

  function NextSync(s: State, j: Sync, a: SyncAction): Option<State>
    requires s.job == Some(j)
  {
    var name := j.repo.name;
    var head := HeadAt(s, name);
    match a
    case MarkSyncing =>
      if j.phase.Mark? then Some(s.(job := Some(j.(phase := Wait)), tables := WithStatus(s.tables, name, Syncing))) else None
    case LockRepo =>
      if !j.phase.Wait? || name in s.locks then None
      else Some(s.(locks := s.locks[name := MainLoop],
                   job := Some(j.(phase := InGit(Setup), known := LastSHA(s, name)))))
    case HeadError => if j.phase.ReadHead? then Some(WithPhase(s, j, Fail)) else None
    case HeadOk =>
      if !j.phase.ReadHead? || head.None? then None
      else
        var h := s.hist.(observed := Append(s.hist.observed, name, head.value));
        if head != j.known then
          Some(s.(job := Some(j.(phase := ReadDir, seen := head)),
                  hist := h.(passes := Append(s.hist.passes, name, head.value))))
        else Some(s.(job := Some(j.(phase := Succeed, seen := head)), hist := h))
    case ListStacks(entries) =>
      if j.phase.ReadDir? && forall e | e in entries :: Git.EntryName(e) then Some(WithPhase(s, j, Stacks(entries))) else None
    case NextStack =>
      if !j.phase.Stacks? then None
      else if j.phase.todo == [] then Some(WithPhase(s, j, Succeed))
      else
        var stack := j.phase.todo[0];
        Some(s.(job := Some(j.(phase := Composing(stack, j.phase.todo[1..]), reading := j.reading + [ReadAt(s, j.repo, stack)])),
                tables := WithStack(s.tables, name, stack)))
    case ComposeDone =>
      if !j.phase.Composing? then None
      else Some(s.(job := Some(j.(phase := Stacks(j.phase.todo),
                                  reading := j.reading + [ReadAt(s, j.repo, j.phase.stack)]))))
    case Record =>
      if j.phase.Fail? then Some(RecordError(s, j))
      else if j.phase.Succeed? && j.seen.Some? then Some(RecordOk(s, j))
      else None
    case UnlockRepo => if j.phase.Unlock? then Some(s.(locks := s.locks - {name}, job := None)) else None
  }

  function RecordOk(s: State, j: Sync): State
    requires j.seen.Some?
  {
    var name := j.repo.name;
    s.(job := Some(j.(phase := Unlock)),
       tables := s.tables.(repos := s.tables.repos[name := RepoState(Ok, j.seen)],
                           backoff := s.tables.backoff[name := FRESH],
                           nextDue := s.tables.nextDue[name := s.env.clock + ScheduleStep(j.base)]),
       hist := s.hist.(log := Append(s.hist.log, name, Succeeded(j.base, s.env.clock)),
                       reports := s.hist.reports + [Report(j.repo, j.seen.value, j.tip, j.reading)]))
  }

  function RecordError(s: State, j: Sync): State {
    var name := j.repo.name;
    var entry := AfterFailure(EntryOf(s, name), j.base, s.env.clock);
    s.(job := Some(j.(phase := Unlock)),
       tables := WithStatus(s.tables, name, Error).(backoff := s.tables.backoff[name := entry]),
       hist := s.hist.(log := Append(s.hist.log, name, Failed(j.base, s.env.clock))))
  }

  // ---- gitSyncToDisk, shared by both kinds of thread ---------------------------------------

  datatype Outcome = Continue(phase: GitPhase) | Done | Broken

  /** The clone as a git command of `repo` leaves it. A failed clone or reset may leave
      anything, a failed fetch any remote-tracking ref. */
  function GitCommand(s: State, repo: string, phase: GitPhase, a: GitAction): Option<(map<Git.Path, Clone>, Outcome)> {
    var path := Git.SafeRepoPath(s.env.cloneDir, repo);
    if path.None? then if phase.Setup? && a.GitError? then Some((s.disk, Broken)) else None
    else
      var here := path.value;
      match a
      case Ready => if phase.Setup? then Some((s.disk, Continue(if here in s.disk then Fetching else Cloning))) else None
      case CloneDone(c) => if phase.Cloning? then Some((s.disk[here := c], Continue(Fetching))) else None
      case FetchDone(tip) =>
        if phase.Fetching? && here in s.disk then Some((s.disk[here := s.disk[here].(fetched := tip)], Continue(Resetting))) else None
      case ResetDone =>
        if phase.Resetting? && here in s.disk then Some((s.disk[here := s.disk[here].(head := s.disk[here].fetched)], Done)) else None
      case GitError(left) =>
        Some((match phase
              case Setup => s.disk
              case Fetching =>
                if here in s.disk && left.Some? then s.disk[here := s.disk[here].(fetched := left.value.fetched)] else s.disk
              case _ => if left.Some? then s.disk[here := left.value] else s.disk - {here}, Broken))
  }

  /** Goroutine `id` moves to program point `phase`. */
  function At(pool: Pool, id: nat, phase: ApplyPhase): Pool
    requires id in pool.applies
  {
    pool.(applies := pool.applies[id := pool.applies[id].(phase := phase)])
  }

  function NextGit(s: State, t: Thread, a: GitAction): Option<State> {
    match t
    case MainLoop =>
      if s.job.None? || !s.job.value.phase.InGit? then None
      else
        var j := s.job.value;
        var r := GitCommand(s, j.repo.name, j.phase.git, a);
        if r.None? then None
        else Some(s.(disk := r.value.0, job := Some(j.(
                     phase := match r.value.1 case Continue(p) => InGit(p) case Done => ReadHead case Broken => Fail,
                     tip := if a.FetchDone? then Some(a.tip) else j.tip))))
    case Handler(id) =>
      if id !in s.pool.applies || !s.pool.applies[id].phase.ApplyGit? then None
      else
        var h := s.pool.applies[id];
        var r := GitCommand(s, h.repo, h.phase.git, a);
        if r.None? then None
        else Some(s.(disk := r.value.0, pool := At(s.pool, id,
                     match r.value.1 case Continue(p) => ApplyGit(p) case _ => ApplyUnlock)))
  }

  // ---- HTTP requests and the apply goroutine -----------------------------------------------

  function Enqueue(s: State, repo: string): State {
    if repo == "" || |s.queue| >= QUEUE_CAP then s
    else s.(queue := s.queue + [repo], hist := s.hist.(accepted := s.hist.accepted + [repo]))
  }

  /** handleApplyStack: 400, 404 and 409 leave the state alone, otherwise a goroutine starts. */
  function RequestApply(s: State, repo: string, stack: string): State {
    var key := Key(repo, stack);
    if repo == "" || stack == "" || key !in s.tables.stacks || key in s.pool.applying then s
    else s.(pool := Pool(s.pool.applies[s.pool.nextId := Apply(repo, stack, Lookup)], s.pool.nextId + 1, s.pool.applying + {key}))
  }

  function NextApply(s: State, id: nat, a: ApplyAction): Option<State> {
    if id !in s.pool.applies then None
    else
      var h := s.pool.applies[id];
      match a
      case Found(ok) =>
        if !h.phase.Lookup? || (ok && KeyOf(h) !in s.tables.stacks) then None
        else Some(s.(pool := At(s.pool, id, if ok then ApplyWait else Exit)))
      case LockForApply =>
        if !h.phase.ApplyWait? || h.repo in s.locks then None
        else Some(s.(locks := s.locks[h.repo := Handler(id)], pool := At(s.pool, id, ApplyGit(Setup))))
      case UnlockAfterGit =>
        if !h.phase.ApplyUnlock? then None
        else Some(s.(locks := s.locks - {h.repo}, pool := At(s.pool, id, ApplyStart)))
      case BeginCompose =>
        if !h.phase.ApplyStart? then None
        else Some(s.(tables := WithStack(s.tables, h.repo, h.stack), pool := At(s.pool, id, ApplyCompose)))
      case EndCompose => if h.phase.ApplyCompose? then Some(s.(pool := At(s.pool, id, Exit))) else None
      case Leave => if h.phase.Exit? then Some(s.(pool := Left(s.pool, id))) else None
  }

  /** The goroutine's deferred cleanup: its key is free again. */
  function Left(pool: Pool, id: nat): Pool
    requires id in pool.applies
  {
    pool.(applies := pool.applies - {id}, applying := pool.applying - {KeyOf(pool.applies[id])})
  }

  function Next(s: State, a: Action): Option<State> {
    match a
    case Advance(elapsed) => Some(s.(env := s.env.(clock := s.env.clock + elapsed)))
    case Cancel => Some(s.(env := s.env.(cancelled := true)))
    case Relink(links) => Some(s.(env := s.env.(links := links, relinked := true)))
    case SyncRequest(repo) => if Serving(s.main) then Some(Enqueue(s, repo)) else None
    case ApplyRequest(repo, stack) => if Serving(s.main) then Some(RequestApply(s, repo, stack)) else None
    case MainStep(m) => if s.job.None? then NextMain(s, m) else None
    case SyncStep(x) => if s.job.Some? then NextSync(s, s.job.value, x) else None
    case GitStep(t, g) => NextGit(s, t, g)
    case ApplyStep(id, x) => NextApply(s, id, x)
  }

  /** Whether `t` is the thread that takes the step. */
  predicate StepOf(t: Thread, a: Action) {
    match a
    case MainStep(_) => t == MainLoop
    case SyncStep(_) => t == MainLoop
    case GitStep(u, _) => t == u
    case ApplyStep(id, _) => t == Handler(id)
    case _ => false
  }

  // ---- What each kind of step leaves alone ---------------------------------------------------

  lemma MainFrame(s: State, a: MainAction, s': State)
    requires s.job.None? && NextMain(s, a) == Some(s')
    ensures s' == s.(main := s'.main, job := s'.job, queue := s'.queue, tables := s'.tables, hist := s'.hist)
    ensures s'.job.Some? ==> s'.job.value.phase == Mark && s'.job.value.seen.None? && s'.job.value.reading == []
  {
  }

  lemma MainTables(s: State, a: MainAction, s': State)
    requires s.job.None? && NextMain(s, a) == Some(s')
    ensures s'.tables.repos == s.tables.repos && s'.tables.stacks == s.tables.stacks && s'.tables.nextDue == s.tables.nextDue
  {
    if a.Proceed? && s.main.Triggered? {
    } else {
      assert s'.tables == s.tables;
    }
  }

  lemma MainHistory(s: State, a: MainAction, s': State)
    requires s.job.None? && NextMain(s, a) == Some(s')
    ensures s'.hist.observed == s.hist.observed && s'.hist.passes == s.hist.passes
    ensures s'.hist.reports == s.hist.reports && s'.hist.accepted == s.hist.accepted
  {
    if a.Proceed? {
      ProceedHistory(s, s');
    } else {
      assert s'.hist == s.hist;
    }
  }

  lemma ProceedHistory(s: State, s': State)
    requires s.job.None? && Proceeded(s) == Some(s')
    ensures s'.hist.observed == s.hist.observed && s'.hist.passes == s.hist.passes
    ensures s'.hist.reports == s.hist.reports && s'.hist.accepted == s.hist.accepted
  {
    match s.main
    case Starting(todo, _) => assert s'.hist.(log := s.hist.log) == s.hist;
    case Round(_, _, _) => assert s'.hist.(log := s.hist.log) == s.hist;
    case Draining(_, _, _) => assert s'.hist == s.hist;
    case Triggered(_, _, _, _, _) =>
    case _ =>
  }

  lemma SyncFrame(s: State, j: Sync, a: SyncAction, s': State)
    requires s.job == Some(j) && NextSync(s, j, a) == Some(s')
    ensures s' == s.(job := s'.job, locks := s'.locks, tables := s'.tables, hist := s'.hist)
    ensures s'.job.Some? ==> s'.job.value.repo == j.repo
  {
  }

  lemma ApplyFrame(s: State, id: nat, a: ApplyAction, s': State)
    requires NextApply(s, id, a) == Some(s')
    ensures s' == s.(pool := s'.pool, locks := s'.locks, tables := s.tables.(stacks := s'.tables.stacks))
  {
  }

  /** The repository and git command a thread is at, if it is inside gitSyncToDisk. */
  function GitSite(s: State, t: Thread): Option<(string, GitPhase)> {
    match t
    case MainLoop =>
      if s.job.Some? && s.job.value.phase.InGit? then Some((s.job.value.repo.name, s.job.value.phase.git)) else None
    case Handler(id) =>
      if id in s.pool.applies && s.pool.applies[id].phase.ApplyGit? then Some((s.pool.applies[id].repo, s.pool.applies[id].phase.git))
      else None
  }

  lemma GitFrame(s: State, t: Thread, g: GitAction, s': State)
    requires NextGit(s, t, g) == Some(s')
    ensures s' == s.(disk := s'.disk, job := s'.job, pool := s'.pool)
    ensures GitSite(s, t).Some? && GitCommand(s, GitSite(s, t).value.0, GitSite(s, t).value.1, g).Some?
    ensures s'.disk == GitCommand(s, GitSite(s, t).value.0, GitSite(s, t).value.1, g).value.0
  {
  }

  /** Only git commands touch the disk. */
  lemma DiskFrame(s: State, a: Action, s': State)
    requires Next(s, a) == Some(s') && !a.GitStep?
    ensures s'.disk == s.disk && s'.env.cloneDir == s.env.cloneDir
  {
    match a
    case MainStep(m) => MainFrame(s, m, s');
    case SyncStep(x) => SyncFrame(s, s.job.value, x, s');
    case ApplyStep(id, x) => ApplyFrame(s, id, x, s');
    case _ =>
  }

  // ---- Runs ---------------------------------------------------------------------------------

  /** The state a sequence of steps leads to, None when one of them is not enabled. */
  function Exec(s: State, run: seq<Action>): Option<State> {
    if run == [] then Some(s)
    else
      var before := Exec(s, DropLast(run));
      if before.None? then None else Next(before.value, Last(run))
  }

  lemma {:induction false} ExecConcat(s: State, a: seq<Action>, mid: State, b: seq<Action>)
    requires Exec(s, a) == Some(mid)
    ensures Exec(s, a + b) == Exec(mid, b)
    decreases |b|
  {
    if b == [] {
      assert a + b == a;
    } else {
      assert DropLast(a + b) == a + DropLast(b) && Last(a + b) == Last(b);
      ExecConcat(s, a, mid, DropLast(b));
    }
  }

  /** One more step at the end of a run. */
  lemma Then(s: State, run: seq<Action>, mid: State, a: Action, s': State)
    requires Exec(s, run) == Some(mid) && Next(mid, a) == Some(s')
    ensures Exec(s, run + [a]) == Some(s')
  {
    AppendLast(run, a);
  }

  /** `s` is reached by some run of the program. */
  ghost predicate Reached(s: State, cloneDir: string, clock: int, run: seq<Action>) {
    Exec(Init(cloneDir, clock), run) == Some(s)
  }
}
