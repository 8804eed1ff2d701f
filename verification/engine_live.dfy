/** Progress: no reachable state is deadlocked, and every call ends after finitely many own steps. */
module EngineLive {
  import opened Common
  import opened Engine
  import opened EngineLocks
  import opened EngineDisk

  ghost predicate CanStep(s: State, t: Thread) {
    exists a :: StepOf(t, a) && Next(s, a).Some?
  }

  predicate Alive(s: State, t: Thread) {
    match t
    case MainLoop => s.job.Some? || !s.main.Stopped?
    case Handler(id) => id in s.pool.applies
  }

  /** The repository whose lock the thread is about to take. */
  function WaitsOn(s: State, t: Thread): Option<string> {
    match t
    case MainLoop => if s.job.Some? && s.job.value.phase.Wait? then Some(s.job.value.repo.name) else None
    case Handler(id) =>
      if id in s.pool.applies && s.pool.applies[id].phase.ApplyWait? then Some(s.pool.applies[id].repo) else None
  }

  lemma HandlerCanStep(s: State, id: nat)
    requires DiskMatch(s) && id in s.pool.applies
    requires WaitsOn(s, Handler(id)).Some? ==> WaitsOn(s, Handler(id)).value !in s.locks
    ensures CanStep(s, Handler(id))
  {
    var a := match s.pool.applies[id].phase
      case Lookup => ApplyStep(id, Found(false))
      case ApplyWait => ApplyStep(id, LockForApply)
      case ApplyGit(_) => GitStep(Handler(id), GitError(None))
      case ApplyUnlock => ApplyStep(id, UnlockAfterGit)
      case ApplyStart => ApplyStep(id, BeginCompose)
      case ApplyCompose => ApplyStep(id, EndCompose)
      case Exit => ApplyStep(id, Leave);
    assert HandlerReady(s, id);
    assert StepOf(Handler(id), a) && Next(s, a).Some?;
  }

  lemma JobCanStep(s: State)
    requires s.job.Some? && JobReads(s, s.job.value)
    requires WaitsOn(s, MainLoop).Some? ==> WaitsOn(s, MainLoop).value !in s.locks
    ensures CanStep(s, MainLoop)
  {
    var p := s.job.value.phase;
    if p.InGit? {
      assert StepOf(MainLoop, GitStep(MainLoop, GitError(None)));
      assert Next(s, GitStep(MainLoop, GitError(None))).Some?;
    } else {
      var x := OwnStep(p);
      SyncCanStep(s, x);
      assert StepOf(MainLoop, SyncStep(x)) && Next(s, SyncStep(x)).Some?;
    }
  }

  function OwnStep(p: Phase): SyncAction
    requires !p.InGit?
  {
    match p
    case Mark => MarkSyncing
    case Wait => LockRepo
    case ReadHead => HeadError
    case ReadDir => ListStacks([])
    case Stacks(_) => NextStack
    case Composing(_, _) => ComposeDone
    case Succeed => Record
    case Fail => Record
    case Unlock => UnlockRepo
  }

  lemma SyncCanStep(s: State, x: SyncAction)
    requires s.job.Some? && JobReads(s, s.job.value) && !s.job.value.phase.InGit?
    requires s.job.value.phase.Wait? ==> s.job.value.repo.name !in s.locks
    requires x == OwnStep(s.job.value.phase)
    ensures NextSync(s, s.job.value, x).Some?
  {
  }

  lemma LoopCanStep(s: State)
    requires s.job.None? && !s.main.Stopped?
    ensures CanStep(s, MainLoop)
  {
    var a := MainStep(if s.main.Boot? || s.main.Top? then List([], 0) else if s.main.Select? then TickerFired else Proceed);
    assert StepOf(MainLoop, a) && Next(s, a).Some?;
  }

  lemma CanStepUnlessWaiting(s: State, t: Thread)
    requires DiskMatch(s) && Alive(s, t)
    requires WaitsOn(s, t).Some? ==> WaitsOn(s, t).value !in s.locks
    ensures CanStep(s, t)
  {
    if t.Handler? {
      HandlerCanStep(s, t.id);
    } else if s.job.Some? {
      JobCanStep(s);
    } else {
      LoopCanStep(s);
    }
  }

  /** Every run: a live thread can step, or it waits for a lock whose holder is alive and can step. */
  lemma NoDeadlock(s: State, cloneDir: string, clock: int, run: seq<Action>, t: Thread)
    requires Reached(s, cloneDir, clock, run) && Alive(s, t)
    ensures CanStep(s, t) ||
            (WaitsOn(s, t).Some? && WaitsOn(s, t).value in s.locks &&
             var holder := s.locks[WaitsOn(s, t).value];
             holder != t && Alive(s, holder) && CanStep(s, holder))
  {
    LocksRun(s, cloneDir, clock, run);
    DiskRun(s, cloneDir, clock, run);
    if WaitsOn(s, t).Some? && WaitsOn(s, t).value in s.locks {
      var r := WaitsOn(s, t).value;
      assert Holds(s, s.locks[r], r);
      CanStepUnlessWaiting(s, s.locks[r]);
    } else {
      CanStepUnlessWaiting(s, t);
    }
  }

  // ---- Every call ends -----------------------------------------------------------------------

  /** How many steps of a run thread t takes itself. */
  function OwnSteps(t: Thread, run: seq<Action>): nat {
    if run == [] then 0 else OwnSteps(t, DropLast(run)) + if StepOf(t, Last(run)) then 1 else 0
  }

  function GitRank(g: GitPhase): nat {
    match g case Setup => 4 case Cloning => 3 case Fetching => 2 case Resetting => 1
  }

  /** Own steps left before the unlocking one when no stacks directory lists more than n entries. */
  function SyncBudget(p: Phase, n: nat): nat {
    match p
    case Mark => 10 + 2 * n
    case Wait => 9 + 2 * n
    case InGit(g) => 4 + 2 * n + GitRank(g)
    case ReadHead => 4 + 2 * n
    case ReadDir => 3 + 2 * n
    case Stacks(todo) => 2 + 2 * |todo|
    case Composing(_, todo) => 3 + 2 * |todo|
    case Succeed => 1
    case Fail => 1
    case Unlock => 0
  }

  /** Own steps left before the goroutine leaves. */
  function ApplyBudget(p: ApplyPhase): nat {
    match p
    case Lookup => 9
    case ApplyWait => 8
    case ApplyGit(g) => 3 + GitRank(g)
    case ApplyUnlock => 3
    case ApplyStart => 2
    case ApplyCompose => 1
    case Exit => 0
  }

  /** The step does not list more than n entries. */
  predicate ListsAtMost(a: Action, n: nat) {
    a.SyncStep? && a.sync.ListStacks? ==> |a.sync.entries| <= n
  }

  /** The program points a step of syncRepoFromDB can lead to. */
  lemma PhaseAfter(s: State, x: SyncAction, s': State)
    requires s.job.Some? && NextSync(s, s.job.value, x) == Some(s')
    ensures s'.job.None? <==> x == UnlockRepo
    ensures s'.job.Some? ==>
              var p, p' := s.job.value.phase, s'.job.value.phase;
              match p
              case Mark => p' == Wait
              case Wait => p' == InGit(Setup)
              case InGit(_) => false
              case ReadHead => p' == ReadDir || p' == Succeed || p' == Fail
              case ReadDir => x.ListStacks? && p' == Stacks(x.entries)
              case Stacks(todo) => p' == if todo == [] then Succeed else Composing(todo[0], todo[1..])
              case Composing(_, todo) => p' == Stacks(todo)
              case Succeed => p' == Unlock
              case Fail => p' == Unlock
              case Unlock => false
  {
  }

  lemma GitBudget(s: State, t: Thread, g: GitAction, s': State, n: nat)
    requires NextGit(s, t, g) == Some(s')
    ensures t == MainLoop ==> s.job.Some? && s'.job.Some? && SyncBudget(s'.job.value.phase, n) < SyncBudget(s.job.value.phase, n)
    ensures t.Handler? ==>
              && t.id in s.pool.applies && t.id in s'.pool.applies
              && ApplyBudget(s'.pool.applies[t.id].phase) < ApplyBudget(s.pool.applies[t.id].phase)
  {
  }

  lemma ApplyStepBudget(s: State, id: nat, x: ApplyAction, s': State)
    requires NextApply(s, id, x) == Some(s') && x != Leave
    ensures id in s.pool.applies && id in s'.pool.applies
    ensures ApplyBudget(s'.pool.applies[id].phase) < ApplyBudget(s.pool.applies[id].phase)
  {
  }

  lemma SyncSpends(s: State, a: Action, s': State, n: nat)
    requires PoolMatch(s.pool) && s.job.Some? && Next(s, a) == Some(s') && a != SyncStep(UnlockRepo) && ListsAtMost(a, n)
    ensures s'.job.Some?
    ensures SyncBudget(s'.job.value.phase, n) + (if StepOf(MainLoop, a) then 1 else 0) <= SyncBudget(s.job.value.phase, n)
  {
    if !StepOf(MainLoop, a) {
      OthersRest(s, a, s', MainLoop);
    } else if a.GitStep? {
      GitBudget(s, a.thread, a.git, s', n);
    } else {
      PhaseAfter(s, a.sync, s');
    }
  }

  lemma ApplySpends(s: State, a: Action, s': State, id: nat)
    requires PoolMatch(s.pool) && id in s.pool.applies && Next(s, a) == Some(s') && a != ApplyStep(id, Leave)
    ensures id in s'.pool.applies
    ensures ApplyBudget(s'.pool.applies[id].phase) + (if StepOf(Handler(id), a) then 1 else 0) <= ApplyBudget(s.pool.applies[id].phase)
  {
    if !StepOf(Handler(id), a) {
      OthersRest(s, a, s', Handler(id));
    } else if a.GitStep? {
      GitBudget(s, a.thread, a.git, s', 0);
    } else {
      ApplyStepBudget(s, id, a.apply, s');
    }
  }

  lemma {:induction false} SyncBounded(s: State, more: seq<Action>, s': State, n: nat)
    requires PoolMatch(s.pool) && s.job.Some? && Exec(s, more) == Some(s')
    requires forall a | a in more :: a != SyncStep(UnlockRepo) && ListsAtMost(a, n)
    ensures PoolMatch(s'.pool) && s'.job.Some?
    ensures SyncBudget(s'.job.value.phase, n) + OwnSteps(MainLoop, more) <= SyncBudget(s.job.value.phase, n)
    decreases |more|
  {
    if more != [] {
      var before := Exec(s, DropLast(more)).value;
      assert forall a | a in DropLast(more) :: a in more;
      SyncBounded(s, DropLast(more), before, n);
      assert Last(more) in more;
      PoolStep(before, Last(more), s');
      SyncSpends(before, Last(more), s', n);
    }
  }

  lemma {:induction false} ApplyBounded(s: State, more: seq<Action>, s': State, id: nat)
    requires PoolMatch(s.pool) && id in s.pool.applies && Exec(s, more) == Some(s')
    requires ApplyStep(id, Leave) !in more
    ensures PoolMatch(s'.pool) && id in s'.pool.applies
    ensures ApplyBudget(s'.pool.applies[id].phase) + OwnSteps(Handler(id), more) <= ApplyBudget(s.pool.applies[id].phase)
    decreases |more|
  {
    if more != [] {
      var before := Exec(s, DropLast(more)).value;
      ApplyBounded(s, DropLast(more), before, id);
      assert Last(more) in more;
      PoolStep(before, Last(more), s');
      ApplySpends(before, Last(more), s', id);
    }
  }

  /** Every run: a sync call takes at most as many own steps as its budget, 10 + 2n from its start
      when no stacks directory lists more than n entries, before the step that unlocks and ends it. */
  lemma {:induction false} SyncCallsEnd(s: State, cloneDir: string, clock: int, run: seq<Action>, more: seq<Action>, s': State, n: nat)
    requires Reached(s, cloneDir, clock, run) && s.job.Some? && Exec(s, more) == Some(s')
    requires forall a | a in more :: ListsAtMost(a, n)
    ensures OwnSteps(MainLoop, more) > SyncBudget(s.job.value.phase, n) ==> SyncStep(UnlockRepo) in more
  {
    LocksRun(s, cloneDir, clock, run);
    if SyncStep(UnlockRepo) !in more {
      SyncBounded(s, more, s', n);
    }
  }

  /** Every run: an apply goroutine takes at most nine own steps before it leaves, whatever git does. */
  lemma {:induction false} ApplyCallsEnd(s: State, cloneDir: string, clock: int, run: seq<Action>, more: seq<Action>, s': State, id: nat)
    requires Reached(s, cloneDir, clock, run) && id in s.pool.applies && Exec(s, more) == Some(s')
    ensures OwnSteps(Handler(id), more) > 9 ==> ApplyStep(id, Leave) in more
  {
    LocksRun(s, cloneDir, clock, run);
    if ApplyStep(id, Leave) !in more {
      ApplyBounded(s, more, s', id);
    }
  }
}
