/** Lock discipline and the apply protocol: mutual exclusion of git work, the `applying` set,
    compose runs, and freedom from deadlock. */
module EngineLocks {
  import opened Common
  import opened Keys
  import opened Engine

  predicate InLockedPhase(p: Phase) {
    !p.Mark? && !p.Wait?
  }

  /** By its program counter, thread t is between locking and unlocking repository r. */
  ghost predicate Holds(s: State, t: Thread, r: string) {
    match t
    case MainLoop => s.job.Some? && s.job.value.repo.name == r && InLockedPhase(s.job.value.phase)
    case Handler(id) =>
      id in s.pool.applies && s.pool.applies[id].repo == r &&
      (s.pool.applies[id].phase.ApplyGit? || s.pool.applies[id].phase.ApplyUnlock?)
  }

  ghost predicate LocksMatch(s: State) {
    && (forall r | r in s.locks :: Holds(s, s.locks[r], r))
    && (forall t, r | Holds(s, t, r) :: r in s.locks && s.locks[r] == t)
  }

  ghost predicate PoolMatch(p: Pool) {
    && (forall id | id in p.applies :: id < p.nextId && KeyOf(p.applies[id]) in p.applying)
    && (forall i, j | i in p.applies && j in p.applies && i != j :: KeyOf(p.applies[i]) != KeyOf(p.applies[j]))
    && (forall k | k in p.applying :: exists id :: id in p.applies && KeyOf(p.applies[id]) == k)
  }

  lemma PoolMoves(p: Pool, id: nat, phase: ApplyPhase)
    requires PoolMatch(p) && id in p.applies
    ensures PoolMatch(At(p, id, phase))
  {
    var p' := At(p, id, phase);
    forall k | k in p'.applying
      ensures exists i :: i in p'.applies && KeyOf(p'.applies[i]) == k
    {
      var i :| i in p.applies && KeyOf(p.applies[i]) == k;
      assert i in p'.applies && KeyOf(p'.applies[i]) == k;
    }
  }

  lemma PoolRequest(s: State, repo: string, stack: string)
    requires PoolMatch(s.pool)
    ensures PoolMatch(RequestApply(s, repo, stack).pool)
  {
    var p, p' := s.pool, RequestApply(s, repo, stack).pool;
    if p' != p {
      forall k | k in p'.applying
        ensures exists id :: id in p'.applies && KeyOf(p'.applies[id]) == k
      {
        if k in p.applying {
          var id :| id in p.applies && KeyOf(p.applies[id]) == k;
          assert id in p'.applies && KeyOf(p'.applies[id]) == k;
        } else {
          assert p.nextId in p'.applies && KeyOf(p'.applies[p.nextId]) == k;
        }
      }
    }
  }

  lemma PoolLeft(p: Pool, id: nat)
    requires PoolMatch(p) && id in p.applies
    ensures PoolMatch(Left(p, id))
  {
    var p' := Left(p, id);
    forall k | k in p'.applying
      ensures exists i :: i in p'.applies && KeyOf(p'.applies[i]) == k
    {
      var i :| i in p.applies && KeyOf(p.applies[i]) == k;
      assert i in p'.applies;
    }
  }

  lemma PoolStep(s: State, a: Action, s': State)
    requires PoolMatch(s.pool) && Next(s, a) == Some(s')
    ensures PoolMatch(s'.pool)
  {
    match a
    case ApplyRequest(repo, stack) => PoolRequest(s, repo, stack);
    case ApplyStep(id, x) => PoolApplyStep(s, id, x, s');
    case GitStep(t, g) => PoolGitStep(s, t, g, s');
    case MainStep(m) => MainFrame(s, m, s');
    case SyncStep(x) => SyncFrame(s, s.job.value, x, s');
    case _ =>
  }

  lemma PoolApplyStep(s: State, id: nat, x: ApplyAction, s': State)
    requires PoolMatch(s.pool) && NextApply(s, id, x) == Some(s')
    ensures PoolMatch(s'.pool)
  {
    if x == Leave {
      PoolLeft(s.pool, id);
    } else {
      PoolMoves(s.pool, id, s'.pool.applies[id].phase);
    }
  }

  lemma PoolGitStep(s: State, t: Thread, g: GitAction, s': State)
    requires PoolMatch(s.pool) && NextGit(s, t, g) == Some(s')
    ensures PoolMatch(s'.pool)
  {
    if t.Handler? {
      PoolMoves(s.pool, t.id, s'.pool.applies[t.id].phase);
    }
  }

  lemma SameHolders(s: State, s': State)
    requires LocksMatch(s) && s'.locks == s.locks
    requires forall t, r :: Holds(s', t, r) <==> Holds(s, t, r)
    ensures LocksMatch(s')
  {
  }

  lemma LockTaken(s: State, s': State, t: Thread, r: string)
    requires LocksMatch(s) && r !in s.locks && s'.locks == s.locks[r := t]
    requires forall u, q :: Holds(s', u, q) <==> Holds(s, u, q) || (u == t && q == r)
    ensures LocksMatch(s')
  {
  }

  lemma LockGiven(s: State, s': State, t: Thread, r: string)
    requires LocksMatch(s) && Holds(s, t, r) && s'.locks == s.locks - {r}
    requires forall u, q :: Holds(s', u, q) <==> Holds(s, u, q) && !(u == t && q == r)
    ensures LocksMatch(s')
  {
  }

  lemma LocksSyncStep(s: State, x: SyncAction, s': State)
    requires LocksMatch(s) && s.job.Some? && NextSync(s, s.job.value, x) == Some(s')
    ensures LocksMatch(s')
  {
    SyncFrame(s, s.job.value, x, s');
    var r := s.job.value.repo.name;
    if x == LockRepo {
      LockTaken(s, s', MainLoop, r);
    } else if x == UnlockRepo {
      LockGiven(s, s', MainLoop, r);
    } else {
      SameHolders(s, s');
    }
  }

  lemma LocksApplyStep(s: State, id: nat, x: ApplyAction, s': State)
    requires LocksMatch(s) && NextApply(s, id, x) == Some(s')
    ensures LocksMatch(s')
  {
    var r := s.pool.applies[id].repo;
    if x == LockForApply {
      LockTaken(s, s', Handler(id), r);
    } else if x == UnlockAfterGit {
      LockGiven(s, s', Handler(id), r);
    } else {
      SameHolders(s, s');
    }
  }

  lemma LocksGitStep(s: State, t: Thread, g: GitAction, s': State)
    requires LocksMatch(s) && NextGit(s, t, g) == Some(s')
    ensures LocksMatch(s')
  {
    SameHolders(s, s');
  }

  lemma LocksRequest(s: State, repo: string, stack: string)
    requires LocksMatch(s) && PoolMatch(s.pool)
    ensures LocksMatch(RequestApply(s, repo, stack))
  {
    assert s.pool.nextId !in s.pool.applies;
    SameHolders(s, RequestApply(s, repo, stack));
  }

  lemma LocksStep(s: State, a: Action, s': State)
    requires LocksMatch(s) && PoolMatch(s.pool) && Next(s, a) == Some(s')
    ensures LocksMatch(s')
  {
    match a
    case ApplyStep(id, x) => LocksApplyStep(s, id, x, s');
    case SyncStep(x) => LocksSyncStep(s, x, s');
    case MainStep(m) =>
      MainFrame(s, m, s');
      SameHolders(s, s');
    case GitStep(t, g) => LocksGitStep(s, t, g, s');
    case ApplyRequest(repo, stack) => LocksRequest(s, repo, stack);
    case _ => SameHolders(s, s');
  }

  lemma {:induction false} LocksRun(s: State, cloneDir: string, clock: int, run: seq<Action>)
    requires Reached(s, cloneDir, clock, run)
    ensures LocksMatch(s) && PoolMatch(s.pool)
    decreases |run|
  {
    if run != [] {
      var before := Exec(Init(cloneDir, clock), DropLast(run)).value;
      LocksRun(before, cloneDir, clock, DropLast(run));
      PoolStep(before, Last(run), s);
      LocksStep(before, Last(run), s);
    }
  }

  /** Every run: one thread at a time does git work on a repository, `locks` says which, and no
      thread holds two locks. */
  lemma GitWorkExclusive(s: State, cloneDir: string, clock: int, run: seq<Action>, t: Thread, u: Thread, r: string, q: string)
    requires Reached(s, cloneDir, clock, run)
    ensures Holds(s, t, r) <==> r in s.locks && s.locks[r] == t
    ensures Holds(s, t, r) && Holds(s, u, r) ==> t == u
    ensures Holds(s, t, r) && Holds(s, t, q) ==> r == q
  {
    LocksRun(s, cloneDir, clock, run);
  }

  /** A goroutine for the key is alive. */
  ghost predicate Applying(s: State, key: string) {
    exists id :: id in s.pool.applies && KeyOf(s.pool.applies[id]) == key
  }

  /** Every run: a key is in `applying` exactly while one goroutine for it is alive. */
  lemma ApplyingExact(s: State, cloneDir: string, clock: int, run: seq<Action>, key: string)
    requires Reached(s, cloneDir, clock, run)
    ensures key in s.pool.applying <==> Applying(s, key)
    ensures forall i, j | i in s.pool.applies && j in s.pool.applies && KeyOf(s.pool.applies[i]) == KeyOf(s.pool.applies[j]) == key :: i == j
  {
    LocksRun(s, cloneDir, clock, run);
  }

  /** Every run: from the end of startup until the loop stops a request starts one goroutine for its
      pair exactly when the stack is stored and no goroutine for that key is alive; otherwise it
      changes nothing. */
  lemma ApplyStartsExactly(s: State, cloneDir: string, clock: int, run: seq<Action>, repo: string, stack: string)
    requires Reached(s, cloneDir, clock, run) && !s.main.Boot? && !s.main.Starting? && !s.main.Stopped?
    ensures Next(s, ApplyRequest(repo, stack)).Some?
    ensures var s' := Next(s, ApplyRequest(repo, stack)).value;
            if repo != "" && stack != "" && Key(repo, stack) in s.tables.stacks && !Applying(s, Key(repo, stack)) then
              && s'.pool.applies == s.pool.applies[s.pool.nextId := Apply(repo, stack, Lookup)]
              && s.pool.nextId !in s.pool.applies && Applying(s', Key(repo, stack))
            else s' == s
  {
    LocksRun(s, cloneDir, clock, run);
    var s' := Next(s, ApplyRequest(repo, stack)).value;
    if s'.pool.applies != s.pool.applies {
      var id := s.pool.nextId;
      assert id in s'.pool.applies && KeyOf(s'.pool.applies[id]) == Key(repo, stack);
    }
  }

  ghost predicate RunsCompose(s: State, t: Thread, key: string) {
    match t
    case MainLoop => s.job.Some? && s.job.value.phase.Composing? && Key(s.job.value.repo.name, s.job.value.phase.stack) == key
    case Handler(id) => id in s.pool.applies && s.pool.applies[id].phase.ApplyCompose? && KeyOf(s.pool.applies[id]) == key
  }

  /** Every run: of two threads composing the same stack one is the main loop, so there are at most two. */
  lemma ComposeAtMostTwo(s: State, cloneDir: string, clock: int, run: seq<Action>, t: Thread, u: Thread, key: string)
    requires Reached(s, cloneDir, clock, run)
    requires RunsCompose(s, t, key) && RunsCompose(s, u, key) && t != u
    ensures t == MainLoop || u == MainLoop
    ensures forall v | RunsCompose(s, v, key) :: v == t || v == u
  {
    LocksRun(s, cloneDir, clock, run);
  }
}
