/** Startup and scheduled rounds, read off the steps of a run: each listed repository gets its turn,
    and the calls started are exactly those that their turns let through. */
module EngineRounds {
  import opened Common
  import opened Backoff
  import opened SyncLog
  import opened Engine
  import opened EngineGate
  import EngineQueue

  /** The listing and the default interval the main loop read last. */
  function Listing(run: seq<Action>): seq<RepoConfig> {
    if run == [] then []
    else if Last(run).MainStep? && Last(run).main.List? then Last(run).main.listing
    else Listing(DropLast(run))
  }

  function Dflt(run: seq<Action>): int {
    if run == [] then 0
    else if Last(run).MainStep? && Last(run).main.List? then Last(run).main.dflt
    else Dflt(DropLast(run))
  }

  /** The turn of one repository in the startup or round loop: when it came, the repository's history
      then, and whether a call was started. */
  datatype Turn = Turn(kind: Kind, repo: RepoConfig, at: int, past: seq<Event>, started: bool)

  predicate TakesTurn(s: State, a: Action) {
    a == MainStep(Proceed) && s.job.None? &&
    ((s.main.Starting? && s.main.todo != []) || (s.main.Round? && s.main.todo != [] && !s.env.cancelled))
  }

  function TurnOf(s: State, s': State): Turn
    requires TakesTurn(s, MainStep(Proceed))
  {
    var repo := s.main.todo[0];
    Turn(if s.main.Starting? then Startup else Scheduled, repo, s.env.clock, LogOf(s, repo.name), s'.job.Some?)
  }

  /** The turns since the last listing. */
  ghost function Turns(s0: State, run: seq<Action>): seq<Turn> {
    if run == [] || Exec(s0, run).None? then []
    else if Last(run).MainStep? && Last(run).main.List? then []
    else
      var before := Exec(s0, DropLast(run)).value;
      Turns(s0, DropLast(run)) +
      if TakesTurn(before, Last(run)) then [TurnOf(before, Exec(s0, run).value)] else []
  }

  function ReposOf(turns: seq<Turn>): seq<RepoConfig> {
    if turns == [] then [] else ReposOf(DropLast(turns)) + [Last(turns).repo]
  }

  /** Starts that nobody asked for. */
  function AutoStarts(log: seq<Event>): nat {
    if log == [] then 0
    else AutoStarts(DropLast(log)) + if Last(log).Start? && Last(log).kind != Manual then 1 else 0
  }

  /** How many of them the repository had when the main loop read the last listing. */
  ghost function AutoBefore(s0: State, run: seq<Action>, r: string): nat {
    if run == [] || Exec(s0, run).None? then 0
    else if Last(run).MainStep? && Last(run).main.List? then AutoStarts(LogOf(Exec(s0, DropLast(run)).value, r))
    else AutoBefore(s0, DropLast(run), r)
  }

  /** How many turns of the repository started a call. */
  function StartedTurns(turns: seq<Turn>, r: string): nat {
    if turns == [] then 0
    else StartedTurns(DropLast(turns), r) + if Last(turns).repo.name == r && Last(turns).started then 1 else 0
  }

  lemma TurnAppend(turns: seq<Turn>, t: Turn, r: string)
    ensures ReposOf(turns + [t]) == ReposOf(turns) + [t.repo]
    ensures StartedTurns(turns + [t], r) == StartedTurns(turns, r) + if t.repo.name == r && t.started then 1 else 0
  {
    AppendLast(turns, t);
  }

  lemma AutoAppend(log: seq<Event>, e: Event)
    ensures AutoStarts(log + [e]) == AutoStarts(log) + if e.Start? && e.kind != Manual then 1 else 0
  {
    AppendLast(log, e);
  }

  // ---- The invariant -----------------------------------------------------------------------------

  predicate RightTurn(t: Turn) {
    && (t.started <==> MayStart(t.past, t.kind, t.repo.enabled, t.at))
    && (t.kind == Startup ==> t.past == [])
  }

  predicate RightTurns(turns: seq<Turn>, kind: Kind) {
    forall i | 0 <= i < |turns| :: turns[i].kind == kind && RightTurn(turns[i])
  }

  /** Where the loop is, the turns taken and those to come are the listing. */
  predicate LoopRight(m: Main, cancelled: bool, listing: seq<RepoConfig>, dflt: int, turns: seq<Turn>) {
    match m
    case Boot => turns == []
    case Starting(todo, d) => ReposOf(turns) + todo == listing && d == dflt && RightTurns(turns, Startup)
    case Round(repos, todo, d) =>
      repos == listing && ReposOf(turns) + todo == listing && d == dflt && RightTurns(turns, Scheduled)
    case Select(repos, d) => AfterRound(repos, d, cancelled, listing, dflt, turns)
    case Draining(repos, d, _) => AfterRound(repos, d, cancelled, listing, dflt, turns)
    case Triggered(repos, d, _, _, _) => AfterRound(repos, d, cancelled, listing, dflt, turns)
    case Top => true
    case Stopped => cancelled
  }

  predicate AfterRound(repos: seq<RepoConfig>, d: int, cancelled: bool, listing: seq<RepoConfig>, dflt: int, turns: seq<Turn>) {
    repos == listing && d == dflt && RightTurns(turns, Scheduled) && (cancelled || ReposOf(turns) == listing)
  }

  /** A running call uses the interval in force. */
  predicate JobInterval(s: State, dflt: int) {
    s.job.Some? ==>
      && s.job.value.base == EffectiveInterval(s.job.value.repo.syncInterval, dflt)
      && (s.main.Starting? || s.main.Round? || s.main.Triggered?) && s.main.dflt == dflt
  }

  /** A turn moves one repository from those to come to those that had theirs. */
  lemma LoopTurn(m: Main, m': Main, cancelled: bool, listing: seq<RepoConfig>, dflt: int, turns: seq<Turn>, t: Turn)
    requires (m.Starting? || m.Round?) && m.todo != [] && LoopRight(m, cancelled, listing, dflt, turns)
    requires m' == if m.Starting? then Starting(m.todo[1..], m.dflt) else Round(m.repos, m.todo[1..], m.dflt)
    requires t.repo == m.todo[0] && t.kind == (if m.Starting? then Startup else Scheduled) && RightTurn(t)
    ensures LoopRight(m', cancelled, listing, dflt, turns + [t])
  {
    TurnAppend(turns, t, "");
    hide RightTurn, ReposOf;
    assert [t.repo] + m.todo[1..] == m.todo;
    assert (ReposOf(turns) + [t.repo]) + m.todo[1..] == ReposOf(turns) + m.todo;
  }

  /** One iteration of the startup or round loop over a repository. */
  lemma TurnStep(s: State, s': State, listing: seq<RepoConfig>, dflt: int, turns: seq<Turn>)
    requires TakesTurn(s, MainStep(Proceed)) && Proceeded(s) == Some(s') && GateMatch(s)
    requires LoopRight(s.main, s.env.cancelled, listing, dflt, turns)
    ensures LoopRight(s'.main, s'.env.cancelled, listing, dflt, turns + [TurnOf(s, s')])
  {
    var t := TurnOf(s, s');
    assert GateAt(s, t.repo.name);
    TurnStarts(s, s');
    TurnMoves(s, s');
    hide Proceeded, RightTurn, LoopRight, GateMatch;
    LoopTurn(s.main, s'.main, s.env.cancelled, listing, dflt, turns, t);
  }

  lemma TurnMoves(s: State, s': State)
    requires TakesTurn(s, MainStep(Proceed)) && Proceeded(s) == Some(s')
    ensures s'.env == s.env
    ensures s'.main == if s.main.Starting? then Starting(s.main.todo[1..], s.main.dflt)
                       else Round(s.main.repos, s.main.todo[1..], s.main.dflt)
    ensures s'.hist.log == if s'.job.None? then s.hist.log else
              Append(s.hist.log, s.main.todo[0].name, Start(TurnOf(s, s').kind, s.main.todo[0].enabled, s.env.clock))
    ensures s'.job.Some? ==>
              && s'.job.value.repo == s.main.todo[0]
              && s'.job.value.base == EffectiveInterval(s.main.todo[0].syncInterval, s.main.dflt)
  {
    hide Skips, Due, EntryOf, DueOf, EffectiveInterval;
  }

  lemma TurnStarts(s: State, s': State)
    requires TakesTurn(s, MainStep(Proceed)) && Proceeded(s) == Some(s')
    requires StartupAt(s) && GateAt(s, s.main.todo[0].name)
    ensures RightTurn(TurnOf(s, s'))
  {
    hide EffectiveInterval, Legal;
  }

  /** Every other step of the loops: the listing stays, and only a manual start is logged. */
  lemma OtherMove(s: State, m: MainAction, s': State, listing: seq<RepoConfig>, dflt: int, turns: seq<Turn>)
    requires s.job.None? && NextMain(s, m) == Some(s') && !m.List? && !TakesTurn(s, MainStep(m))
    requires LoopRight(s.main, s.env.cancelled, listing, dflt, turns)
    ensures LoopRight(s'.main, s'.env.cancelled, listing, dflt, turns)
  {
    hide EffectiveInterval, RightTurns;
    assert ReposOf(turns) + [] == ReposOf(turns);
  }

  lemma OtherLogs(s: State, m: MainAction, s': State)
    requires s.job.None? && NextMain(s, m) == Some(s') && !m.List? && !TakesTurn(s, MainStep(m))
    ensures s'.job.None? ==> s'.hist.log == s.hist.log
    ensures s'.job.Some? ==>
              && s.main.Triggered? && s.main.todo != [] && s'.main.Triggered? && s'.main.dflt == s.main.dflt
              && s'.job.value.base == EffectiveInterval(s'.job.value.repo.syncInterval, s.main.dflt)
              && s'.hist.log == Append(s.hist.log, s.main.todo[0].name, Start(Manual, s.main.todo[0].enabled, s.env.clock))
  {
    if s.main.Triggered? && m.Proceed? {
      EngineQueue.TriggeredCases(s, s');
    }
    hide EffectiveInterval;
  }

  lemma ListMove(s: State, m: MainAction, s': State)
    requires s.job.None? && NextMain(s, m) == Some(s') && m.List?
    ensures LoopRight(s'.main, s'.env.cancelled, m.listing, m.dflt, [])
    ensures s'.job.None? && s'.hist.log == s.hist.log
  {
    assert [] + m.listing == m.listing;
  }

  // ---- All steps ---------------------------------------------------------------------------------

  /** What the steps of a run say about the state it leads to, for repository r. */
  ghost predicate RoundMatch(s: State, s0: State, run: seq<Action>, r: string) {
    && LoopRight(s.main, s.env.cancelled, Listing(run), Dflt(run), Turns(s0, run))
    && JobInterval(s, Dflt(run))
    && AutoStarts(LogOf(s, r)) == AutoBefore(s0, run, r) + StartedTurns(Turns(s0, run), r)
    && (s.env.cancelled <==> Cancel in run)
  }

  lemma CancelStep(s: State, a: Action, s': State)
    requires Next(s, a) == Some(s')
    ensures s'.env.cancelled <==> s.env.cancelled || a == Cancel
  {
    match a
    case MainStep(m) => MainFrame(s, m, s');
    case SyncStep(x) => SyncFrame(s, s.job.value, x, s');
    case GitStep(t, g) => GitFrame(s, t, g, s');
    case ApplyStep(id, x) => ApplyFrame(s, id, x, s');
    case _ =>
  }

  /** Steps outside the main loop's own code. */
  lemma ElsewhereStep(s: State, a: Action, s': State, r: string)
    requires Next(s, a) == Some(s') && !a.MainStep?
    ensures s'.main == s.main && AutoStarts(LogOf(s', r)) == AutoStarts(LogOf(s, r))
    ensures s'.job.Some? ==> s.job.Some? && s'.job.value.repo == s.job.value.repo && s'.job.value.base == s.job.value.base
  {
    match a
    case SyncStep(x) =>
      EngineQueue.SyncLogs(s, x, s');
      ElsewhereSync(s, x, s');
      if x == Record && r == s.job.value.repo.name {
        AutoAppend(LogOf(s, r), Last(LogOf(s', r)));
      }
    case GitStep(t, g) =>
      GitFrame(s, t, g, s');
      ElsewhereGit(s, t, g, s');
    case ApplyStep(id, x) => ApplyFrame(s, id, x, s');
    case _ =>
  }

  lemma ElsewhereSync(s: State, x: SyncAction, s': State)
    requires s.job.Some? && NextSync(s, s.job.value, x) == Some(s')
    ensures s'.job.Some? ==> s'.job.value.repo == s.job.value.repo && s'.job.value.base == s.job.value.base
  {
    hide HeadAt, ReadAt, LastSHA, WithStatus, WithStack, Append, AfterFailure;
  }

  lemma ElsewhereGit(s: State, t: Thread, g: GitAction, s': State)
    requires NextGit(s, t, g) == Some(s')
    ensures s'.job.Some? ==> s.job.Some? && s'.job.value.repo == s.job.value.repo && s'.job.value.base == s.job.value.base
  {
    hide GitCommand;
  }

  lemma RoundMainStep(s: State, m: MainAction, s': State, s0: State, run: seq<Action>, r: string)
    requires s.job.None? && NextMain(s, m) == Some(s') && GateMatch(s) && Exec(s0, run) == Some(s) && RoundMatch(s, s0, run, r)
    requires Exec(s0, run + [MainStep(m)]) == Some(s')
    ensures var run' := run + [MainStep(m)];
            && LoopRight(s'.main, s'.env.cancelled, Listing(run'), Dflt(run'), Turns(s0, run'))
            && JobInterval(s', Dflt(run'))
            && AutoStarts(LogOf(s', r)) == AutoBefore(s0, run', r) + StartedTurns(Turns(s0, run'), r)
  {
    var turns := Turns(s0, run);
    AppendLast(run, MainStep(m));
    hide Exec, LoopRight, NextMain, GateMatch;
    if m.List? {
      assert turns == turns;
      ListMove(s, m, s');
    } else if TakesTurn(s, MainStep(m)) {
      TurnProceeds(s, m, s');
      TurnStep(s, s', Listing(run), Dflt(run), turns);
      TurnMoves(s, s');
      TurnAppend(turns, TurnOf(s, s'), r);
      TurnAuto(s, s', r);
      TurnDflt(s, run, turns);
    } else {
      OtherMove(s, m, s', Listing(run), Dflt(run), turns);
      OtherLogs(s, m, s');
      assert turns + [] == turns;
      if s'.job.Some? {
        OtherAuto(s, s', r);
        TriggeredDflt(s, run, turns);
      }
    }
  }

  lemma TurnProceeds(s: State, m: MainAction, s': State)
    requires s.job.None? && NextMain(s, m) == Some(s') && TakesTurn(s, MainStep(m))
    ensures m == Proceed && Proceeded(s) == Some(s')
  {
  }

  lemma TurnDflt(s: State, run: seq<Action>, turns: seq<Turn>)
    requires TakesTurn(s, MainStep(Proceed)) && LoopRight(s.main, s.env.cancelled, Listing(run), Dflt(run), turns)
    ensures s.main.dflt == Dflt(run)
  {
  }

  lemma TriggeredDflt(s: State, run: seq<Action>, turns: seq<Turn>)
    requires s.main.Triggered? && LoopRight(s.main, s.env.cancelled, Listing(run), Dflt(run), turns)
    ensures s.main.dflt == Dflt(run)
  {
  }

  lemma TurnAuto(s: State, s': State, r: string)
    requires TakesTurn(s, MainStep(Proceed))
    requires s'.hist.log == if s'.job.None? then s.hist.log else
               Append(s.hist.log, s.main.todo[0].name, Start(TurnOf(s, s').kind, s.main.todo[0].enabled, s.env.clock))
    ensures AutoStarts(LogOf(s', r)) ==
            AutoStarts(LogOf(s, r)) + if s.main.todo[0].name == r && s'.job.Some? then 1 else 0
  {
    AutoAppend(LogOf(s, r), Start(TurnOf(s, s').kind, s.main.todo[0].enabled, s.env.clock));
  }

  lemma OtherAuto(s: State, s': State, r: string)
    requires s.main.Triggered? && s.main.todo != []
    requires s'.hist.log == Append(s.hist.log, s.main.todo[0].name, Start(Manual, s.main.todo[0].enabled, s.env.clock))
    ensures AutoStarts(LogOf(s', r)) == AutoStarts(LogOf(s, r))
  {
    AutoAppend(LogOf(s, r), Start(Manual, s.main.todo[0].enabled, s.env.clock));
  }

  lemma CancelledLater(m: Main, cancelled: bool, cancelled': bool, listing: seq<RepoConfig>, dflt: int, turns: seq<Turn>)
    requires LoopRight(m, cancelled, listing, dflt, turns) && (cancelled ==> cancelled')
    ensures LoopRight(m, cancelled', listing, dflt, turns)
  {
  }

  lemma {:induction false} RoundRun(s: State, cloneDir: string, clock: int, run: seq<Action>, r: string)
    requires Reached(s, cloneDir, clock, run)
    ensures RoundMatch(s, Init(cloneDir, clock), run, r)
    decreases |run|
  {
    var s0 := Init(cloneDir, clock);
    if run != [] {
      var past, a := DropLast(run), Last(run);
      var before := Exec(s0, past).value;
      assert run == past + [a];
      RoundRun(before, cloneDir, clock, past, r);
      CancelStep(before, a, s);
      if a.MainStep? {
        GateRun(before, cloneDir, clock, past);
        RoundMainStep(before, a.main, s, s0, past, r);
      } else {
        ElsewhereStep(before, a, s, r);
        hide Next, LoopRight;
        assert !TakesTurn(before, a);
        assert Turns(s0, run) == Turns(s0, past) + [] == Turns(s0, past);
        assert Listing(run) == Listing(past) && Dflt(run) == Dflt(past) && AutoBefore(s0, run, r) == AutoBefore(s0, past, r);
        CancelledLater(before.main, before.env.cancelled, s.env.cancelled, Listing(past), Dflt(past), Turns(s0, past));
        assert JobInterval(s, Dflt(run));
        assert Cancel in run <==> Cancel in past || a == Cancel;
      }
    }
  }

  lemma {:induction false} TurnAt(turns: seq<Turn>, i: nat)
    requires i < |turns|
    ensures |ReposOf(turns)| == |turns| && ReposOf(turns)[i] == turns[i].repo
  {
    if i < |turns| - 1 {
      TurnAt(DropLast(turns), i);
    } else if |turns| > 1 {
      TurnAt(DropLast(turns), 0);
    }
  }

  /** With distinct names a repository has at most one turn. */
  lemma {:induction false} StartedOnce(turns: seq<Turn>, r: string)
    requires DistinctNames(ReposOf(turns))
    ensures StartedTurns(turns, r) == if exists i :: 0 <= i < |turns| && turns[i].repo.name == r && turns[i].started then 1 else 0
  {
    if turns != [] {
      var rest := DropLast(turns);
      forall i | 0 <= i < |turns|
        ensures |ReposOf(turns)| == |turns| && ReposOf(turns)[i] == turns[i].repo
      {
        TurnAt(turns, i);
      }
      assert ReposOf(rest) == DropLast(ReposOf(turns));
      StartedOnce(rest, r);
      if i :| 0 <= i < |rest| && rest[i].repo.name == r && rest[i].started {
        assert turns[i] == rest[i];
      }
      if i :| 0 <= i < |turns| && turns[i].repo.name == r && turns[i].started && i < |rest| {
        assert rest[i] == turns[i];
      }
    }
  }

  lemma {:induction false} ListingDistinct(s: State, cloneDir: string, clock: int, run: seq<Action>)
    requires Reached(s, cloneDir, clock, run)
    ensures DistinctNames(Listing(run))
    decreases |run|
  {
    if run != [] {
      ListingDistinct(Exec(Init(cloneDir, clock), DropLast(run)).value, cloneDir, clock, DropLast(run));
    }
  }

  /** Every run: when a round has come to its end uncancelled, each repository of the last listing had
      its turn, in order; a turn started a call if and only if the repository was enabled and its
      history then was past both backoff and due time; and nothing else was started, nothing twice. */
  lemma RoundComplete(s: State, cloneDir: string, clock: int, run: seq<Action>, r: string)
    requires Reached(s, cloneDir, clock, run) && s.main.Select? && Cancel !in run
    ensures var turns := Turns(Init(cloneDir, clock), run);
            && ReposOf(turns) == Listing(run)
            && (forall i | 0 <= i < |turns| ::
                  turns[i].started <==>
                    && turns[i].repo.enabled
                    && !Skips(Replay(turns[i].past).entry, turns[i].at) && Due(Replay(turns[i].past).due, turns[i].at))
            && AutoStarts(LogOf(s, r)) == AutoBefore(Init(cloneDir, clock), run, r) +
                 if exists i :: 0 <= i < |turns| && turns[i].repo.name == r && turns[i].started then 1 else 0
  {
    RoundRun(s, cloneDir, clock, run, r);
    ListingDistinct(s, cloneDir, clock, run);
    hide Skips, Due, Replay, DistinctNames, Exec;
    StartedOnce(Turns(Init(cloneDir, clock), run), r);
  }

  /** Every run: when startup has come to its end, each repository of the listing had its turn, in
      order, and exactly the enabled ones were started, once. */
  lemma StartupComplete(s: State, cloneDir: string, clock: int, run: seq<Action>, r: string)
    requires Reached(s, cloneDir, clock, run) && s.main.Starting? && s.main.todo == []
    ensures var turns := Turns(Init(cloneDir, clock), run);
            && ReposOf(turns) == Listing(run)
            && (forall i | 0 <= i < |turns| :: turns[i].started <==> turns[i].repo.enabled)
            && AutoStarts(LogOf(s, r)) == AutoBefore(Init(cloneDir, clock), run, r) +
                 if exists i :: 0 <= i < |turns| && turns[i].repo.name == r && turns[i].started then 1 else 0
  {
    RoundRun(s, cloneDir, clock, run, r);
    ListingDistinct(s, cloneDir, clock, run);
    hide Skips, Due, Replay, DistinctNames, Exec;
    var turns := Turns(Init(cloneDir, clock), run);
    assert ReposOf(turns) + [] == ReposOf(turns);
    StartedOnce(turns, r);
  }

  /** Where the loop goes once it is cancelled, and that it stops only then. */
  lemma CancelMoves(s: State)
    requires s.job.None?
    ensures s.main.Select? ==> (Next(s, MainStep(Stop)).Some? <==> s.env.cancelled)
    ensures s.main.Round? && s.env.cancelled ==> Next(s, MainStep(Proceed)) == Some(s.(main := Select(s.main.repos, s.main.dflt)))
  {
  }

  /** Every run: from a listing to the next, the loops work on exactly that listing and its default
      interval, a running call on the interval these give its repository; and only a cancelled loop
      has stopped, or goes on without its turns. */
  lemma ListingKept(s: State, cloneDir: string, clock: int, run: seq<Action>)
    requires Reached(s, cloneDir, clock, run)
    ensures s.main.Round? || s.main.Select? || s.main.Draining? || s.main.Triggered? ==>
              s.main.repos == Listing(run) && s.main.dflt == Dflt(run)
    ensures s.job.Some? ==> s.job.value.base == EffectiveInterval(s.job.value.repo.syncInterval, Dflt(run))
    ensures s.main.Stopped? ==> Cancel in run
    ensures s.main.Select? ==> (Next(s, MainStep(Stop)).Some? <==> Cancel in run)
    ensures s.main.Round? && Cancel in run && s.job.None? ==>
              Next(s, MainStep(Proceed)) == Some(s.(main := Select(Listing(run), Dflt(run))))
  {
    RoundRun(s, cloneDir, clock, run, "");
    hide EffectiveInterval, Exec, Turns, ReposOf, RightTurns, AutoStarts, AutoBefore, StartedTurns;
    if s.job.None? {
      CancelMoves(s);
    }
  }

  /** Every run: when the last k calls of a repository were failures of one streak with interval b, the
      last at time t, its turn in an uncancelled round starts a call if and only if it is enabled, k is
      less than ten, the clock is at or past t + min(2^k, 8) * b, and past what its last success set. */
  lemma RetriedExactly(s: State, cloneDir: string, clock: int, run: seq<Action>, i: nat, k: nat, b: int)
    requires Reached(s, cloneDir, clock, run) && s.job.None? && s.main.Round? && s.main.todo != [] && Cancel !in run
    requires var log := LogOf(s, s.main.todo[0].name);
             Streak(log, i, k, b) && i + 2 * k == |log| && 0 < b <= MAX_EXACT_BASE
    ensures var repo := s.main.todo[0];
            var log := LogOf(s, repo.name);
            && Next(s, MainStep(Proceed)).Some?
            && (Next(s, MainStep(Proceed)).value.job.Some? <==>
                  && repo.enabled && k < 10 && s.env.clock >= Last(log).at + PromisedDelay(k, b)
                  && (LastSuccess(log).None? || s.env.clock >= DueFrom(log, LastSuccess(log).value)))
  {
    var repo := s.main.todo[0];
    var log := LogOf(s, repo.name);
    RoundRun(s, cloneDir, clock, run, "");
    GateRun(s, cloneDir, clock, run);
    assert GateAt(s, repo.name);
    BarsExactly(log, i, k, b, s.env.clock);
    DueIsLastSuccess(log);
    StreakCount(log, i, k, b);
    hide Streak, PromisedDelay, Replay, LastSuccess, DueFrom, Skips, EffectiveInterval;
  }

  /** Every run: after a success the next scheduled sync is due exactly one interval later: the
      repository's own seconds if it has any, otherwise the default of the last listing, and a minute
      where neither is positive. */
  lemma NextDueExactly(s: State, cloneDir: string, clock: int, run: seq<Action>, s': State, now: int)
    requires Reached(s, cloneDir, clock, run) && Next(s, SyncStep(Record)) == Some(s') && s.job.value.phase.Succeed?
    ensures var repo := s.job.value.repo;
            var due := DueOf(s', repo.name);
            && (0 < repo.syncInterval && repo.syncInterval * 1_000_000_000 < TWO63 ==>
                  (Due(due, now) <==> now >= s.env.clock + repo.syncInterval * 1_000_000_000))
            && (repo.syncInterval <= 0 < Dflt(run) ==> (Due(due, now) <==> now >= s.env.clock + Dflt(run)))
            && (repo.syncInterval <= 0 && Dflt(run) <= 0 ==> (Due(due, now) <==> now >= s.env.clock + 60_000_000_000))
  {
    RoundRun(s, cloneDir, clock, run, "");
    if 0 < s.job.value.repo.syncInterval && s.job.value.repo.syncInterval * SECOND < TWO63 {
      Wrap64InRange(s.job.value.repo.syncInterval * SECOND);
    }
    hide Wrap64;
  }

  /** Every run: whenever the loop waits, the next tick leads to a new listing and from there to a round
      over all of it, whatever is listed. */
  lemma AnotherRound(s: State, cloneDir: string, clock: int, run: seq<Action>, listing: seq<RepoConfig>, dflt: int)
    requires Reached(s, cloneDir, clock, run) && s.main.Select? && DistinctNames(listing)
    ensures Reached(s.(main := Round(listing, listing, dflt)), cloneDir, clock,
                    run + [MainStep(TickerFired)] + [MainStep(List(listing, dflt))])
  {
    RoundRun(s, cloneDir, clock, run, "");
    assert s.job.None?;
    var top := s.(main := Top);
    var s0 := Init(cloneDir, clock);
    assert Next(s, MainStep(TickerFired)) == Some(top);
    assert Next(top, MainStep(List(listing, dflt))) == Some(s.(main := Round(listing, listing, dflt)));
    hide Exec, Next;
    Then(s0, run, s, MainStep(TickerFired), top);
    Then(s0, run + [MainStep(TickerFired)], top, MainStep(List(listing, dflt)), s.(main := Round(listing, listing, dflt)));
  }
}
