/** SHA gating: stacks are applied once per change of the observed commit, whatever interleaves. */
module EngineSha {
  import opened Common
  import opened Engine

  // ---- The specification: adjacent duplicates removed ----------------------------------------

  function Destutter<T(==)>(s: seq<T>): seq<T> {
    if s == [] then []
    else if |s| >= 2 && s[|s| - 2] == Last(s) then Destutter(DropLast(s))
    else Destutter(DropLast(s)) + [Last(s)]
  }

  predicate NoAdjacentRepeat<T(==)>(s: seq<T>) {
    forall i | 0 < i < |s| :: s[i - 1] != s[i]
  }

  /** s is d with every element repeated one or more times. */
  predicate Stutters<T(==)>(d: seq<T>, s: seq<T>) {
    if d == [] || s == [] then d == [] && s == []
    else Last(s) == Last(d) && (Stutters(d, DropLast(s)) || Stutters(DropLast(d), DropLast(s)))
  }

  lemma {:induction false} DestutterLast<T>(s: seq<T>)
    ensures Destutter(s) == [] <==> s == []
    ensures s != [] ==> Last(Destutter(s)) == Last(s)
  {
    if s != [] {
      DestutterLast(DropLast(s));
    }
  }

  lemma {:induction false} DestutterSound<T>(s: seq<T>)
    ensures NoAdjacentRepeat(Destutter(s)) && Stutters(Destutter(s), s)
  {
    if s != [] {
      DestutterSound(DropLast(s));
      DestutterLast(DropLast(s));
      AppendLast(Destutter(DropLast(s)), Last(s));
    }
  }

  lemma {:induction false} DestutterUnique<T>(d: seq<T>, s: seq<T>)
    requires NoAdjacentRepeat(d) && Stutters(d, s)
    ensures d == Destutter(s)
    decreases |s|
  {
    if s != [] && d != [] {
      var s', d' := DropLast(s), DropLast(d);
      DestutterLast(s');
      if Stutters(d, s') {
        DestutterUnique(d, s');
      } else {
        DestutterUnique(d', s');
        assert s' != [] ==> Last(s') == Last(d');
      }
      assert d == d' + [Last(s)];
    }
  }

  /** Destutter is the one sequence without adjacent repeats that stutters to s. */
  lemma DestutterExact<T>(d: seq<T>, s: seq<T>)
    ensures d == Destutter(s) <==> NoAdjacentRepeat(d) && Stutters(d, s)
  {
    DestutterSound(s);
    if NoAdjacentRepeat(d) && Stutters(d, s) {
      DestutterUnique(d, s);
    }
  }

  // ---- The invariant -------------------------------------------------------------------------

  function LastOf<T>(s: seq<T>): Option<T> {
    if s == [] then None else Some(Last(s))
  }

  /** The main loop has read HEAD of r in the current call but not yet stored it. */
  predicate BetweenReadAndStore(s: State, r: string) {
    s.job.Some? && s.job.value.repo.name == r && s.job.value.seen.Some? && !s.job.value.phase.Unlock?
  }

  predicate JobKnows(s: State, j: Sync) {
    && (j.phase.InGit? || j.phase.ReadHead? ==> j.known == LastSHA(s, j.repo.name))
    && (j.phase.Mark? || j.phase.Wait? || j.phase.InGit? || j.phase.ReadHead? || j.phase.Fail? ==> j.seen.None?)
    && (j.phase.ReadDir? || j.phase.Stacks? || j.phase.Composing? || j.phase.Succeed? ==> j.seen.Some?)
  }

  ghost predicate ShaMatchAt(s: State, r: string) {
    var observed := ObservedOf(s, r);
    && PassesOf(s, r) == Destutter(observed)
    && (if BetweenReadAndStore(s, r) then
          observed != [] && s.job.value.seen == Some(Last(observed)) && LastSHA(s, r) == LastOf(DropLast(observed))
        else LastSHA(s, r) == LastOf(observed))
  }

  ghost predicate ShaMatch(s: State) {
    (s.job.Some? ==> JobKnows(s, s.job.value)) && forall r :: ShaMatchAt(s, r)
  }

  lemma {:induction false} ObserveStep<T>(observed: seq<T>, x: T)
    ensures Destutter(observed + [x]) == if LastOf(observed) == Some(x) then Destutter(observed) else Destutter(observed) + [x]
  {
    AppendLast(observed, x);
    assert observed != [] ==> (observed + [x])[|observed| - 1] == Last(observed);
  }

  /** Reading HEAD appends it to the observed commits, and to the passes if it is new. */
  lemma HeadOkHistory(s: State, s': State)
    requires s.job.Some? && NextSync(s, s.job.value, HeadOk) == Some(s')
    ensures var r, head := s.job.value.repo.name, HeadAt(s, s.job.value.repo.name);
            && s.job.value.phase.ReadHead? && head.Some?
            && s'.job.Some? && s'.job.value.repo == s.job.value.repo && s'.job.value.seen == head && !s'.job.value.phase.Unlock?
            && s'.tables == s.tables
            && s'.hist.observed == Append(s.hist.observed, r, head.value)
            && s'.hist.passes == if head != s.job.value.known then Append(s.hist.passes, r, head.value) else s.hist.passes
  {
  }

  lemma ShaObserved(s: State, s': State, r: string, head: Commit)
    requires ShaMatchAt(s, r) && !BetweenReadAndStore(s, r) && BetweenReadAndStore(s', r)
    requires s'.tables == s.tables && s'.job.value.seen == Some(head)
    requires ObservedOf(s', r) == ObservedOf(s, r) + [head]
    requires PassesOf(s', r) == if Some(head) != LastSHA(s, r) then PassesOf(s, r) + [head] else PassesOf(s, r)
    ensures ShaMatchAt(s', r)
  {
    ObserveStep(ObservedOf(s, r), head);
    AppendLast(ObservedOf(s, r), head);
  }

  lemma ShaHeadOk(s: State, s': State, r: string)
    requires s.job.Some? && ShaMatch(s) && NextSync(s, s.job.value, HeadOk) == Some(s')
    ensures ShaMatchAt(s', r)
  {
    assert ShaMatchAt(s, r);
    HeadOkHistory(s, s');
    if r == s.job.value.repo.name {
      ShaObserved(s, s', r, HeadAt(s, r).value);
    }
  }

  lemma ShaRecord(s: State, s': State, r: string)
    requires s.job.Some? && ShaMatch(s) && NextSync(s, s.job.value, Record) == Some(s')
    ensures ShaMatchAt(s', r)
  {
    assert ShaMatchAt(s, r);
  }

  /** Every other step of a sync call leaves LastSHA and the histories of commits alone. */
  lemma ShaQuiet(s: State, x: SyncAction, s': State, r: string)
    requires s.job.Some? && NextSync(s, s.job.value, x) == Some(s') && x != HeadOk && x != Record
    ensures s'.hist == s.hist && LastSHA(s', r) == LastSHA(s, r)
    ensures s'.job.Some? ==> s'.job.value.repo == s.job.value.repo && s'.job.value.seen == s.job.value.seen
    ensures s'.job.None? ==> s.job.value.phase.Unlock?
    ensures s'.job.Some? ==> !s'.job.value.phase.Unlock? && !s.job.value.phase.Unlock?
  {
  }

  lemma ShaSyncStep(s: State, x: SyncAction, s': State, r: string)
    requires s.job.Some? && ShaMatch(s) && NextSync(s, s.job.value, x) == Some(s')
    ensures ShaMatchAt(s', r)
  {
    assert ShaMatchAt(s, r);
    match x
    case HeadOk => ShaHeadOk(s, s', r);
    case Record => ShaRecord(s, s', r);
    case _ => ShaQuiet(s, x, s', r);
  }

  lemma KnowsSyncStep(s: State, x: SyncAction, s': State)
    requires s.job.Some? && JobKnows(s, s.job.value) && NextSync(s, s.job.value, x) == Some(s')
    ensures s'.job.Some? ==> JobKnows(s', s'.job.value)
  {
    if x == HeadOk {
      HeadOkHistory(s, s');
    } else if x != Record {
      KnowsQuiet(s, x, s');
    }
  }

  lemma KnowsQuiet(s: State, x: SyncAction, s': State)
    requires s.job.Some? && JobKnows(s, s.job.value) && NextSync(s, s.job.value, x) == Some(s') && x != HeadOk && x != Record
    ensures s'.job.Some? ==> JobKnows(s', s'.job.value)
  {
    hide ReadAt, HeadAt, WithStatus;
  }

  lemma ShaStep(s: State, a: Action, s': State)
    requires ShaMatch(s) && Next(s, a) == Some(s')
    ensures ShaMatch(s')
  {
    if a.SyncStep? {
      KnowsSyncStep(s, a.sync, s');
      forall r
        ensures ShaMatchAt(s', r)
      {
        ShaSyncStep(s, a.sync, s', r);
      }
    } else {
      ShaFrame(s, a, s');
      assert forall r :: ShaMatchAt(s, r) ==> ShaMatchAt(s', r);
    }
  }

  /** Steps outside syncRepoFromDB's own code leave the store's repositories and the histories of
      commits alone, and of a running call they change at most the program point and the fetched tip. */
  lemma ShaFrame(s: State, a: Action, s': State)
    requires Next(s, a) == Some(s') && !a.SyncStep?
    ensures s'.tables.repos == s.tables.repos
    ensures s'.hist.observed == s.hist.observed && s'.hist.passes == s.hist.passes && s'.hist.reports == s.hist.reports
    ensures s.job.Some? ==> s'.job.Some? && s'.job.value == s.job.value.(phase := s'.job.value.phase, tip := s'.job.value.tip)
    ensures s.job.Some? && s'.job.value.phase != s.job.value.phase ==> s.job.value.phase.InGit?
    ensures s.job.Some? && s'.job.value.phase != s.job.value.phase ==>
              s'.job.value.phase.InGit? || s'.job.value.phase.ReadHead? || s'.job.value.phase.Fail?
    ensures s.job.None? && s'.job.Some? ==> s'.job.value.phase == Mark && s'.job.value.seen.None?
  {
    match a
    case MainStep(m) =>
      MainFrame(s, m, s');
      MainTables(s, m, s');
      MainHistory(s, m, s');
    case ApplyStep(id, x) => ApplyFrame(s, id, x, s');
    case GitStep(t, g) =>
      GitFrame(s, t, g, s');
      GitJobFrame(s, t, g, s');
    case _ =>
  }

  lemma GitJobFrame(s: State, t: Thread, g: GitAction, s': State)
    requires NextGit(s, t, g) == Some(s')
    ensures s'.job != s.job ==> s.job.Some? && s.job.value.phase.InGit? && s'.job.Some?
    ensures s'.job != s.job ==> s'.job.value == s.job.value.(phase := s'.job.value.phase, tip := s'.job.value.tip)
    ensures s'.job != s.job ==> s'.job.value.phase.InGit? || s'.job.value.phase.ReadHead? || s'.job.value.phase.Fail?
  {
  }

  lemma {:induction false} ShaRun(s: State, cloneDir: string, clock: int, run: seq<Action>)
    requires Reached(s, cloneDir, clock, run)
    ensures ShaMatch(s)
    decreases |run|
  {
    if run != [] {
      var before := Exec(Init(cloneDir, clock), DropLast(run)).value;
      ShaRun(before, cloneDir, clock, DropLast(run));
      ShaStep(before, Last(run), s);
    }
  }

  /** Every run: the commits a repository's stack pass ran for are the observed HEADs with
      adjacent duplicates removed; and once a sync has stored its commit, the last pass was run
      for the commit now in LastSHA, so no commit still at HEAD then was missed. */
  lemma ShaGating(s: State, cloneDir: string, clock: int, run: seq<Action>, r: string)
    requires Reached(s, cloneDir, clock, run)
    ensures PassesOf(s, r) == Destutter(ObservedOf(s, r))
    ensures !BetweenReadAndStore(s, r) ==> LastSHA(s, r) == LastOf(ObservedOf(s, r)) == LastOf(PassesOf(s, r))
  {
    ShaRun(s, cloneDir, clock, run);
    assert ShaMatchAt(s, r);
    DestutterLast(ObservedOf(s, r));
  }

  // ---- LastSHA is what the last successful sync reported --------------------------------------

  function LastReported(reports: seq<Report>, r: string): Option<Commit> {
    if reports == [] then None
    else if Last(reports).repo.name == r then Some(Last(reports).sha)
    else LastReported(DropLast(reports), r)
  }

  lemma ReportedAppend(reports: seq<Report>, p: Report, r: string)
    ensures LastReported(reports + [p], r) == if p.repo.name == r then Some(p.sha) else LastReported(reports, r)
  {
    AppendLast(reports, p);
  }

  /** What recording an outcome does to the stored repository and to the reports. */
  lemma RecordEffects(s: State, s': State)
    requires s.job.Some? && NextSync(s, s.job.value, Record) == Some(s')
    ensures var j := s.job.value; var r := j.repo.name;
            && (forall q | q != r :: LastSHA(s', q) == LastSHA(s, q))
            && (j.phase.Succeed? ==>
                  && j.seen.Some? && LastSHA(s', r) == j.seen
                  && s'.hist.reports == s.hist.reports + [Report(j.repo, j.seen.value, j.tip, j.reading)])
            && (!j.phase.Succeed? ==> LastSHA(s', r) == LastSHA(s, r) && s'.hist.reports == s.hist.reports)
  {
    var j := s.job.value;
    assert s' == if j.phase.Fail? then RecordError(s, j) else RecordOk(s, j);
  }

  lemma ReportedRecord(s: State, s': State, r: string)
    requires LastSHA(s, r) == LastReported(s.hist.reports, r)
    requires s.job.Some? && NextSync(s, s.job.value, Record) == Some(s')
    ensures LastSHA(s', r) == LastReported(s'.hist.reports, r)
  {
    var j := s.job.value;
    RecordEffects(s, s');
    if j.phase.Succeed? {
      ReportedAppend(s.hist.reports, Report(j.repo, j.seen.value, j.tip, j.reading), r);
    }
  }

  lemma ReportedQuiet(s: State, x: SyncAction, s': State, r: string)
    requires LastSHA(s, r) == LastReported(s.hist.reports, r)
    requires s.job.Some? && NextSync(s, s.job.value, x) == Some(s') && x != Record
    ensures LastSHA(s', r) == LastReported(s'.hist.reports, r)
  {
    if x != HeadOk {
      ShaQuiet(s, x, s', r);
    }
  }

  lemma ReportedStep(s: State, a: Action, s': State, r: string)
    requires LastSHA(s, r) == LastReported(s.hist.reports, r) && Next(s, a) == Some(s')
    ensures LastSHA(s', r) == LastReported(s'.hist.reports, r)
  {
    if a.SyncStep? {
      var j := s.job.value;
      if a.sync == Record {
        ReportedRecord(s, s', r);
      } else {
        ReportedQuiet(s, a.sync, s', r);
      }
    } else {
      ShaFrame(s, a, s');
    }
  }

  /** Every run: LastSHA is the commit of the repository's last successful sync; errors and
      per-stack applies keep it. */
  lemma {:induction false} StoredIsReported(s: State, cloneDir: string, clock: int, run: seq<Action>, r: string)
    requires Reached(s, cloneDir, clock, run)
    ensures LastSHA(s, r) == LastReported(s.hist.reports, r)
    decreases |run|
  {
    if run != [] {
      var before := Exec(Init(cloneDir, clock), DropLast(run)).value;
      StoredIsReported(before, cloneDir, clock, DropLast(run), r);
      ReportedStep(before, Last(run), s, r);
    }
  }
}
