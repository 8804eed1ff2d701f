# stackd, verified

stackd is a GitOps daemon: one main loop and any number of HTTP goroutines keep git clones of
configured repositories up to date and run `docker compose` for every stack directory in them. This
project is a Dafny 4.11 model of the parts of stackd whose behaviour spans many steps, and proofs of
what those parts are meant to guarantee. `dafny verify dfyconfig.toml` checks everything.

## What is modelled

**The sync engine** (`engine.dfy` and the `engine_*.dfy` proofs) is a step system. Its state holds
the program counter of the main loop (startup, scheduled round, select, drain, manual syncs), of the
one running `syncRepoFromDB` call and of each live per-stack apply goroutine; the per-repository
locks; the `applying` set; the trigger channel; the clone on disk per directory; the state store; the
backoff and schedule tables; and a clock. `Next` is one atomic step. Time, repository listings,
every git outcome (a failed clone or reset may leave anything behind) and every HTTP request are
chosen by the environment, so a theorem about `Reached` states holds for every interleaving, every
failure and every length of run. A history records what happened; no step depends on it.

The proofs are inductive invariants, one file per concern, each closed by theorems about whole runs:

- `engine_locks.dfy`: exclusive git work, the `applying` protocol, compose runs;
- `engine_disk.dfy`: the commit a sync reads, applies and stores is one commit;
- `engine_live.dfy`: no deadlock, and every call ends;
- `engine_call.dfy`: what one whole undisturbed sync call leaves behind;
- `engine_sha.dfy`: stack passes are the observed commits without adjacent repeats;
- `engine_gate.dfy`: the tables are the replayed event log of each repository, and that log is legal;
- `engine_rounds.dfy`: startup and rounds reach every listed repository, and retries and due times are exact;
- `engine_apply.dfy`: a per-stack apply composes its stack once, whatever git does;
- `engine_runs.dfy`: what a stacks directory outside the clone and a shorter interval lead to;
- `engine_queue.dfy`: triggers are conserved and each is synced once;
- `engine_stacks.dfy`: every stored stack belongs to a stored repository.

`backoff.dfy` holds the retry record and its tables as classes with Go's int64 arithmetic written
out. `synclog.dfy` is the per-repository event log: what the two scheduling gates force on every
legal log (throttling, suspension, spacing). `git.dfy` models path cleaning and repository names,
`keys.dfy` the `repo/stack` key.

**The smaller protocols** stand on their own: the pointer-valued store (`store.dfy`), the activity
bus (`bus.dfy`), the Docker client holder (`holder.dfy`), the rate limiter (`limiter.dfy`), the
metrics page (`metrics.dfy`, with `decimal.dfy`), the server-sent event writer (`sse.dfy`, with `utf8.dfy`),
placeholder rewriting (`rebind.dfy`), the settings table and the dashboard token (`settings.dfy`),
and the log viewer (`logview.dfy`). Objects the source mutates are classes whose methods are proved
against functions of the old state; where several goroutines share one, a small step system beside
the class carries the theorems about every interleaving.

## Where a promise holds only conditionally

- The documented delay `min(2^failures, 8) * interval` is met for every failure count exactly when
  the interval is at most 18,014,398 seconds; past that an int64 product wraps (`DelayExactIff`,
  `DelayOverflows`, `TightAtNine`).
- `Rebind` can be read back exactly when no `?` and no `$` stands directly before a digit
  (`RebindUndone`).
- A browser receives exactly the decoded log lines exactly when no write holds a carriage return: the
  event-stream format ends a line at it and the writer does not. It receives exactly their bytes
  exactly when, besides, every line on its own is UTF-8; a write that ends inside a character, or
  holds a byte like 0xFF, arrives as U+FFFD (`EventsAreLines`).
- The log viewer mounts a bounded number of rows exactly when `scrollTop + viewportH > -171` or
  `50000 + ceil((scrollTop + viewportH) / 19) <= ceil(viewportH / 19) + 9`: above the top `slice` gets
  a negative end and mounts a prefix of the log, which is too long until the end lies before the
  longest log (`MountedBounded`).
- The stacks a sync composes are read at the commit it stores exactly when the directory they are
  found in, symbolic links followed, lies in the repository's own clone (`CommitStability`,
  `StoredAtIff`); without links that is a matter of the configured path alone (`ComposesStoredIff`).
  `stacks_dir` is not validated: "../b", or a committed link to b's clone, composes repository b's
  working tree under a's lock, and b may move meanwhile (`NeighbourRun`, `LinkedNeighbourRun`).
- The stored dashboard token always equals the token file unless a database read fails while a token
  is stored: the code treats that failure like a missing row and overwrites the file
  (`TokenCrashSafe`, `ReadKeepsTokenIff`).
- Spacing after a success at interval d holds until a later success of the same repository asks for
  a shorter interval, because each success replaces the due time (`SuccessSpacing`,
  `SpacingExactly`, `SpacingShrinksRun`).

## Model

| member | source | states |
|---|---|---|
| `EngineLocks.GitWorkExclusive` | main.go:57-60 | In every run at most one thread does git work on a repository, the lock table names exactly that thread, and no thread holds two locks. |
| `EngineLocks.ApplyingExact` | internal/server/server.go:683-702 | In every run a key is in `applying` if and only if a goroutine for it is alive, and then exactly one is. |
| `EngineLocks.ApplyStartsExactly` | internal/server/server.go:664-702 | In every run after startup every apply request is answered, and it starts a goroutine exactly when the stack is stored and none for its key is alive; every other request changes nothing. |
| `EngineLocks.ComposeAtMostTwo` | main.go:882-895 | In every run at most two threads compose one stack at a time, and one of two is the main loop. |
| `EngineDisk.CommitStability` | main.go:618-671 | In every run, from reading HEAD to unlocking, HEAD on disk is the commit the sync read and the tip it fetched; each successful sync, always of a valid name, stores that commit; and every compose run whose stacks directory, symbolic links followed, led into the clone read that commit. |
| `EngineRuns.StoredAtIff` | main.go:654-658 | Over all runs, whatever symbolic links come and go, compose runs that find their stacks in a given directory read the commit their sync stores if and only if that directory lies in the repository's clone. |
| `EngineRuns.ComposesStoredIff` | main.go:654-658 | Over all runs without symbolic links, the compose runs of a repository read the commit its syncs store if and only if the join of its destination and its stacks directory lies in the clone. |
| `EngineRuns.NeighbourRun` | main.go:657-658 | For "../b" a concrete run without links: the compose run of a reads b's clone, a per-stack apply of b moves it meanwhile, and the two ends differ whatever commit is stored for a. |
| `EngineRuns.LinkedNeighbourRun` | main.go:657-658 | The same run for any stacks directory that is a symbolic link to b's clone. |
| `Git.StacksDirIsJoin` | main.go:657 | The directory the model takes as a repository's stacks directory is filepath.Join of the destination string and the configured one. |
| `Git.StackInside` | main.go:567-658 | A stacks directory in the clone keeps every stack in it; any other one takes out every stack not named like the repository. |
| `Git.OwnStacks` | internal/server/settings_handlers.go:120-121 | The default stacks directory "." is the clone itself, and a plain name is the directory of that name in it. |
| `Git.NameAlphabet` | internal/git/git.go:43-53 | A name is valid exactly when it is a non-empty word over the pattern's alphabet other than "." and "..". |
| `EngineDisk.HeadFrozenForOthers` | main.go:882-885 | In every run, however many steps other threads take, a thread that holds a repository's lock and rests still holds it afterwards and finds HEAD unmoved. |
| `EngineDisk.HeadMoves` | internal/git/git.go:131-183 | In every run a HEAD moves only by a step of its lock holder: a clone, a reset, which takes it to the commit fetched, or a clone or reset that failed; a fetch never moves it. |
| `EngineLive.NoDeadlock` | main.go:618-620 | In every run each live thread can step, or waits for a lock whose holder is another live thread that can step. |
| `EngineCall.WholeSync` | main.go:587-675 | From any state an undisturbed call with a valid name can be completed, for every remote tip and stacks directory, and then: clone at the tip, tip stored with status ok, backoff reset, next due time set, lock free, and the stacks composed exactly when the tip differs from the stored commit, each reading the tip if its directory, links followed, lies in the clone. |
| `EngineLive.SyncCallsEnd` | main.go:587-675 | In every run a sync call takes at most 10 + 2n own steps before the step that unlocks and ends it, n being the longest directory listing. |
| `EngineLive.ApplyCallsEnd` | main.go:862-897 | In every run an apply goroutine takes at most nine own steps before it leaves, whatever git does. |
| `EngineApply.ComposedOnce` | main.go:862-897 | In every run a goroutine that has left composed its stack exactly once if it found stack and repository, whatever git did, and not at all otherwise. |
| `EngineApply.WholeApply` | main.go:862-897 | From any state with the stack stored, its key not applying and the lock free, an undisturbed apply can be completed for every outcome of git: it runs compose on the way, and afterwards lock, goroutine and key are gone, the stack is stored, and at most the repository's clone has changed, to the tip if git succeeded. |
| `EngineSha.ShaGating` | main.go:651-671 | In every run the commits a repository's stack pass ran for are the successfully observed HEADs with adjacent duplicates removed, and outside a running pass the last of them is `LastSHA`. |
| `EngineSha.StoredIsReported` | main.go:604-616 | In every run `LastSHA` is the commit of the last successful sync: failed syncs and per-stack applies keep it. |
| `EngineSha.DestutterExact` | main.go:654-659 | The destutter specification is the one sequence without adjacent repeats that the observed sequence stutters over. |
| `EngineGate.ScheduledGateSafety` | main.go:907-923 | In every run each scheduled sync started with the repository enabled, not suspended, and past both the backoff and the due time its history implies; starts and outcomes alternate. |
| `EngineGate.ScheduledExactly` | main.go:907-922 | In every run the turn of a listed repository in an uncancelled round starts a call for it if and only if it is enabled and its history lets it, with the effective interval. |
| `EngineRounds.RoundComplete` | main.go:907-943 | In every run, when a round ends uncancelled, every repository of the last listing had its turn, in order; exactly those that were enabled and let through by their histories at their turn were started; and nothing else, and nothing twice, was started since that listing. |
| `EngineRounds.StartupComplete` | main.go:836-841 | In every run, when startup ends, every repository of the listing had its turn, in order, and exactly the enabled ones were started, each once. |
| `EngineRounds.ListingKept` | main.go:927-979 | In every run, round, wait, drain and manual syncs work on exactly the last listing and its default interval, a call on the interval these give its repository; the loop stops only, and a round breaks off exactly, after a shutdown signal. |
| `EngineRounds.AnotherRound` | main.go:927-953 | In every run, whenever the loop waits, the next tick leads to a new listing and a round over all of it. |
| `EngineRounds.RetriedExactly` | main.go:231-254 | In every run, after the k-th failure of a streak at time t, a turn starts a call if and only if the repository is enabled, k is below ten, and the clock is at or past both t plus the promised delay and what the last success set. |
| `EngineRounds.NextDueExactly` | main.go:65-91 | In every run, after a success the next scheduled sync is due exactly one interval later: the repository's own seconds, else the default of the last listing, else a minute. |
| `EngineGate.SpacingOverRuns` | main.go:672-673 | In every run no scheduled sync starts within the interval after a success, manual syncs in between or not. |
| `EngineGate.ThrottlingOverRuns` | docs/architecture.md:63-92 | In every run a streak of failures has at most ten, only a manual trigger follows ten, and each gap is the delay the code computes; with an interval whose delays do not overflow, the documented gaps and 62 intervals before the tenth attempt. |
| `EngineGate.TablesAgree` | main.go:604-616 | In every run suspended means ten failures and no next time means none; between calls no repository is left syncing and the stored status is ok or error as the failure count says. |
| `EngineQueue.TriggersConserved` | main.go:955-978 | In every run the accepted names are those drained followed by those buffered, in order, at most 16 are buffered, and each finished round synced each drained listed name exactly once and no other. |
| `EngineQueue.AcceptedExactly` | internal/server/server.go:305-314 | In every run after startup every request is answered, and its name is accepted, behind all accepted before, if and only if it is not empty and fewer than 16 accepted names are still to be received. |
| `EngineRuns.SixteenAccepted` | main.go:846 | Any sixteen names, or fewer, can be accepted in a row without a receive. |
| `EngineQueue.DrainEnds` | main.go:958-967 | Without producers the drain takes one iteration per buffered name plus one and has received them all in order. |
| `EngineStacks.EveryStackHasItsRepo` | main.go:552-582 | In every run each stored stack sits under its own slash-free key and its repository is stored too. |
| `EngineStacks.StatusOverRuns` | internal/server/server.go:247-271 | In every run, whatever orders the two map iterations take, the status shows each stored stack exactly once, under its repository. |
| `Keys.KeyInjective` | internal/state/state.go:165 | A slash-free repository and stack share their encoded key with no other pair, slash-free or not. |
| `Git.RepoDirectory` | main.go:105-115 | A name has a clone directory if and only if it is valid, and that directory is the clone directory extended by exactly that name. |
| `Git.DirectoriesDistinct` | internal/git/git.go:43-53 | Distinct valid names have distinct directories, for any clone directory. |
| `Backoff.DelayExact` | main.go:231-236 | In int64 the delay is min(2^failures, 8) intervals for every reachable failure count when the interval is small enough. |
| `Backoff.DelayOverflows` | main.go:231-236 | For every larger interval some reachable failure count gets a wrong delay. |
| `Backoff.DelayExactIff` | main.go:83-91 | From whole seconds to delay, everything is as promised if and only if the repository's interval is at most 18,014,398 seconds. |
| `Backoff.TightAtNine` | main.go:231-236 | One second more, and the delay after the ninth failure is negative while the first eight are right. |
| `Backoff.FailureBars` | main.go:221-254 | A failure bars every later attempt if it is the tenth, and otherwise exactly those before the promised delay has passed. |
| `Backoff.SyncBackoff.RecordFailure` | main.go:224-240 | The record's whole new state: one more failure, suspended from ten on, and otherwise the next allowed time the promised delay from now where it does not overflow. |
| `Backoff.BackoffTables.GetBackoff` | main.go:204-207 | Load-or-store: the record is in the table afterwards, other pointers stay, and no repository's state changes. |
| `Backoff.BackoffTables.RecordSyncFailure` | main.go:221-240 | One more failure for this repository, its next allowed time the promised delay from now where it does not overflow, every other repository unchanged. |
| `Backoff.BackoffTables.ResetBackoff` | main.go:257-264 | A fresh record for this repository, every other repository unchanged. |
| `Backoff.BackoffTables.ShouldSkipSync` | main.go:243-254 | True exactly when suspended or before the next allowed time; no repository's state changes. |
| `Backoff.BackoffTables.DueForSync` | main.go:65-71 | True exactly when the repository was never scheduled or its time has come. |
| `Backoff.BackoffTables.MarkScheduled` | main.go:74-79 | The new due time of this repository, a minute for a non-positive interval; every other one unchanged. |
| `SyncLog.EntryShape` | main.go:34-41 | After any legal history suspended means ten failures, never more than ten, no next time means none, and a call only runs below ten. |
| `SyncLog.SuccessSpacing` | main.go:65-79 | In any legal history a scheduled start is at least the interval after an earlier success. |
| `SyncLog.SpacingExactly` | main.go:65-79 | The interval after a success still bars the next scheduled start if and only if the repository is suspended, or the time, the backoff or the last success already reach that far. |
| `EngineRuns.SpacingShrinksRun` | main.go:971-978 | A run of the program, for any valid name, in which a manual success with a shorter interval lets a scheduled sync start inside an earlier, longer one. |
| `SyncLog.DueIsLastSuccess` | main.go:672-673 | In every history the due time is that of the last success, whatever fails or is reset after it. |
| `SyncLog.Throttled` | main.go:221-254 | In any legal history: a failure streak's length, how it ends and its gaps for every interval; its documented gaps and duration for every interval whose delays do not overflow. |
| `SyncLog.BarsExactly` | main.go:231-254 | In any legal history, after the k-th failure of a streak the backoff bars exactly the times before the promised delay has passed, and after the tenth every time. |
| `StateStore.Store.UpdateRepo` | internal/state/state.go:131-140 | The map of cells afterwards reads as the old map with this record put in, no cell shared. |
| `StateStore.Store.GetRepo` | internal/state/state.go:142-150 | What the map of values holds under the name. |
| `StateStore.Store.UpdateStack` | internal/state/state.go:162-172 | The map of cells afterwards reads as the old map with this record under its encoded key. |
| `StateStore.Store.GetStack` | internal/state/state.go:174-182 | What the map of values holds under the encoded key. |
| `StateStore.Store.UpdateStackContainers` | internal/state/state.go:186-196 | Only the slice of a known stack is replaced, by an empty one for nil; an unknown stack changes nothing. |
| `StateStore.Store.GetAllStacks` | internal/state/state.go:198-206 | Each stored stack exactly once, in whatever order the iteration takes. |
| `StateStore.Store.GetAllRepos` | internal/state/state.go:152-160 | Each stored repository exactly once, in whatever order the iteration takes. |
| `StateStore.SnapshotsSurvive` | internal/state/state.go:131-206 | Snapshots of one stack and of all read the same after any sequence of later updates, elements of shared slices included, and the updates took effect in order. |
| `StateStore.LookupRefines` | internal/state/state.go:174-182 | A lookup through the encoded key finds exactly what a map keyed by (repo, stack) holds. |
| `StateStore.UpdateRefines` | internal/state/state.go:162-172 | An update through the encoded key is the update of the pair-keyed map. |
| `StateStore.GroupStatus` | internal/server/server.go:250-271 | One view per repository in order, with the Infisical state and exactly its stacks in the order given. |
| `StateStore.GroupsInOrder` | internal/server/server.go:252-254 | The stacks of a view stand in the order in which they were given. |
| `StateStore.NestsEveryStackOnce` | internal/server/server.go:250-271 | Over all views a stack is nested as often as it was given when its repository is listed, and never otherwise. |
| `StateStore.StatusComplete` | internal/server/server.go:247-271 | From a store in which every stack's repository is stored, whatever orders the map iterations take, the status shows every stack exactly once. |
| `ActivityBus.Bus.Publish` | internal/state/state.go:28-41 | Every registered channel is offered the event once, dropped only at a full buffer, and none of them is closed. |
| `ActivityBus.Bus.Subscribe` | internal/state/state.go:45-57 | A new open empty channel is registered. |
| `ActivityBus.Bus.Cancel` | internal/state/state.go:50-55 | The channel is unregistered and closed with its buffer kept, and the call panics exactly when it was closed before. |
| `ActivityBus.Delivery` | internal/state/state.go:28-57 | In every run what a subscriber received plus buffered is a subsequence in order of what was published while it was subscribed, accepted plus dropped is what was offered, nothing is sent on a closed channel, and closing panics exactly after a double cancel. |
| `ActivityBus.DropsOnlyWhenFull` | internal/state/state.go:36-39 | In every run a subscriber lost exactly one event for each send that found its 32-slot buffer full. |
| `ActivityBus.TakenExactly` | internal/state/state.go:36-39 | In every run what a subscriber received plus buffered is exactly the events whose send found room, in order: of a full buffer the new event is lost. |
| `ActivityBus.CancelIsFinal` | internal/state/state.go:50-55 | In every run, once a cancel has unregistered its subscriber, it is offered nothing more whatever happens, and its channel is closed exactly by the closes that follow. |
| `ActivityBus.SlowSubscriberHarmless` | internal/state/state.go:35-40 | Removing every read of one subscriber from a run changes nothing for any other. |
| `ClientHolder.GetStep` | main.go:398-417 | Both reads of a reconnecting call are steps of the protocol: nil sends the call on to create a client or to give up, and anything else is the client the protocol says it uses. |
| `ClientHolder.SwapStep` | main.go:405-411 | Publishing is the protocol's swap: it succeeds exactly when the call goes on with its own client, and otherwise leaves it to close that client. |
| `ClientHolder.Holder.CompareAndSwap` | internal/docker/holder.go:41-46 | Swaps exactly when the expected client is held, and reports it. |
| `ClientHolder.NoClientLeaks` | main.go:394-417 | In every run each client ever created is in exactly one place, held, closed or local to one running call; with no call running every client but the held one is closed; a client in use is the held open one; the second read is never nil. |
| `ClientHolder.HeldOnce` | main.go:403-417 | Once the held pointer is set no run of reconnects changes it. |
| `RateLimiter.Limiter.Allow` | internal/server/server.go:556-565 | The verdict and the new table for one call. |
| `RateLimiter.AllowedExactly` | internal/server/server.go:556-565 | In any history a call is allowed if and only if every earlier allowed call of its key is at least a window before it. |
| `RateLimiter.WindowBound` | internal/server/server.go:542-565 | In any history over any keys a time span of length L holds at most floor(L / window) + 1 allowed calls of one key. |
| `RateLimiter.KeysIndependent` | internal/server/server.go:559-563 | The verdict on a call is the one a limiter that only saw its key would give. |
| `Metrics.Registry.RecordSync` | internal/metrics/metrics.go:42-54 | The counters stay the tally of all calls, the duration counter of a repository its number of successes, and the duration sum the floating-point sum, in order, of their durations. |
| `Metrics.Registry.RecordApply` | internal/metrics/metrics.go:56-63 | The apply counters stay the tally of all calls; nothing else changes. |
| `Metrics.QuotedBack` | internal/metrics/metrics.go:13-20 | An escaped label value parses back to itself, whatever characters it holds. |
| `Metrics.WriteTotals` | internal/metrics/metrics.go:78-84 | Whatever orders the two map iterations take, the text parses back to its help text, its type and exactly the entries of the map, each once, for arbitrary keys. |
| `Metrics.TotalsParseBack` | internal/metrics/metrics.go:78-99 | A page of that form parses, by the section "Line format" of the Prometheus text exposition format 0.0.4, back to exactly its help text, the type counter, and those samples. |
| `Metrics.OneMapOnly` | internal/metrics/metrics.go:80-84 | The samples determine the map: two different counter maps never print the same family. |
| `Settings.EnsureDashboardToken` | main.go:994-1028 | Whatever system calls fail, a call of the function is a run of the crash protocol, one without a harmful read unless its read fails over a stored token; it succeeds only with the live token that of the environment, the stored one, or a new one that is stored and in the file. |
| `Settings.Table.SetSetting` | internal/db/settings_store.go:34-49 | The value is written under the key, the flag of an existing row kept and that of a new one set for the two secret keys, every other row unchanged; a failed statement changes nothing. |
| `Settings.Table.GetAllSettings` | internal/db/settings_store.go:51-72 | Every key, with the value blanked exactly when its row is flagged. |
| `Settings.SecretsStayFlagged` | internal/db/settings_store.go:29-48 | However often settings are written, secret keys stay flagged and existing rows keep their flag. |
| `Settings.TokenCrashSafe` | main.go:994-1028 | Over any starts, failed system calls and crashes in which no read fails over a stored token, a stored token equals the token file, and after a successful return the live token is the environment's if there is one and otherwise the stored one, never empty. |
| `Settings.ReadKeepsTokenIff` | main.go:1003-1021 | The condition is exact: a read keeps the token retrievable in every continuation if and only if it does not fail over a stored token. |
| `LogView.LogStream.StartStream` | internal/ui/src/components/AppDetail.jsx:310-315 | A new connection starts from an empty stream, buffer and view; the filter text stays. |
| `LogView.LogStream.OnMessage` | internal/ui/src/components/AppDetail.jsx:338-344 | The line is appended to stream and buffer; retained lines and view stay. |
| `LogView.LogStream.Flush` | internal/ui/src/components/AppDetail.jsx:326-336 | The retained lines are the newest 50,000 of the whole stream, each in its place, the last one the last received, and the view is their filter. |
| `LogView.LogStream.Refilter` | internal/ui/src/components/AppDetail.jsx:301-307 | The view is the matching retained lines in order, all of them for an empty filter. |
| `LogView.MatchingExactly` | internal/ui/src/components/AppDetail.jsx:303-305 | Filtering keeps a line as often as it occurs if its lower-cased text has the filter text somewhere, not at all otherwise, and keeps the order. |
| `LogView.LastNExactly` | internal/ui/src/components/AppDetail.jsx:332 | What the cap keeps is the end of the list, as long as the cap or the list allows. |
| `LogView.LogStream.SetFilter` | internal/ui/src/components/AppDetail.jsx:366-369 | After a change of the filter text the view is the filter of the retained lines again. |
| `LogView.BatchesDoNotMatter` | internal/ui/src/components/AppDetail.jsx:326-336 | However the stream is split into flush batches the same lines are retained. |
| `LogView.MountedExactly` | internal/ui/src/components/AppDetail.jsx:474-478 | With `scrollTop + viewportH > -171` a row is mounted if and only if it lies in the viewport or within eight rows of it. |
| `LogView.VisibleRowsMounted` | internal/ui/src/components/AppDetail.jsx:474-478 | Every row that intersects the viewport is mounted, wherever the view is scrolled. |
| `LogView.ShownLength` | internal/ui/src/components/AppDetail.jsx:301-332 | Under any filter the view holds at most 50,000 rows. |
| `LogView.MountedBounded` | internal/ui/src/components/AppDetail.jsx:474-478 | At most ceil(viewportH / 19) + 17 rows are mounted for every log the viewer can hold, if and only if the view is not scrolled above the top into one exact band. |
| `Rebind.Rebind` | internal/db/db.go:29-44 | The loop computes the rewriting that numbers the question marks from 1; other drivers get the query unchanged. |
| `Rebind.RebindUndone` | internal/db/db.go:27-44 | The rewritten query reads back as the original if and only if no `?` or `$` stands before a digit, and then its placeholders are numbered 1 to k in order. |
| `Sse.Writer.Write` | internal/server/server.go:573-585 | On bytes: appends one event per non-empty line and reports the full length; when the connection fails, the events it took, part of the next, and an error. |
| `Sse.LinesExactly` | internal/server/server.go:575-578 | A write is cut at every line feed and nowhere else, nothing is lost in that, and of the pieces exactly the empty ones are left out, the order kept. |
| `Sse.EventsAreLines` | internal/server/server.go:573-585 | Over any sequence of byte writes a browser, UTF-8 decoder and parser of sections 9.2.5 and 9.2.6 of the WHATWG HTML standard, receives exactly the decoded non-empty lines in order if and only if no write holds a carriage return, and exactly their bytes if and only if, besides, every line is UTF-8. |
| `Sse.LinesBeforeFailure` | internal/server/server.go:579-581 | When the connection fails in the middle of a write, even inside a character, the browser receives exactly the decoded lines written in full before. |
| `Utf8.NoReplacement` | internal/server/server.go:573-579 | A line that the browser shows without U+FFFD is UTF-8: whatever is not UTF-8 leaves that mark. |
| `Utf8.CutCharacter` | internal/server/server.go:573-579 | A character cut off by the end of a write arrives as exactly one U+FFFD. |

## Left out

- The main loop and the apply callback are steps of one state machine and not methods with loops: HTTP goroutines interleave with them, which a sequential method cannot show.
- Recording an outcome (store, backoff, schedule, metrics) is one step, and so is testing both scheduling gates; the several clock readings inside each are one reading.
- Git, Docker, Compose, SQL and HTTP calls are steps that succeed or fail; that they end rests on the timeouts the source gives them.
- EngineLocks.ComposeAtMostTwo: it does not say that compose runs of a full sync and of a per-stack apply exclude each other, because the apply callback composes after unlocking.
- EngineQueue.TriggersConserved: it says nothing about a drained name missing from the round's listing, which the code drops, nor about the answer "already_queued", which only means the channel was full.
- EngineSha.ShaGating: it counts stack passes and not compose successes: the commit is stored even when a stack failed, so a failed stack is not retried before the commit changes.
- EngineLive.SyncCallsEnd: it bounds a call's own steps and does not promise that a waiting call gets the lock: Go's mutex decides that.
- RateLimiter: it stands alone and is not composed with the trigger channel of the engine, where a rejected request is simply one that does not happen.
- EngineRuns.StoredAtIff: symbolic links are followed where the stacks directory is resolved; links on the way to the clone directory itself, and files that a compose file includes from elsewhere, are not.
- StateStore.Store: it does not hold the Infisical state, which is copied through unchanged.
- Metrics.TotalsParseBack: it covers the counter families; the printing of float sums (`%.4f`), the gauges and the runtime counts are not printed by the model, counters do not wrap at int64, and float64 addition is an arbitrary function of two real numbers.
- Settings.TokenCrashSafe: it assumes the token is not changed through the settings page between starts.
- LogView.LogStream: it keeps lists as values: with an empty filter the source's view is the retained array itself, which grows before the view is recomputed. The flush timer, scrolling and level colouring are not modelled, and `toLowerCase` is a parameter.
- Clone directories on case-insensitive file systems, where two valid names can meet.
- Clock jumps, the development seed data, a crash of the process in the middle of a sync.
- The holder's `Set`: its comment says reconnects go through it, but the code publishes by compare-and-swap and nothing calls it. Also the container refresh after the client is obtained.
- Reading the default interval from the settings table: it is a parameter of each round.
- Encryption, SSH keys and access tokens, process groups, migrations, request validation and rendering.
