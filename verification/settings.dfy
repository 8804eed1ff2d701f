/** The settings table (internal/db/settings_store.go) and the dashboard-token protocol that runs
    over it at every start (main.go, ensureDashboardToken). */
module Settings {
  import opened Common

  /** A NULL value is None. */
  datatype Row = Row(value: Option<string>, sensitive: bool)

  const TOKEN_KEY := "dashboard_token"
  const SENSITIVE_KEYS := {"dashboard_token", "infisical_token"}

  /** INSERT ... ON CONFLICT DO UPDATE SET value: an existing row keeps its flag. */
  function Upsert(rows: map<string, Row>, key: string, value: string): map<string, Row> {
    rows[key := if key in rows then rows[key].(value := Some(value)) else Row(Some(value), key in SENSITIVE_KEYS)]
  }

  /** The Go string a row scans to. */
  function Text(r: Row): string {
    if r.value.Some? then r.value.value else ""
  }

  class Table {
    var rows: map<string, Row>

    constructor (rows: map<string, Row>)
      ensures this.rows == rows
    {
      this.rows := rows;
    }

    /** None is the error for a missing row. */
    method GetSetting(key: string) returns (r: Option<(string, bool)>)
      ensures r == if key in rows then Some((Text(rows[key]), rows[key].sensitive)) else None
    {
      if key !in rows {
        return None;
      }
      return Some((Text(rows[key]), rows[key].sensitive));
    }

    /** `works` is whether the database executes the statement. */
    method SetSetting(key: string, value: string, works: bool) returns (ok: bool)
      modifies this
      ensures ok == works
      ensures rows == if works then Upsert(old(rows), key, value) else old(rows)
      ensures works ==>
                && rows.Keys == old(rows.Keys) + {key} && rows[key].value == Some(value)
                && rows[key].sensitive == (if key in old(rows) then old(rows)[key].sensitive
                                           else key == "dashboard_token" || key == "infisical_token")
                && forall k | k in old(rows) && k != key :: rows[k] == old(rows)[k]
    {
      if !works {
        return false;
      }
      var sensitive := key in SENSITIVE_KEYS;
      if key !in rows {
        rows := rows[key := Row(Some(value), sensitive)];
      } else {
        var existing := rows[key];
        rows := rows[key := Row(Some(value), existing.sensitive)];
      }
      return true;
    }

    method GetAllSettings() returns (result: map<string, string>)
      ensures result.Keys == rows.Keys
      ensures forall k | k in rows :: result[k] == if rows[k].sensitive then "" else Text(rows[k])
    {
      result := map[];
      var todo := rows.Keys;
      while todo != {}
        invariant todo <= rows.Keys && result.Keys == rows.Keys - todo
        invariant forall k | k in result :: result[k] == if rows[k].sensitive then "" else Text(rows[k])
      {
        var k :| k in todo;
        result := result[k := if rows[k].sensitive then "" else Text(rows[k])];
        todo := todo - {k};
      }
    }
  }

  predicate SecretsFlagged(rows: map<string, Row>) {
    forall k | k in SENSITIVE_KEYS && k in rows :: rows[k].sensitive
  }

  /** A run of SetSetting calls. */
  function Written(rows: map<string, Row>, writes: seq<(string, string)>): map<string, Row> {
    if writes == [] then rows else Upsert(Written(rows, DropLast(writes)), Last(writes).0, Last(writes).1)
  }

  /** However often settings are written, secrets stay flagged, so GetAllSettings masks them. */
  lemma {:induction false} SecretsStayFlagged(rows: map<string, Row>, writes: seq<(string, string)>)
    requires SecretsFlagged(rows)
    ensures SecretsFlagged(Written(rows, writes))
    ensures forall k | k in rows :: k in Written(rows, writes) && Written(rows, writes)[k].sensitive == rows[k].sensitive
  {
    if writes != [] {
      SecretsStayFlagged(rows, DropLast(writes));
    }
  }

  // ---- The token protocol, with crashes --------------------------------------------------------------

  datatype Point =
    | Down
    | Reading
    | Generating
    | Opening(token: string)
    | Filling(token: string)
    | Persisting(token: string)
    | Serving                    // ensureDashboardToken returned nil

  /** `rows` and `file` survive a crash, `live` and `point` do not. */
  datatype State = State(rows: map<string, Row>, file: Option<string>, live: string, point: Point)

  /** Every system call may fail; Crash kills the process anywhere. A failed write of the file may
      leave any prefix, a failed statement may or may not have been committed. */
  datatype Action =
    | Start(env: string)
    | Read(fails: bool)
    | Generate(token: string)
    | Open
    | Fill | FillError(written: nat)
    | Persist | PersistError(committed: bool)
    | Crash

  function Stored(s: State): string {
    if TOKEN_KEY in s.rows then Text(s.rows[TOKEN_KEY]) else ""
  }

  function Contents(token: string): string {
    token + "\n"
  }

  /** One step; a step the program is not at leaves s as it is. A returned error exits the process. */
  function Next(s: State, a: Action): State {
    match a
    case Start(env) =>
      if !s.point.Down? then s
      else if env != "" then s.(live := env, point := Serving)
      else s.(live := "", point := Reading)
    case Read(fails) =>
      if !s.point.Reading? then s
      else if !fails && Stored(s) != "" then s.(live := Stored(s), point := Serving)
      else s.(point := Generating)
    case Generate(token) => if s.point.Generating? && token != "" then s.(point := Opening(token)) else s
    case Open => if s.point.Opening? then s.(file := Some(""), point := Filling(s.point.token)) else s
    case Fill => if s.point.Filling? then s.(file := Some(Contents(s.point.token)), point := Persisting(s.point.token)) else s
    case FillError(written) =>
      if !s.point.Filling? || written > |Contents(s.point.token)| then s
      else s.(file := Some(Contents(s.point.token)[..written]), live := "", point := Down)
    case Persist =>
      if !s.point.Persisting? then s
      else s.(rows := Upsert(s.rows, TOKEN_KEY, s.point.token), live := s.point.token, point := Serving)
    case PersistError(committed) =>
      if !s.point.Persisting? then s
      else s.(rows := if committed then Upsert(s.rows, TOKEN_KEY, s.point.token) else s.rows, live := "", point := Down)
    case Crash => s.(live := "", point := Down)
  }

  function Exec(s: State, run: seq<Action>): State {
    if run == [] then s else Next(Exec(s, DropLast(run)), Last(run))
  }

  // ---- The function that follows the protocol ------------------------------------------------------

  /** What of the machine outlives a call: the token file, and the server's live token. */
  class Host {
    var file: Option<string>
    var live: string

    constructor (file: Option<string>)
      ensures this.file == file && live == ""
    {
      this.file, live := file, "";
    }
  }

  /** Which system calls fail, and how much of the file a failing write leaves. */
  datatype Trouble = Trouble(readFails: bool, randFails: bool, openFails: bool, fillFails: Option<nat>, persistFails: bool)

  lemma ExecThen(s: State, run: seq<Action>, a: Action)
    ensures Exec(s, run + [a]) == Next(Exec(s, run), a)
    ensures ReadsWell(s, run + [a]) <==>
            ReadsWell(s, run) && !(a == Read(true) && Exec(s, run).point.Reading? && Stored(Exec(s, run)) != "")
  {
    AppendLast(run, a);
  }

  /** The rest of the call once no stored token was found. */
  method GenerateToken(db: Table, host: Host, token: string, trouble: Trouble, ghost s: State, ghost run0: seq<Action>)
    returns (ok: bool, ghost run: seq<Action>)
    requires token != "" && host.live == "" && Exec(s, run0) == State(db.rows, host.file, "", Generating)
    requires trouble.fillFails.Some? ==> trouble.fillFails.value <= |Contents(token)|
    modifies db, host
    ensures Exec(s, run) == State(db.rows, host.file, host.live, if ok then Serving else Down)
    ensures ReadsWell(s, run) <==> ReadsWell(s, run0)
    ensures ok ==> host.live == token && TOKEN_KEY in db.rows && Text(db.rows[TOKEN_KEY]) == token && host.file == Some(token + "\n")
    ensures !ok ==> host.live == ""
  {
    hide Exec, ReadsWell, Upsert;
    run := run0;
    if trouble.randFails {
      ExecThen(s, run, Crash);
      return false, run + [Crash];
    }
    ExecThen(s, run, Generate(token));
    run := run + [Generate(token)];
    if trouble.openFails {
      ExecThen(s, run, Crash);
      return false, run + [Crash];
    }
    host.file := Some("");
    ExecThen(s, run, Open);
    run := run + [Open];
    if trouble.fillFails.Some? {
      host.file := Some(Contents(token)[..trouble.fillFails.value]);
      ExecThen(s, run, FillError(trouble.fillFails.value));
      return false, run + [FillError(trouble.fillFails.value)];
    }
    host.file := Some(Contents(token));
    ExecThen(s, run, Fill);
    run := run + [Fill];
    var persisted := db.SetSetting(TOKEN_KEY, token, !trouble.persistFails);
    if !persisted {
      ExecThen(s, run, PersistError(false));
      return false, run + [PersistError(false)];
    }
    host.live := token;
    ExecThen(s, run, Persist);
    return true, run + [Persist];
  }

  /** `token` is what the random source yields. Whatever fails, the call is a run of the protocol, one
      with no harmful read unless its read fails over a stored token. */
  method EnsureDashboardToken(db: Table, host: Host, env: string, token: string, trouble: Trouble) returns (ok: bool, ghost run: seq<Action>)
    requires token != "" && host.live == ""
    requires trouble.fillFails.Some? ==> trouble.fillFails.value <= |Contents(token)|
    modifies db, host
    ensures Exec(State(old(db.rows), old(host.file), "", Down), run) ==
            State(db.rows, host.file, host.live, if ok then Serving else Down)
    ensures ReadsWell(State(old(db.rows), old(host.file), "", Down), run) <==>
            env != "" || !(trouble.readFails && Stored(State(old(db.rows), old(host.file), "", Down)) != "")
    ensures ok && env != "" ==> host.live == env && db.rows == old(db.rows) && host.file == old(host.file)
    ensures ok && env == "" ==> host.live != "" && TOKEN_KEY in db.rows && host.live == Text(db.rows[TOKEN_KEY])
    ensures ok && env == "" && db.rows != old(db.rows) ==> host.live == token && host.file == Some(token + "\n")
    ensures !ok ==> host.live == ""
  {
    ghost var s := State(db.rows, host.file, "", Down);
    assert Exec(s, []) == s && ReadsWell(s, []);
    hide Exec, ReadsWell;
    ExecThen(s, [], Start(env));
    run := [] + [Start(env)];
    if env != "" {
      host.live := env;
      return true, run;
    }
    var stored := None;
    if !trouble.readFails {
      stored := db.GetSetting(TOKEN_KEY);
    }
    ExecThen(s, run, Read(trouble.readFails));
    run := run + [Read(trouble.readFails)];
    if stored.Some? && stored.value.0 != "" {
      host.live := stored.value.0;
      return true, run;
    }
    ok, run := GenerateToken(db, host, token, trouble, s, run);
  }

  /** A non-empty stored token is the one the operator can read from the file. */
  predicate Retrievable(s: State) {
    Stored(s) != "" ==> s.file == Some(Contents(Stored(s)))
  }

  /** A fresh or already consistent database, and no process running. */
  predicate Initial(s: State) {
    s.point.Down? && Retrievable(s)
  }

  predicate TokenRight(s: State) {
    && Retrievable(s)
    && (s.point.Generating? || s.point.Opening? || s.point.Filling? || s.point.Persisting? ==> Stored(s) == "")
    && (s.point.Opening? || s.point.Filling? || s.point.Persisting? ==> s.point.token != "")
    && (s.point.Persisting? ==> s.file == Some(Contents(s.point.token)))
    && (s.point.Serving? ==> s.live != "")
  }

  /** No read failed while a non-empty token was stored. */
  predicate ReadsWell(s: State, run: seq<Action>) {
    run == [] ||
    (ReadsWell(s, DropLast(run)) &&
     !(Last(run) == Read(true) && Exec(s, DropLast(run)).point.Reading? && Stored(Exec(s, DropLast(run))) != ""))
  }

  lemma {:induction false} TokenRun(s: State, run: seq<Action>)
    requires TokenRight(s) && ReadsWell(s, run)
    ensures TokenRight(Exec(s, run))
  {
    if run != [] {
      TokenRun(s, DropLast(run));
    }
  }

  /** The environment token of the start that is in force. */
  function EnvToken(s: State, run: seq<Action>): string {
    if run == [] then ""
    else if Last(run).Start? && Exec(s, DropLast(run)).point.Down? then Last(run).env
    else EnvToken(s, DropLast(run))
  }

  predicate LiveRight(s: State, env: string) {
    && (s.point.Serving? ==> s.live != "" && s.live == if env != "" then env else Stored(s))
    && (!s.point.Serving? && !s.point.Down? ==> env == "")
  }

  lemma LiveStep(s: State, a: Action, env: string)
    requires LiveRight(s, env) && TokenRight(s)
    ensures LiveRight(Next(s, a), if a.Start? && s.point.Down? then a.env else env)
  {
  }

  lemma {:induction false} LiveRun(s: State, run: seq<Action>)
    requires TokenRight(s) && s.point.Down? && ReadsWell(s, run)
    ensures LiveRight(Exec(s, run), EnvToken(s, run))
  {
    if run != [] {
      LiveRun(s, DropLast(run));
      TokenRun(s, DropLast(run));
      LiveStep(Exec(s, DropLast(run)), Last(run), EnvToken(s, DropLast(run)));
    }
  }

  /** Over any number of starts, failures and crashes without such a read: the stored token is
      always retrievable, and after a successful return the live token is the environment's if there
      is one, and otherwise the stored one, never empty. */
  lemma TokenCrashSafe(s: State, run: seq<Action>)
    requires Initial(s) && ReadsWell(s, run)
    ensures Retrievable(Exec(s, run))
    ensures Exec(s, run).point.Serving? ==>
              && Exec(s, run).live != ""
              && Exec(s, run).live == if EnvToken(s, run) != "" then EnvToken(s, run) else Stored(Exec(s, run))
  {
    TokenRun(s, run);
    LiveRun(s, run);
  }

  /** After a failed read the next two steps empty the token file. */
  lemma FailedReadOverwrites(s: State, token: string)
    requires s.point.Generating? && token != ""
    ensures Exec(s, [Generate(token), Open]) == s.(file := Some(""), point := Filling(token))
    ensures ReadsWell(s, [Generate(token), Open])
  {
    var run := [Generate(token), Open];
    assert DropLast(run) == [Generate(token)];
    assert DropLast([Generate(token)]) == [];
    assert Exec(s, [Generate(token)]) == s.(point := Opening(token));
  }

  ghost predicate AlwaysRetrievable(s: State) {
    forall run | ReadsWell(s, run) :: Retrievable(Exec(s, run))
  }

  /** The condition is exact: a read keeps the token retrievable through every continuation if and
      only if it does not fail over a stored token. */
  lemma ReadKeepsTokenIff(s: State, fails: bool)
    requires TokenRight(s) && s.point.Reading?
    ensures AlwaysRetrievable(Next(s, Read(fails))) <==> !(fails && Stored(s) != "")
  {
    var s' := Next(s, Read(fails));
    if fails && Stored(s) != "" {
      FailedReadOverwrites(s', "t");
      assert !Retrievable(Exec(s', [Generate("t"), Open]));
    } else {
      forall run | ReadsWell(s', run)
        ensures Retrievable(Exec(s', run))
      {
        TokenRun(s', run);
      }
    }
  }
}
