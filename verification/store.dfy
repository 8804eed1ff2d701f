/** The in-memory state store (internal/state/state.go): maps of heap cells overwritten in place,
    snapshots handed out by value, and the grouping done by handleStatus. */
module StateStore {
  import opened Common
  import opened Keys

  datatype Container = Container(id: string, name: string, status: string)

  datatype RepoRecord = RepoRecord(name: string, lastSync: int, lastSHA: string, status: string, lastError: string)

  /** `containers` is a Go slice: a copied record shares its elements with the original. */
  datatype StackRecord = StackRecord(name: string, repoName: string, stackDir: string, lastApply: int,
                                     status: string, lastOutput: string, lastError: string,
                                     containers: array?<Container>, infisicalMode: string)

  class RepoCell {
    var value: RepoRecord
    constructor (r: RepoRecord)
      ensures value == r
    {
      value := r;
    }
  }

  class StackCell {
    var value: StackRecord
    constructor (st: StackRecord)
      ensures value == st
    {
      value := st;
    }
  }

  /** `out` lists the values of m, one for each key, in the order of `keys`. */
  ghost predicate Lists<V>(out: seq<V>, keys: seq<string>, m: map<string, V>) {
    && |out| == |keys|
    && (forall i, j | 0 <= i < j < |keys| :: keys[i] != keys[j])
    && (forall k :: k in keys <==> k in m)
    && (forall i | 0 <= i < |keys| :: keys[i] in m && out[i] == m[keys[i]])
  }

  /** `out` holds the value of each key of m exactly once, in some order. */
  ghost predicate ListsAll<V>(out: seq<V>, m: map<string, V>) {
    exists keys :: Lists(out, keys, m)
  }

  class Store {
    var repos: map<string, RepoCell>
    var stacks: map<string, StackCell>

    /** No cell is reachable under two keys. */
    ghost predicate Valid()
      reads this
    {
      && (forall a, b | a in repos && b in repos && a != b :: repos[a] != repos[b])
      && (forall a, b | a in stacks && b in stacks && a != b :: stacks[a] != stacks[b])
    }

    ghost function Repos(): map<string, RepoRecord>
      reads this, repos.Values
    {
      map k | k in repos :: repos[k].value
    }

    ghost function Stacks(): map<string, StackRecord>
      reads this, stacks.Values
    {
      map k | k in stacks :: stacks[k].value
    }

    constructor ()
      ensures Valid() && Repos() == map[] && Stacks() == map[]
    {
      repos, stacks := map[], map[];
    }

    method UpdateRepo(r: RepoRecord)
      requires Valid()
      modifies this`repos, repos.Values
      ensures Valid() && fresh(repos.Values - old(repos.Values))
      ensures Repos() == old(Repos())[r.name := r]
    {
      if r.name !in repos {
        var cell := new RepoCell(r);
        repos := repos[r.name := cell];
      }
      var existing := repos[r.name];
      existing.value := r;
    }

    method GetRepo(name: string) returns (r: Option<RepoRecord>)
      ensures r == if name in Repos() then Some(Repos()[name]) else None
    {
      if name !in repos {
        return None;
      }
      return Some(repos[name].value);
    }

    method UpdateStack(st: StackRecord)
      requires Valid()
      modifies this`stacks, stacks.Values
      ensures Valid() && fresh(stacks.Values - old(stacks.Values))
      ensures Stacks() == old(Stacks())[Key(st.repoName, st.name) := st]
    {
      var key := Key(st.repoName, st.name);
      if key !in stacks {
        var cell := new StackCell(st);
        stacks := stacks[key := cell];
      }
      var existing := stacks[key];
      existing.value := st;
    }

    method GetStack(repoName: string, name: string) returns (st: Option<StackRecord>)
      ensures st == if Key(repoName, name) in Stacks() then Some(Stacks()[Key(repoName, name)]) else None
    {
      var key := Key(repoName, name);
      if key !in stacks {
        return None;
      }
      return Some(stacks[key].value);
    }

    /** Replaces the slice of a known stack, never its elements; a nil slice becomes an empty one. */
    method UpdateStackContainers(repoName: string, name: string, containers: array?<Container>) returns (ghost used: array?<Container>)
      requires Valid()
      modifies stacks.Values
      ensures Valid()
      ensures containers != null ==> used == containers
      ensures containers == null && Key(repoName, name) in stacks ==> used != null && used.Length == 0 && fresh(used)
      ensures Stacks() == if Key(repoName, name) !in old(Stacks()) then old(Stacks())
              else old(Stacks())[Key(repoName, name) := old(Stacks())[Key(repoName, name)].(containers := used)]
    {
      var key := Key(repoName, name);
      used := containers;
      if key in stacks {
        var slice := containers;
        if slice == null {
          slice := new Container[0];
        }
        used := slice;
        stacks[key].value := stacks[key].value.(containers := slice);
      }
    }

    /** GetAllStacks, and the second half of GetAll: the order is whatever the map iteration gives. */
    method GetAllStacks() returns (out: seq<StackRecord>)
      ensures ListsAll(out, Stacks())
    {
      out := [];
      ghost var keys: seq<string> := [];
      var todo := stacks.Keys;
      while todo != {}
        invariant todo <= stacks.Keys && |out| == |keys|
        invariant forall k :: k in keys <==> k in stacks && k !in todo
        invariant forall i, j | 0 <= i < j < |keys| :: keys[i] != keys[j]
        invariant forall i | 0 <= i < |keys| :: keys[i] in stacks && out[i] == stacks[keys[i]].value
      {
        var k :| k in todo;
        out := out + [stacks[k].value];
        keys := keys + [k];
        todo := todo - {k};
      }
      assert Lists(out, keys, Stacks());
    }

    method GetAllRepos() returns (out: seq<RepoRecord>)
      ensures ListsAll(out, Repos())
    {
      out := [];
      ghost var keys: seq<string> := [];
      var todo := repos.Keys;
      while todo != {}
        invariant todo <= repos.Keys && |out| == |keys|
        invariant forall k :: k in keys <==> k in repos && k !in todo
        invariant forall i, j | 0 <= i < j < |keys| :: keys[i] != keys[j]
        invariant forall i | 0 <= i < |keys| :: keys[i] in repos && out[i] == repos[keys[i]].value
      {
        var k :| k in todo;
        out := out + [repos[k].value];
        keys := keys + [k];
        todo := todo - {k};
      }
      assert Lists(out, keys, Repos());
    }
  }

  /** One update of the store. */
  datatype Update =
    | PutRepo(repo: RepoRecord)
    | PutStack(stack: StackRecord)
    | PutContainers(repoName: string, name: string, containers: array?<Container>)

  ghost function ReposAfter(m: map<string, RepoRecord>, ops: seq<Update>): map<string, RepoRecord> {
    if ops == [] then m
    else
      var before := ReposAfter(m, DropLast(ops));
      match Last(ops)
      case PutRepo(r) => before[r.name := r]
      case _ => before
  }

  /** `used` are the slices the updates have put in place, nil replaced. */
  ghost function StacksAfter(m: map<string, StackRecord>, ops: seq<Update>, used: seq<array?<Container>>): map<string, StackRecord>
    requires |used| == |ops|
  {
    if ops == [] then m
    else
      var before := StacksAfter(m, DropLast(ops), DropLast(used));
      match Last(ops)
      case PutRepo(_) => before
      case PutStack(st) => before[Key(st.repoName, st.name) := st]
      case PutContainers(repo, name, _) =>
        var k := Key(repo, name);
        if k in before then before[k := before[k].(containers := Last(used))] else before
  }

  lemma AfterOne(repos: map<string, RepoRecord>, stacks: map<string, StackRecord>, op: Update, used: array?<Container>)
    ensures ReposAfter(repos, [op]) == if op.PutRepo? then repos[op.repo.name := op.repo] else repos
    ensures op.PutRepo? ==> StacksAfter(stacks, [op], [used]) == stacks
    ensures op.PutStack? ==> StacksAfter(stacks, [op], [used]) == stacks[Key(op.stack.repoName, op.stack.name) := op.stack]
    ensures op.PutContainers? && Key(op.repoName, op.name) !in stacks ==> StacksAfter(stacks, [op], [used]) == stacks
    ensures op.PutContainers? && Key(op.repoName, op.name) in stacks ==>
              StacksAfter(stacks, [op], [used]) ==
              stacks[Key(op.repoName, op.name) := stacks[Key(op.repoName, op.name)].(containers := used)]
  {
    assert DropLast([op]) == [] && DropLast([used]) == [];
  }

  method ApplyUpdate(store: Store, op: Update) returns (ghost used: array?<Container>)
    requires store.Valid()
    modifies store`repos, store`stacks, store.repos.Values, store.stacks.Values
    ensures store.Valid()
    ensures fresh(store.repos.Values - old(store.repos.Values)) && fresh(store.stacks.Values - old(store.stacks.Values))
    ensures store.Repos() == ReposAfter(old(store.Repos()), [op])
    ensures store.Stacks() == StacksAfter(old(store.Stacks()), [op], [used])
    ensures op.PutContainers? && op.containers != null ==> used == op.containers
  {
    hide ReposAfter, StacksAfter;
    ghost var repos, stacks := store.Repos(), store.Stacks();
    used := null;
    match op {
      case PutRepo(r) => store.UpdateRepo(r);
      case PutStack(st) => store.UpdateStack(st);
      case PutContainers(repo, name, containers) => used := store.UpdateStackContainers(repo, name, containers);
    }
    AfterOne(repos, stacks, op, used);
  }

  lemma NothingAfter(repos: map<string, RepoRecord>, stacks: map<string, StackRecord>)
    ensures ReposAfter(repos, []) == repos && StacksAfter(stacks, [], []) == stacks
  {
  }

  lemma AfterThen(repos: map<string, RepoRecord>, stacks: map<string, StackRecord>, ops: seq<Update>, used: seq<array?<Container>>,
                  op: Update, u: array?<Container>)
    requires |used| == |ops|
    ensures ReposAfter(repos, ops + [op]) == ReposAfter(ReposAfter(repos, ops), [op])
    ensures StacksAfter(stacks, ops + [op], used + [u]) == StacksAfter(StacksAfter(stacks, ops, used), [op], [u])
  {
    AppendLast(ops, op);
    AppendLast(used, u);
  }

  /** Snapshots of one stack and of all of them, taken before any sequence of later updates, read the
      same afterwards, elements of the slices they share with the store included; and the updates
      took effect in order. */
  method SnapshotsSurvive(store: Store, repo: string, name: string, ops: seq<Update>)
    returns (one: Option<StackRecord>, all: seq<StackRecord>, ghost used: seq<array?<Container>>)
    requires store.Valid()
    modifies store`repos, store`stacks, store.repos.Values, store.stacks.Values
    ensures one == old(if Key(repo, name) in store.Stacks() then Some(store.Stacks()[Key(repo, name)]) else None)
    ensures ListsAll(all, old(store.Stacks()))
    ensures forall k | k in old(store.Stacks()) && old(store.Stacks()[k].containers) != null ::
              old(store.Stacks()[k].containers)[..] == old(store.Stacks()[k].containers[..])
    ensures store.Valid() && |used| == |ops|
    ensures store.Repos() == ReposAfter(old(store.Repos()), ops) && store.Stacks() == StacksAfter(old(store.Stacks()), ops, used)
  {
    hide ReposAfter, StacksAfter, ListsAll;
    one := store.GetStack(repo, name);
    all := store.GetAllStacks();
    used := [];
    NothingAfter(store.Repos(), store.Stacks());
    for i := 0 to |ops|
      invariant store.Valid() && |used| == i
      invariant fresh(store.repos.Values - old(store.repos.Values)) && fresh(store.stacks.Values - old(store.stacks.Values))
      invariant store.Repos() == ReposAfter(old(store.Repos()), ops[..i])
      invariant store.Stacks() == StacksAfter(old(store.Stacks()), ops[..i], used)
    {
      ghost var u := ApplyUpdate(store, ops[i]);
      AfterThen(old(store.Repos()), old(store.Stacks()), ops[..i], used, ops[i], u);
      assert ops[..i + 1] == ops[..i] + [ops[i]];
      used := used + [u];
    }
    assert ops[..|ops|] == ops;
  }

  // ---- The encoded key refines a map keyed by pairs --------------------------------------------

  /** `view`, keyed by encoded strings, stands for `m`, keyed by slash-free (repo, stack) pairs. */
  ghost predicate Encodes<V>(view: map<string, V>, m: map<(string, string), V>) {
    && (forall p | p in m :: '/' !in p.0 && '/' !in p.1 && Key(p.0, p.1) in view && view[Key(p.0, p.1)] == m[p])
    && (forall k | k in view :: exists p :: p in m && k == Key(p.0, p.1))
  }

  /** A lookup by any pair finds what the pair-keyed map holds for exactly that pair. */
  lemma LookupRefines<V>(view: map<string, V>, m: map<(string, string), V>, repo: string, stack: string)
    requires Encodes(view, m)
    ensures Key(repo, stack) in view <==> (repo, stack) in m
    ensures (repo, stack) in m ==> view[Key(repo, stack)] == m[(repo, stack)]
  {
    if Key(repo, stack) in view {
      var p :| p in m && Key(repo, stack) == Key(p.0, p.1);
      KeyInjective(p.0, p.1, repo, stack);
      assert p == (repo, stack);
    }
  }

  /** An update under the encoded key is the pair-keyed update: no other pair is touched. */
  lemma UpdateRefines<V>(view: map<string, V>, m: map<(string, string), V>, repo: string, stack: string, v: V)
    requires Encodes(view, m) && '/' !in repo && '/' !in stack
    ensures Encodes(view[Key(repo, stack) := v], m[(repo, stack) := v])
  {
    var view', m' := view[Key(repo, stack) := v], m[(repo, stack) := v];
    forall p | p in m'
      ensures '/' !in p.0 && '/' !in p.1 && Key(p.0, p.1) in view' && view'[Key(p.0, p.1)] == m'[p]
    {
      KeyInjective(repo, stack, p.0, p.1);
    }
    forall k | k in view'
      ensures exists p :: p in m' && k == Key(p.0, p.1)
    {
      if k in view {
        var p :| p in m && k == Key(p.0, p.1);
        assert p in m';
      } else {
        assert (repo, stack) in m' && k == Key((repo, stack).0, (repo, stack).1);
      }
    }
  }

  // ---- handleStatus ----------------------------------------------------------------------------

  datatype Infisical = Infisical(enabled: bool, env: string)

  datatype RepoView = RepoView(repo: RepoRecord, infisical: Infisical, stacks: seq<StackRecord>)

  /** The stacks of one repository, in the order given. */
  function StacksOf(stacks: seq<StackRecord>, repo: string): seq<StackRecord> {
    if stacks == [] then []
    else StacksOf(DropLast(stacks), repo) + if Last(stacks).repoName == repo then [Last(stacks)] else []
  }

  method GroupStatus(repos: seq<RepoRecord>, stacks: seq<StackRecord>, infisical: Infisical) returns (views: seq<RepoView>)
    ensures |views| == |repos|
    ensures forall i | 0 <= i < |repos| :: views[i] == RepoView(repos[i], infisical, StacksOf(stacks, repos[i].name))
  {
    var byRepo: map<string, seq<StackRecord>> := map[];
    for i := 0 to |stacks|
      invariant forall r :: Look(byRepo, r, []) == StacksOf(stacks[..i], r)
    {
      var st := stacks[i];
      byRepo := byRepo[st.repoName := Look(byRepo, st.repoName, []) + [st]];
      assert DropLast(stacks[..i + 1]) == stacks[..i];
    }
    assert stacks[..|stacks|] == stacks;
    views := [];
    for i := 0 to |repos|
      invariant |views| == i
      invariant forall k | 0 <= k < i :: views[k] == RepoView(repos[k], infisical, StacksOf(stacks, repos[k].name))
    {
      views := views + [RepoView(repos[i], infisical, Look(byRepo, repos[i].name, []))];
    }
  }

  /** Grouping keeps the order of the stacks. */
  lemma {:induction false} GroupsInOrder(stacks: seq<StackRecord>, repo: string)
    ensures IsSubsequence(StacksOf(stacks, repo), stacks)
  {
    if stacks != [] {
      var rest := DropLast(stacks);
      GroupsInOrder(rest, repo);
      assert stacks == rest + [Last(stacks)];
      SubsequenceAppend(StacksOf(rest, repo), rest, Last(stacks));
      assert StacksOf(rest, repo) + [] == StacksOf(rest, repo);
    }
  }

  /** All stacks nested under some repository of the list, with multiplicity. */
  function Nested(repos: seq<RepoRecord>, stacks: seq<StackRecord>): multiset<StackRecord> {
    if repos == [] then multiset{}
    else Nested(DropLast(repos), stacks) + multiset(StacksOf(stacks, Last(repos).name))
  }

  predicate DistinctRepos(repos: seq<RepoRecord>) {
    forall i, j | 0 <= i < j < |repos| :: repos[i].name != repos[j].name
  }

  predicate NamesRepo(repos: seq<RepoRecord>, name: string) {
    exists i :: 0 <= i < |repos| && repos[i].name == name
  }

  lemma {:induction false} StacksOfCount(stacks: seq<StackRecord>, repo: string, st: StackRecord)
    ensures multiset(StacksOf(stacks, repo))[st] == if st.repoName == repo then multiset(stacks)[st] else 0
  {
    if stacks != [] {
      StacksOfCount(DropLast(stacks), repo, st);
      assert stacks == DropLast(stacks) + [Last(stacks)];
    }
  }

  /** With distinct repository names, the status view nests a stack as often as it was given when
      its repository is listed, and not at all otherwise. */
  lemma {:induction false} NestsEveryStackOnce(repos: seq<RepoRecord>, stacks: seq<StackRecord>, st: StackRecord)
    requires DistinctRepos(repos)
    ensures Nested(repos, stacks)[st] == if NamesRepo(repos, st.repoName) then multiset(stacks)[st] else 0
  {
    if repos != [] {
      var rest := DropLast(repos);
      NestsEveryStackOnce(rest, stacks, st);
      StacksOfCount(stacks, Last(repos).name, st);
      NamesRepoLast(repos, st.repoName);
    }
  }

  lemma NamesRepoLast(repos: seq<RepoRecord>, name: string)
    requires repos != [] && DistinctRepos(repos)
    ensures NamesRepo(repos, name) <==> NamesRepo(DropLast(repos), name) || Last(repos).name == name
    ensures !(NamesRepo(DropLast(repos), name) && Last(repos).name == name)
  {
    var rest := DropLast(repos);
    if i :| 0 <= i < |repos| && repos[i].name == name && i < |rest| {
      assert rest[i].name == name;
    }
    if i :| 0 <= i < |rest| && rest[i].name == name {
      assert repos[i].name == name;
    }
  }

  /** From a store in which every stack's repository is known, whatever orders the two map
      iterations take, /api/status shows every stack exactly once under its repository. */
  lemma {:induction false} StatusComplete(repoView: map<string, RepoRecord>, repos: seq<RepoRecord>,
                       stackView: map<string, StackRecord>, stacks: seq<StackRecord>, k: string)
    requires ListsAll(repos, repoView) && ListsAll(stacks, stackView)
    requires forall r | r in repoView :: repoView[r].name == r
    requires forall s | s in stackView :: s == Key(stackView[s].repoName, stackView[s].name) && stackView[s].repoName in repoView
    requires k in stackView
    ensures DistinctRepos(repos) && Nested(repos, stacks)[stackView[k]] == 1
  {
    ReposListed(repoView, repos, stackView[k].repoName);
    NestsEveryStackOnce(repos, stacks, stackView[k]);
    ListedOnce(stacks, stackView, k);
  }

  lemma ReposListed(view: map<string, RepoRecord>, repos: seq<RepoRecord>, name: string)
    requires ListsAll(repos, view) && name in view
    requires forall r | r in view :: view[r].name == r
    ensures DistinctRepos(repos) && NamesRepo(repos, name)
  {
    var keys :| Lists(repos, keys, view);
    assert forall i | 0 <= i < |repos| :: repos[i].name == keys[i];
    assert name in keys;
    var i :| 0 <= i < |keys| && keys[i] == name;
    assert repos[i].name == name;
  }

  lemma {:induction false} ListedOnce(stacks: seq<StackRecord>, view: map<string, StackRecord>, k: string)
    requires ListsAll(stacks, view) && k in view
    requires forall s | s in view :: s == Key(view[s].repoName, view[s].name)
    ensures multiset(stacks)[view[k]] == 1
  {
    var keys :| Lists(stacks, keys, view);
    var i :| 0 <= i < |keys| && keys[i] == k;
    forall j | 0 <= j < |stacks| && j != i
      ensures stacks[j] != view[k]
    {
      assert keys[j] != k;
      assert keys[j] == Key(stacks[j].repoName, stacks[j].name);
    }
    OccursOnce(stacks, i);
  }

  lemma OccursOnce<T>(s: seq<T>, i: nat)
    requires i < |s| && forall j | 0 <= j < |s| && j != i :: s[j] != s[i]
    ensures multiset(s)[s[i]] == 1
  {
    var before, after := s[..i], s[i + 1..];
    assert s == before + [s[i]] + after;
    assert s[i] !in before && s[i] !in after;
  }
}
