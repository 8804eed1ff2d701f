/** The shared Docker client (internal/docker/holder.go) and the reconnect protocol that
    refreshContainers runs over it (main.go), with any number of calls at once. */
module ClientHolder {
  import opened Common

  class Client {
    constructor () {}
  }

  class Holder {
    var p: Client?

    constructor (c: Client?)
      ensures p == c
    {
      p := c;
    }

    /** A nil holder holds nothing. */
    static method Get(h: Holder?) returns (c: Client?)
      ensures c == if h == null then null else h.p
    {
      if h == null {
        return null;
      }
      return h.p;
    }

    static method CompareAndSwap(h: Holder?, expected: Client?, replacement: Client?) returns (swapped: bool)
      modifies h
      ensures swapped <==> h != null && old(h.p) == expected
      ensures h != null ==> h.p == if swapped then replacement else old(h.p)
    {
      if h == null {
        return false;
      }
      if h.p == expected {
        h.p := replacement;
        return true;
      }
      return false;
    }
  }

  // ---- The protocol ------------------------------------------------------------------------------

  /** Program points of one call; clients are numbered in the order they are created. */
  datatype Call =
    | Entered                 // about to Get
    | Missing                 // nil, about to create
    | Made(c: nat)            // about to CompareAndSwap
    | Lost(c: nat)            // about to Close its own
    | Rereading               // about to Get again
    | Using(c: nat)
    | GaveUp                  // the second Get was nil

  datatype State = State(held: Option<nat>, made: nat, closed: set<nat>, calls: map<nat, Call>, nextCall: nat)

  datatype Action = Enter | Load(id: nat) | Create(id: nat, ok: bool) | Swap(id: nat) | CloseOwn(id: nat) | Reread(id: nat) | Leave(id: nat)

  /** NewHolder at startup, with or without a client. */
  function Init(connected: bool): State {
    if connected then State(Some(0), 1, {}, map[], 0) else State(None, 0, {}, map[], 0)
  }

  function Move(s: State, id: nat, c: Call): State {
    s.(calls := s.calls[id := c])
  }

  /** One atomic step; a step its call is not at leaves s as it is. */
  function Next(s: State, a: Action): State {
    if a.Enter? then s.(calls := s.calls[s.nextCall := Entered], nextCall := s.nextCall + 1)
    else if a.id !in s.calls then s
    else
      var call := s.calls[a.id];
      match a
      case Load(id) =>
        if !call.Entered? then s else Move(s, id, if s.held.Some? then Using(s.held.value) else Missing)
      case Create(id, ok) =>
        if !call.Missing? then s
        else if ok then Move(s, id, Made(s.made)).(made := s.made + 1)
        else s.(calls := s.calls - {id})
      case Swap(id) =>
        if !call.Made? then s
        else if s.held.None? then Move(s, id, Using(call.c)).(held := Some(call.c))
        else Move(s, id, Lost(call.c))
      case CloseOwn(id) =>
        if !call.Lost? then s else Move(s, id, Rereading).(closed := s.closed + {call.c})
      case Reread(id) =>
        if !call.Rereading? then s else Move(s, id, if s.held.Some? then Using(s.held.value) else GaveUp)
      case Leave(id) =>
        if call.Using? || call.GaveUp? then s.(calls := s.calls - {id}) else s
  }

  function Exec(s: State, run: seq<Action>): State {
    if run == [] then s else Next(Exec(s, DropLast(run)), Last(run))
  }

  // ---- The holder takes the protocol's steps -----------------------------------------------------

  /** The holder's pointer is what the protocol calls held; `clients` are all clients made so far. */
  ghost predicate Stands(h: Holder, s: State, clients: seq<Client>)
    reads h
  {
    && |clients| == s.made && (forall i, j | 0 <= i < j < |clients| :: clients[i] != clients[j])
    && (s.held.Some? ==> s.held.value < |clients|)
    && h.p == if s.held.Some? then clients[s.held.value] else null
  }

  /** Both reads of a call are steps of the protocol, and what they return is where the call goes on. */
  method GetStep(h: Holder, ghost s: State, ghost id: nat, ghost clients: seq<Client>) returns (c: Client?)
    requires Stands(h, s, clients) && id in s.calls && (s.calls[id].Entered? || s.calls[id].Rereading?)
    ensures var s' := Next(s, if s.calls[id].Entered? then Load(id) else Reread(id));
            var call := s'.calls[id];
            && Stands(h, s', clients)
            && (c == null ==> call == if s.calls[id].Entered? then Missing else GaveUp)
            && (c != null ==> call.Using? && call.c < |clients| && c == clients[call.c])
  {
    c := Holder.Get(h);
  }

  /** Publishing a client is the protocol's swap: it succeeds exactly when the call then uses its own
      client, and otherwise leaves the call to close it. */
  method SwapStep(h: Holder, c: Client, ghost s: State, ghost id: nat, ghost clients: seq<Client>) returns (swapped: bool)
    requires Stands(h, s, clients) && id in s.calls && s.calls[id].Made?
    requires s.calls[id].c < |clients| && clients[s.calls[id].c] == c
    modifies h
    ensures Stands(h, Next(s, Swap(id)), clients)
    ensures Next(s, Swap(id)).calls[id] == if swapped then Using(s.calls[id].c) else Lost(s.calls[id].c)
  {
    swapped := Holder.CompareAndSwap(h, null, c);
  }

  /** Client c is only known to a call that made it and has neither published nor closed it. */
  predicate Owns(s: State, id: nat, c: nat) {
    id in s.calls && (s.calls[id] == Made(c) || s.calls[id] == Lost(c))
  }

  ghost predicate Local(s: State, c: nat) {
    exists id :: Owns(s, id, c)
  }

  predicate CallRight(s: State, id: nat)
    requires id in s.calls
  {
    var call := s.calls[id];
    && id < s.nextCall
    && (call.Made? || call.Lost? ==> call.c < s.made && s.held != Some(call.c) && call.c !in s.closed)
    && (call.Lost? || call.Rereading? ==> s.held.Some?)
    && (call.Using? ==> s.held == Some(call.c))
    && !call.GaveUp?
  }

  ghost predicate Right(s: State) {
    && (forall id | id in s.calls :: CallRight(s, id))
    && (forall i, j, c | Owns(s, i, c) && Owns(s, j, c) :: i == j)
    && (s.held.Some? ==> s.held.value < s.made && s.held.value !in s.closed)
    && (forall c | c in s.closed :: c < s.made)
    && (forall c: nat | c < s.made :: s.held == Some(c) || c in s.closed || Local(s, c))
  }

  /** Where a client that some call owned is afterwards. */
  lemma NoneLost(s: State, a: Action, c: nat)
    requires Right(s) && c < Next(s, a).made
    ensures Next(s, a).held == Some(c) || c in Next(s, a).closed || Local(Next(s, a), c)
  {
    var s' := Next(s, a);
    if c == s.made {
      assert Owns(s', a.id, c);
    } else if Local(s, c) {
      var id: nat :| Owns(s, id, c);
      assert id < s.nextCall by { assert CallRight(s, id); }
      assert s'.held == Some(c) || c in s'.closed || Owns(s', id, c);
    }
  }

  lemma CallsStep(s: State, a: Action, id: nat)
    requires Right(s) && id in Next(s, a).calls
    ensures CallRight(Next(s, a), id)
  {
    assert id in s.calls ==> CallRight(s, id);
    assert !a.Enter? && a.id in s.calls ==> CallRight(s, a.id);
    if !a.Enter? && id in s.calls && a.id in s.calls && id != a.id && (s.calls[id].Made? || s.calls[id].Lost?) {
      assert Owns(s, id, s.calls[id].c);
      assert s.calls[a.id].Made? || s.calls[a.id].Lost? ==> Owns(s, a.id, s.calls[a.id].c);
    }
  }

  lemma OwnersStep(s: State, a: Action, i: nat, j: nat, c: nat)
    requires Right(s) && Owns(Next(s, a), i, c) && Owns(Next(s, a), j, c)
    ensures i == j
  {
    assert forall id | id in s.calls :: CallRight(s, id);
    assert Owns(s, i, c) || c == s.made;
    assert Owns(s, j, c) || c == s.made;
  }

  lemma RightStep(s: State, a: Action)
    requires Right(s)
    ensures Right(Next(s, a))
  {
    var s' := Next(s, a);
    forall id | id in s'.calls
      ensures CallRight(s', id)
    {
      CallsStep(s, a, id);
    }
    forall i, j, c | Owns(s', i, c) && Owns(s', j, c)
      ensures i == j
    {
      OwnersStep(s, a, i, j, c);
    }
    forall c: nat | c < s'.made
      ensures s'.held == Some(c) || c in s'.closed || Local(s', c)
    {
      NoneLost(s, a, c);
    }
    assert !a.Enter? && a.id in s.calls ==> CallRight(s, a.id);
  }

  lemma {:induction false} RightRun(connected: bool, run: seq<Action>)
    ensures Right(Exec(Init(connected), run))
  {
    if run != [] {
      RightRun(connected, DropLast(run));
      RightStep(Exec(Init(connected), DropLast(run)), Last(run));
    }
  }

  /** Every run: each client ever created is held, closed, or local to one running call, and in
      only one of these places; a call in use sees the held, open client; no re-read is nil. */
  lemma NoClientLeaks(connected: bool, run: seq<Action>, c: nat)
    requires c < Exec(Init(connected), run).made
    ensures var s := Exec(Init(connected), run);
            && (s.held == Some(c) || c in s.closed || Local(s, c))
            && !(s.held == Some(c) && c in s.closed) && !(s.held == Some(c) && Local(s, c)) && !(c in s.closed && Local(s, c))
            && (s.calls == map[] ==> (c in s.closed <==> s.held != Some(c)))
            && (forall id | id in s.calls :: s.calls[id] != GaveUp)
            && (forall id | id in s.calls && s.calls[id].Using? :: s.held == Some(s.calls[id].c) && s.calls[id].c !in s.closed)
  {
    RightRun(connected, run);
    var s := Exec(Init(connected), run);
    assert forall id | id in s.calls :: CallRight(s, id);
  }

  /** The held pointer never changes again once it is not nil. */
  lemma {:induction false} HeldOnce(s: State, run: seq<Action>)
    ensures s.held.Some? ==> Exec(s, run).held == s.held
  {
    if run != [] {
      HeldOnce(s, DropLast(run));
    }
  }
}
