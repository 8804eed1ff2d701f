/** The activity bus (internal/state/state.go): the fan-out loop over channels, and the protocol
    it follows with subscribers that read, unregister and close at any moment. */
module ActivityBus {
  import opened Common

  const BUFFER := 32

  type Event = seq<bv8>

  /** What a non-blocking send leaves in the buffer. */
  function Offer(buffer: seq<Event>, data: Event): seq<Event> {
    if |buffer| < BUFFER then buffer + [data] else buffer
  }

  class Channel {
    var buffer: seq<Event>
    var closed: bool

    constructor ()
      ensures buffer == [] && !closed
    {
      buffer, closed := [], false;
    }
  }

  class Bus {
    var subs: set<Channel>

    /** Registered channels are open, so a send on one cannot panic. */
    ghost predicate Valid()
      reads this, subs
    {
      forall ch | ch in subs :: !ch.closed
    }

    constructor ()
      ensures Valid() && subs == {}
    {
      subs := {};
    }

    method Publish(data: Event)
      requires Valid()
      modifies subs`buffer
      ensures Valid()
      ensures forall ch | ch in subs ::
                ch.buffer == if |old(ch.buffer)| < 32 then old(ch.buffer) + [data] else old(ch.buffer)
    {
      var todo := subs;
      while todo != {}
        invariant todo <= subs
        invariant forall ch | ch in subs :: ch.buffer == if ch in todo then old(ch.buffer) else Offer(old(ch.buffer), data)
      {
        var ch :| ch in todo;
        assert !ch.closed;
        if |ch.buffer| < BUFFER {
          ch.buffer := ch.buffer + [data];
        }
        todo := todo - {ch};
      }
    }

    method Subscribe() returns (ch: Channel)
      requires Valid()
      modifies this`subs
      ensures Valid() && fresh(ch) && ch.buffer == [] && subs == old(subs) + {ch}
    {
      ch := new Channel();
      subs := subs + {ch};
    }

    /** The cancel function of one subscription; the second call for a channel panics. */
    method Cancel(ch: Channel) returns (panicked: bool)
      requires Valid()
      modifies this`subs, ch`closed
      ensures Valid() && subs == old(subs) - {ch}
      ensures ch.closed && ch.buffer == old(ch.buffer)
      ensures panicked <==> old(ch.closed)
    {
      subs := subs - {ch};
      panicked := ch.closed;
      ch.closed := true;
    }
  }

  // ---- The protocol: sends, receives, unregistering and closing interleave ---------------------

  /** The events of one subscription: `offered` are those a send was attempted for. */
  datatype Stream = Stream(buffer: seq<Event>, received: seq<Event>, dropped: nat, offered: seq<Event>)

  /** One subscription, open or cancelled; `from` and `till` delimit it in the published sequence. */
  datatype Sub = Sub(registered: bool, open: bool, closes: nat, from: nat, till: nat, events: Stream)

  /** A Publish in progress holds the bus lock until it has tried every channel in `todo`. */
  datatype Publishing = Publishing(data: Event, todo: set<nat>)

  datatype State = State(subs: map<nat, Sub>, nextId: nat, sending: Option<Publishing>, published: seq<Event>,
                         sendPanic: bool, closePanic: bool)

  datatype Action =
    | Begin(data: Event) | Send(id: nat) | End
    | Subscribe | Unregister(id: nat) | Close(id: nat) | Receive(id: nat)

  const INIT := State(map[], 0, None, [], false, false)

  function Registered(s: State): set<nat> {
    set id | id in s.subs && s.subs[id].registered
  }

  function Sent(x: Stream, data: Event): Stream {
    x.(buffer := Offer(x.buffer, data), offered := x.offered + [data],
       dropped := if |x.buffer| < BUFFER then x.dropped else x.dropped + 1)
  }

  function Received(x: Stream): Stream
    requires x.buffer != []
  {
    x.(buffer := x.buffer[1..], received := x.received + [x.buffer[0]])
  }

  /** One step; a step that is blocked or meaningless in s leaves s as it is. */
  function Next(s: State, a: Action): State {
    match a
    case Begin(data) =>
      if s.sending.Some? then s
      else s.(sending := Some(Publishing(data, Registered(s))), published := s.published + [data])
    case Send(id) =>
      if s.sending.None? || id !in s.sending.value.todo || id !in s.subs then s
      else if !s.subs[id].open then s.(sendPanic := true)
      else s.(subs := s.subs[id := s.subs[id].(events := Sent(s.subs[id].events, s.sending.value.data))],
              sending := Some(s.sending.value.(todo := s.sending.value.todo - {id})))
    case End => if s.sending.Some? && s.sending.value.todo == {} then s.(sending := None) else s
    case Subscribe =>
      if s.sending.Some? then s
      else s.(subs := s.subs[s.nextId := Sub(true, true, 0, |s.published|, 0, Stream([], [], 0, []))], nextId := s.nextId + 1)
    case Unregister(id) =>
      if s.sending.Some? || id !in s.subs || !s.subs[id].registered then s
      else s.(subs := s.subs[id := s.subs[id].(registered := false, till := |s.published|)])
    case Close(id) =>
      if id !in s.subs || s.subs[id].registered then s
      else
        var x := s.subs[id];
        s.(subs := s.subs[id := x.(open := false, closes := x.closes + 1)], closePanic := s.closePanic || !x.open)
    case Receive(id) =>
      if id !in s.subs || s.subs[id].events.buffer == [] then s
      else s.(subs := s.subs[id := s.subs[id].(events := Received(s.subs[id].events))])
  }

  function Exec(s: State, run: seq<Action>): State {
    if run == [] then s else Next(Exec(s, DropLast(run)), Last(run))
  }

  /** The published events a subscription has been offered: those since it subscribed, up to its
      cancellation, without the one being published if its turn has not come. */
  predicate OfferedRight(s: State, id: nat)
    requires id in s.subs
  {
    var x, n := s.subs[id], |s.published|;
    var upto := if !x.registered then x.till else if s.sending.Some? && id in s.sending.value.todo then n - 1 else n;
    x.from <= upto <= n && x.events.offered == s.published[x.from..upto]
  }

  predicate CountsRight(x: Stream) {
    && IsSubsequence(x.received + x.buffer, x.offered)
    && |x.received| + |x.buffer| + x.dropped == |x.offered|
    && |x.buffer| <= BUFFER
  }

  predicate SubRight(s: State, id: nat)
    requires id in s.subs
  {
    var x := s.subs[id];
    OfferedRight(s, id) && CountsRight(x.events) && (x.registered ==> x.open) && (x.open <==> x.closes == 0)
  }

  /** A publish in progress is the last one published, and goes to registered channels only. */
  predicate SendingRight(s: State) {
    s.sending.Some? ==>
      && s.published != [] && s.sending.value.data == Last(s.published)
      && forall id | id in s.sending.value.todo :: id in s.subs && s.subs[id].registered
  }

  ghost predicate ClosesRight(s: State) {
    s.closePanic <==> exists id :: id in s.subs && s.subs[id].closes > 1
  }

  ghost predicate BusRight(s: State) {
    && (forall id | id in s.subs :: id < s.nextId && SubRight(s, id))
    && SendingRight(s) && ClosesRight(s) && !s.sendPanic
  }

  lemma SentCounts(x: Stream, data: Event)
    requires CountsRight(x)
    ensures CountsRight(Sent(x, data))
  {
    SubsequenceAppend(x.received + x.buffer, x.offered, data);
    assert x.received + (x.buffer + [data]) == x.received + x.buffer + [data];
  }

  /** Its turn in the publish in progress brings a subscription up to date. */
  lemma SubSendOwn(s: State, id: nat)
    requires SendingRight(s) && id in s.subs && SubRight(s, id)
    requires s.sending.Some? && id in s.sending.value.todo && s.subs[id].open
    ensures SubRight(Next(s, Send(id)), id)
  {
    var x, p := s.subs[id], s.published;
    SentCounts(x.events, s.sending.value.data);
    assert p[x.from..|p|] == p[x.from..|p| - 1] + [Last(p)];
  }

  lemma SubSend(s: State, id: nat, other: nat)
    requires SendingRight(s) && id in s.subs && SubRight(s, id)
    ensures SubRight(Next(s, Send(other)), id)
  {
    if other == id && s.sending.Some? && id in s.sending.value.todo && s.subs[id].open {
      SubSendOwn(s, id);
    }
  }

  lemma SubReceive(s: State, id: nat, other: nat)
    requires id in s.subs && SubRight(s, id)
    ensures SubRight(Next(s, Receive(other)), id)
  {
    var x := s.subs[id];
    if other == id && x.events.buffer != [] {
      ReceivedCounts(x.events);
      assert Next(s, Receive(id)).subs[id] == x.(events := Received(x.events));
    }
  }

  lemma ReceivedCounts(x: Stream)
    requires CountsRight(x) && x.buffer != []
    ensures CountsRight(Received(x)) && Received(x).offered == x.offered
  {
    assert (x.received + [x.buffer[0]]) + x.buffer[1..] == x.received + x.buffer;
  }

  lemma SubBegin(s: State, id: nat, data: Event)
    requires id in s.subs && SubRight(s, id)
    ensures SubRight(Next(s, Begin(data)), id)
  {
    var x, p := s.subs[id], s.published;
    assert x.registered ==> id in Registered(s);
    assert x.from <= |p| ==> (p + [data])[x.from..|p|] == p[x.from..|p|];
    assert x.from <= x.till <= |p| ==> (p + [data])[x.from..x.till] == p[x.from..x.till];
  }

  /** Subscribing, unregistering, closing and ending a publish leave every stream as it is. */
  lemma SubQuiet(s: State, a: Action, id: nat)
    requires SendingRight(s) && id in s.subs && id < s.nextId && SubRight(s, id)
    requires a.End? || a.Subscribe? || a.Unregister? || a.Close?
    ensures id in Next(s, a).subs && SubRight(Next(s, a), id)
  {
  }

  lemma SubStep(s: State, a: Action, id: nat)
    requires SendingRight(s) && id in s.subs && id < s.nextId && SubRight(s, id)
    ensures id in Next(s, a).subs && SubRight(Next(s, a), id)
  {
    match a
    case Send(other) => SubSend(s, id, other);
    case Receive(other) => SubReceive(s, id, other);
    case Begin(data) => SubBegin(s, id, data);
    case _ => SubQuiet(s, a, id);
  }

  lemma SendingStep(s: State, a: Action)
    requires BusRight(s)
    ensures SendingRight(Next(s, a)) && !Next(s, a).sendPanic
  {
    if a.Send? && a.id in s.subs {
      assert SubRight(s, a.id);
    }
  }

  lemma ClosesStep(s: State, a: Action)
    requires BusRight(s)
    ensures ClosesRight(Next(s, a))
  {
    var s' := Next(s, a);
    if i :| i in s.subs && s.subs[i].closes > 1 {
      assert i in s'.subs && s'.subs[i].closes > 1;
    }
    if a.Close? && a.id in s.subs {
      assert SubRight(s, a.id);
      assert a.id in s'.subs;
    }
    if i :| i in s'.subs && s'.subs[i].closes > 1 {
      assert i in s.subs ==> SubRight(s, i);
    }
  }

  lemma BusStep(s: State, a: Action)
    requires BusRight(s)
    ensures BusRight(Next(s, a))
  {
    SendingStep(s, a);
    ClosesStep(s, a);
    forall id | id in Next(s, a).subs
      ensures id < Next(s, a).nextId && SubRight(Next(s, a), id)
    {
      if id in s.subs {
        SubStep(s, a, id);
      }
    }
  }

  lemma {:induction false} BusRun(run: seq<Action>)
    ensures BusRight(Exec(INIT, run))
  {
    if run != [] {
      BusRun(DropLast(run));
      BusStep(Exec(INIT, DropLast(run)), Last(run));
    }
  }

  /** Every run, every subscription: what it received plus what is buffered is a subsequence, in
      publish order, of the events published while it was subscribed; accepted and dropped add up
      to the offered; nothing is ever sent on a closed channel; and closing panics exactly when
      some subscription was cancelled twice. */
  lemma {:induction false} Delivery(run: seq<Action>, id: nat)
    requires id in Exec(INIT, run).subs
    ensures var s := Exec(INIT, run); var x := s.subs[id];
            && OfferedRight(s, id)
            && IsSubsequence(x.events.received + x.events.buffer, x.events.offered)
            && |x.events.received| + |x.events.buffer| + x.events.dropped == |x.events.offered|
            && |x.events.buffer| <= BUFFER
            && !s.sendPanic
            && (s.closePanic <==> exists k :: k in s.subs && s.subs[k].closes > 1)
  {
    BusRun(run);
    assert SubRight(Exec(INIT, run), id);
  }

  /** The step tries a send to subscription `id` while its buffer is full. */
  predicate FullSend(s: State, a: Action, id: nat) {
    && a == Send(id) && s.sending.Some? && id in s.sending.value.todo
    && id in s.subs && |s.subs[id].events.buffer| >= BUFFER
  }

  /** How many such sends a run makes. */
  function SendsToFull(run: seq<Action>, id: nat): nat {
    if run == [] then 0
    else SendsToFull(DropLast(run), id) + if FullSend(Exec(INIT, DropLast(run)), Last(run), id) then 1 else 0
  }

  function Dropped(s: State, id: nat): nat {
    if id in s.subs then s.subs[id].events.dropped else 0
  }

  lemma DropStep(s: State, a: Action, id: nat)
    requires id in s.subs ==> id < s.nextId && (s.subs[id].registered ==> s.subs[id].open)
    requires SendingRight(s)
    ensures Dropped(Next(s, a), id) == Dropped(s, id) + if FullSend(s, a, id) then 1 else 0
  {
  }

  /** Every run: a subscription lost one event for each send that found its buffer full, and no other. */
  lemma {:induction false} DropsOnlyWhenFull(run: seq<Action>, id: nat)
    ensures Dropped(Exec(INIT, run), id) == SendsToFull(run, id)
  {
    if run != [] {
      var rest := DropLast(run);
      DropsOnlyWhenFull(rest, id);
      BusRun(rest);
      assert id in Exec(INIT, rest).subs ==> SubRight(Exec(INIT, rest), id);
      DropStep(Exec(INIT, rest), Last(run), id);
    }
  }

  /** The events of a run that found room in the buffer of subscription `id`, in order. */
  function SentWithRoom(run: seq<Action>, id: nat): seq<Event> {
    if run == [] then []
    else
      var s := Exec(INIT, DropLast(run));
      SentWithRoom(DropLast(run), id) +
      if Last(run) == Send(id) && s.sending.Some? && id in s.sending.value.todo && id in s.subs
         && |s.subs[id].events.buffer| < 32 then [s.sending.value.data] else []
  }

  function Taken(s: State, id: nat): seq<Event> {
    if id in s.subs then s.subs[id].events.received + s.subs[id].events.buffer else []
  }

  lemma TakenStep(s: State, a: Action, id: nat)
    requires id in s.subs ==> id < s.nextId && (s.subs[id].registered ==> s.subs[id].open)
    requires SendingRight(s)
    ensures Taken(Next(s, a), id) == Taken(s, id) +
            if a == Send(id) && s.sending.Some? && id in s.sending.value.todo && id in s.subs && |s.subs[id].events.buffer| < 32
            then [s.sending.value.data] else []
  {
    if a == Receive(id) && id in s.subs && s.subs[id].events.buffer != [] {
      ReceivedTaken(s.subs[id].events);
    } else if a == Send(id) && s.sending.Some? && id in s.sending.value.todo && id in s.subs {
      var x := s.subs[id].events;
      assert x.received + (x.buffer + [s.sending.value.data]) == x.received + x.buffer + [s.sending.value.data];
    }
  }

  lemma ReceivedTaken(x: Stream)
    requires x.buffer != []
    ensures Received(x).received + Received(x).buffer == x.received + x.buffer
  {
  }

  /** Every run: a subscriber gets exactly the events whose send found room, in publish order: of a
      full buffer it is the new event that is lost. */
  lemma {:induction false} TakenExactly(run: seq<Action>, id: nat)
    ensures Taken(Exec(INIT, run), id) == SentWithRoom(run, id)
  {
    if run != [] {
      var rest := DropLast(run);
      TakenExactly(rest, id);
      BusRun(rest);
      assert id in Exec(INIT, rest).subs ==> SubRight(Exec(INIT, rest), id);
      TakenStep(Exec(INIT, rest), Last(run), id);
    }
  }

  function Closes(more: seq<Action>, id: nat): nat {
    if more == [] then 0 else Closes(DropLast(more), id) + if Last(more) == Close(id) then 1 else 0
  }

  lemma UnregisteredStep(s: State, a: Action, id: nat)
    requires id in s.subs && !s.subs[id].registered && id < s.nextId
    requires s.sending.Some? ==> id !in s.sending.value.todo
    ensures var s' := Next(s, a);
            && id in s'.subs && !s'.subs[id].registered && id < s'.nextId
            && (s'.sending.Some? ==> id !in s'.sending.value.todo)
            && s'.subs[id].events.offered == s.subs[id].events.offered
            && s'.subs[id].closes == s.subs[id].closes + if a == Close(id) then 1 else 0
  {
  }

  lemma {:induction false} UnregisteredRun(s: State, more: seq<Action>, id: nat)
    requires id in s.subs && !s.subs[id].registered && id < s.nextId
    requires s.sending.Some? ==> id !in s.sending.value.todo
    ensures var s' := Exec(s, more);
            && id in s'.subs && !s'.subs[id].registered && id < s'.nextId
            && (s'.sending.Some? ==> id !in s'.sending.value.todo)
            && s'.subs[id].events.offered == s.subs[id].events.offered
            && s'.subs[id].closes == s.subs[id].closes + Closes(more, id)
  {
    if more != [] {
      UnregisteredRun(s, DropLast(more), id);
      UnregisteredStep(Exec(s, DropLast(more)), Last(more), id);
    }
  }

  /** Every run: once a cancel function has got hold of the bus, its subscriber is offered nothing more,
      whatever happens after; and the channel is closed as soon as, and as often as, the close that
      follows is made. */
  lemma CancelIsFinal(run: seq<Action>, id: nat, more: seq<Action>)
    requires id in Exec(INIT, run).subs && Exec(INIT, run).sending.None?
    ensures var s, s' := Exec(INIT, run), Exec(Next(Exec(INIT, run), Unregister(id)), more);
            && id in s'.subs && s'.subs[id].events.offered == s.subs[id].events.offered
            && s'.subs[id].closes == s.subs[id].closes + Closes(more, id)
            && (s.subs[id].registered ==> (s'.subs[id].open <==> Closes(more, id) == 0))
  {
    BusRun(run);
    var s := Exec(INIT, run);
    assert SubRight(s, id);
    var cancelled := Next(s, Unregister(id));
    assert !cancelled.subs[id].registered && cancelled.sending.None?;
    UnregisteredRun(cancelled, more, id);
    OpenRun(cancelled, more, id);
  }

  /** A channel is open as long as nobody has closed it. */
  lemma {:induction false} OpenRun(s: State, more: seq<Action>, id: nat)
    requires id in s.subs && id < s.nextId && (s.subs[id].open <==> s.subs[id].closes == 0)
    ensures id in Exec(s, more).subs && id < Exec(s, more).nextId
    ensures Exec(s, more).subs[id].open <==> Exec(s, more).subs[id].closes == 0
  {
    if more != [] {
      OpenRun(s, DropLast(more), id);
      OpenStep(Exec(s, DropLast(more)), Last(more), id);
    }
  }

  lemma OpenStep(s: State, a: Action, id: nat)
    requires id in s.subs && id < s.nextId && (s.subs[id].open <==> s.subs[id].closes == 0)
    ensures id in Next(s, a).subs && id < Next(s, a).nextId
    ensures Next(s, a).subs[id].open <==> Next(s, a).subs[id].closes == 0
  {
  }

  // ---- A slow subscriber is invisible to the others ---------------------------------------------

  /** s and t agree on everything but what subscription `slow` has read, buffered and dropped. */
  predicate AgreeBut(s: State, t: State, slow: nat) {
    && s.nextId == t.nextId && s.sending == t.sending && s.published == t.published
    && s.sendPanic == t.sendPanic && s.closePanic == t.closePanic && s.subs.Keys == t.subs.Keys
    && (forall id | id in s.subs && id != slow :: s.subs[id] == t.subs[id])
    && (slow in s.subs ==> s.subs[slow] == t.subs[slow].(events := s.subs[slow].events))
  }

  function WithoutReceives(run: seq<Action>, slow: nat): seq<Action> {
    if run == [] then []
    else WithoutReceives(DropLast(run), slow) + if Last(run) == Receive(slow) then [] else [Last(run)]
  }

  lemma AgreeStep(s: State, t: State, a: Action, slow: nat)
    requires AgreeBut(s, t, slow)
    ensures a != Receive(slow) ==> AgreeBut(Next(s, a), Next(t, a), slow)
    ensures a == Receive(slow) ==> AgreeBut(Next(s, a), t, slow)
  {
    match a
    case Begin(_) => assert Registered(s) == Registered(t);
    case Send(id) => AgreeSend(s, t, id, slow);
    case Receive(id) => AgreeReceive(s, t, id, slow);
    case Close(id) => AgreeClose(s, t, id, slow);
    case Unregister(id) => AgreeUnregister(s, t, id, slow);
    case _ =>
  }

  lemma AgreeReceive(s: State, t: State, id: nat, slow: nat)
    requires AgreeBut(s, t, slow)
    ensures if id == slow then AgreeBut(Next(s, Receive(id)), t, slow) else AgreeBut(Next(s, Receive(id)), Next(t, Receive(id)), slow)
  {
  }

  lemma AgreeClose(s: State, t: State, id: nat, slow: nat)
    requires AgreeBut(s, t, slow)
    ensures AgreeBut(Next(s, Close(id)), Next(t, Close(id)), slow)
  {
  }

  lemma AgreeUnregister(s: State, t: State, id: nat, slow: nat)
    requires AgreeBut(s, t, slow)
    ensures AgreeBut(Next(s, Unregister(id)), Next(t, Unregister(id)), slow)
  {
  }

  lemma AgreeSend(s: State, t: State, id: nat, slow: nat)
    requires AgreeBut(s, t, slow)
    ensures AgreeBut(Next(s, Send(id)), Next(t, Send(id)), slow)
  {
  }

  /** Removing every read of one subscriber from a run changes nothing for anybody else. */
  lemma {:induction false} SlowSubscriberHarmless(run: seq<Action>, slow: nat)
    ensures AgreeBut(Exec(INIT, run), Exec(INIT, WithoutReceives(run, slow)), slow)
  {
    if run != [] {
      var rest := WithoutReceives(DropLast(run), slow);
      SlowSubscriberHarmless(DropLast(run), slow);
      AgreeStep(Exec(INIT, DropLast(run)), Exec(INIT, rest), Last(run), slow);
      if Last(run) == Receive(slow) {
        assert WithoutReceives(run, slow) == rest;
      } else {
        AppendLast(rest, Last(run));
      }
    }
  }
}
