/** The broker's code, as methods on its client map.  Each method, run without
    interruption, is a stretch of steps of the broker protocol. */
module BrokerMethods {
  import opened Broker

  lemma Extend(s: State, es: seq<Event>, event: Event)
    ensures After(s, es + [event]) == Next(After(s, es), event)
  {
    assert (es + [event])[..|es|] == es;
  }

  /** Some protocol steps lead from `s` to `t`. */
  ghost predicate Reaches(s: State, t: State) {
    exists es :: After(s, es) == t
  }

  lemma ReachesNext(s: State, t: State, event: Event)
    requires s == t || Reaches(s, t)
    ensures Reaches(s, Next(t, event))
  {
    if s == t {
      assert After(s, []) == t;
    }
    var es :| After(s, es) == t;
    Extend(s, es, event);
    assert After(s, es + [event]) == Next(t, event);
  }

  lemma {:induction false} SafeAfter(s: State, es: seq<Event>)
    requires Safe(s)
    ensures Safe(After(s, es))
  {
    if es != [] {
      SafeAfter(s, es[..|es| - 1]);
      SafeNext(After(s, es[..|es| - 1]), es[|es| - 1]);
    }
  }

  lemma SafeReaches(s: State, t: State)
    requires Safe(s) && Reaches(s, t)
    ensures Safe(t)
  {
    var es :| After(s, es) == t;
    SafeAfter(s, es);
  }

  predicate HasRoom(ch: Channel) {
    |ch.buffer| < CAPACITY
  }

  /** The clients whose buffer is full. */
  function Full(clients: map<nat, Channel>): set<nat> {
    set c | c in clients && !HasRoom(clients[c])
  }

  /** Event `e` appended for every client with room. */
  function Offered(clients: map<nat, Channel>, e: nat): map<nat, Channel> {
    map c | c in clients :: if HasRoom(clients[c]) then Push(clients[c], e) else clients[c]
  }

  lemma StartStep(s: State)
    requires Safe(s) && s.emitters == map[]
    ensures Next(s, StartEmit) == s.(emitters := map[s.emitted := Offering(s.clients, {})], emitted := s.emitted + 1)
    ensures Safe(Next(s, StartEmit))
  {
    SafeNext(s, StartEmit);
  }

  lemma OfferStep(s: State, e: nat, c: nat, todo: set<nat>, full: set<nat>)
    requires Safe(s) && s.emitters == map[e := Offering(todo, full)] && c in todo
    ensures c in s.channels
    ensures Next(s, Offer(e, c)) ==
            if HasRoom(s.channels[c])
            then s.(channels := s.channels[c := Push(s.channels[c], e)], emitters := map[e := Offering(todo - {c}, full)])
            else s.(emitters := map[e := Offering(todo - {c}, full + {c})])
    ensures Safe(Next(s, Offer(e, c)))
  {
    assert GoodEmitter(s, e);
    SafeNext(s, Offer(e, c));
  }

  lemma EndStep(s: State, e: nat, full: set<nat>)
    requires Safe(s) && s.emitters == map[e := Offering({}, full)]
    ensures Next(s, EndOffers(e)) == s.(emitters := if full == {} then map[] else map[e := Dropping(full)])
    ensures Safe(Next(s, EndOffers(e)))
  {
    assert s.emitters - {e} == map[];
    SafeNext(s, EndOffers(e));
  }

  lemma DropStep(s: State, e: nat, full: set<nat>)
    requires Safe(s) && s.emitters == map[e := Dropping(full)]
    ensures Next(s, DropFull(e)) ==
            s.(channels := CloseFull(s, full), clients := s.clients - full, emitters := map[])
    ensures Safe(Next(s, DropFull(e)))
  {
    assert s.emitters - {e} == map[];
    assert AlreadyClosed(s, full) == {};
    SafeNext(s, DropFull(e));
  }

  /** The read section midway: the clients outside `todo` have been offered the event. */
  ghost predicate Progress(s: State, before: map<nat, Channel>, clients: map<nat, Channel>, e: nat,
                           todo: set<nat>, dropped: set<nat>)
  {
    && s.emitters == map[e := Offering(todo, dropped)]
    && todo <= before.Keys == clients.Keys == s.clients
    && (forall c :: c in clients ==> c in s.channels && s.channels[c] == clients[c])
    && (forall c :: c in dropped <==> c in before && c !in todo && !HasRoom(before[c]))
    && (forall c :: c in before ==>
         clients[c] == if c !in todo && HasRoom(before[c]) then Push(before[c], e) else before[c])
  }

  lemma FirstStep(s: State, clients: map<nat, Channel>) returns (t: State)
    requires Safe(s) && s.emitters == map[] && s.clients == clients.Keys
    requires forall c :: c in clients ==> s.channels[c] == clients[c]
    ensures Reaches(s, t) && t.emitted == s.emitted + 1 && t.nextId == s.nextId
    ensures Progress(t, clients, clients, s.emitted, clients.Keys, {})
  {
    StartStep(s);
    t := Next(s, StartEmit);
    ReachesNext(s, s, StartEmit);
  }

  lemma ProgressStep(start: State, s: State, before: map<nat, Channel>, clients: map<nat, Channel>, e: nat,
                     todo: set<nat>, dropped: set<nat>, c: nat) returns (t: State)
    requires Safe(start) && Reaches(start, s) && Progress(s, before, clients, e, todo, dropped) && c in todo
    ensures Reaches(start, t) && t.emitted == s.emitted && t.nextId == s.nextId
    ensures if HasRoom(clients[c])
            then Progress(t, before, clients[c := Push(clients[c], e)], e, todo - {c}, dropped)
            else Progress(t, before, clients, e, todo - {c}, dropped + {c})
  {
    SafeReaches(start, s);
    OfferStep(s, e, c, todo, dropped);
    t := Next(s, Offer(e, c));
    ReachesNext(start, s, Offer(e, c));
  }

  lemma LastStep(start: State, s: State, before: map<nat, Channel>, clients: map<nat, Channel>, e: nat,
                 dropped: set<nat>) returns (t: State)
    requires Safe(start) && Reaches(start, s) && Progress(s, before, clients, e, {}, dropped)
    ensures Reaches(start, t) && t.emitted == s.emitted && t.nextId == s.nextId && Safe(t)
    ensures t.emitters == if dropped == {} then map[] else map[e := Dropping(dropped)]
    ensures t.clients == clients.Keys && forall c :: c in clients ==> t.channels[c] == clients[c]
    ensures dropped == Full(before) && clients == Offered(before, e)
  {
    SafeReaches(start, s);
    EndStep(s, e, dropped);
    t := Next(s, EndOffers(e));
    ReachesNext(start, s, EndOffers(e));
  }

  class EventBroker {
    var clients: map<nat, Channel>
    var nextId: nat
    ghost var state: State

    /** The map agrees with the protocol state. */
    ghost predicate Linked()
      reads this
    {
      && Safe(state) && state.clients == clients.Keys && state.nextId == nextId
      && forall c :: c in clients ==> c in state.channels && state.channels[c] == clients[c]
    }

    /** ... and no Emit is running. */
    ghost predicate Valid()
      reads this
    {
      Linked() && state.emitters == map[]
    }

    constructor ()
      ensures Valid() && clients == map[] && state == Init(false)
    {
      clients, nextId, state := map[], 0, Init(false);
    }

    method AddClient() returns (id: nat)
      requires Valid()
      modifies this
      ensures Valid() && state == Next(old(state), Subscribe)
      ensures id == old(nextId) && nextId == id + 1 && id !in old(clients)
      ensures clients == old(clients)[id := Channel(true, [], [])]
    {
      SafeNext(state, Subscribe);
      state := Next(state, Subscribe);
      id := nextId;
      nextId := nextId + 1;
      clients := clients[id := Channel(true, [], [])];
    }

    method RemoveClient(id: nat)
      requires Valid()
      modifies this
      ensures Valid() && state == Next(old(state), Unsubscribe(id))
      ensures clients == old(clients) - {id} && state.channels == old(state.channels)
    {
      SafeNext(state, Unsubscribe(id));
      state := Next(state, Unsubscribe(id));
      clients := clients - {id};
    }

    /** The read section of Emit: offer event `e` to every client, and note which
        clients had no room. */
    method OfferAll(e: nat) returns (dropped: set<nat>)
      requires Valid() && e == state.emitted
      modifies this
      ensures Linked() && Reaches(old(state), state) && state.emitted == e + 1
      ensures state.emitters == if dropped == {} then map[] else map[e := Dropping(dropped)]
      ensures dropped == Full(old(clients)) && clients == Offered(old(clients), e)
    {
      ghost var start, before := state, clients;
      ghost var now := FirstStep(start, before);
      var buffers, todo := clients, clients.Keys;
      dropped := {};
      while todo != {}
        invariant Reaches(start, now) && now.emitted == e + 1 && now.nextId == start.nextId
        invariant Progress(now, before, buffers, e, todo, dropped)
        modifies {}
      {
        var c :| c in todo;
        now := ProgressStep(start, now, before, buffers, e, todo, dropped, c);
        todo := todo - {c};
        if |buffers[c].buffer| < CAPACITY {
          buffers := buffers[c := Push(buffers[c], e)];
        } else {
          dropped := dropped + {c};
        }
      }
      state := LastStep(start, now, before, buffers, e, dropped);
      clients := buffers;
    }

    /** The write section of Emit: close and remove the noted clients. */
    method DropClients(e: nat, dropped: set<nat>)
      requires Linked() && state.emitters == map[e := Dropping(dropped)]
      modifies this
      ensures Valid() && state == Next(old(state), DropFull(e)) && state.emitted == old(state.emitted)
      ensures clients == old(clients) - dropped
      ensures forall c :: c in old(clients) && c in dropped ==>
                c in state.channels && state.channels[c] == old(clients)[c].(open := false)
    {
      DropStep(state, e, dropped);
      state := Next(state, DropFull(e));
      clients := clients - dropped;
    }

    /** Emit of event number `e`: exactly the clients with room stay, each with the
        event appended; the others are closed and removed. */
    method Emit(e: nat)
      requires Valid() && e == state.emitted
      modifies this
      ensures Valid() && Reaches(old(state), state) && state.emitted == e + 1
      ensures clients == Offered(old(clients), e) - Full(old(clients))
      ensures forall c :: c in Full(old(clients)) ==>
                c in state.channels && state.channels[c] == old(clients)[c].(open := false)
    {
      var dropped := OfferAll(e);
      if dropped != {} {
        ReachesNext(old(state), state, DropFull(e));
        DropClients(e, dropped);
      }
    }

    /** A client takes the next event from its channel. */
    method Take(id: nat) returns (event: nat)
      requires Valid() && id in clients && clients[id].buffer != []
      modifies this
      ensures Valid() && state == Next(old(state), Receive(id))
      ensures event == old(clients)[id].buffer[0]
      ensures var ch := old(clients)[id];
              clients == old(clients)[id := Channel(ch.open, ch.buffer[1..], ch.taken + [event])]
    {
      SafeNext(state, Receive(id));
      state := Next(state, Receive(id));
      var ch := clients[id];
      event := ch.buffer[0];
      clients := clients[id := ch.(taken := ch.taken + [event], buffer := ch.buffer[1..])];
    }
  }
}
