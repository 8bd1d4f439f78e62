/** The event broker: a fan-out over bounded channels under a read/write lock.

    Any number of Emit calls share the read lock and offer their event to one client
    after the other; dropping clients, subscribing and unsubscribing need the write
    lock and are one step each.  Events are numbered in the order in which their
    Emit calls take the read lock. */
module Broker {

  const CAPACITY: nat := 256

  /** A client's channel; `taken` is what the client has received from it. */
  datatype Channel = Channel(open: bool, buffer: seq<nat>, taken: seq<nat>)

  /** An Emit call: offering under the read lock to the clients in `todo`, or past it
      and waiting for the write lock to drop the clients that were full. */
  datatype Emitter =
    | Offering(todo: set<nat>, full: set<nat>)
    | Dropping(full: set<nat>)

  datatype State = State(
    serial: bool,                  // Emit calls do not overlap, a constant
    channels: map<nat, Channel>,   // every channel ever made, by client
    clients: set<nat>,             // the keys of the broker's map
    nextId: nat,
    emitters: map<nat, Emitter>,   // the running Emit calls, by event
    emitted: nat,                  // Emit calls begun
    joined: map<nat, nat>,         // history: events begun before each client subscribed
    faults: nat                    // history: sends on a closed channel, closes of a closed channel
  )

  datatype Event =
    | StartEmit | Offer(e: nat, c: nat) | EndOffers(e: nat) | DropFull(e: nat)
    | Subscribe | Unsubscribe(c: nat) | Receive(c: nat)

  function Init(serial: bool): State {
    State(serial, map[], {}, 0, map[], 0, map[], 0)
  }

  /** No Emit call holds the read lock. */
  predicate WriteLockFree(s: State) {
    forall e :: e in s.emitters ==> s.emitters[e].Dropping?
  }

  function Stream(ch: Channel): seq<nat> {
    ch.taken + ch.buffer
  }

  function Push(ch: Channel, e: nat): Channel {
    ch.(buffer := ch.buffer + [e])
  }

  /** The channels after those of `full` that are still in the map are closed. */
  function CloseFull(s: State, full: set<nat>): (out: map<nat, Channel>)
    ensures out.Keys == s.channels.Keys
  {
    map c | c in s.channels :: if c in full && c in s.clients then s.channels[c].(open := false) else s.channels[c]
  }

  function AlreadyClosed(s: State, full: set<nat>): set<nat> {
    set c | c in full && c in s.clients && c in s.channels && !s.channels[c].open
  }

  /** Impossible events leave the state as it is, so every event sequence is a run. */
  function Next(s: State, event: Event): State {
    match event
    case StartEmit =>
      if s.serial && s.emitters != map[] then s
      else s.(emitters := s.emitters[s.emitted := Offering(s.clients, {})], emitted := s.emitted + 1)
    case Offer(e, c) =>
      if e in s.emitters && s.emitters[e].Offering? && c in s.emitters[e].todo && c in s.channels then
        var em := s.emitters[e];
        var ch := s.channels[c];
        var t := s.(faults := s.faults + if ch.open then 0 else 1);
        if |ch.buffer| < CAPACITY
        then t.(channels := s.channels[c := Push(ch, e)], emitters := s.emitters[e := em.(todo := em.todo - {c})])
        else t.(emitters := s.emitters[e := em.(todo := em.todo - {c}, full := em.full + {c})])
      else s
    case EndOffers(e) =>
      if e in s.emitters && s.emitters[e].Offering? && s.emitters[e].todo == {} then
        var full := s.emitters[e].full;
        s.(emitters := if full == {} then s.emitters - {e} else s.emitters[e := Dropping(full)])
      else s
    case DropFull(e) =>
      if e in s.emitters && s.emitters[e].Dropping? && WriteLockFree(s) then
        var full := s.emitters[e].full;
        s.(faults := s.faults + |AlreadyClosed(s, full)|,
           channels := CloseFull(s, full), clients := s.clients - full, emitters := s.emitters - {e})
      else s
    case Subscribe =>
      if WriteLockFree(s)
      then s.(nextId := s.nextId + 1, clients := s.clients + {s.nextId},
              channels := s.channels[s.nextId := Channel(true, [], [])],
              joined := s.joined[s.nextId := s.emitted])
      else s
    case Unsubscribe(c) =>
      if WriteLockFree(s) then s.(clients := s.clients - {c}) else s
    case Receive(c) =>
      if c in s.channels && s.channels[c].buffer != [] then
        var ch := s.channels[c];
        s.(channels := s.channels[c := ch.(taken := ch.taken + [ch.buffer[0]], buffer := ch.buffer[1..])])
      else s
  }

  function After(s: State, es: seq<Event>): State {
    if es == [] then s else Next(After(s, es[..|es| - 1]), es[|es| - 1])
  }

  // ---- safety in every interleaving ----

  predicate GoodEmitter(s: State, e: nat)
    requires e in s.emitters
  {
    && e < s.emitted
    && s.emitters[e].full <= s.channels.Keys
    && (s.emitters[e].Offering? ==> s.emitters[e].todo <= s.clients)
  }

  predicate Safe(s: State) {
    && s.faults == 0
    && s.clients <= s.channels.Keys == s.joined.Keys
    && (forall c :: c in s.channels ==> c < s.nextId && |s.channels[c].buffer| <= CAPACITY && s.joined[c] <= s.emitted)
    && (forall c :: c in s.clients ==> s.channels[c].open)
    && (forall e :: e in s.emitters ==> GoodEmitter(s, e))
  }

  lemma SafeOffer(s: State, e: nat, c: nat)
    requires Safe(s)
    ensures Safe(Next(s, Offer(e, c)))
  {
    if e in s.emitters {
      assert GoodEmitter(s, e);
    }
  }

  lemma SafeDropFull(s: State, e: nat)
    requires Safe(s)
    ensures Safe(Next(s, DropFull(e)))
  {
    if e in s.emitters {
      assert AlreadyClosed(s, s.emitters[e].full) == {};
    }
  }

  lemma SafeNext(s: State, event: Event)
    requires Safe(s)
    ensures Safe(Next(s, event))
  {
    match event {
      case Offer(e, c) => SafeOffer(s, e, c);
      case DropFull(e) => SafeDropFull(s, e);
      case _ =>
    }
  }

  /** In every interleaving: no event is sent on a closed channel and no channel is
      closed twice, every channel in the map is open, and no buffer exceeds its capacity. */
  lemma {:induction false} AlwaysSafe(serial: bool, es: seq<Event>)
    ensures Safe(After(Init(serial), es))
  {
    if es != [] {
      AlwaysSafe(serial, es[..|es| - 1]);
      SafeNext(After(Init(serial), es[..|es| - 1]), es[|es| - 1]);
    }
  }
}
