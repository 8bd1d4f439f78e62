/** What each step of the broker protocol changes and when it can happen. */
module BrokerSteps {
  import opened Broker

  /** An Emit call begins by taking the clients there are; overlapping calls are possible unless
      excluded. */
  lemma StartExactly(s: State)
    ensures var t := Next(s, StartEmit);
            if s.serial && s.emitters != map[] then t == s
            else t == s.(emitters := s.emitters[s.emitted := Offering(s.clients, {})], emitted := s.emitted + 1)
  {
  }

  /** An offer to a client puts the event behind those that wait, if fewer than 256 do, and
      notes the client otherwise; nobody waits for room. */
  lemma OfferExactly(s: State, e: nat, c: nat)
    requires Safe(s)
    ensures var t := Next(s, Offer(e, c));
            if !(e in s.emitters && s.emitters[e].Offering? && c in s.emitters[e].todo) then t == s
            else
              && c in s.channels && t == s.(channels := t.channels, emitters := t.emitters)
              && var todo, full, ch := s.emitters[e].todo, s.emitters[e].full, s.channels[c];
                 if |ch.buffer| < 256
                 then && t.channels == s.channels[c := Channel(ch.open, ch.buffer + [e], ch.taken)]
                      && t.emitters == s.emitters[e := Offering(todo - {c}, full)]
                 else && t.channels == s.channels
                      && t.emitters == s.emitters[e := Offering(todo - {c}, full + {c})]
  {
    if e in s.emitters { assert GoodEmitter(s, e); }
  }

  /** Past its last offer a call returns, or waits for the write lock if a client was full. */
  lemma EndExactly(s: State, e: nat)
    ensures var t := Next(s, EndOffers(e));
            if !(e in s.emitters && s.emitters[e].Offering? && s.emitters[e].todo == {}) then t == s
            else t == s.(emitters := if s.emitters[e].full == {} then s.emitters - {e}
                                     else s.emitters[e := Dropping(s.emitters[e].full)])
  {
  }

  /** Once no call offers, it closes the channels of the noted clients that are still there, and
      removes them. */
  lemma DropExactly(s: State, e: nat)
    requires Safe(s)
    ensures var t := Next(s, DropFull(e));
            if !(e in s.emitters && s.emitters[e].Dropping? && forall x :: x in s.emitters ==> !s.emitters[x].Offering?)
            then t == s
            else
              var full := s.emitters[e].full;
              && t == s.(channels := t.channels, clients := s.clients - full, emitters := s.emitters - {e})
              && t.channels.Keys == s.channels.Keys
              && forall c :: c in s.channels ==>
                   t.channels[c] == if c in full && c in s.clients
                                    then Channel(false, s.channels[c].buffer, s.channels[c].taken) else s.channels[c]
  {
    if e in s.emitters { assert AlreadyClosed(s, s.emitters[e].full) == {}; }
  }

  /** Subscribing and unsubscribing wait for the offers too.  A new client has an empty open
      channel; one that leaves keeps its channel open, and what is buffered in it. */
  lemma MembersExactly(s: State, c: nat)
    ensures var free := forall x :: x in s.emitters ==> !s.emitters[x].Offering?;
            && Next(s, Subscribe) ==
               (if free
                then s.(nextId := s.nextId + 1, clients := s.clients + {s.nextId},
                        channels := s.channels[s.nextId := Channel(true, [], [])],
                        joined := s.joined[s.nextId := s.emitted])
                else s)
            && Next(s, Unsubscribe(c)) == (if free then s.(clients := s.clients - {c}) else s)
  {
  }

  /** A client receives what has waited longest, whether or not its channel is closed by now. */
  lemma ReceiveExactly(s: State, c: nat)
    ensures var t := Next(s, Receive(c));
            if c in s.channels && s.channels[c].buffer != []
            then
              var ch := s.channels[c];
              t == s.(channels := s.channels[c := Channel(ch.open, ch.buffer[1..], ch.taken + [ch.buffer[0]])])
            else t == s
  {
  }
}
