/** What the broker's clients receive: at most once and nothing missing in every
    interleaving of Emit calls, and gap-free when Emit calls do not overlap. */
module BrokerDelivery {
  import opened Broker

  function StreamOf(s: State, c: nat): seq<nat>
    requires c in s.channels
  {
    Stream(s.channels[c])
  }

  predicate NoRepeats(es: seq<nat>) {
    forall i, j :: 0 <= i < j < |es| ==> es[i] != es[j]
  }

  /** Emit call `e` has still to deal with client `c`: it has yet to offer, or to drop it. */
  predicate Owes(s: State, e: nat, c: nat) {
    e in s.emitters && (c in s.emitters[e].full || (s.emitters[e].Offering? && c in s.emitters[e].todo))
  }

  predicate ChannelInv(s: State, c: nat)
    requires c in s.channels && c in s.joined
  {
    var es := StreamOf(s, c);
    && NoRepeats(es)
    && (forall e :: e in es ==> s.joined[c] <= e < s.emitted && !Owes(s, e, c))
    && (forall e: nat :: Owes(s, e, c) ==> s.joined[c] <= e)
    && (c in s.clients ==> forall e :: s.joined[c] <= e < s.emitted ==> e in es || Owes(s, e, c))
  }

  predicate Inv(s: State) {
    && Safe(s)
    && (forall e :: e in s.emitters && s.emitters[e].Offering? ==> s.emitters[e].todo !! s.emitters[e].full)
    && (forall c :: c in s.channels ==> ChannelInv(s, c))
  }

  /** A step that leaves a client's stream, membership and debts alone. */
  lemma ChannelFrame(s: State, t: State, c: nat)
    requires c in s.channels && c in s.joined && ChannelInv(s, c)
    requires c in t.channels && c in t.joined && StreamOf(t, c) == StreamOf(s, c) && t.joined[c] == s.joined[c]
    requires c in t.clients ==> c in s.clients
    requires s.joined[c] <= s.emitted <= t.emitted
    requires forall e: nat :: e < s.emitted ==> (Owes(t, e, c) ==> Owes(s, e, c))
    requires c in t.clients ==> forall e: nat :: e < s.emitted && Owes(s, e, c) ==> Owes(t, e, c)
    requires c in t.clients ==> forall e: nat :: s.emitted <= e < t.emitted ==> Owes(t, e, c)
    ensures ChannelInv(t, c)
  {
  }

  lemma InvStartEmit(s: State)
    requires Inv(s)
    ensures Inv(Next(s, StartEmit))
  {
    var t := Next(s, StartEmit);
    SafeNext(s, StartEmit);
    if t != s {
      forall c | c in t.channels ensures ChannelInv(t, c) {
        ChannelFrame(s, t, c);
      }
    }
  }

  lemma OfferedChannel(s: State, e: nat, c: nat)
    requires Inv(s) && e in s.emitters && s.emitters[e].Offering? && c in s.emitters[e].todo
    ensures var t := Next(s, Offer(e, c));
            c in t.channels && c in t.joined && ChannelInv(t, c)
  {
    var t := Next(s, Offer(e, c));
    assert GoodEmitter(s, e) && ChannelInv(s, c);
    assert Owes(s, e, c);
    assert forall x: nat :: x != e ==> (Owes(t, x, c) <==> Owes(s, x, c));
    if |s.channels[c].buffer| < CAPACITY {
      assert StreamOf(t, c) == StreamOf(s, c) + [e];
      assert !Owes(t, e, c);
    } else {
      assert Owes(t, e, c);
      ChannelFrame(s, t, c);
    }
  }

  lemma OtherChannel(s: State, e: nat, c: nat, d: nat)
    requires Inv(s) && e in s.emitters && s.emitters[e].Offering? && c in s.emitters[e].todo
    requires d != c && d in s.channels
    ensures var t := Next(s, Offer(e, c));
            d in t.channels && d in t.joined && ChannelInv(t, d)
  {
    var t := Next(s, Offer(e, c));
    assert GoodEmitter(s, e) && ChannelInv(s, d);
    assert forall x: nat :: Owes(t, x, d) <==> Owes(s, x, d);
    ChannelFrame(s, t, d);
  }

  lemma DisjointAfterOffer(s: State, e: nat, c: nat)
    requires Safe(s) && e in s.emitters && s.emitters[e].Offering? && c in s.emitters[e].todo
    requires forall x :: x in s.emitters && s.emitters[x].Offering? ==> s.emitters[x].todo !! s.emitters[x].full
    ensures var t := Next(s, Offer(e, c));
            t.channels.Keys == s.channels.Keys &&
            forall x :: x in t.emitters && t.emitters[x].Offering? ==> t.emitters[x].todo !! t.emitters[x].full
  {
    assert GoodEmitter(s, e);
  }

  lemma InvOffer(s: State, e: nat, c: nat)
    requires Inv(s)
    ensures Inv(Next(s, Offer(e, c)))
  {
    var t := Next(s, Offer(e, c));
    if e in s.emitters && s.emitters[e].Offering? && c in s.emitters[e].todo {
      SafeNext(s, Offer(e, c));
      DisjointAfterOffer(s, e, c);
      OfferedChannel(s, e, c);
      forall d | d in t.channels ensures ChannelInv(t, d) {
        if d != c { OtherChannel(s, e, c, d); }
      }
    }
  }

  lemma InvEndOffers(s: State, e: nat)
    requires Inv(s)
    ensures Inv(Next(s, EndOffers(e)))
  {
    var t := Next(s, EndOffers(e));
    SafeNext(s, EndOffers(e));
    if t != s {
      forall c | c in t.channels ensures ChannelInv(t, c) {
        ChannelFrame(s, t, c);
      }
    }
  }

  lemma InvDropFull(s: State, e: nat)
    requires Inv(s)
    ensures Inv(Next(s, DropFull(e)))
  {
    var t := Next(s, DropFull(e));
    SafeNext(s, DropFull(e));
    if t != s {
      forall c | c in t.channels ensures ChannelInv(t, c) {
        ChannelFrame(s, t, c);
      }
    }
  }

  lemma InvSubscribe(s: State)
    requires Inv(s)
    ensures Inv(Next(s, Subscribe))
  {
    var t := Next(s, Subscribe);
    SafeNext(s, Subscribe);
    if t != s {
      forall c | c in t.channels ensures ChannelInv(t, c) {
        if c in s.channels { ChannelFrame(s, t, c); }
      }
    }
  }

  lemma InvUnsubscribe(s: State, c: nat)
    requires Inv(s)
    ensures Inv(Next(s, Unsubscribe(c)))
  {
    var t := Next(s, Unsubscribe(c));
    SafeNext(s, Unsubscribe(c));
    if t != s {
      forall d | d in t.channels ensures ChannelInv(t, d) {
        ChannelFrame(s, t, d);
      }
    }
  }

  lemma InvReceive(s: State, c: nat)
    requires Inv(s)
    ensures Inv(Next(s, Receive(c)))
  {
    var t := Next(s, Receive(c));
    SafeNext(s, Receive(c));
    if t != s {
      var ch := s.channels[c];
      assert ch.taken + [ch.buffer[0]] + ch.buffer[1..] == ch.taken + ch.buffer;
      forall d | d in t.channels ensures ChannelInv(t, d) {
        ChannelFrame(s, t, d);
      }
    }
  }

  lemma InvNext(s: State, event: Event)
    requires Inv(s)
    ensures Inv(Next(s, event))
  {
    match event {
      case StartEmit => InvStartEmit(s);
      case Offer(e, c) => InvOffer(s, e, c);
      case EndOffers(e) => InvEndOffers(s, e);
      case DropFull(e) => InvDropFull(s, e);
      case Subscribe => InvSubscribe(s);
      case Unsubscribe(c) => InvUnsubscribe(s, c);
      case Receive(c) => InvReceive(s, c);
    }
  }

  lemma {:induction false} Reachable(serial: bool, es: seq<Event>)
    ensures Inv(After(Init(serial), es))
  {
    if es != [] {
      Reachable(serial, es[..|es| - 1]);
      InvNext(After(Init(serial), es[..|es| - 1]), es[|es| - 1]);
    }
  }

  /** In every interleaving: a client gets each event at most once, only events begun
      after it subscribed, and as long as it is subscribed every one of those whose
      Emit call has returned. */
  lemma DeliveredToSubscribers(serial: bool, es: seq<Event>, c: nat)
    requires c in After(Init(serial), es).channels
    ensures var s := After(Init(serial), es);
            && c in s.joined && NoRepeats(StreamOf(s, c))
            && (forall e :: e in StreamOf(s, c) ==> s.joined[c] <= e < s.emitted)
            && (c in s.clients ==>
                 forall e :: s.joined[c] <= e < s.emitted && e !in s.emitters ==> e in StreamOf(s, c))
  {
    Reachable(serial, es);
    var s := After(Init(serial), es);
    assert ChannelInv(s, c);
  }

  // ---- Emit calls that do not overlap ----

  /** The events from `first` on, without a gap. */
  predicate Segment(es: seq<nat>, first: nat) {
    forall i :: 0 <= i < |es| ==> es[i] == first + i
  }

  predicate SerialInv(s: State) {
    && s.serial
    && (forall e :: e in s.emitters ==> e + 1 == s.emitted)
    && (forall c :: c in s.channels && c in s.joined ==> Segment(StreamOf(s, c), s.joined[c]))
  }

  /** A gap-free stream without event `e` that holds all the earlier ones ends right before `e`. */
  lemma EndsBefore(es: seq<nat>, first: nat, e: nat)
    requires Segment(es, first) && first <= e
    requires forall x :: first <= x < e ==> x in es
    requires forall x :: x in es ==> x < e
    ensures first + |es| == e
  {
    if es != [] { assert es[|es| - 1] in es; }
    if first < e {
      assert e - 1 in es;
    }
  }

  lemma SerialOffer(s: State, e: nat, c: nat)
    requires Inv(s) && SerialInv(s)
    ensures SerialInv(Next(s, Offer(e, c)))
  {
    var t := Next(s, Offer(e, c));
    if t != s {
      assert GoodEmitter(s, e) && ChannelInv(s, c) && Owes(s, e, c);
      EndsBefore(StreamOf(s, c), s.joined[c], e);
      assert StreamOf(t, c) == StreamOf(s, c) || StreamOf(t, c) == StreamOf(s, c) + [e];
    }
  }

  lemma SerialNext(s: State, event: Event)
    requires Inv(s) && SerialInv(s)
    ensures SerialInv(Next(s, event))
  {
    match event {
      case Offer(e, c) => SerialOffer(s, e, c);
      case Receive(c) =>
        if c in s.channels && s.channels[c].buffer != [] {
          var ch := s.channels[c];
          assert ch.taken + [ch.buffer[0]] + ch.buffer[1..] == ch.taken + ch.buffer;
        }
      case _ =>
    }
  }

  lemma {:induction false} SerialReachable(es: seq<Event>)
    ensures SerialInv(After(Init(true), es))
  {
    if es != [] {
      SerialReachable(es[..|es| - 1]);
      Reachable(true, es[..|es| - 1]);
      SerialNext(After(Init(true), es[..|es| - 1]), es[|es| - 1]);
    }
  }

  /** When Emit calls do not overlap, every client's stream is a gap-free segment of the
      emitted events from its subscription on, dropped or not; and while it is
      subscribed and no Emit runs, the segment reaches up to the last event. */
  lemma GapFree(es: seq<Event>, c: nat)
    requires c in After(Init(true), es).channels
    ensures var s := After(Init(true), es);
            && c in s.joined && Segment(StreamOf(s, c), s.joined[c])
            && (c in s.clients && s.emitters == map[] ==> s.joined[c] + |StreamOf(s, c)| == s.emitted)
  {
    SerialReachable(es);
    Reachable(true, es);
    var s := After(Init(true), es);
    assert ChannelInv(s, c);
    if c in s.clients && s.emitters == map[] {
      EndsBefore(StreamOf(s, c), s.joined[c], s.emitted);
    }
  }

  // ---- exactly when a stream stays free of gaps ----

  /** The step puts an event into client c's channel. */
  predicate Delivers(s: State, event: Event, c: nat) {
    && event.Offer? && event.c == c && event.e in s.emitters && s.emitters[event.e].Offering?
    && c in s.emitters[event.e].todo && c in s.channels && |s.channels[c].buffer| < CAPACITY
  }

  lemma StreamStep(s: State, event: Event, c: nat)
    requires Safe(s) && c in s.channels
    ensures var t := Next(s, event);
            && c in t.channels && c in s.joined && c in t.joined && t.joined[c] == s.joined[c]
            && StreamOf(t, c) == if Delivers(s, event, c) then StreamOf(s, c) + [event.e] else StreamOf(s, c)
  {
    var t := Next(s, event);
    if event.Receive? && event.c == c && s.channels[c].buffer != [] {
      var ch := s.channels[c];
      assert ch.taken + [ch.buffer[0]] + ch.buffer[1..] == ch.taken + ch.buffer;
    } else if Delivers(s, event, c) {
      var ch := s.channels[c];
      assert ch.taken + (ch.buffer + [event.e]) == ch.taken + ch.buffer + [event.e];
    }
  }

  /** No Emit call with an earlier event still has to deal with the client. */
  ghost predicate NoneEarlier(s: State, e: nat, c: nat) {
    forall x: nat :: x < e ==> !Owes(s, x, c)
  }

  lemma SegmentHolds(es: seq<nat>, first: nat, x: nat)
    requires Segment(es, first)
    ensures x in es <==> first <= x < first + |es|
  {
    if first <= x < first + |es| { assert es[x - first] == x; }
  }

  /** A delivery extends a gap-free stream without a gap exactly when no earlier Emit call
      has still to offer its event to the client, or to drop it for being full. */
  lemma DeliveryExtends(s: State, event: Event, c: nat)
    requires Inv(s) && Delivers(s, event, c) && c in s.joined && Segment(StreamOf(s, c), s.joined[c])
    ensures Segment(StreamOf(s, c) + [event.e], s.joined[c]) <==> NoneEarlier(s, event.e, c)
  {
    var es, first, e := StreamOf(s, c), s.joined[c], event.e;
    assert GoodEmitter(s, e) && ChannelInv(s, c) && Owes(s, e, c);
    SegmentHolds(es, first, e);
    if NoneEarlier(s, e, c) {
      EndsBefore(es, first, e);
    } else {
      var x: nat :| x < e && Owes(s, x, c);
      assert (es + [e])[|es|] == e;
      SegmentHolds(es, first, x);
    }
  }

  /** A step that either does not deliver to the client or delivers in turn. */
  ghost predicate InTurn(s: State, event: Event, c: nat) {
    Delivers(s, event, c) ==> NoneEarlier(s, event.e, c)
  }

  ghost predicate AllInTurn(serial: bool, es: seq<Event>, c: nat) {
    forall k :: 0 <= k < |es| ==> InTurn(After(Init(serial), es[..k]), es[k], c)
  }

  lemma AllInTurnSnoc(serial: bool, es: seq<Event>, c: nat)
    requires es != []
    ensures AllInTurn(serial, es, c) <==>
            AllInTurn(serial, es[..|es| - 1], c) && InTurn(After(Init(serial), es[..|es| - 1]), es[|es| - 1], c)
  {
    var front := es[..|es| - 1];
    assert forall k :: 0 <= k < |front| ==> front[..k] == es[..k] && front[k] == es[k];
  }

  /** In every interleaving: a client's stream is a gap-free segment of the emitted events
      exactly when every delivery to it came in turn, that is, found no Emit call with an
      earlier event that had still to offer it or to drop the client. */
  lemma {:induction false} GapFreeExactly(serial: bool, es: seq<Event>, c: nat)
    ensures var s := After(Init(serial), es);
            if c in s.channels
            then c in s.joined && (Segment(StreamOf(s, c), s.joined[c]) <==> AllInTurn(serial, es, c))
            else AllInTurn(serial, es, c)
  {
    if es != [] {
      var s, event := After(Init(serial), es[..|es| - 1]), es[|es| - 1];
      GapFreeExactly(serial, es[..|es| - 1], c);
      AllInTurnSnoc(serial, es, c);
      Reachable(serial, es[..|es| - 1]);
      if c in s.channels {
        StreamStep(s, event, c);
        TurnStep(s, event, c);
      } else {
        NewChannel(s, event, c);
      }
    }
  }

  lemma TurnStep(s: State, event: Event, c: nat)
    requires Inv(s) && c in s.channels && c in s.joined
    ensures var es := StreamOf(s, c);
            var es' := if Delivers(s, event, c) then es + [event.e] else es;
            Segment(es', s.joined[c]) <==> Segment(es, s.joined[c]) && InTurn(s, event, c)
  {
    var es := StreamOf(s, c);
    if Delivers(s, event, c) {
      if Segment(es, s.joined[c]) {
        DeliveryExtends(s, event, c);
      } else {
        var i :| 0 <= i < |es| && es[i] != s.joined[c] + i;
        assert (es + [event.e])[i] == es[i];
      }
    }
  }

  lemma NewChannel(s: State, event: Event, c: nat)
    requires Safe(s) && c !in s.channels
    ensures var t := Next(s, event);
            InTurn(s, event, c) && (c in t.channels ==> c in t.joined && StreamOf(t, c) == [])
  {
  }

  /** Event x will not reach the client any more. */
  predicate Missed(s: State, x: nat, c: nat) {
    && x < s.emitted && c in s.channels && x !in StreamOf(s, c)
    && (x in s.emitters && s.emitters[x].Offering? ==> c !in s.emitters[x].todo)
  }

  lemma MissedStep(s: State, event: Event, x: nat, c: nat)
    requires Safe(s) && Missed(s, x, c)
    ensures Missed(Next(s, event), x, c)
  {
    StreamStep(s, event, c);
  }

  /** A client that was full when it was offered an event never gets that event, even if
      it reads on and later events find room again. */
  lemma {:induction false} FullMeansMissed(serial: bool, es: seq<Event>, fs: seq<Event>, x: nat, c: nat)
    requires var s := After(Init(serial), es); x in s.emitters && c in s.emitters[x].full
    ensures c in After(After(Init(serial), es), fs).channels
    ensures x !in StreamOf(After(After(Init(serial), es), fs), c)
  {
    var s := After(Init(serial), es);
    Reachable(serial, es);
    assert GoodEmitter(s, x) && Owes(s, x, c) && ChannelInv(s, c);
    MissedForever(s, fs, x, c);
  }

  lemma {:induction false} MissedForever(s: State, fs: seq<Event>, x: nat, c: nat)
    requires Safe(s) && Missed(s, x, c)
    ensures Safe(After(s, fs)) && Missed(After(s, fs), x, c)
  {
    if fs != [] {
      MissedForever(s, fs[..|fs| - 1], x, c);
      SafeNext(After(s, fs[..|fs| - 1]), fs[|fs| - 1]);
      MissedStep(After(s, fs[..|fs| - 1]), fs[|fs| - 1], x, c);
    }
  }

  // ---- overlapping Emit calls can leave a gap ----

  lemma Then(es: seq<Event>, event: Event) returns (fs: seq<Event>)
    ensures fs == es + [event] && After(Init(false), fs) == Next(After(Init(false), es), event)
  {
    fs := es + [event];
    assert fs[..|fs| - 1] == es;
  }

  function Range(n: nat): (out: seq<nat>)
    ensures |out| == n && forall i :: 0 <= i < n ==> out[i] == i
  {
    seq(n, i => i)
  }

  function Filled(n: nat): State {
    State(false, map[0 := Channel(true, Range(n), [])], {0}, 1, map[], n, map[0 := 0], 0)
  }

  lemma OneEmit(es: seq<Event>, n: nat) returns (fs: seq<Event>)
    requires n < CAPACITY && After(Init(false), es) == Filled(n)
    ensures After(Init(false), fs) == Filled(n + 1)
  {
    fs := Then(es, StartEmit);
    var s := After(Init(false), fs);
    assert s.emitters == map[n := Offering({0}, {})];
    fs := Then(fs, Offer(n, 0));
    var t := After(Init(false), fs);
    assert Range(n) + [n] == Range(n + 1);
    assert t.channels == map[0 := Channel(true, Range(n + 1), [])];
    assert {0} - {0} == {};
    assert t.emitters == map[n := Offering({}, {})];
    fs := Then(fs, EndOffers(n));
    assert t.emitters - {n} == map[];
  }

  /** A slow client can be filled up to any level. */
  lemma {:induction false} Fill(n: nat) returns (es: seq<Event>)
    requires n <= CAPACITY
    ensures After(Init(false), es) == Filled(n)
  {
    if n == 0 {
      es := Then([], Subscribe);
      assert After(Init(false), es).clients == {0};
      assert Range(0) == [];
    } else {
      es := Fill(n - 1);
      es := OneEmit(es, n - 1);
    }
  }

  /** Event 256 finds a client's buffer full; before that Emit call gets the write lock
      to drop it, the client reads one event and a second Emit call offers it event
      257.  The client receives 257 and never 256. */
  lemma OverlapLeavesGap() returns (es: seq<Event>)
    ensures var s := After(Init(false), es);
            0 in s.channels && StreamOf(s, 0) == Range(256) + [257] && s.joined == map[0 := 0] && 0 in s.clients
  {
    es := Fill(256);
    es := Then(es, StartEmit);
    es := Then(es, Offer(256, 0));
    assert {0} - {0} == {} && {} + {0} == {0};
    assert After(Init(false), es).emitters == map[256 := Offering({}, {0})];
    es := Then(es, EndOffers(256));
    assert After(Init(false), es).emitters == map[256 := Dropping({0})];
    es := Then(es, Receive(0));
    var ch := After(Init(false), es).channels[0];
    assert ch.taken + ch.buffer == Range(256) && |ch.buffer| == 255 && ch.open;
    es := Then(es, StartEmit);
    es := Then(es, Offer(257, 0));
    assert After(Init(false), es).channels[0] == Push(ch, 257);
    assert ch.taken + (ch.buffer + [257]) == Range(256) + [257];
  }
}
