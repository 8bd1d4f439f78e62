/** The order of delivery when a run's output comes from one pump at a time: what
    the server has received, each record counted at its first receipt, is always a
    prefix of what the command produced. */
module DeliveryOrder {
  import opened Delivery

  function Emitted(s: State): nat {
    s.produced + if s.finished then 1 else 0
  }

  /** The record at position `i`, when `n` chunks have been produced. */
  function At(n: nat, i: nat): Record {
    if i < n then Chunk(i) else Outcome
  }

  /** Everything produced so far, in order, the result last. */
  function All(s: State): (out: seq<Record>)
    ensures |out| == Emitted(s) && forall i :: 0 <= i < |out| ==> out[i] == At(s.produced, i)
  {
    seq(Emitted(s), i requires 0 <= i < Emitted(s) => At(s.produced, i))
  }

  /** The records in the order of their first receipt. */
  function FirstReceipts(rs: seq<Record>): seq<Record> {
    if rs == [] then []
    else
      var front, last := rs[..|rs| - 1], rs[|rs| - 1];
      if last in front then FirstReceipts(front) else FirstReceipts(front) + [last]
  }

  lemma {:induction false} SameElements(rs: seq<Record>, x: Record)
    ensures x in FirstReceipts(rs) <==> x in rs
  {
    if rs != [] {
      SameElements(rs[..|rs| - 1], x);
      assert rs == rs[..|rs| - 1] + [rs[|rs| - 1]];
    }
  }

  /** How many of the records produced so far (all but a running call's) have left their call. */
  function Handled(s: State): int {
    if s.calls == map[] then Emitted(s) else Emitted(s) - 1
  }

  /** Everything before position `k` is at the server. */
  predicate ReceivedUpTo(s: State, k: int) {
    k <= |FirstReceipts(s.received)|
  }

  /** `rs` is the stretch of the produced records that ends at position `k`. */
  predicate TailAt(s: State, rs: seq<Record>, k: int) {
    |rs| <= k <= Emitted(s) && forall i :: 0 <= i < |rs| ==> rs[i] == At(s.produced, k - |rs| + i)
  }

  predicate InOrder(s: State) {
    var rs := FirstReceipts(s.received);
    |rs| <= Emitted(s) && forall i :: 0 <= i < |rs| ==> rs[i] == At(s.produced, i)
  }

  /** The running call, if any, is for the newest record. */
  predicate NewestCall(s: State) {
    s.calls == map[] || (Emitted(s) > 0 && s.calls.Keys == {At(s.produced, Emitted(s) - 1)})
  }

  predicate SpoolInOrder(s: State) {
    TailAt(s, s.spool, Handled(s)) && ReceivedUpTo(s, Handled(s) - |s.spool|)
  }

  predicate DrainInOrder(s: State, p: Drain) {
    TailAt(s, p.copy, Emitted(s)) && ReceivedUpTo(s, Emitted(s) - |p.copy| + p.sent)
  }

  predicate OrderInv(s: State) {
    && s.serial && InOrder(s) && NewestCall(s)
    && (!s.abandoned ==> SpoolInOrder(s))
    && (forall x :: x in s.calls && s.calls[x] == Sending ==> s.spool == [])
    && (forall d :: d in s.drains ==> DrainInOrder(s, s.drains[d]))
  }

  /** Receiving more keeps the order of spool and drains. */
  lemma ReceivedMore(s: State, t: State, p: Drain)
    requires t.produced == s.produced && t.finished == s.finished && t.calls == s.calls && t.spool == s.spool
    requires |FirstReceipts(s.received)| <= |FirstReceipts(t.received)|
    ensures SpoolInOrder(s) ==> SpoolInOrder(t)
    ensures DrainInOrder(s, p) ==> DrainInOrder(t, p)
  {
  }

  /** Receiving the record at position `k`, when everything before it is there, keeps the order. */
  lemma Receive(s: State, t: State, k: nat)
    requires InOrder(s) && k < Emitted(s) && ReceivedUpTo(s, k)
    requires t.received == s.received + [At(s.produced, k)] && t.produced == s.produced && t.finished == s.finished
    ensures InOrder(t) && ReceivedUpTo(t, k + 1)
    ensures |FirstReceipts(s.received)| <= |FirstReceipts(t.received)|
  {
    var rs := FirstReceipts(s.received);
    SameElements(s.received, At(s.produced, k));
    assert t.received[..|t.received| - 1] == s.received;
    if k < |rs| {
      assert rs[k] in rs;
    }
  }

  /** A record that is at the server is among the first receipts, at its own position. */
  lemma ReceivedAt(s: State, k: nat)
    requires InOrder(s) && k < Emitted(s) && At(s.produced, k) in s.received
    ensures ReceivedUpTo(s, k + 1)
  {
    var rs := FirstReceipts(s.received);
    SameElements(s.received, At(s.produced, k));
    var i :| 0 <= i < |rs| && rs[i] == At(s.produced, k);
    assert rs[i] == At(s.produced, i);
  }

  /** A new record leaves the positions of the earlier ones alone. */
  lemma TailFrame(s: State, t: State, rs: seq<Record>, k: int)
    requires TailAt(s, rs, k) && !s.finished && s.produced <= t.produced && Emitted(s) <= Emitted(t)
    ensures TailAt(t, rs, k)
  {
    forall i | 0 <= i < |rs| ensures rs[i] == At(t.produced, k - |rs| + i) {
      assert rs[i] == At(s.produced, k - |rs| + i);
    }
  }

  lemma OrderProduce(s: State, e: Event)
    requires OrderInv(s) && !s.finished && s.calls == map[] && s.drains == map[] && !s.abandoned
    requires e == Produce || e == Finish
    ensures OrderInv(Next(s, e))
  {
    var t := Next(s, e);
    TailFrame(s, t, s.spool, Handled(s));
    TailFrame(s, t, FirstReceipts(s.received), |FirstReceipts(s.received)|);
    assert t.calls.Keys == {At(t.produced, Emitted(t) - 1)};
  }

  lemma OrderCheck(s: State, e: Event)
    requires OrderInv(s) && Shape(s) && (e.Check? || e.Mark?)
    ensures OrderInv(Next(s, e))
  {
    var t := Next(s, e);
    if t != s {
      assert t.calls.Keys == s.calls.Keys;
      assert s.drains == map[];
    }
  }

  lemma OrderSend(s: State, x: Record, ok: bool, reached: bool)
    requires OrderInv(s) && Shape(s)
    ensures OrderInv(Next(s, Send(x, ok, reached)))
  {
    var t := Next(s, Send(x, ok, reached));
    if t != s {
      assert s.calls.Keys == {x} && x == At(s.produced, Emitted(s) - 1) && !s.abandoned && s.drains == map[];
      if ok || reached { Receive(s, t, Emitted(s) - 1); }
      if ok {
        assert t.calls == map[];
      } else {
        assert t.calls.Keys == s.calls.Keys;
      }
    }
  }

  lemma OrderAppend(s: State, x: Record)
    requires OrderInv(s) && Shape(s)
    ensures OrderInv(Next(s, Append(x)))
  {
    var t := Next(s, Append(x));
    if t != s {
      assert s.calls.Keys == {x} && x == At(s.produced, Emitted(s) - 1) && !s.abandoned && s.drains == map[];
      assert t.calls == map[];
    }
  }

  lemma OrderDrainSend(s: State, d: nat, ok: bool, reached: bool)
    requires OrderInv(s) && (s.drains != map[] ==> s.calls == map[])
    ensures OrderInv(Next(s, DrainSend(d, ok, reached)))
  {
    var t := Next(s, DrainSend(d, ok, reached));
    if t != s {
      var p := s.drains[d];
      var k := Emitted(s) - |p.copy| + p.sent;
      if ok || reached {
        assert p.copy[p.sent] == At(s.produced, k);
        Receive(s, t, k);
      }
      forall c | c in t.drains ensures DrainInOrder(t, t.drains[c]) {
        ReceivedMore(s, t, s.drains[c]);
      }
      ReceivedMore(s, t, p);
    }
  }

  lemma OrderStartDrain(s: State, d: nat)
    requires OrderInv(s) && Shape(s)
    ensures OrderInv(Next(s, StartDrain(d)))
  {
  }

  lemma OrderEndDrain(s: State, d: nat)
    requires OrderInv(s) && (d in s.drains ==> s.calls == map[] && GoodDrain(s, s.drains[d]))
    ensures OrderInv(Next(s, EndDrain(d)))
  {
    var t := Next(s, EndDrain(d));
    if t != s {
      assert t.spool == [] && DrainInOrder(s, s.drains[d]);
      forall c | c in t.drains ensures DrainInOrder(t, t.drains[c]) {
        assert DrainInOrder(s, s.drains[c]);
      }
    }
  }

  lemma OrderDrop(s: State)
    requires OrderInv(s) && Shape(s) && Next(s, Drop).lost == {}
    ensures OrderInv(Next(s, Drop))
  {
    if Outcome !in s.spool && s.spool != [] {
      var k := Handled(s) - 1;
      var x := s.spool[|s.spool| - 1];
      assert x == At(s.produced, k);
      assert x in Elements(s.spool) && x in Elements(s.received);
      ReceivedAt(s, k);
    }
  }

  lemma OrderNext(s: State, e: Event)
    requires OrderInv(s) && Inv(s) && Next(s, e).lost == {}
    ensures OrderInv(Next(s, e))
  {
    match e {
      case Produce => if !s.finished && s.calls == map[] { OrderProduce(s, e); }
      case Finish => if !s.finished && s.calls == map[] { OrderProduce(s, e); }
      case Check(_) => OrderCheck(s, e);
      case Mark(_) => OrderCheck(s, e);
      case Send(x, ok, reached) => OrderSend(s, x, ok, reached);
      case Append(x) => OrderAppend(s, x);
      case StartDrain(d) => OrderStartDrain(s, d);
      case EndDrain(d) => OrderEndDrain(s, d);
      case DrainSend(d, ok, reached) => OrderDrainSend(s, d, ok, reached);
      case Drop => OrderDrop(s);
    }
  }

  lemma {:induction false} OrderReachable(es: seq<Event>)
    requires After(Init(true), es).lost == {}
    ensures OrderInv(After(Init(true), es))
  {
    if es != [] {
      var s := After(Init(true), es[..|es| - 1]);
      LostStep(s, es[|es| - 1]);
      OrderReachable(es[..|es| - 1]);
      Reachable(true, es[..|es| - 1]);
      OrderNext(s, es[|es| - 1]);
    }
  }

  /** With one pump at a time, under any losses and any failed, repeated or
      concurrent drains: the first receipts are always a prefix of what was produced;
      with the records still spooled or in a call they cover it; and after a full
      drain they are all of it, the result last. */
  lemma ReceivedIsPrefix(es: seq<Event>)
    requires After(Init(true), es).lost == {}
    ensures var s := After(Init(true), es);
            && FirstReceipts(s.received) <= All(s)
            && (!s.abandoned ==> |FirstReceipts(s.received)| + |s.spool| >= Handled(s))
            && (s.calls == map[] && s.spool == [] && !s.abandoned ==> FirstReceipts(s.received) == All(s))
  {
    OrderReachable(es);
  }

  // ---- what a drop in the middle of a run does ----

  lemma Then(es: seq<Event>, e: Event) returns (fs: seq<Event>)
    ensures fs == es + [e] && After(Init(true), fs) == Next(After(Init(true), es), e)
  {
    fs := es + [e];
    assert fs[..|fs| - 1] == es;
  }

  lemma FirstChunkDropped() returns (es: seq<Event>)
    ensures After(Init(true), es) == State(true, 1, false, map[], true, [], [], map[], {Chunk(0)}, false)
  {
    es := [];
    es := Then(es, Produce);
    es := Then(es, Check(Chunk(0)));
    es := Then(es, Send(Chunk(0), false, false));
    es := Then(es, Mark(Chunk(0)));
    es := Then(es, Append(Chunk(0)));
    assert After(Init(true), es).calls == map[];
    es := Then(es, Drop);
  }

  lemma RestSpooled() returns (es: seq<Event>)
    ensures After(Init(true), es) ==
            State(true, 2, true, map[], true, [Chunk(1), Outcome], [], map[], {Chunk(0)}, false)
  {
    es := FirstChunkDropped();
    es := Then(es, Produce);
    es := Then(es, Check(Chunk(1)));
    es := Then(es, Append(Chunk(1)));
    assert After(Init(true), es).calls == map[];
    es := Then(es, Finish);
    es := Then(es, Check(Outcome));
    es := Then(es, Append(Outcome));
    assert After(Init(true), es).calls == map[];
  }

  /** A run spools its first chunk, the spool drops the run (its age or the disk cap),
      the command goes on and ends: its result is drained and recorded although its
      first chunk is gone for good.  Such a run does not stay interrupted. */
  lemma DropInTheMiddle() returns (es: seq<Event>)
    ensures var s := After(Init(true), es);
            s.produced == 2 && s.received == [Chunk(1), Outcome] && s.spool == [] && s.calls == map[]
  {
    es := RestSpooled();
    es := Then(es, StartDrain(0));
    es := Then(es, DrainSend(0, true, true));
    es := Then(es, DrainSend(0, true, true));
    assert After(Init(true), es).received == [Chunk(1), Outcome];
    es := Then(es, EndDrain(0));
  }
}
