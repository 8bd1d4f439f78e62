/** Offline delivery of one run's records: direct send, then spool, then drain.

    The two output pumps, the final result, any number of concurrent drains, stream
    losses at every send, and drops of the run by the spool's limits (age, disk cap)
    interleave freely.  A send that returns nil has reached the server; one that
    fails may have reached it or not. */
module Delivery {

  /** What the agent sends up for a run: numbered output chunks, then the result. */
  datatype Record = Chunk(number: nat) | Outcome

  /** Where one call of `deliver` is: about to look at the spooled flag, about to
      send, failed and about to set the flag, about to append to the spool. */
  datatype Stage = Checking | Sending | Marking | Appending

  /** A drain works on a copy of the spooled records. */
  datatype Drain = Drain(copy: seq<Record>, sent: nat)

  datatype State = State(
    serial: bool,                   // one pump at a time, a constant
    produced: nat,                  // chunk numbers handed out
    finished: bool,                 // the command has ended, its result is being delivered
    calls: map<Record, Stage>,      // running calls of deliver
    flag: bool,                     // the agent's spooled[run]
    spool: seq<Record>,
    received: seq<Record>,          // what reached the server, in order, with repeats
    drains: map<nat, Drain>,
    lost: set<Record>,              // history: dropped by the spool before the result entered it
    abandoned: bool                 // history: the spool dropped the run with its result
  )

  datatype Event =
    | Produce | Finish
    | Check(x: Record) | Send(x: Record, ok: bool, reached: bool) | Mark(x: Record) | Append(x: Record)
    | StartDrain(d: nat) | DrainSend(d: nat, ok: bool, reached: bool) | EndDrain(d: nat)
    | Drop

  function Init(serial: bool): State {
    State(serial, 0, false, map[], false, [], [], map[], {}, false)
  }

  function Elements(rs: seq<Record>): set<Record> {
    set x | x in rs
  }

  /** Impossible events leave the state as it is, so every event sequence is a run. */
  function Next(s: State, e: Event): State {
    match e
    case Produce =>
      if !s.finished && (s.serial ==> s.calls == map[])
      then s.(produced := s.produced + 1, calls := s.calls[Chunk(s.produced) := Checking])
      else s
    case Finish =>
      // both pumps have ended before the result is delivered
      if !s.finished && s.calls == map[] then s.(finished := true, calls := map[Outcome := Checking]) else s
    case Check(x) =>
      if x in s.calls && s.calls[x] == Checking
      then s.(calls := s.calls[x := if s.flag then Appending else Sending])
      else s
    case Send(x, ok, reached) =>
      if x in s.calls && s.calls[x] == Sending
      then
        s.(received := if ok || reached then s.received + [x] else s.received,
           calls := if ok then s.calls - {x} else s.calls[x := Marking])
      else s
    case Mark(x) =>
      if x in s.calls && s.calls[x] == Marking then s.(flag := true, calls := s.calls[x := Appending]) else s
    case Append(x) =>
      if x in s.calls && s.calls[x] == Appending
      then s.(spool := s.spool + [x], calls := s.calls - {x})
      else s
    case StartDrain(d) =>
      // only a run that has its result drains
      if d !in s.drains && Outcome in s.spool then s.(drains := s.drains[d := Drain(s.spool, 0)]) else s
    case DrainSend(d, ok, reached) =>
      if d in s.drains && s.drains[d].sent < |s.drains[d].copy|
      then
        var p := s.drains[d];
        s.(received := if ok || reached then s.received + [p.copy[p.sent]] else s.received,
           drains := if ok then s.drains[d := p.(sent := p.sent + 1)] else s.drains - {d})
      else s
    case EndDrain(d) =>
      if d in s.drains && s.drains[d].sent == |s.drains[d].copy|
      then
        // exactly the records sent are removed; the flag goes with the last of them
        var n := |s.drains[d].copy|;
        var rest := if n <= |s.spool| then s.spool[n..] else [];
        s.(spool := rest, flag := s.flag && rest != [], drains := s.drains - {d})
      else s
    case Drop =>
      if Outcome in s.spool then s.(spool := [], abandoned := true)
      else s.(spool := [], lost := s.lost + (Elements(s.spool) - Elements(s.received)))
  }

  function After(s: State, es: seq<Event>): State {
    if es == [] then s else Next(After(s, es[..|es| - 1]), es[|es| - 1])
  }

  // ---- the invariant of all interleavings ----

  predicate Known(s: State, x: Record) {
    match x case Chunk(n) => n < s.produced case Outcome => s.finished
  }

  /** Every chunk has reached the server or was dropped by the spool. */
  predicate AllSettled(s: State) {
    forall n: nat :: n < s.produced ==> Chunk(n) in s.received || Chunk(n) in s.lost
  }

  predicate NoRepeats(rs: seq<Record>) {
    forall i, j :: 0 <= i < j < |rs| ==> rs[i] != rs[j]
  }

  predicate ResultLast(rs: seq<Record>) {
    rs != [] && rs[|rs| - 1] == Outcome && Outcome !in rs[..|rs| - 1]
  }

  predicate GoodDrain(s: State, p: Drain) {
    && p.sent <= |p.copy| && ResultLast(p.copy) && NoRepeats(p.copy)
    && (s.spool == p.copy || s.spool == [])
    && (forall x :: x in p.copy ==> Known(s, x) && x !in s.lost)
    && (forall i :: 0 <= i < p.sent ==> p.copy[i] in s.received)
    && (forall n: nat :: n < s.produced && Chunk(n) !in p.copy ==> Chunk(n) in s.received || Chunk(n) in s.lost)
  }

  predicate Shape(s: State) {
    && (forall x :: x in s.calls ==> Known(s, x) && x !in s.spool && x !in s.lost)
    && (forall x :: x in s.spool ==> Known(s, x) && x !in s.lost)
    && (forall x :: x in s.received ==> Known(s, x) && x !in s.lost)
    && (forall x :: x in s.lost ==> Known(s, x) && x != Outcome)
    && (forall x :: x in s.calls && s.calls[x] == Appending ==> s.flag)
    && (s.spool != [] ==> s.flag)
    && NoRepeats(s.spool)
    && (Outcome in s.spool ==> ResultLast(s.spool))
    && (s.finished ==> s.calls.Keys <= {Outcome})
    && (s.abandoned ==> s.spool == [])
    && (Outcome in s.spool || s.drains != map[] || s.abandoned ==> s.calls == map[] && s.finished)
  }

  predicate Inv(s: State) {
    && Shape(s)
    // nothing produced is forgotten
    && (forall n: nat :: n < s.produced && !s.abandoned ==>
         Chunk(n) in s.calls || Chunk(n) in s.spool || Chunk(n) in s.received || Chunk(n) in s.lost)
    && (s.finished && !s.abandoned ==> Outcome in s.calls || Outcome in s.spool || Outcome in s.received)
    // the result never overtakes a chunk
    && (Outcome in s.received ==> AllSettled(s))
    && (Outcome in s.calls && s.calls[Outcome] in {Sending, Marking} ==> AllSettled(s))
    && (forall d :: d in s.drains ==> GoodDrain(s, s.drains[d]))
  }

  lemma InvProduce(s: State)
    requires Inv(s)
    ensures Inv(Next(s, Produce)) && Inv(Next(s, Finish))
  {
  }

  lemma InvCheck(s: State, x: Record)
    requires Inv(s)
    ensures Inv(Next(s, Check(x)))
  {
    var t := Next(s, Check(x));
    if t != s && x == Outcome && !s.flag {
      assert s.finished && s.spool == [] && !s.abandoned;
      assert forall n: nat :: n < s.produced ==> Chunk(n) !in s.calls;
      assert AllSettled(t);
    }
  }

  lemma InvSend(s: State, x: Record, ok: bool, reached: bool)
    requires Inv(s)
    ensures Inv(Next(s, Send(x, ok, reached)))
  {
    var t := Next(s, Send(x, ok, reached));
    assert forall y :: y in s.received ==> y in t.received;
    assert forall y :: y in t.received ==> y in s.received || y == x;
  }

  lemma InvMark(s: State, x: Record)
    requires Inv(s)
    ensures Inv(Next(s, Mark(x)))
  {
  }

  lemma InvAppend(s: State, x: Record)
    requires Inv(s)
    ensures Inv(Next(s, Append(x)))
  {
    var t := Next(s, Append(x));
    if t != s {
      assert forall y :: y in t.spool <==> y in s.spool || y == x;
      assert t.spool[..|t.spool| - 1] == s.spool;
    }
  }

  lemma InvStartDrain(s: State, d: nat)
    requires Inv(s)
    ensures Inv(Next(s, StartDrain(d)))
  {
  }

  /** A drain stays good while the server receives more and the spool is only emptied. */
  lemma DrainFrame(s: State, t: State, p: Drain)
    requires GoodDrain(s, p)
    requires t.produced == s.produced && t.finished == s.finished && t.lost == s.lost
    requires t.spool == s.spool || t.spool == []
    requires s.received <= t.received
    ensures GoodDrain(t, p)
  {
    assert forall x :: x in s.received ==> x in t.received;
  }

  /** When a drain comes to its last record, it has sent all the others. */
  lemma LastOfDrain(s: State, p: Drain)
    requires GoodDrain(s, p) && p.sent < |p.copy| && p.copy[p.sent] == Outcome
    ensures AllSettled(s)
  {
    var front := p.copy[..|p.copy| - 1];
    assert forall i :: 0 <= i < |front| ==> front[i] in front && front[i] == p.copy[i];
    assert p.sent == |front|;
    forall n: nat | n < s.produced && Chunk(n) in p.copy ensures Chunk(n) in s.received {
      var i :| 0 <= i < |p.copy| && p.copy[i] == Chunk(n);
      assert i < p.sent;
    }
  }

  /** A known record that was not dropped reaches the server, outside any call. */
  lemma ShapeReceives(s: State, x: Record, drains: map<nat, Drain>)
    requires Shape(s) && Known(s, x) && x !in s.lost && s.drains != map[]
    ensures Shape(s.(received := s.received + [x], drains := drains))
    ensures Shape(s.(drains := drains))
  {
    var t := s.(received := s.received + [x], drains := drains);
    assert forall y :: y in t.received ==> y in s.received || y == x;
  }

  lemma DrainsAfterSend(s: State, d: nat, ok: bool, reached: bool)
    requires forall c :: c in s.drains ==> GoodDrain(s, s.drains[c])
    ensures var t := Next(s, DrainSend(d, ok, reached)); forall c :: c in t.drains ==> GoodDrain(t, t.drains[c])
  {
    var t := Next(s, DrainSend(d, ok, reached));
    if t != s {
      forall c | c in t.drains ensures GoodDrain(t, t.drains[c]) {
        DrainFrame(s, t, s.drains[c]);
        if c == d && ok { assert t.received[|s.received|] == s.drains[d].copy[s.drains[d].sent]; }
      }
    }
  }

  lemma InvDrainSend(s: State, d: nat, ok: bool, reached: bool)
    requires Inv(s)
    ensures Inv(Next(s, DrainSend(d, ok, reached)))
  {
    DrainsAfterSend(s, d, ok, reached);
    var t := Next(s, DrainSend(d, ok, reached));
    if t != s {
      var p := s.drains[d];
      var x := p.copy[p.sent];
      if x == Outcome { LastOfDrain(s, p); }
      assert x in p.copy && GoodDrain(s, p);
      ShapeReceives(s, x, t.drains);
      assert t == s.(drains := t.drains) || t == s.(received := s.received + [x], drains := t.drains);
      assert forall y :: y in s.received ==> y in t.received;
      assert Outcome in t.received ==> Outcome in s.received || x == Outcome;
    }
  }

  lemma InvEndDrain(s: State, d: nat)
    requires Inv(s)
    ensures Inv(Next(s, EndDrain(d)))
  {
    var t := Next(s, EndDrain(d));
    if t != s {
      assert GoodDrain(s, s.drains[d]);
      assert t.spool == [];
      forall x | x in s.spool ensures x in s.received {
        var i :| 0 <= i < |s.spool| && s.spool[i] == x;
      }
      forall c | c in t.drains ensures GoodDrain(t, t.drains[c]) {
        DrainFrame(s, t, s.drains[c]);
      }
    }
  }

  lemma InvDrop(s: State)
    requires Inv(s)
    ensures Inv(Next(s, Drop))
  {
  }

  lemma InvNext(s: State, e: Event)
    requires Inv(s)
    ensures Inv(Next(s, e))
  {
    match e {
      case Produce => InvProduce(s);
      case Finish => InvProduce(s);
      case Check(x) => InvCheck(s, x);
      case Send(x, ok, reached) => InvSend(s, x, ok, reached);
      case Mark(x) => InvMark(s, x);
      case Append(x) => InvAppend(s, x);
      case StartDrain(d) => InvStartDrain(s, d);
      case DrainSend(d, ok, reached) => InvDrainSend(s, d, ok, reached);
      case EndDrain(d) => InvEndDrain(s, d);
      case Drop => InvDrop(s);
    }
  }

  lemma {:induction false} Reachable(serial: bool, es: seq<Event>)
    ensures Inv(After(Init(serial), es))
  {
    if es != [] {
      Reachable(serial, es[..|es| - 1]);
      InvNext(After(Init(serial), es[..|es| - 1]), es[|es| - 1]);
    }
  }

  // ---- the theorems ----

  /** The server holds every chunk that the command produced. */
  predicate Complete(s: State) {
    forall n: nat :: n < s.produced ==> Chunk(n) in s.received
  }

  /** Under every interleaving of the pumps, drains, losses and drops: a run whose
      result has reached the server has all its output there exactly when the spool
      dropped nothing undelivered of it before its result was spooled. */
  lemma ResultMeansComplete(serial: bool, es: seq<Event>)
    requires Outcome in After(Init(serial), es).received
    ensures var s := After(Init(serial), es); Complete(s) <==> s.lost == {}
  {
    Reachable(serial, es);
    var s := After(Init(serial), es);
    if s.lost != {} {
      var x :| x in s.lost;
      assert Known(s, x) && x != Outcome && x !in s.received;
    }
  }

  lemma LostStep(s: State, e: Event)
    ensures s.lost <= Next(s, e).lost
  {
  }

  lemma {:induction false} LostGrows(s: State, fs: seq<Event>)
    ensures s.lost <= After(s, fs).lost
  {
    if fs != [] {
      LostGrows(s, fs[..|fs| - 1]);
      LostStep(After(s, fs[..|fs| - 1]), fs[|fs| - 1]);
    }
  }

  lemma {:induction false} AfterConcat(s: State, es: seq<Event>, fs: seq<Event>)
    ensures After(s, es + fs) == After(After(s, es), fs)
  {
    if fs == [] {
      assert es + fs == es;
    } else {
      AfterConcat(s, es, fs[..|fs| - 1]);
      assert (es + fs)[..|es + fs| - 1] == es + fs[..|fs| - 1];
    }
  }

  /** A chunk the spool has dropped undelivered never reaches the server. */
  lemma LostForever(serial: bool, es: seq<Event>, fs: seq<Event>, x: Record)
    requires x in After(Init(serial), es).lost
    ensures x !in After(Init(serial), es + fs).received
  {
    AfterConcat(Init(serial), es, fs);
    LostGrows(After(Init(serial), es), fs);
    Reachable(serial, es + fs);
  }

  /** Once the result call has returned and the spool is empty, everything is at the
      server, unless the spool dropped something. */
  lemma FullDrainDelivers(serial: bool, es: seq<Event>)
    requires var s := After(Init(serial), es);
             s.finished && s.calls == map[] && s.spool == [] && s.lost == {} && !s.abandoned
    ensures var s := After(Init(serial), es); Complete(s) && Outcome in s.received
  {
    Reachable(serial, es);
  }
}
