/** Disconnects are invisible in the end: what an execution finally shows does not
    depend on them, nor on how finalizations are scheduled. */
module Disconnects {
  import opened AfterDispatch
  import opened Aggregate
  import opened Executions

  // ---- histories up to disconnects and finalizations ----

  /** A run that a disconnect may interrupt counts as delivered. */
  function Canon(r: RunState): RunState {
    if r in {Delivered, Running, Interrupted} then Delivered else r
  }

  function CanonRuns(runs: seq<Run>): (out: seq<Run>)
    ensures |out| == |runs| && forall i :: 0 <= i < |runs| ==> out[i] == runs[i].(state := Canon(runs[i].state))
  {
    seq(|runs|, i requires 0 <= i < |runs| => runs[i].(state := Canon(runs[i].state)))
  }

  /** Disconnects, and the finalizations, which only touch the execution row. */
  predicate Erased(e: Event) {
    e.Disconnect? || e.FinalizeRead? || e.FinalizeWrite?
  }

  /** The run writes of a history, in order, with disconnects erased. */
  function Writes(es: seq<Event>): seq<Event> {
    if es == [] then []
    else if Erased(es[|es| - 1]) then Writes(es[..|es| - 1])
    else Writes(es[..|es| - 1]) + [es[|es| - 1]]
  }

  predicate Undisturbed(es: seq<Event>) {
    forall e <- es :: !e.Sweep? && !e.Cancel?
  }

  lemma ErasedKeepsShape(s: Exec, e: Event)
    requires Erased(e)
    ensures CanonRuns(Next(s, e).runs) == CanonRuns(s.runs)
    ensures Next(s, e).phase == s.phase && Next(s, e).cmds == s.cmds
  {
  }

  predicate SameShape(s: Exec, t: Exec) {
    CanonRuns(s.runs) == CanonRuns(t.runs) && s.phase == t.phase && s.cmds == t.cmds
  }

  lemma ShapeAt(s: Exec, t: Exec, i: nat)
    requires SameShape(s, t) && i < |s.runs|
    ensures |t.runs| == |s.runs| && s.runs[i].agent == t.runs[i].agent
    ensures Canon(s.runs[i].state) == Canon(t.runs[i].state)
  {
    assert CanonRuns(s.runs)[i] == CanonRuns(t.runs)[i];
  }

  lemma SetRunShape(a: seq<Run>, b: seq<Run>, r: nat, to: RunState)
    requires CanonRuns(a) == CanonRuns(b)
    ensures CanonRuns(SetRun(a, r, to)) == CanonRuns(SetRun(b, r, to))
  {
    assert |a| == |CanonRuns(a)| == |b|;
    if r < |a| { assert CanonRuns(a)[r] == CanonRuns(b)[r]; }
    forall i | 0 <= i < |a| ensures CanonRuns(SetRun(a, r, to))[i] == CanonRuns(SetRun(b, r, to))[i] {
      assert CanonRuns(a)[i] == CanonRuns(b)[i];
    }
  }

  lemma OfflineShape(a: seq<Run>, b: seq<Run>, r: nat)
    requires CanonRuns(a) == CanonRuns(b)
    ensures CanonRuns(MarkQueuedOffline(a, r)) == CanonRuns(MarkQueuedOffline(b, r))
    ensures CanonRuns(PromoteRun(a, r)) == CanonRuns(a)
  {
    assert |a| == |CanonRuns(a)| == |b|;
    if r < |a| { assert CanonRuns(a)[r] == CanonRuns(b)[r]; }
    forall i | 0 <= i < |a| ensures CanonRuns(MarkQueuedOffline(a, r))[i] == CanonRuns(MarkQueuedOffline(b, r))[i] {
      assert CanonRuns(a)[i] == CanonRuns(b)[i];
    }
  }

  lemma CreateShape(a: seq<Run>, b: seq<Run>, x: Run)
    requires CanonRuns(a) == CanonRuns(b)
    ensures CanonRuns(a + [x]) == CanonRuns(b + [x])
  {
    assert CanonRuns(a + [x]) == CanonRuns(a) + CanonRuns([x]);
    assert CanonRuns(b + [x]) == CanonRuns(b) + CanonRuns([x]);
  }

  lemma WriteKeepsShape(s: Exec, t: Exec, e: Event)
    requires SameShape(s, t) && !Erased(e) && !e.Sweep? && !e.Cancel?
    ensures SameShape(Next(s, e), Next(t, e))
  {
    assert |s.runs| == |CanonRuns(s.runs)| == |t.runs|;
    var a, b := s.runs, t.runs;
    match e {
      case CreateRun(agent) => CreateShape(a, b, Run(agent, Queued));
      case AskApproval =>
      case HandOver =>
      case Grant(_) =>
      case ApprovedHandOver(_) =>
      case DispatchDeny => if a != [] { SetRunShape(a, b, |a| - 1, Denied); }
      case DispatchPark => if a != [] { SetRunShape(a, b, |a| - 1, AwaitingApproval); }
      case DispatchSent => if a != [] { SetRunShape(a, b, |a| - 1, Delivered); }
      case DispatchOffline => if a != [] { OfflineShape(a, b, |a| - 1); }
      case DispatchUndeliverable => if a != [] { SetRunShape(a, b, |a| - 1, NotDelivered); }
      case EndDispatch =>
      case Output(r) => OfflineShape(a, b, r); OfflineShape(b, a, r);
      case Result(r, to) => SetRunShape(a, b, r, to);
      case DrainDelivered(r) => SetRunShape(a, b, r, Delivered);
      case QueueExpired(r) => SetRunShape(a, b, r, Expired);
      case ApprovalRejected(r) => SetRunShape(a, b, r, Failed);
      case ApprovedSent(r) => SetRunShape(a, b, r, Delivered);
      case ApprovedOffline(r) => SetRunShape(a, b, r, QueuedOffline);
      case ApprovedUndeliverable(r) => SetRunShape(a, b, r, NotDelivered);
    }
  }

  lemma {:induction false} ErasureKeepsShape(s: Exec, es: seq<Event>)
    requires Undisturbed(es)
    ensures SameShape(After(s, es), After(s, Writes(es)))
  {
    if es != [] {
      var es', e := es[..|es| - 1], es[|es| - 1];
      ErasureKeepsShape(s, es');
      assert e in es;
      if Erased(e) {
        assert Writes(es) == Writes(es');
        ErasedKeepsShape(After(s, es'), e);
      } else {
        WriteKeepsShape(After(s, es'), After(s, Writes(es')), e);
        Extend(s, Writes(es'), e);
      }
    }
  }

  /** Outcomes do not depend on disconnects: one recorded in a history is recorded in
      every history with the same run writes. */
  lemma ErasedOutcomesAgree(es: seq<Event>, fs: seq<Event>, r: nat)
    requires Undisturbed(es) && Undisturbed(fs) && Writes(es) == Writes(fs)
    requires r < |After(Init, es).runs| && Final(After(Init, es).runs[r].state)
    ensures r < |After(Init, fs).runs| && After(Init, fs).runs[r] == After(Init, es).runs[r]
  {
    ErasureKeepsShape(Init, es);
    ErasureKeepsShape(Init, fs);
    ShapeAt(After(Init, es), After(Init, fs), r);
  }

  lemma RunsAgree(es: seq<Event>, fs: seq<Event>)
    requires Undisturbed(es) && Undisturbed(fs) && Writes(es) == Writes(fs)
    requires AllRecorded(After(Init, es))
    ensures After(Init, es).runs == After(Init, fs).runs && After(Init, es).phase == After(Init, fs).phase
  {
    var s, t := After(Init, es), After(Init, fs);
    ErasureKeepsShape(Init, es);
    ErasureKeepsShape(Init, fs);
    assert |s.runs| == |CanonRuns(s.runs)| == |t.runs|;
    forall i | 0 <= i < |s.runs| ensures s.runs[i] == t.runs[i] {
      ErasedOutcomesAgree(es, fs, i);
    }
  }

  // ---- the theorems ----

  /** Take a settled history without sweep or cancel, and any history with the same run
      writes whose finalizations are done, whatever the disconnects of either and the
      schedules of their finalizations.  Both end with the same outcomes.  They end with
      the same stored state exactly when the second one's row is fresh, and always when
      its finalizations read after dispatch and no approved command was undeliverable. */
  lemma DisconnectsAreInvisible(es: seq<Event>, fs: seq<Event>)
    requires Undisturbed(es) && Undisturbed(fs) && Writes(es) == Writes(fs)
    requires Settled(After(Init, es)) && Quiescent(After(Init, fs))
    ensures After(Init, fs).runs == After(Init, es).runs
    ensures After(Init, fs).state == After(Init, es).state <==> Fresh(After(Init, fs))
    ensures AllOrderly(fs) ==> After(Init, fs).state == After(Init, es).state
  {
    var s, t := After(Init, es), After(Init, fs);
    RunsAgree(es, fs);
    RecordedDecides(s);
    RecordedDecides(t);
    AgreesExactly(fs);
    if AllOrderly(fs) { OrderlySettles(fs); }
  }

  predicate NoDisconnects(es: seq<Event>) {
    forall e <- es :: !e.Disconnect?
  }

  /** The run writes of a history, its disconnects erased, and then n finalizations. */
  function Erase(es: seq<Event>, n: nat): seq<Event> {
    if n == 0 then Writes(es) else Erase(es, n - 1) + [FinalizeRead] + [FinalizeWrite]
  }

  lemma WritesSnoc(es: seq<Event>, e: Event)
    ensures Writes(es + [e]) == if Erased(e) then Writes(es) else Writes(es) + [e]
  {
    assert (es + [e])[..|es|] == es;
  }

  lemma {:induction false} WritesAreWrites(es: seq<Event>, e: Event)
    ensures e in Writes(es) ==> e in es && !Erased(e)
  {
    if es != [] {
      WritesAreWrites(es[..|es| - 1], e);
    }
  }

  lemma {:induction false} NothingToErase(es: seq<Event>)
    requires forall e :: e in es ==> !Erased(e)
    ensures Writes(es) == es
  {
    if es != [] {
      var front, last := es[..|es| - 1], es[|es| - 1];
      assert es == front + [last] && last in es;
      NothingToErase(front);
    }
  }

  lemma WritesOfWrites(es: seq<Event>)
    ensures Writes(Writes(es)) == Writes(es)
    ensures forall e <- Writes(es) :: e in es && !Erased(e)
  {
    forall e | e in Writes(es) ensures e in es && !Erased(e) {
      WritesAreWrites(es, e);
    }
    NothingToErase(Writes(es));
  }

  lemma {:induction false} EraseKeepsWrites(es: seq<Event>, n: nat)
    requires Undisturbed(es)
    ensures Writes(Erase(es, n)) == Writes(es) && NoDisconnects(Erase(es, n)) && Undisturbed(Erase(es, n))
  {
    WritesOfWrites(es);
    if n > 0 {
      EraseKeepsWrites(es, n - 1);
      WritesSnoc(Erase(es, n - 1), FinalizeRead);
      WritesSnoc(Erase(es, n - 1) + [FinalizeRead], FinalizeWrite);
    }
  }

  /** Without finalizations nothing is read or written, and what is due only grows. */
  lemma {:induction false} OnlyWrites(es: seq<Event>)
    requires forall e <- es :: !Erased(e) && !e.Cancel?
    ensures var s := After(Init, es); s.holder.Free? && s.state == Dispatching
    ensures es != [] ==> After(Init, es[..|es| - 1]).pending <= After(Init, es).pending
  {
    if es != [] {
      OnlyWrites(es[..|es| - 1]);
      assert es[|es| - 1] in es;
    }
  }

  /** One finalization, from its read to its write. */
  lemma FinalizeOnce(s: Exec)
    requires s.pending > 0 && s.holder.Free? && AllRecorded(s)
    ensures var t := Next(Next(s, FinalizeRead), FinalizeWrite);
            && t.runs == s.runs && t.phase == s.phase && t.pending == s.pending - 1 && t.holder.Free?
            && Decide(States(s.runs)) == Write(t.state)
  {
    RecordedDecides(s);
  }

  /** s is w after k finalizations. */
  ghost predicate FinalizedTimes(w: Exec, s: Exec, k: nat) {
    && s.runs == w.runs && s.phase == w.phase && s.pending == w.pending - k && s.holder.Free?
    && (if k == 0 then s.state == Dispatching else Decide(States(w.runs)) == Write(s.state))
  }

  lemma FinalizeAgain(w: Exec, s: Exec, k: nat)
    requires FinalizedTimes(w, s, k) && k < w.pending && AllRecorded(w)
    ensures FinalizedTimes(w, Next(Next(s, FinalizeRead), FinalizeWrite), k + 1)
  {
    assert AllRecorded(s);
    FinalizeOnce(s);
  }

  /** The state after n finalizations in a row. */
  ghost function Finalized(w: Exec, n: nat): Exec {
    if n == 0 then w else Next(Next(Finalized(w, n - 1), FinalizeRead), FinalizeWrite)
  }

  lemma EraseStep(es: seq<Event>, n: nat)
    ensures After(Init, Erase(es, n + 1)) == Next(Next(After(Init, Erase(es, n)), FinalizeRead), FinalizeWrite)
  {
    var before := Erase(es, n);
    Extend(Init, before, FinalizeRead);
    Extend(Init, before + [FinalizeRead], FinalizeWrite);
  }

  lemma {:induction false} EraseIs(es: seq<Event>, n: nat)
    ensures After(Init, Erase(es, n)) == Finalized(After(Init, Writes(es)), n)
  {
    if n > 0 {
      EraseIs(es, n - 1);
      EraseStep(es, n - 1);
    }
  }

  lemma WritesAlone(es: seq<Event>)
    requires Undisturbed(es)
    ensures FinalizedTimes(After(Init, Writes(es)), After(Init, Writes(es)), 0)
  {
    WritesOfWrites(es);
    OnlyWrites(Writes(es));
  }

  lemma {:induction false} FinalizedState(w: Exec, k: nat)
    requires FinalizedTimes(w, w, 0) && k <= w.pending && AllRecorded(w)
    ensures FinalizedTimes(w, Finalized(w, k), k)
  {
    if k > 0 {
      FinalizedState(w, k - 1);
      FinalizeAgain(w, Finalized(w, k - 1), k - 1);
    }
  }

  /** The run's command is handed over, and the run has no outcome. */
  predicate IsOut(s: Exec, r: nat) {
    r < |s.runs| && r in s.cmds.handed && !Final(s.runs[r].state)
  }

  ghost predicate SomeOut(s: Exec) { exists r :: IsOut(s, r) }

  /** Only a run whose command is handed over is in flight. */
  predicate FlightHanded(w: Exec) {
    forall r :: 0 <= r < |w.runs| && w.runs[r].state in {Delivered, Running, Interrupted} ==> r in w.cmds.handed
  }

  /** Nothing is due, read or written yet. */
  predicate Untouched(s: Exec) { s.pending == 0 && s.state == Dispatching && s.holder.Free? }

  /** As long as the writes call for no finalization: none has taken place, or some run is out. */
  ghost predicate OutInv(s: Exec, w: Exec) {
    SameShape(s, w) && (w.pending == 0 ==> FlightHanded(w) && (Untouched(s) || SomeOut(s)))
  }

  /** A run that is out gets its outcome only by a write that calls for a finalization. */
  lemma StaysOut(s: Exec, e: Event, r: nat)
    requires IsOut(s, r) && !e.Sweep? && !e.Cancel?
    requires Next(s, e).pending == s.pending || e.Disconnect? || e.FinalizeRead?
    ensures IsOut(Next(s, e), r)
  {
  }

  lemma OutDisconnect(s: Exec, w: Exec, agent: Agent)
    requires OutInv(s, w)
    ensures OutInv(Next(s, Disconnect(agent)), w)
  {
    var t := Next(s, Disconnect(agent));
    ErasedKeepsShape(s, Disconnect(agent));
    if w.pending == 0 && t != s {
      var i :| 0 <= i < |s.runs| && InterruptRun(s.runs[i], agent) != s.runs[i];
      ShapeAt(s, w, i);
      assert IsOut(t, i);
    }
  }

  /** The same write adds as much to what is due in histories of one shape. */
  lemma SameDue(s: Exec, w: Exec, e: Event)
    requires SameShape(s, w) && !Erased(e) && !e.Sweep? && !e.Cancel?
    ensures Next(s, e).pending - s.pending == Next(w, e).pending - w.pending >= 0
    ensures Next(s, e).state == s.state && Next(s, e).holder == s.holder
  {
    assert |s.runs| == |CanonRuns(s.runs)| == |w.runs|;
  }

  lemma FlightStep(w: Exec, e: Event)
    requires FlightHanded(w) && !Erased(e) && !e.Sweep? && !e.Cancel? && Next(w, e).pending == w.pending
    ensures FlightHanded(Next(w, e))
  {
  }

  lemma OutWrite(s: Exec, w: Exec, e: Event)
    requires OutInv(s, w) && !Erased(e) && !e.Sweep? && !e.Cancel?
    ensures OutInv(Next(s, e), Next(w, e))
  {
    WriteKeepsShape(s, w, e);
    SameDue(s, w, e);
    if Next(w, e).pending == 0 {
      FlightStep(w, e);
      if !Untouched(s) {
        var r :| IsOut(s, r);
        StaysOut(s, e, r);
      }
    }
  }

  lemma OutFinalize(s: Exec, w: Exec, e: Event)
    requires OutInv(s, w) && (e.FinalizeRead? || e.FinalizeWrite?)
    ensures OutInv(Next(s, e), w)
  {
    ErasedKeepsShape(s, e);
    if w.pending == 0 && !Untouched(s) {
      var r :| IsOut(s, r);
      StaysOut(s, e, r);
    }
  }

  lemma {:induction false} OutReachable(es: seq<Event>)
    requires Undisturbed(es)
    ensures OutInv(After(Init, es), After(Init, Writes(es)))
  {
    if es != [] {
      var es', e := es[..|es| - 1], es[|es| - 1];
      assert e in es;
      OutReachable(es');
      var s, w := After(Init, es'), After(Init, Writes(es'));
      if e.Disconnect? {
        OutDisconnect(s, w, e.agent);
      } else if Erased(e) {
        OutFinalize(s, w, e);
      } else {
        OutWrite(s, w, e);
        Extend(Init, Writes(es'), e);
      }
    }
  }

  /** The writes of a settled history call for a finalization, also without its disconnects. */
  lemma WritesCallForOne(es: seq<Event>)
    requires Undisturbed(es) && Settled(After(Init, es))
    ensures After(Init, Writes(es)).pending > 0
  {
    OutReachable(es);
    RecordedDecides(After(Init, es));
  }

  /** Take any settled history without sweep or cancel, erase its disconnects, and carry
      out the finalizations that the remaining writes call for: the result is a history
      with the same writes that ends quiescent, with the same outcomes and the same
      stored execution state. */
  lemma ErasedHistory(es: seq<Event>)
    requires Undisturbed(es) && Settled(After(Init, es))
    ensures var fs := Erase(es, After(Init, Writes(es)).pending);
            && NoDisconnects(fs) && Undisturbed(fs) && Writes(fs) == Writes(es) && Quiescent(After(Init, fs))
            && After(Init, fs).runs == After(Init, es).runs && After(Init, fs).state == After(Init, es).state
  {
    var n := After(Init, Writes(es)).pending;
    WritesOfWrites(es);
    RunsAgree(es, Writes(es));
    EraseKeepsWrites(es, n);
    WritesAlone(es);
    EraseIs(es, n);
    FinalizedState(After(Init, Writes(es)), n);
    RecordedDecides(After(Init, es));
    WritesCallForOne(es);
  }
}
