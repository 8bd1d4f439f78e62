/** Finalizations that read after dispatch: from then on the stored execution state is
    the aggregate of the runs, in flight or not, or a finalization is due. */
module AfterDispatch {
  import opened Aggregate
  import opened Executions

  ghost predicate AllRecorded(s: Exec) {
    forall i :: 0 <= i < |s.runs| ==> Final(s.runs[i].state) && s.runs[i].state != Cancelled
  }

  /** Every run has its outcome, no finalization is due, and the row shows the outcomes. */
  ghost predicate Settled(s: Exec) {
    Quiescent(s) && AllRecorded(s) && Agrees(s)
  }

  lemma RecordedDecides(s: Exec)
    requires AllRecorded(s)
    ensures !HasCancelled(s) && Decide(States(s.runs)) != Write(InFlight)
    ensures Quiescent(s) ==> (Agrees(s) <==> Decide(States(s.runs)) == Write(s.state))
  {
    CancelledInStates(s.runs);
    StatesOf(s.runs);
  }

  // ---- what dispatch keeps ----

  predicate UnfinishedAt(runs: seq<Run>, i: int) { 0 <= i < |runs| && Unfinished(runs[i].state) }

  ghost predicate SomeUnfinished(runs: seq<Run>, n: int) {
    exists i :: 0 <= i < n && UnfinishedAt(runs, i)
  }

  /** The runs whose policy outcome Dispatch has written. */
  function Decided(s: Exec): int
    requires s.phase.Open?
  {
    |s.runs| - if s.phase.deciding then 1 else 0
  }

  /** While Dispatch runs: a finalization is due, or its flag is true to the runs. */
  ghost predicate FlagTrue(s: Exec)
    requires s.phase.Open?
  {
    s.pending > 0 ||
    ((s.phase.deciding ==> UnfinishedAt(s.runs, |s.runs| - 1)) &&
     (s.phase.allTerminal || SomeUnfinished(s.runs, Decided(s))))
  }

  lemma SomeUnfinishedKept(runs: seq<Run>, runs': seq<Run>, n: int, n': int)
    requires SomeUnfinished(runs, n) && n <= n'
    requires forall i :: 0 <= i < n && UnfinishedAt(runs, i) ==> UnfinishedAt(runs', i)
    ensures SomeUnfinished(runs', n')
  {
    var i :| 0 <= i < n && UnfinishedAt(runs, i);
    assert UnfinishedAt(runs', i);
  }

  predicate IsDispatch(e: Event) {
    e in {DispatchDeny, DispatchPark, DispatchSent, DispatchOffline, DispatchUndeliverable}
  }

  /** The writes of Dispatch touch only the run it is deciding. */
  lemma DispatchFrame(s: Exec, e: Event, i: nat)
    requires IsDispatch(e) && i < |s.runs| - 1
    ensures i < |Next(s, e).runs| && Next(s, e).runs[i] == s.runs[i]
  {
  }

  lemma FlagDispatch(s: Exec, e: Event)
    requires s.phase.Open? && FlagTrue(s) && CanDecide(s) && IsDispatch(e)
    ensures Next(s, e).phase.Open? && FlagTrue(Next(s, e))
  {
    var t := Next(s, e);
    var last := |s.runs| - 1;
    if s.pending == 0 {
      if e in {DispatchDeny, DispatchUndeliverable} {
        if !s.phase.allTerminal {
          forall i | 0 <= i < last && UnfinishedAt(s.runs, i) ensures UnfinishedAt(t.runs, i) {
            DispatchFrame(s, e, i);
          }
          SomeUnfinishedKept(s.runs, t.runs, last, |t.runs|);
        }
      } else {
        assert UnfinishedAt(t.runs, last);
      }
    }
  }

  lemma FlagCreate(s: Exec, agent: Agent)
    requires s.phase.Open? && FlagTrue(s)
    ensures Next(s, CreateRun(agent)).phase.Open? && FlagTrue(Next(s, CreateRun(agent)))
  {
    var t := Next(s, CreateRun(agent));
    if t != s && s.pending == 0 {
      assert UnfinishedAt(t.runs, |t.runs| - 1);
      if !s.phase.allTerminal {
        SomeUnfinishedKept(s.runs, t.runs, Decided(s), Decided(t));
      }
    }
  }

  predicate IsLateMark(e: Event) {
    e.Output? || e.DrainDelivered? || e.ApprovedSent? || e.ApprovedOffline?
  }

  /** Late marks leave an unfinished run unfinished and a run without an outcome without one. */
  lemma LateMark(s: Exec, e: Event, i: nat)
    requires IsLateMark(e) && i < |s.runs|
    ensures var t := Next(s, e);
            && |t.runs| == |s.runs|
            && (Unfinished(s.runs[i].state) ==> Unfinished(t.runs[i].state))
            && (Final(s.runs[i].state) <==> Final(t.runs[i].state))
            && (Final(s.runs[i].state) ==> t.runs[i] == s.runs[i])
  {
    match e {
      case Output(r) => assert Next(s, e).runs == PromoteRun(s.runs, r);
      case DrainDelivered(r) => assert Next(s, e).runs in {s.runs, SetRun(s.runs, r, Delivered)};
      case ApprovedSent(r) => assert Next(s, e).runs in {s.runs, SetRun(s.runs, r, Delivered)};
      case ApprovedOffline(r) => assert Next(s, e).runs in {s.runs, SetRun(s.runs, r, QueuedOffline)};
    }
  }

  lemma LateMarkFrame(s: Exec, e: Event)
    requires IsLateMark(e)
    ensures var t := Next(s, e); t == s.(runs := t.runs, cmds := t.cmds) && |t.runs| == |s.runs|
  {
  }

  lemma FlagLateMark(s: Exec, e: Event)
    requires s.phase.Open? && FlagTrue(s) && IsLateMark(e)
    ensures Next(s, e).phase == s.phase && FlagTrue(Next(s, e))
  {
    var t := Next(s, e);
    LateMarkFrame(s, e);
    forall i | 0 <= i < |s.runs| ensures UnfinishedAt(s.runs, i) ==> UnfinishedAt(t.runs, i) {
      LateMark(s, e, i);
    }
    if s.pending == 0 && !s.phase.allTerminal {
      SomeUnfinishedKept(s.runs, t.runs, Decided(s), Decided(t));
    }
  }

  /** What keeps the stored state right once dispatch is over: finalizations read after
      dispatch; while dispatch runs, cancels find something to cancel and an approved
      command proves undeliverable only with a finalization due; and afterwards, with
      none due, no step that leaves the row behind. */
  predicate Prompt(s: Exec, e: Event) {
    && (e.FinalizeRead? ==> s.phase.Closed?)
    && (s.phase.Open? && e.Cancel? ==> !Fruitless(s))
    && (s.phase.Open? && e.ApprovedUndeliverable? ==> s.pending > 0)
    && (s.phase.Closed? && s.pending == 0 ==> !LeavesBehind(s, e))
  }

  ghost predicate AllPrompt(es: seq<Event>) {
    forall k :: 0 <= k < |es| ==> Prompt(After(Init, es[..k]), es[k])
  }

  ghost predicate PromptInv(s: Exec) {
    HasCancelled(s) ||
    if s.phase.Open? then FlagTrue(s) && s.holder.Free? && s.state == Dispatching
    else s.pending > 0 || Agrees(s)
  }

  lemma UnfinishedAgrees(s: Exec, i: nat)
    requires !HasCancelled(s) && UnfinishedAt(s.runs, i) && View(Effective(s)) == InFlight
    ensures Agrees(s)
  {
    StatesOf(s.runs);
    assert Unfinished(States(s.runs)[i]);
  }

  lemma PromptOpen(s: Exec, e: Event)
    requires s.phase.Open? && PromptInv(s) && Prompt(s, e) && !HasCancelled(s)
    ensures PromptInv(Next(s, e))
  {
    var t := Next(s, e);
    if e.CreateRun? {
      FlagCreate(s, e.agent);
    } else if e.EndDispatch? {
      if !s.phase.deciding && !s.phase.allTerminal && s.pending == 0 {
        var i :| 0 <= i < Decided(s) && UnfinishedAt(s.runs, i);
        UnfinishedAgrees(t, i);
      }
    } else if IsLateMark(e) {
      LateMarkFrame(s, e);
      FlagLateMark(s, e);
    } else if IsDispatch(e) {
      if CanDecide(s) { FlagDispatch(s, e); }
    } else if e.Cancel? {
      CancelCancels(s.runs);
    }
  }

  lemma PromptClosed(s: Exec, e: Event)
    requires s.phase.Closed? && PromptInv(s) && Inv(s) && Prompt(s, e) && !HasCancelled(s)
    ensures PromptInv(Next(s, e)) && Next(s, e).phase.Closed?
  {
    if s.pending == 0 {
      if Next(s, e).pending == 0 { WhenBehind(s, e); }
    } else if e.FinalizeRead? && s.holder.Free? {
      assert Next(s, e).runs == s.runs;
    }
  }

  lemma {:induction false} PromptReachable(es: seq<Event>)
    requires AllPrompt(es)
    ensures PromptInv(After(Init, es))
  {
    if es != [] {
      var es', e := es[..|es| - 1], es[|es| - 1];
      forall k | 0 <= k < |es'| ensures Prompt(After(Init, es'[..k]), es'[k]) {
        assert es'[..k] == es[..k] && es'[k] == es[k];
      }
      PromptReachable(es');
      Reachable(es');
      var s := After(Init, es');
      if HasCancelled(s) {
        CancelledStays(s, e);
      } else if s.phase.Open? {
        PromptOpen(s, e);
      } else {
        PromptClosed(s, e);
      }
    }
  }

  /** In every such history, from the end of dispatch on: a run is cancelled, or a
      finalization that has not read is due, or the row is the aggregate of the runs. */
  lemma AgreesAfterDispatch(es: seq<Event>)
    requires AllPrompt(es) && After(Init, es).phase.Closed?
    ensures var s := After(Init, es); HasCancelled(s) || s.pending > 0 || Agrees(s)
  {
    PromptReachable(es);
  }

  /** Hence at quiescence the stored state is the aggregate, runs in flight included: it
      shows a failure only when every run has its outcome, succeeded only when all have
      succeeded, and interrupted only while a run is interrupted and none is open. */
  lemma QuiescentAgrees(es: seq<Event>)
    requires AllPrompt(es) && Quiescent(After(Init, es)) && !HasCancelled(After(Init, es))
    ensures var s := After(Init, es);
            && Decide(States(s.runs)) == Write(View(s.state))
            && (s.state in {AllFailed, Partial} ==> forall i :: 0 <= i < |s.runs| ==> Final(s.runs[i].state))
            && (s.state == AllSucceeded ==> forall i :: 0 <= i < |s.runs| ==> s.runs[i].state == Succeeded)
            && (s.state == Stalled ==> SomeInterrupted(s.runs) && !SomeOpen(s.runs))
  {
    AgreesAfterDispatch(es);
    AgreedFailure(After(Init, es));
  }

  // ---- histories that have recorded all outcomes ----

  /** No cancel, no undeliverable approved command, and no finalization that reads
      while dispatch still records runs. */
  predicate Orderly(s: Exec, e: Event) {
    !e.Cancel? && !e.ApprovedUndeliverable? && (e.FinalizeRead? ==> s.phase.Closed?)
  }

  ghost predicate AllOrderly(es: seq<Event>) {
    forall k :: 0 <= k < |es| ==> Orderly(After(Init, es[..k]), es[k])
  }

  ghost predicate SomeWithoutOutcome(runs: seq<Run>) { exists i :: 0 <= i < |runs| && !Final(runs[i].state) }

  ghost predicate OrderlyInv(s: Exec) {
    HasCancelled(s) ||
    if s.phase.Open? then FlagTrue(s) && s.holder.Free? && s.state == Dispatching
    else s.pending > 0 || SomeWithoutOutcome(s.runs) || Agrees(s)
  }

  lemma OrderlyOpen(s: Exec, e: Event)
    requires s.phase.Open? && OrderlyInv(s) && Orderly(s, e) && !HasCancelled(s)
    ensures OrderlyInv(Next(s, e))
  {
    var t := Next(s, e);
    if e.CreateRun? {
      FlagCreate(s, e.agent);
    } else if e.EndDispatch? {
      if !s.phase.deciding && !s.phase.allTerminal && s.pending == 0 {
        var i :| 0 <= i < Decided(s) && UnfinishedAt(s.runs, i);
        assert !Final(t.runs[i].state);
      }
    } else if IsLateMark(e) {
      LateMarkFrame(s, e);
      FlagLateMark(s, e);
    } else if IsDispatch(e) {
      if CanDecide(s) { FlagDispatch(s, e); }
    }
  }

  lemma OrderlyClosedMark(s: Exec, e: Event)
    requires s.phase.Closed? && s.pending == 0 && IsLateMark(e)
    requires SomeWithoutOutcome(s.runs) || Agrees(s)
    ensures SomeWithoutOutcome(Next(s, e).runs) || Agrees(Next(s, e))
  {
    var t := Next(s, e);
    LateMarkFrame(s, e);
    forall i | 0 <= i < |s.runs|
      ensures |t.runs| == |s.runs| && (Final(s.runs[i].state) <==> Final(t.runs[i].state))
      ensures Final(s.runs[i].state) ==> t.runs[i] == s.runs[i]
    {
      LateMark(s, e, i);
    }
    if i :| 0 <= i < |s.runs| && !Final(s.runs[i].state) {
      assert !Final(t.runs[i].state);
    } else {
      assert t.runs == s.runs;
    }
  }

  lemma OrderlyStep(s: Exec, e: Event)
    requires OrderlyInv(s) && Orderly(s, e)
    ensures OrderlyInv(Next(s, e))
  {
    if HasCancelled(s) {
      CancelledStays(s, e);
    } else if s.phase.Open? {
      OrderlyOpen(s, e);
    } else if IsLateMark(e) && s.pending == 0 {
      OrderlyClosedMark(s, e);
    }
  }

  lemma {:induction false} OrderlyReachable(es: seq<Event>)
    requires AllOrderly(es)
    ensures OrderlyInv(After(Init, es))
  {
    if es != [] {
      var es' := es[..|es| - 1];
      forall k | 0 <= k < |es'| ensures Orderly(After(Init, es'[..k]), es'[k]) {
        assert es'[..k] == es[..k] && es'[k] == es[k];
      }
      OrderlyReachable(es');
      OrderlyStep(After(Init, es'), es[|es| - 1]);
    }
  }

  /** An orderly history that has recorded all outcomes shows them, whatever its
      disconnects, replays and sweeps. */
  lemma OrderlySettles(es: seq<Event>)
    requires AllOrderly(es) && Quiescent(After(Init, es)) && AllRecorded(After(Init, es))
    ensures Settled(After(Init, es))
  {
    OrderlyReachable(es);
    RecordedDecides(After(Init, es));
  }
}
