/** Whole-run theorems about executions: when cancellation is absorbing, and
    concrete runs that show where the stored state stays behind. */
module ExecutionTheorems {
  import opened Aggregate
  import opened Executions

  // ---- cancelled is absorbing ----

  /** No continuation changes the stored state. */
  ghost predicate Absorbing(s: Exec) {
    forall es :: After(s, es).state == s.state
  }

  /** A finalization that has read the runs and is about to overwrite the row. */
  predicate AboutToWrite(s: Exec) {
    s.holder.Holding? && s.holder.decision.Write?
  }

  ghost predicate HolderSane(s: Exec) {
    AboutToWrite(s) ==> s.holder.decision.state != WasCancelled
  }

  lemma HolderStep(s: Exec, e: Event)
    requires HolderSane(s)
    ensures HolderSane(Next(s, e))
  {
    if e.FinalizeRead? {
      assert Decide(States(s.runs)) != Write(WasCancelled);
    } else {
      assert Next(s, e).holder == s.holder || Next(s, e).holder.Free?;
    }
  }

  lemma {:induction false} HolderNeverCancels(es: seq<Event>)
    ensures HolderSane(After(Init, es))
  {
    if es != [] {
      HolderNeverCancels(es[..|es| - 1]);
      HolderStep(After(Init, es[..|es| - 1]), es[|es| - 1]);
    }
  }

  ghost predicate CancelHolds(s: Exec) {
    s.state == WasCancelled && HasCancelled(s) && !AboutToWrite(s)
  }

  lemma CancelHoldsStep(s: Exec, e: Event)
    requires CancelHolds(s)
    ensures CancelHolds(Next(s, e))
  {
    CancelledStays(s, e);
    if e.FinalizeRead? {
      assert Decide(States(s.runs)) == Keep;
    } else {
      assert Next(s, e).holder == s.holder || Next(s, e).holder.Free?;
    }
  }

  lemma {:induction false} CancelHoldsForever(s: Exec, es: seq<Event>)
    requires CancelHolds(s)
    ensures CancelHolds(After(s, es))
  {
    if es != [] {
      CancelHoldsForever(s, es[..|es| - 1]);
      CancelHoldsStep(After(s, es[..|es| - 1]), es[|es| - 1]);
    }
  }

  /** A result on a free row, and its finalization, write an aggregate. */
  lemma ResultOverwrites(s: Exec)
    requires s.holder.Free? && !HasCancelled(s) && s.runs != []
    ensures var s1 := Next(s, Result(0, Succeeded));
            Next(Next(s1, FinalizeRead), FinalizeWrite).state != WasCancelled
  {
    var s1 := Next(s, Result(0, Succeeded));
    SetRunCancelled(s.runs, 0, Succeeded);
    assert s1.holder.Free? && s1.pending > 0 && s1.runs != [] && Cancelled !in States(s1.runs);
    assert Next(s1, FinalizeRead).holder == Holding(Write(AggregateOf(States(s1.runs))));
  }

  /** Without a cancelled run, one more result and its finalization overwrite the row. */
  lemma OverwrittenByNextResult(s: Exec) returns (es: seq<Event>)
    requires !HasCancelled(s) && !AboutToWrite(s) && s.runs != []
    ensures After(s, es).state != WasCancelled
  {
    ResultOverwrites(Next(s, FinalizeWrite));
    Extend(s, [], FinalizeWrite);
    es := [] + [FinalizeWrite];
    Extend(s, es, Result(0, Succeeded));
    es := es + [Result(0, Succeeded)];
    Extend(s, es, FinalizeRead);
    es := es + [FinalizeRead];
    Extend(s, es, FinalizeWrite);
    es := es + [FinalizeWrite];
  }

  /** Cancellation sticks exactly when a run is cancelled and no finalization that
      read the runs earlier is about to write. */
  lemma CancelledIsAbsorbing(es0: seq<Event>)
    requires var s := After(Init, es0); s.state == WasCancelled && s.runs != []
    ensures var s := After(Init, es0); Absorbing(s) <==> HasCancelled(s) && !AboutToWrite(s)
  {
    var s := After(Init, es0);
    if HasCancelled(s) && !AboutToWrite(s) {
      forall es ensures After(s, es).state == s.state {
        CancelHoldsForever(s, es);
      }
    } else if AboutToWrite(s) {
      HolderNeverCancels(es0);
      Extend(s, [], FinalizeWrite);
      assert After(s, [FinalizeWrite]).state != s.state;
    } else {
      var es := OverwrittenByNextResult(s);
      assert After(s, es).state != s.state;
    }
  }

  /** The same, as the caller of CancelExecution can check it beforehand: some run is
      cancelled already or in a state that a cancel reaches (an interrupted run is
      not), and no finalization is between its read and its write. */
  lemma WhenCancelSticks(es0: seq<Event>)
    requires var s := After(Init, es0);
             s.state !in {AllSucceeded, AllFailed, Partial, WasCancelled} && s.runs != []
    ensures var s := After(Init, es0);
            Next(s, Cancel).state == WasCancelled &&
            (Absorbing(Next(s, Cancel)) <==>
             !AboutToWrite(s) &&
             exists i :: 0 <= i < |s.runs| && (Cancellable(s.runs[i].state) || s.runs[i].state == Cancelled))
  {
    var s := After(Init, es0);
    Extend(Init, es0, Cancel);
    CancelledIsAbsorbing(es0 + [Cancel]);
    CancelCancels(s.runs);
  }

  // ---- runs whose stored state stays behind ----

  const SENT_A := Commands(map[], {0})
  const SENT_BOTH := Commands(map[], {0, 1})

  /** The first host has been sent its command. */
  lemma FirstSent() returns (es: seq<Event>)
    ensures After(Init, es) == Exec(Dispatching, [Run("a", Delivered)], Open(false, false), 0, Free, [], SENT_A)
  {
    es := Onward([], CreateRun("a"));
    assert After(Init, es) == Exec(Dispatching, [Run("a", Queued)], Open(true, true), 0, Free, [], Commands(map[], {}));
    es := Onward(es, HandOver);
    assert After(Init, es) == Exec(Dispatching, [Run("a", Queued)], Open(true, true), 0, Free, [], SENT_A);
    es := Onward(es, DispatchSent);
  }

  lemma FinalizeFirst(to: RunState)
    requires to == Succeeded || to == Failed
    ensures var s := Exec(Dispatching, [Run("a", to)], Open(false, false), 1, Free, [], SENT_A);
            Next(Next(s, FinalizeRead), FinalizeWrite) == FirstDone(to)
  {
    AggregateOne(to);
    assert States([Run("a", to)]) == [to];
  }

  /** The first host's outcome is finalized while dispatch is not over. */
  function FirstDone(to: RunState): Exec {
    Exec(if to == Succeeded then AllSucceeded else AllFailed, [Run("a", to)], Open(false, false), 0, Free, [to], SENT_A)
  }

  lemma FirstOutcome(to: RunState) returns (es: seq<Event>)
    requires to == Succeeded || to == Failed
    ensures After(Init, es) == FirstDone(to)
  {
    es := FirstSent();
    es := Onward(es, Result(0, to));
    assert After(Init, es) == Exec(Dispatching, [Run("a", to)], Open(false, false), 1, Free, [], SENT_A);
    es := Onward(es, FinalizeRead);
    es := Onward(es, FinalizeWrite);
    FinalizeFirst(to);
  }

  /** A host's result is finalized while Dispatch is still recording a later host
      that the policy denies: the execution reads succeeded for good, its runs are
      one success and one denial. */
  lemma ResultDuringDispatchStrands() returns (es: seq<Event>)
    ensures var s := After(Init, es);
            Quiescent(s) && s.state == AllSucceeded && States(s.runs) == [Succeeded, Denied] &&
            Decide(States(s.runs)) == Write(Partial)
  {
    es := FirstOutcome(Succeeded);
    SecondDenied();
    es := Onward(es, CreateRun("b"));
    es := Onward(es, DispatchDeny);
    es := Onward(es, EndDispatch);
    SuccessBesideDenial();
  }

  lemma SuccessBesideDenial()
    ensures States([Run("a", Succeeded), Run("b", Denied)]) == [Succeeded, Denied]
    ensures Decide([Succeeded, Denied]) == Write(Partial)
  {
    AggregateOne(Succeeded);
    AggregateOne(Denied);
    Homomorphism([Succeeded], [Denied]);
    assert [Succeeded] + [Denied] == [Succeeded, Denied];
  }

  lemma SecondDenied()
    ensures Next(Next(Next(FirstDone(Succeeded), CreateRun("b")), DispatchDeny), EndDispatch) ==
            FirstDone(Succeeded).(runs := [Run("a", Succeeded), Run("b", Denied)], phase := Closed)
  {
    var s := FirstDone(Succeeded).(runs := [Run("a", Succeeded), Run("b", Queued)], phase := Open(false, true));
    assert Next(FirstDone(Succeeded), CreateRun("b")) == s;
    assert SetRun(s.runs, 1, Denied) == [Run("a", Succeeded), Run("b", Denied)];
  }

  /** The same gap with a later host that is sent its command: the execution reads
      failed while a run is in flight, and a cancel is refused. */
  lemma FailureWhileInFlight() returns (es: seq<Event>)
    ensures var s := After(Init, es);
            Quiescent(s) && s.state == AllFailed && States(s.runs) == [Failed, Delivered] && Next(s, Cancel) == s
  {
    es := FirstOutcome(Failed);
    SecondSent();
    es := Onward(es, CreateRun("b"));
    es := Onward(es, HandOver);
    es := Onward(es, DispatchSent);
    es := Onward(es, EndDispatch);
    InFlightBesideFailure(After(Init, es));
  }

  lemma InFlightBesideFailure(s: Exec)
    requires s == Exec(AllFailed, [Run("a", Failed), Run("b", Delivered)], Closed, 0, Free, [Failed], SENT_BOTH)
    ensures Quiescent(s) && States(s.runs) == [Failed, Delivered] && Next(s, Cancel) == s
  {
  }

  lemma SecondSent()
    ensures Next(Next(Next(Next(FirstDone(Failed), CreateRun("b")), HandOver), DispatchSent), EndDispatch) ==
            Exec(AllFailed, [Run("a", Failed), Run("b", Delivered)], Closed, 0, Free, [Failed], SENT_BOTH)
  {
    var s := Exec(AllFailed, [Run("a", Failed), Run("b", Queued)], Open(false, true), 0, Free, [Failed], SENT_A);
    assert Next(FirstDone(Failed), CreateRun("b")) == s;
    assert Next(s, HandOver) == s.(cmds := SENT_BOTH) by { assert {0} + {1} == {0, 1}; }
    assert SetRun(s.runs, 1, Delivered) == [Run("a", Failed), Run("b", Delivered)];
  }

  /** The first host's run waits for an approval, and dispatch is over. */
  function ParkedA(ticket: Ticket): Exec {
    Exec(Dispatching, [Run("a", AwaitingApproval)], Closed, 0, Free, [], Commands(map[0 := ticket], {}))
  }

  lemma FirstAsked() returns (es: seq<Event>)
    ensures After(Init, es) == ParkedA(Waiting).(runs := [Run("a", Queued)], phase := Open(true, true))
  {
    es := Onward([], CreateRun("a"));
    assert After(Init, es) == Exec(Dispatching, [Run("a", Queued)], Open(true, true), 0, Free, [], Commands(map[], {}));
    es := Onward(es, AskApproval);
  }

  lemma FirstParked() returns (es: seq<Event>)
    ensures After(Init, es) == ParkedA(Waiting)
  {
    es := FirstAsked();
    es := Onward(es, DispatchPark);
    assert After(Init, es) == ParkedA(Waiting).(phase := Open(false, false));
    es := Onward(es, EndDispatch);
  }

  /** An approved command that cannot be delivered: its run is final, the execution
      keeps reading dispatching. */
  lemma UndeliverableStrands() returns (es: seq<Event>)
    ensures var s := After(Init, es);
            Quiescent(s) && s.state == Dispatching && States(s.runs) == [NotDelivered] &&
            Decide(States(s.runs)) == Write(AllFailed)
  {
    es := FirstParked();
    es := Onward(es, Grant(0));
    assert After(Init, es) == ParkedA(Granted);
    es := Onward(es, ApprovedUndeliverable(0));
    AggregateOne(NotDelivered);
    assert States([Run("a", NotDelivered)]) == [NotDelivered];
  }

  lemma FinalizeCancelled(s: Exec)
    requires s.pending > 0 && s.holder.Free? && HasCancelled(s)
    ensures var t := Next(Next(s, FinalizeRead), FinalizeWrite);
            t == s.(pending := s.pending - 1, read := States(s.runs))
  {
  }

  /** A run that its agent reports as cancelled without any CancelExecution (the
      agent was stopped): finalization keeps the row, which reads dispatching. */
  lemma AgentCancelStrands() returns (es: seq<Event>)
    ensures var s := After(Init, es);
            Quiescent(s) && s.state == Dispatching && States(s.runs) == [Cancelled]
  {
    es := FirstSent();
    es := Onward(es, EndDispatch);
    assert After(Init, es) == Exec(Dispatching, [Run("a", Delivered)], Closed, 0, Free, [], SENT_A);
    es := Onward(es, Result(0, Cancelled));
    var s := Exec(Dispatching, [Run("a", Cancelled)], Closed, 1, Free, [], SENT_A);
    assert After(Init, es) == s;
    assert States(s.runs)[0] == Cancelled;
    FinalizeCancelled(s);
    es := Onward(es, FinalizeRead);
    es := Onward(es, FinalizeWrite);
  }
}
