/** What each step does to the rows of an execution, run by run, with the stored states
    written out: the effect of every event, and that nothing else changes. */
module ExecutionSteps {
  import opened Aggregate
  import opened Executions

  /** The states that a later write leaves alone. */
  predicate HasOutcome(r: RunState) {
    r in {Succeeded, Failed, TimedOut, Cancelled, Expired, NotDelivered, Denied}
  }

  /** The state that a guarded write of `to` leaves. */
  function Guarded(from: RunState, to: RunState): RunState {
    if HasOutcome(from) then from else to
  }

  /** s with the state of run r written, guarded. */
  function Written(s: Exec, r: nat, to: RunState): Exec
    requires r < |s.runs|
  {
    s.(runs := s.runs[r := Run(s.runs[r].agent, Guarded(s.runs[r].state, to))])
  }

  // ---- writes that touch several runs ----

  /** A disconnect interrupts exactly the delivered and running runs of its own agent, and
      calls for a finalization exactly when there is one. */
  lemma DisconnectExactly(s: Exec, agent: Agent)
    ensures var t := Next(s, Disconnect(agent));
            && |t.runs| == |s.runs|
            && (forall r :: 0 <= r < |s.runs| ==>
                 t.runs[r] == if s.runs[r].agent == agent && s.runs[r].state in {Delivered, Running}
                              then Run(agent, Interrupted) else s.runs[r])
            && t.pending == s.pending + (if exists r :: 0 <= r < |s.runs| && s.runs[r].agent == agent &&
                                                        s.runs[r].state in {Delivered, Running} then 1 else 0)
            && t == s.(runs := t.runs, pending := t.pending)
  {
    var runs := InterruptAgentRuns(s.runs, agent);
    if r :| 0 <= r < |s.runs| && s.runs[r].agent == agent && s.runs[r].state in {Delivered, Running} {
      assert runs[r] != s.runs[r];
    } else {
      assert runs == s.runs;
    }
  }

  /** A sweep resolves exactly the interrupted runs that it selects, and calls for a
      finalization exactly when there is one. */
  lemma SweepExactly(s: Exec, which: set<nat>)
    ensures var t := Next(s, Sweep(which));
            && |t.runs| == |s.runs|
            && (forall r :: 0 <= r < |s.runs| ==>
                 t.runs[r] == if r in which && s.runs[r].state == Interrupted
                              then Run(s.runs[r].agent, NotDelivered) else s.runs[r])
            && t.pending == s.pending + (if exists r :: 0 <= r < |s.runs| && r in which &&
                                                        s.runs[r].state == Interrupted then 1 else 0)
            && t == s.(runs := t.runs, pending := t.pending)
  {
    var runs := SweepRuns(s.runs, which);
    if r :| 0 <= r < |s.runs| && r in which && s.runs[r].state == Interrupted {
      assert runs[r] != s.runs[r];
    } else {
      assert runs == s.runs;
    }
  }

  /** A cancel is refused on a row that reads succeeded, failed, partial or cancelled.
      Otherwise every run that is queued, delivered, running, parked or queued offline is
      cancelled, every other one is left alone, and the row reads cancelled. */
  lemma CancelExactly(s: Exec)
    ensures var t := Next(s, Cancel);
            if s.state in {AllSucceeded, AllFailed, Partial, WasCancelled} then t == s
            else
              && |t.runs| == |s.runs|
              && (forall r :: 0 <= r < |s.runs| ==>
                   t.runs[r] == if s.runs[r].state in {Queued, Delivered, Running, AwaitingApproval, QueuedOffline}
                                then Run(s.runs[r].agent, Cancelled) else s.runs[r])
              && t == s.(runs := t.runs, state := WasCancelled)
  {
  }

  // ---- writes that touch one run ----

  /** A result, the expiry of a queued command and the rejection of an approval request
      write their state over a run without an outcome, and call for a finalization
      whether they change it or not. */
  lemma OutcomeExactly(s: Exec, r: nat, to: RunState)
    ensures Next(s, Result(r, to)) == if r < |s.runs| then Written(s, r, to).(pending := s.pending + 1) else s
    ensures Next(s, QueueExpired(r)) == if r < |s.runs| then Written(s, r, Expired).(pending := s.pending + 1) else s
    ensures Next(s, ApprovalRejected(r)) ==
            if r < |s.runs| && r in s.cmds.asked
            then Written(s, r, Failed).(pending := s.pending + 1, cmds := s.cmds.(asked :=
                   if s.cmds.asked[r] == Waiting then s.cmds.asked[r := Spent] else s.cmds.asked))
            else s
  {
  }

  /** Output promotes a delivered run, and nothing else. */
  lemma OutputExactly(s: Exec, r: nat)
    ensures Next(s, Output(r)) ==
            if r < |s.runs| && s.runs[r].state == Delivered then s.(runs := s.runs[r := Run(s.runs[r].agent, Running)]) else s
  {
    if r < |s.runs| && s.runs[r].state == Delivered {
      assert s.runs[r].(state := Running) == Run(s.runs[r].agent, Running);
    }
  }

  /** The late marks: a drained command, and an approved one that was sent, queued for an
      offline agent, or undeliverable.  None of them calls for a finalization. */
  lemma LateExactly(s: Exec, r: nat)
    requires r < |s.runs|
    ensures Next(s, DrainDelivered(r)) == if r in s.cmds.handed then Written(s, r, Delivered) else s
    ensures var granted := r in s.cmds.asked && s.cmds.asked[r] == Granted;
            var spent := s.cmds.(asked := s.cmds.asked[r := Spent]);
            && Next(s, ApprovedSent(r)) ==
               (if granted && r in s.cmds.handed then Written(s, r, Delivered).(cmds := spent) else s)
            && Next(s, ApprovedOffline(r)) ==
               (if granted && r in s.cmds.handed then Written(s, r, QueuedOffline).(cmds := spent) else s)
            && Next(s, ApprovedUndeliverable(r)) ==
               (if granted && r !in s.cmds.handed then Written(s, r, NotDelivered).(cmds := spent) else s)
  {
  }

  /** An approval is granted once, to a waiting request, and only a granted command is
      handed over, once. */
  lemma GrantExactly(s: Exec, r: nat)
    ensures Next(s, Grant(r)) ==
            if r in s.cmds.asked && s.cmds.asked[r] == Waiting
            then s.(cmds := s.cmds.(asked := s.cmds.asked[r := Granted])) else s
    ensures Next(s, ApprovedHandOver(r)) ==
            if r in s.cmds.asked && s.cmds.asked[r] == Granted && r !in s.cmds.handed
            then s.(cmds := s.cmds.(handed := s.cmds.handed + {r})) else s
  {
  }

  // ---- dispatch ----

  /** While dispatch runs it records one queued run at a time, and ends only between two;
      its end calls for a finalization exactly when its flag still stands. */
  lemma LoopExactly(s: Exec, agent: Agent)
    ensures Next(s, CreateRun(agent)) ==
            if s.phase.Open? && !s.phase.deciding
            then s.(runs := s.runs + [Run(agent, Queued)], phase := Open(s.phase.allTerminal, true)) else s
    ensures Next(s, EndDispatch) ==
            if s.phase.Open? && !s.phase.deciding
            then s.(phase := Closed, pending := s.pending + (if s.phase.allTerminal then 1 else 0)) else s
  {
  }

  /** The one write for the recorded run.  A denied and an undeliverable command leave the
      flag standing; a parked, sent or queued one clears it.  Which of them is possible
      depends on the approval request and on the handing over of the command. */
  lemma DispatchExactly(s: Exec)
    requires s.phase.Open? && s.phase.deciding && s.runs != []
    ensures var r := |s.runs| - 1;
            var asked, handed := r in s.cmds.asked, r in s.cmds.handed;
            var ends, stays := Open(s.phase.allTerminal, false), Open(false, false);
            && Next(s, AskApproval) ==
               (if !asked && !handed then s.(cmds := s.cmds.(asked := s.cmds.asked[r := Waiting])) else s)
            && Next(s, HandOver) ==
               (if !asked && !handed then s.(cmds := s.cmds.(handed := s.cmds.handed + {r})) else s)
            && Next(s, DispatchDeny) == (if !asked && !handed then Written(s, r, Denied).(phase := ends) else s)
            && Next(s, DispatchUndeliverable) ==
               (if !asked && !handed then Written(s, r, NotDelivered).(phase := ends) else s)
            && Next(s, DispatchPark) == (if asked then Written(s, r, AwaitingApproval).(phase := stays) else s)
            && Next(s, DispatchSent) == (if !asked && handed then Written(s, r, Delivered).(phase := stays) else s)
            && Next(s, DispatchOffline) ==
               (if !asked && handed
                then s.(runs := if s.runs[r].state == Queued then s.runs[r := Run(s.runs[r].agent, QueuedOffline)] else s.runs,
                        phase := stays)
                else s)
  {
  }

  /** Without a recorded run under decision, none of these steps does anything. */
  lemma DispatchIdle(s: Exec, e: Event)
    requires !(s.phase.Open? && s.phase.deciding && s.runs != [])
    requires e in {AskApproval, HandOver, DispatchDeny, DispatchPark, DispatchSent, DispatchOffline, DispatchUndeliverable}
    ensures Next(s, e) == s
  {
  }

  // ---- finalization ----

  /** A finalization reads once finMu is free, and remembers what to write: nothing if some
      run is cancelled, pending without runs, otherwise the aggregate. */
  lemma FinalizeReadExactly(s: Exec)
    ensures var t, rs := Next(s, FinalizeRead), States(s.runs);
            if s.pending > 0 && s.holder.Free?
            then && t == s.(pending := s.pending - 1, holder := t.holder, read := rs)
                 && t.holder == Holding(if exists r :: 0 <= r < |s.runs| && s.runs[r].state == Cancelled then Keep
                                        else Write(if s.runs == [] then NoRuns else AggregateOf(rs)))
            else t == s
  {
    CancelledInStates(s.runs);
  }

  /** Its write frees finMu, and changes the row unless it had read a cancelled run. */
  lemma FinalizeWriteExactly(s: Exec)
    ensures Next(s, FinalizeWrite) ==
            if s.holder.Free? then s
            else s.(holder := Free, state := if s.holder.decision.Write? then s.holder.decision.state else s.state)
  {
  }

  /** The aggregate, state by state. */
  lemma AggregateExactly(rs: seq<RunState>)
    requires rs != []
    ensures AggregateOf(rs) == InFlight <==>
            exists i :: 0 <= i < |rs| && rs[i] in {Queued, QueuedOffline, Delivered, Running, AwaitingApproval}
    ensures AggregateOf(rs) == Stalled <==>
            && (forall i :: 0 <= i < |rs| ==> HasOutcome(rs[i]) || rs[i] == Interrupted)
            && (exists i :: 0 <= i < |rs| && rs[i] == Interrupted)
    ensures AggregateOf(rs) == AllSucceeded <==> forall i :: 0 <= i < |rs| ==> rs[i] == Succeeded
    ensures AggregateOf(rs) == AllFailed <==> forall i :: 0 <= i < |rs| ==> HasOutcome(rs[i]) && rs[i] != Succeeded
    ensures AggregateOf(rs) == Partial <==>
            && (forall i :: 0 <= i < |rs| ==> HasOutcome(rs[i]))
            && (exists i :: 0 <= i < |rs| && rs[i] == Succeeded) && (exists i :: 0 <= i < |rs| && rs[i] != Succeeded)
  {
    forall i | 0 <= i < |rs| ensures Unfinished(rs[i]) <==> !HasOutcome(rs[i]) && rs[i] != Interrupted {}
    forall i | 0 <= i < |rs| ensures Broken(rs[i]) <==> HasOutcome(rs[i]) && rs[i] != Succeeded {}
    if AnyUnfinished(rs) {
      var i :| 0 <= i < |rs| && Unfinished(rs[i]);
      assert !HasOutcome(rs[i]);
    } else if Interrupted in rs {
      var i :| 0 <= i < |rs| && rs[i] == Interrupted;
      assert !HasOutcome(rs[i]);
    } else {
      forall i | 0 <= i < |rs| ensures HasOutcome(rs[i]) {
        assert !Unfinished(rs[i]) && rs[i] in rs;
      }
      if Succeeded in rs {
        var i :| 0 <= i < |rs| && rs[i] == Succeeded;
      }
      if i :| 0 <= i < |rs| && rs[i] != Succeeded { assert Broken(rs[i]); }
      assert rs[0] in rs;
    }
  }
}
