/** One execution and its runs as a transition system.

    Every store write that touches the execution is one step, and the two halves
    of a finalization (read the runs under finMu, write the row, release finMu)
    are separate steps, so any other write may fall between them.  Dispatch is a
    sequence of such steps, not one.  `Next` is total: an event that is not
    possible in a state leaves it as it is, so every sequence of events is a run. */
module Executions {
  import opened Aggregate

  type Agent = string

  datatype Run = Run(agent: Agent, state: RunState)

  /** Whether Dispatch is still in its host loop; `allTerminal` is its flag, and
      `deciding` says that the run of the current host is recorded (as the last
      one) and its policy outcome not yet written. */
  datatype Phase = Open(allTerminal: bool, deciding: bool) | Closed

  datatype Holder = Free | Holding(decision: Decision)

  /** The approval request of a run: undecided; approved, its command about to be handed
      to the stream; or decided and dealt with. */
  datatype Ticket = Waiting | Granted | Spent

  /** Where the commands of the runs are: the approval requests by run, and the runs whose
      command the stream has taken, to send it or to queue it for an offline agent. */
  datatype Commands = Commands(asked: map<nat, Ticket>, handed: set<nat>)

  datatype Exec = Exec(
    state: ExecState,
    runs: seq<Run>,
    phase: Phase,
    pending: nat,     // calls of FinalizeExecution that have not read the runs yet
    holder: Holder,   // the call that owns finMu and has read the runs
    read: seq<RunState>,  // history: what the last finalization read, [] before the first
    cmds: Commands
  )

  datatype Event =
    // Dispatch, host by host, and its end
    | CreateRun(agent: Agent) | AskApproval | HandOver
    | DispatchDeny | DispatchPark | DispatchSent | DispatchOffline | DispatchUndeliverable
    | EndDispatch
    // the agent stream
    | Output(r: nat) | Result(r: nat, to: RunState)
    | DrainDelivered(r: nat) | QueueExpired(r: nat)
    | Disconnect(agent: Agent)
    // approvals
    | ApprovalRejected(r: nat) | Grant(r: nat) | ApprovedHandOver(r: nat)
    | ApprovedSent(r: nat) | ApprovedOffline(r: nat) | ApprovedUndeliverable(r: nat)
    // the sweeper (it resolves the interrupted runs in `which`), cancel, finalization
    | Sweep(which: set<nat>) | Cancel | FinalizeRead | FinalizeWrite

  const Init := Exec(Dispatching, [], Open(true, false), 0, Free, [], Commands(map[], {}))

  // ---- the store operations ----

  function States(runs: seq<Run>): (rs: seq<RunState>)
    ensures |rs| == |runs| && forall i :: 0 <= i < |runs| ==> rs[i] == runs[i].state
  {
    seq(|runs|, i requires 0 <= i < |runs| => runs[i].state)
  }

  function SetRun(runs: seq<Run>, r: nat, to: RunState): seq<Run> {
    if r < |runs| then runs[r := runs[r].(state := Update(runs[r].state, to))] else runs
  }

  function MarkQueuedOffline(runs: seq<Run>, r: nat): seq<Run> {
    if r < |runs| && runs[r].state == Queued then runs[r := runs[r].(state := QueuedOffline)] else runs
  }

  function PromoteRun(runs: seq<Run>, r: nat): seq<Run> {
    if r < |runs| && runs[r].state == Delivered then runs[r := runs[r].(state := Running)] else runs
  }

  function InterruptRun(x: Run, agent: Agent): Run {
    if x.agent == agent && x.state in {Delivered, Running} then x.(state := Interrupted) else x
  }

  function InterruptAgentRuns(runs: seq<Run>, agent: Agent): (out: seq<Run>)
    ensures |out| == |runs|
  {
    seq(|runs|, i requires 0 <= i < |runs| => InterruptRun(runs[i], agent))
  }

  function SweepRun(x: Run): Run {
    if x.state == Interrupted then x.(state := NotDelivered) else x
  }

  function SweepRuns(runs: seq<Run>, which: set<nat>): (out: seq<Run>)
    ensures |out| == |runs|
  {
    seq(|runs|, i requires 0 <= i < |runs| => if i in which then SweepRun(runs[i]) else runs[i])
  }

  predicate Cancellable(r: RunState) {
    r in {Queued, Delivered, Running, AwaitingApproval, QueuedOffline}
  }

  function CancelRun(x: Run): Run {
    if Cancellable(x.state) then x.(state := Cancelled) else x
  }

  function CancelNonTerminalRuns(runs: seq<Run>): (out: seq<Run>)
    ensures |out| == |runs|
  {
    seq(|runs|, i requires 0 <= i < |runs| => CancelRun(runs[i]))
  }

  // ---- the step function ----

  /** A write whose caller finalizes afterwards. */
  function Hooked(s: Exec, runs: seq<Run>): Exec {
    s.(runs := runs, pending := s.pending + 1)
  }

  /** A write that no finalization follows. */
  function Unhooked(s: Exec, runs: seq<Run>): Exec {
    s.(runs := runs)
  }

  /** The one write Dispatch makes for the run it has just recorded. */
  predicate CanDecide(s: Exec) {
    s.phase.Open? && s.phase.deciding && s.runs != []
  }

  /** The run under decision has no approval request and its command is not handed over. */
  predicate Undispatched(s: Exec) {
    CanDecide(s) && |s.runs| - 1 !in s.cmds.asked && |s.runs| - 1 !in s.cmds.handed
  }

  /** The run under decision has no approval request and its command is handed over. */
  predicate Dispatched(s: Exec) {
    CanDecide(s) && |s.runs| - 1 !in s.cmds.asked && |s.runs| - 1 in s.cmds.handed
  }

  predicate TicketIs(s: Exec, r: nat, ticket: Ticket) {
    r in s.cmds.asked && s.cmds.asked[r] == ticket
  }

  function SetTicket(s: Exec, r: nat, ticket: Ticket): Exec {
    s.(cmds := s.cmds.(asked := s.cmds.asked[r := ticket]))
  }

  function Hand(s: Exec, r: nat): Exec {
    s.(cmds := s.cmds.(handed := s.cmds.handed + {r}))
  }

  function DispatchStep(s: Exec, runs: seq<Run>, terminal: bool): Exec
    requires CanDecide(s)
  {
    s.(runs := runs, phase := Open(s.phase.allTerminal && terminal, false))
  }

  ghost function Next(s: Exec, e: Event): Exec {
    match e
    case CreateRun(agent) =>
      if s.phase.Open? && !s.phase.deciding
      then s.(runs := s.runs + [Run(agent, Queued)], phase := s.phase.(deciding := true))
      else s
    case AskApproval => if Undispatched(s) then SetTicket(s, |s.runs| - 1, Waiting) else s
    case HandOver => if Undispatched(s) then Hand(s, |s.runs| - 1) else s
    case DispatchDeny =>
      if Undispatched(s) then DispatchStep(s, SetRun(s.runs, |s.runs| - 1, Denied), true) else s
    case DispatchPark =>
      if CanDecide(s) && |s.runs| - 1 in s.cmds.asked
      then DispatchStep(s, SetRun(s.runs, |s.runs| - 1, AwaitingApproval), false)
      else s
    case DispatchSent =>
      if Dispatched(s) then DispatchStep(s, SetRun(s.runs, |s.runs| - 1, Delivered), false) else s
    case DispatchOffline =>
      if Dispatched(s) then DispatchStep(s, MarkQueuedOffline(s.runs, |s.runs| - 1), false) else s
    case DispatchUndeliverable =>
      if Undispatched(s) then DispatchStep(s, SetRun(s.runs, |s.runs| - 1, NotDelivered), true) else s
    case EndDispatch =>
      if s.phase.Open? && !s.phase.deciding
      then s.(phase := Closed, pending := s.pending + if s.phase.allTerminal then 1 else 0)
      else s
    case Output(r) => Unhooked(s, PromoteRun(s.runs, r))
    case Result(r, to) => if r < |s.runs| then Hooked(s, SetRun(s.runs, r, to)) else s
    case DrainDelivered(r) => if r in s.cmds.handed then Unhooked(s, SetRun(s.runs, r, Delivered)) else s
    case QueueExpired(r) => if r < |s.runs| then Hooked(s, SetRun(s.runs, r, Expired)) else s
    case Disconnect(agent) =>
      var runs := InterruptAgentRuns(s.runs, agent);
      if runs == s.runs then s else Hooked(s, runs)
    case ApprovalRejected(r) =>
      // denied or expired; an expiry pass may also hit a request approved meanwhile
      if r < |s.runs| && r in s.cmds.asked
      then Hooked(if TicketIs(s, r, Waiting) then SetTicket(s, r, Spent) else s, SetRun(s.runs, r, Failed))
      else s
    case Grant(r) => if TicketIs(s, r, Waiting) then SetTicket(s, r, Granted) else s
    case ApprovedHandOver(r) => if TicketIs(s, r, Granted) && r !in s.cmds.handed then Hand(s, r) else s
    case ApprovedSent(r) =>
      if TicketIs(s, r, Granted) && r in s.cmds.handed
      then Unhooked(SetTicket(s, r, Spent), SetRun(s.runs, r, Delivered))
      else s
    case ApprovedOffline(r) =>
      if TicketIs(s, r, Granted) && r in s.cmds.handed
      then Unhooked(SetTicket(s, r, Spent), SetRun(s.runs, r, QueuedOffline))
      else s
    case ApprovedUndeliverable(r) =>
      if TicketIs(s, r, Granted) && r !in s.cmds.handed
      then Unhooked(SetTicket(s, r, Spent), SetRun(s.runs, r, NotDelivered))
      else s
    case Sweep(which) =>
      var runs := SweepRuns(s.runs, which);
      if runs == s.runs then s else Hooked(s, runs)
    case Cancel =>
      if s.state in {AllSucceeded, AllFailed, Partial, WasCancelled} then s
      else
        s.(runs := CancelNonTerminalRuns(s.runs), state := WasCancelled)
    case FinalizeRead =>
      if s.pending > 0 && s.holder.Free?
      then s.(pending := s.pending - 1, holder := Holding(Decide(States(s.runs))), read := States(s.runs))
      else s
    case FinalizeWrite =>
      if s.holder.Free? then s
      else if s.holder.decision.Keep? then s.(holder := Free)
      else s.(holder := Free, state := s.holder.decision.state)
  }

  /** The state after a run. */
  ghost function After(s: Exec, es: seq<Event>): Exec {
    if es == [] then s else Next(After(s, es[..|es| - 1]), es[|es| - 1])
  }

  lemma Extend(s: Exec, es: seq<Event>, e: Event)
    ensures After(s, es + [e]) == Next(After(s, es), e)
  {
    assert (es + [e])[..|es|] == es;
  }

  /** Some history that goes one step further. */
  lemma Onward(es: seq<Event>, e: Event) returns (fs: seq<Event>)
    ensures After(Init, fs) == Next(After(Init, es), e)
  {
    fs := es + [e];
    Extend(Init, es, e);
  }

  lemma Then(es: seq<Event>, e: Event) returns (fs: seq<Event>)
    ensures fs == es + [e] && After(Init, fs) == Next(After(Init, es), e)
  {
    fs := es + [e];
    Extend(Init, es, e);
  }

  lemma AggregateOne(r: RunState)
    requires Final(r)
    ensures AggregateOf([r]) == if r == Succeeded then AllSucceeded else AllFailed
  {
    assert [r][0] == r;
  }

  // ---- finality of run states ----

  /** Run states move forward only: a run in a final state keeps it, runs keep
      their agent and are never removed. */
  lemma RunsAreFinal(s: Exec, e: Event, r: nat)
    requires r < |s.runs|
    ensures r < |Next(s, e).runs| && Next(s, e).runs[r].agent == s.runs[r].agent
    ensures Final(s.runs[r].state) ==> Next(s, e).runs[r] == s.runs[r]
  {
  }

  /** A recorded outcome is final under every run of the system. */
  lemma {:induction false} OutcomesAreFinal(s: Exec, es: seq<Event>, r: nat)
    requires r < |s.runs| && Final(s.runs[r].state)
    ensures r < |After(s, es).runs| && After(s, es).runs[r] == s.runs[r]
  {
    if es != [] {
      OutcomesAreFinal(s, es[..|es| - 1], r);
      RunsAreFinal(After(s, es[..|es| - 1]), es[|es| - 1], r);
    }
  }

  // ---- what the stored state has to do with the runs ----

  ghost predicate HasCancelled(s: Exec) { Cancelled in States(s.runs) }

  /** "dispatching" is what an execution reads until its first finalization. */
  function View(x: ExecState): ExecState { if x == Dispatching then InFlight else x }

  /** The state the row will have once the owner of finMu, if any, has written. */
  function Effective(s: Exec): ExecState {
    if s.holder.Holding? && s.holder.decision.Write? then s.holder.decision.state else s.state
  }

  /** The row is, or is about to be, the aggregate of the runs. */
  ghost predicate Agrees(s: Exec) {
    Decide(States(s.runs)) == Write(View(Effective(s)))
  }

  /** The row is a cancel's, or what the last finalization made of what it read. */
  ghost predicate RowOfRead(s: Exec) {
    || Effective(s) == WasCancelled
    || (s.read == [] && Effective(s) == Dispatching)
    || Decide(s.read) == Write(Effective(s))
  }

  /** What writes that no finalization follows can have done to the runs since `read`:
      they record runs and touch those without an outcome, but none of them succeeds
      or is interrupted by such a write. */
  ghost predicate Since(read: seq<RunState>, runs: seq<Run>) {
    && |read| <= |runs|
    && (forall i :: 0 <= i < |read| && Final(read[i]) ==> runs[i].state == read[i])
    && (forall i :: 0 <= i < |runs| && runs[i].state in {Succeeded, Interrupted} ==>
         i < |read| && read[i] == runs[i].state)
  }

  ghost predicate Inv(s: Exec) {
    HasCancelled(s) ||
    (RowOfRead(s) && (s.holder.Holding? ==> s.holder.decision.Write?) && (s.pending == 0 ==> Since(s.read, s.runs)))
  }

  lemma CancelledStays(s: Exec, e: Event)
    requires HasCancelled(s)
    ensures HasCancelled(Next(s, e))
  {
    var r :| 0 <= r < |s.runs| && States(s.runs)[r] == Cancelled;
    RunsAreFinal(s, e, r);
    assert States(Next(s, e).runs)[r] == Cancelled;
  }

  lemma SetRunSince(read: seq<RunState>, runs: seq<Run>, r: nat, to: RunState)
    requires Since(read, runs) && to != Succeeded && to != Interrupted
    ensures Since(read, SetRun(runs, r, to))
  {
  }

  lemma OtherSince(read: seq<RunState>, runs: seq<Run>, r: nat, agent: Agent)
    requires Since(read, runs)
    ensures Since(read, PromoteRun(runs, r)) && Since(read, MarkQueuedOffline(runs, r))
    ensures Since(read, CancelNonTerminalRuns(runs)) && Since(read, runs + [Run(agent, Queued)])
  {
  }

  /** The steps that no finalization follows and that are no dispatch of a run. */
  lemma SinceLate(s: Exec, e: Event)
    requires Since(s.read, s.runs) && (e.Output? || e.DrainDelivered? || e.ApprovedSent? || e.ApprovedOffline? ||
                                       e.ApprovedUndeliverable? || e.Cancel?)
    ensures Next(s, e).read == s.read && Since(s.read, Next(s, e).runs)
  {
    match e {
      case Output(r) => OtherSince(s.read, s.runs, r, "");
      case Cancel => OtherSince(s.read, s.runs, 0, "");
      case DrainDelivered(r) => SetRunSince(s.read, s.runs, r, Delivered);
      case ApprovedSent(r) => SetRunSince(s.read, s.runs, r, Delivered);
      case ApprovedOffline(r) => SetRunSince(s.read, s.runs, r, QueuedOffline);
      case ApprovedUndeliverable(r) => SetRunSince(s.read, s.runs, r, NotDelivered);
    }
  }

  lemma SinceDispatch(s: Exec, e: Event)
    requires Since(s.read, s.runs) && e in {DispatchDeny, DispatchPark, DispatchSent, DispatchOffline, DispatchUndeliverable}
    ensures Next(s, e).read == s.read && Since(s.read, Next(s, e).runs)
  {
    if CanDecide(s) {
      var last := |s.runs| - 1;
      match e {
        case DispatchDeny => SetRunSince(s.read, s.runs, last, Denied);
        case DispatchPark => SetRunSince(s.read, s.runs, last, AwaitingApproval);
        case DispatchSent => SetRunSince(s.read, s.runs, last, Delivered);
        case DispatchOffline => OtherSince(s.read, s.runs, last, "");
        case DispatchUndeliverable => SetRunSince(s.read, s.runs, last, NotDelivered);
      }
    }
  }

  lemma SinceKept(s: Exec, e: Event)
    requires Since(s.read, s.runs) && s.pending == 0 && Next(s, e).pending == 0
    ensures Since(Next(s, e).read, Next(s, e).runs)
  {
    match e {
      case CreateRun(agent) => OtherSince(s.read, s.runs, 0, agent);
      case DispatchDeny => SinceDispatch(s, e);
      case DispatchPark => SinceDispatch(s, e);
      case DispatchSent => SinceDispatch(s, e);
      case DispatchOffline => SinceDispatch(s, e);
      case DispatchUndeliverable => SinceDispatch(s, e);
      case Output(_) => SinceLate(s, e);
      case Cancel => SinceLate(s, e);
      case DrainDelivered(_) => SinceLate(s, e);
      case ApprovedSent(_) => SinceLate(s, e);
      case ApprovedOffline(_) => SinceLate(s, e);
      case ApprovedUndeliverable(_) => SinceLate(s, e);
      case _ => assert Next(s, e).runs == s.runs && Next(s, e).read == s.read;
    }
  }

  lemma RowKept(s: Exec, e: Event)
    requires Inv(s) && !HasCancelled(s) && !HasCancelled(Next(s, e))
    ensures RowOfRead(Next(s, e))
    ensures Next(s, e).holder.Holding? ==> Next(s, e).holder.decision.Write?
  {
    if !e.FinalizeRead? && !e.FinalizeWrite? && !e.Cancel? {
      assert Next(s, e).holder == s.holder && Next(s, e).state == s.state && Next(s, e).read == s.read;
    }
  }

  lemma InvStep(s: Exec, e: Event)
    requires Inv(s)
    ensures Inv(Next(s, e))
  {
    var t := Next(s, e);
    if HasCancelled(s) {
      CancelledStays(s, e);
    } else if !HasCancelled(t) {
      RowKept(s, e);
      if t.pending == 0 {
        if s.pending == 0 {
          SinceKept(s, e);
        } else {
          assert t.read == States(t.runs);
        }
      }
    }
  }

  /** In every interleaving of dispatch, results, disconnects, approvals, sweeps,
      cancels and the two halves of finalizations: a run is cancelled, or the row is
      what its last finalization made of what it read, and as long as no finalization
      is due, only writes without one have touched the runs since. */
  lemma {:induction false} Reachable(es: seq<Event>)
    ensures Inv(After(Init, es))
  {
    if es != [] {
      Reachable(es[..|es| - 1]);
      InvStep(After(Init, es[..|es| - 1]), es[|es| - 1]);
    }
  }

  /** No finalization is due or under way. */
  predicate Quiescent(s: Exec) {
    s.phase.Closed? && s.pending == 0 && s.holder.Free?
  }

  ghost predicate SomeOpen(runs: seq<Run>) { exists i :: 0 <= i < |runs| && Unfinished(runs[i].state) }

  ghost predicate SomeInterrupted(runs: seq<Run>) { exists i :: 0 <= i < |runs| && runs[i].state == Interrupted }

  /** What keeps a row right between finalizations: it reads running just while some
      run is open, succeeded (or pending) only over the runs that were there when it
      was computed, and interrupted only while some run still is. */
  ghost predicate Fresh(s: Exec) {
    var row := View(Effective(s));
    && row != WasCancelled
    && (row == InFlight <==> SomeOpen(s.runs))
    && (row in {AllSucceeded, NoRuns} ==> |s.runs| == |s.read|)
    && (row == Stalled ==> SomeInterrupted(s.runs))
  }

  lemma StatesOf(runs: seq<Run>)
    ensures AnyUnfinished(States(runs)) <==> SomeOpen(runs)
    ensures Interrupted in States(runs) <==> SomeInterrupted(runs)
  {
    var rs := States(runs);
    if i :| 0 <= i < |runs| && Unfinished(runs[i].state) { assert Unfinished(rs[i]); }
    if i :| 0 <= i < |rs| && Unfinished(rs[i]) { assert Unfinished(runs[i].state); }
    if i :| 0 <= i < |runs| && runs[i].state == Interrupted { assert rs[i] == Interrupted; }
    if i :| 0 <= i < |rs| && rs[i] == Interrupted { assert runs[i].state == Interrupted; }
  }

  /** A row that was computed from finished runs, none of them interrupted any more. */
  lemma SettledSince(read: seq<RunState>, runs: seq<Run>)
    requires Since(read, runs) && read != [] && Cancelled !in States(runs) && Cancelled !in read
    requires !AnyUnfinished(read) && !SomeOpen(runs) && Interrupted !in read
    ensures Succeeded in States(runs) <==> Succeeded in read
    ensures AnyBroken(States(runs)) <==> AnyBroken(read) || |read| < |runs|
    ensures Interrupted !in States(runs)
  {
    var rs := States(runs);
    forall i | 0 <= i < |read| ensures rs[i] == read[i] {
      assert read[i] in read && !Unfinished(read[i]);
    }
    if |read| < |runs| {
      assert !Unfinished(runs[|read|].state) && Broken(rs[|read|]);
    }
    if Succeeded in read {
      var i :| 0 <= i < |read| && read[i] == Succeeded;
      assert rs[i] == Succeeded;
    }
    if i :| 0 <= i < |read| && Broken(read[i]) { assert Broken(rs[i]); }
    if i :| 0 <= i < |rs| && Broken(rs[i]) { assert i < |read| ==> Broken(read[i]); }
  }

  /** In every reachable state with no finalization due and no run cancelled, the row
      agrees with the runs exactly when it is fresh.  In particular at quiescence.  A
      fresh row shows a failure only when every run has its outcome. */
  lemma AgreesExactly(es: seq<Event>)
    requires var s := After(Init, es); s.pending == 0 && !HasCancelled(s)
    ensures var s := After(Init, es); Agrees(s) <==> Fresh(s)
    ensures var s := After(Init, es);
            Fresh(s) && Effective(s) in {AllFailed, Partial} ==> forall i :: 0 <= i < |s.runs| ==> Final(s.runs[i].state)
  {
    Reachable(es);
    RowAgrees(After(Init, es));
    AgreedFailure(After(Init, es));
  }

  lemma AgreedFailure(s: Exec)
    requires !HasCancelled(s)
    ensures Agrees(s) && Effective(s) in {AllFailed, Partial} ==> forall i :: 0 <= i < |s.runs| ==> Final(s.runs[i].state)
    ensures Agrees(s) && Effective(s) == AllSucceeded ==> forall i :: 0 <= i < |s.runs| ==> s.runs[i].state == Succeeded
    ensures Agrees(s) && Effective(s) == Stalled ==> SomeInterrupted(s.runs) && !SomeOpen(s.runs)
  {
    var rs := States(s.runs);
    StatesOf(s.runs);
    if rs != [] {
      FailureMeansFailure(rs);
      assert forall i :: 0 <= i < |s.runs| ==> rs[i] == s.runs[i].state;
    }
  }

  lemma RowAgrees(s: Exec)
    requires Inv(s) && s.pending == 0 && !HasCancelled(s)
    ensures Agrees(s) <==> Fresh(s)
  {
    var row, rs := View(Effective(s)), States(s.runs);
    StatesOf(s.runs);
    if Effective(s) != WasCancelled && Effective(s) != Dispatching && s.read != [] {
      assert Decide(s.read) == Write(row) && row == AggregateOf(s.read);
      if !SomeOpen(s.runs) && row != InFlight {
        if row == Stalled {
          if SomeInterrupted(s.runs) { assert rs != []; }
        } else {
          SettledSince(s.read, s.runs);
          SomeOutcome(s.read);
        }
      }
    }
  }

  /** The runs recorded after the last finalization read, when nothing it saw has
      changed: the row stays right exactly when joining their aggregate to it changes
      nothing, that is, when an open one meets a row that reads running and finished
      ones do not meet a row that reads succeeded. */
  lemma RecordedSince(es: seq<Event>)
    requires var s := After(Init, es);
             s.pending == 0 && !HasCancelled(s) && Effective(s) != WasCancelled &&
             s.read != [] && |s.read| <= |s.runs| && States(s.runs)[..|s.read|] == s.read
    ensures var s := After(Init, es);
            var later := States(s.runs)[|s.read|..];
            && (Agrees(s) <==> later == [] || Join(AggregateOf(s.read), AggregateOf(later)) == AggregateOf(s.read))
            && (Agrees(s) <==> later == [] || if AnyUnfinished(later) then AggregateOf(s.read) == InFlight
                                              else AggregateOf(s.read) != AllSucceeded)
  {
    Reachable(es);
    var s := After(Init, es);
    var rs := States(s.runs);
    var later := rs[|s.read|..];
    assert rs == s.read + later;
    if later != [] {
      Homomorphism(s.read, later);
      LaterStates(s, later);
      if !AnyUnfinished(later) { SomeOutcome(later); }
    }
  }

  lemma LaterStates(s: Exec, later: seq<RunState>)
    requires Since(s.read, s.runs) && later == States(s.runs)[|s.read|..]
    ensures Interrupted !in later && Succeeded !in later
  {
    forall x | x in later ensures x != Interrupted && x != Succeeded {
      var i :| 0 <= i < |later| && later[i] == x;
      assert s.runs[|s.read| + i].state == x;
    }
  }

  // ---- exactly which steps leave an agreeing row behind ----

  predicate Overwritable(r: RunState) { !Final(r) }

  /** Run `r` alone decides the aggregate: no other run is unfinished, none is
      cancelled, and if `r` is interrupted no other run is. */
  predicate Decisive(runs: seq<Run>, r: nat) {
    && r < |runs| && Overwritable(runs[r].state)
    && forall i :: 0 <= i < |runs| && i != r ==>
         !Unfinished(runs[i].state) && runs[i].state != Cancelled &&
         (runs[r].state == Interrupted ==> runs[i].state != Interrupted)
  }

  /** No run is unfinished. */
  predicate NoneOpen(runs: seq<Run>) {
    forall i :: 0 <= i < |runs| ==> !Unfinished(runs[i].state)
  }

  predicate LeavesBehind(s: Exec, e: Event) {
    match e
    case CreateRun(_) => s.phase.Open? && !s.phase.deciding && NoneOpen(s.runs)
    case DispatchDeny => Undispatched(s) && Decisive(s.runs, |s.runs| - 1)
    case DispatchUndeliverable => Undispatched(s) && Decisive(s.runs, |s.runs| - 1)
    case DispatchPark => CanDecide(s) && |s.runs| - 1 in s.cmds.asked && InterruptedAlone(s.runs, |s.runs| - 1)
    case DispatchSent => Dispatched(s) && InterruptedAlone(s.runs, |s.runs| - 1)
    case Cancel => s.holder.Free? && Fruitless(s)
    case ApprovedUndeliverable(r) => TicketIs(s, r, Granted) && r !in s.cmds.handed && Decisive(s.runs, r)
    case DrainDelivered(r) => r in s.cmds.handed && InterruptedAlone(s.runs, r)
    case ApprovedSent(r) => TicketIs(s, r, Granted) && r in s.cmds.handed && InterruptedAlone(s.runs, r)
    case ApprovedOffline(r) => TicketIs(s, r, Granted) && r in s.cmds.handed && InterruptedAlone(s.runs, r)
    case _ => false
  }

  /** A cancel that is accepted and finds no run to cancel. */
  predicate Fruitless(s: Exec) {
    s.state !in {AllSucceeded, AllFailed, Partial, WasCancelled} &&
    forall i :: 0 <= i < |s.runs| ==> !Cancellable(s.runs[i].state) && s.runs[i].state != Cancelled
  }

  /** A late "delivered" (or "queued offline") over an interrupted run, while no
      other run is unfinished. */
  predicate InterruptedAlone(runs: seq<Run>, r: nat) {
    r < |runs| && runs[r].state == Interrupted &&
    forall i :: 0 <= i < |runs| ==> !Unfinished(runs[i].state) && runs[i].state != Cancelled
  }

  lemma CancelledInStates(runs: seq<Run>)
    ensures Cancelled in States(runs) <==> exists i :: 0 <= i < |runs| && runs[i].state == Cancelled
  {
    if i :| 0 <= i < |runs| && runs[i].state == Cancelled { assert States(runs)[i] == Cancelled; }
  }

  /** Only a cancel or a "cancelled" result makes a run cancelled. */
  lemma SetRunCancelled(runs: seq<Run>, r: nat, to: RunState)
    requires to != Cancelled
    ensures Cancelled in States(SetRun(runs, r, to)) <==> Cancelled in States(runs)
  {
    var runs' := SetRun(runs, r, to);
    CancelledInStates(runs);
    CancelledInStates(runs');
    if i :| 0 <= i < |runs| && runs[i].state == Cancelled { assert runs'[i].state == Cancelled; }
    if i :| 0 <= i < |runs'| && runs'[i].state == Cancelled { assert runs[i].state == Cancelled; }
  }

  lemma CancelCancels(runs: seq<Run>)
    ensures Cancelled in States(CancelNonTerminalRuns(runs)) <==>
            exists i :: 0 <= i < |runs| && (Cancellable(runs[i].state) || runs[i].state == Cancelled)
  {
    var runs' := CancelNonTerminalRuns(runs);
    CancelledInStates(runs');
    if i :| 0 <= i < |runs| && (Cancellable(runs[i].state) || runs[i].state == Cancelled) {
      assert runs'[i].state == Cancelled;
    }
    if i :| 0 <= i < |runs'| && runs'[i].state == Cancelled {
      assert Cancellable(runs[i].state) || runs[i].state == Cancelled;
    }
  }

  /** Writing a broken state over run `r` changes the decision exactly when `r` was decisive. */
  lemma BrokenWrite(runs: seq<Run>, r: nat, to: RunState)
    requires r < |runs| && Broken(to) && to != Cancelled
    ensures Decide(States(SetRun(runs, r, to))) != Decide(States(runs)) <==> Decisive(runs, r)
  {
    var rs, rs' := States(runs), States(SetRun(runs, r, to));
    CancelledInStates(runs);
    SetRunCancelled(runs, r, to);
    if Final(runs[r].state) {
      assert rs == rs';
    } else if Decisive(runs, r) {
      assert Broken(rs'[r]);
      assert !AnyUnfinished(rs');
      if Unfinished(runs[r].state) { assert Unfinished(rs[r]); }
    } else if i :| 0 <= i < |runs| && i != r && Unfinished(runs[i].state) {
      assert Unfinished(rs[i]) && Unfinished(rs'[i]);
    } else if i :| 0 <= i < |runs| && i != r && runs[i].state == Cancelled {
      assert rs'[i] == Cancelled;
    } else {
      var i :| 0 <= i < |runs| && i != r && runs[i].state == Interrupted;
      assert rs[i] == rs'[i] == Interrupted;
      assert !AnyUnfinished(rs) && !AnyUnfinished(rs');
    }
  }

  /** Writing an unfinished state over run `r` changes the decision exactly when `r`
      was interrupted and nothing else was unfinished. */
  lemma UnfinishedWrite(runs: seq<Run>, r: nat, to: RunState)
    requires r < |runs| && Unfinished(to)
    ensures Decide(States(SetRun(runs, r, to))) != Decide(States(runs)) <==> InterruptedAlone(runs, r)
  {
    var runs' := SetRun(runs, r, to);
    var rs, rs' := States(runs), States(runs');
    CancelledInStates(runs);
    SetRunCancelled(runs, r, to);
    if Final(runs[r].state) {
      assert rs == rs';
    } else {
      assert Unfinished(rs'[r]);
      if Unfinished(runs[r].state) {
        assert Unfinished(rs[r]);
      } else if i :| 0 <= i < |runs| && runs[i].state == Cancelled {
        assert rs'[i] == Cancelled;
      } else if i :| 0 <= i < |runs| && Unfinished(runs[i].state) {
        assert Unfinished(rs[i]) && Unfinished(rs'[i]);
      } else {
        assert !AnyUnfinished(rs);
      }
    }
  }

  lemma PromoteKeeps(runs: seq<Run>, r: nat)
    ensures Decide(States(PromoteRun(runs, r))) == Decide(States(runs))
  {
    if r < |runs| && runs[r].state == Delivered {
      UnfinishedWrite(runs, r, Running);
    }
  }

  lemma CreateDecides(runs: seq<Run>, agent: Agent)
    requires Cancelled !in States(runs)
    ensures var runs' := runs + [Run(agent, Queued)];
            && Cancelled !in States(runs')
            && (Decide(States(runs')) == Decide(States(runs)) <==> !NoneOpen(runs))
  {
    var runs' := runs + [Run(agent, Queued)];
    assert States(runs') == States(runs) + [Queued];
    assert Unfinished(States(runs')[|runs|]);
    StatesOf(runs);
  }

  /** The decision on the runs changes exactly at these steps. */
  lemma WhenDecisionChanges(s: Exec, e: Event)
    requires !HasCancelled(s) && s.pending == 0 && Next(s, e).pending == 0 && !e.Cancel?
    ensures Decide(States(Next(s, e).runs)) != Decide(States(s.runs)) <==> LeavesBehind(s, e)
  {
    var last := |s.runs| - 1;
    match e {
      case CreateRun(agent) => CreateDecides(s.runs, agent);
      case DispatchDeny => if CanDecide(s) { BrokenWrite(s.runs, last, Denied); }
      case DispatchUndeliverable => if CanDecide(s) { BrokenWrite(s.runs, last, NotDelivered); }
      case DispatchPark => if CanDecide(s) { UnfinishedWrite(s.runs, last, AwaitingApproval); }
      case DispatchSent => if CanDecide(s) { UnfinishedWrite(s.runs, last, Delivered); }
      case DispatchOffline => if CanDecide(s) && s.runs[last].state == Queued { UnfinishedWrite(s.runs, last, QueuedOffline); }
      case Output(r) => PromoteKeeps(s.runs, r);
      case DrainDelivered(r) => if r < |s.runs| { UnfinishedWrite(s.runs, r, Delivered); }
      case ApprovedSent(r) => if r < |s.runs| { UnfinishedWrite(s.runs, r, Delivered); }
      case ApprovedOffline(r) => if r < |s.runs| { UnfinishedWrite(s.runs, r, QueuedOffline); }
      case ApprovedUndeliverable(r) => if r < |s.runs| { BrokenWrite(s.runs, r, NotDelivered); }
      case _ =>
    }
  }

  /** A step that no finalization follows makes an agreeing row disagree exactly in the
      listed cases: dispatch records a run when none is open; dispatch or an approval
      finds a command undeliverable (or denied) whose run decides the aggregate; a late
      delivery mark falls on the last interrupted run; a cancel finds nothing to cancel. */
  lemma WhenBehind(s: Exec, e: Event)
    requires !HasCancelled(s) && s.pending == 0 && Agrees(s) && Next(s, e).pending == 0
    requires s.holder.Holding? ==> s.holder.decision.Write?
    ensures HasCancelled(Next(s, e)) || Agrees(Next(s, e)) <==> !LeavesBehind(s, e)
  {
    if e.Cancel? {
      CancelCancels(s.runs);
      CancelledInStates(s.runs);
      if forall i :: 0 <= i < |s.runs| ==> !Cancellable(s.runs[i].state) {
        assert CancelNonTerminalRuns(s.runs) == s.runs;
      }
    } else {
      WhenDecisionChanges(s, e);
      assert Effective(Next(s, e)) == Effective(s);
      assert HasCancelled(Next(s, e)) ==> Decide(States(Next(s, e).runs)) == Keep;
    }
  }
}
