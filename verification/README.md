# partout, modelled in Dafny

partout is a fleet tool: a server dispatches commands to agents, agents run them and report, and an
operator sees the outcome. This project models the parts of it where a property spans many steps, and
proves those properties. `dafny verify dfyconfig.toml` checks everything.

Paths below are relative to the root of the partout repository.

## What is modelled

**Executions** (`Aggregate`, `Executions`, `ExecutionSteps`, `ExecutionTheorems`, `AfterDispatch`, `Disconnects`,
`Sweeper`). One execution fans out to one run per host. `Executions` is a transition system over the rows of
one execution. Each store write is a step, dispatch is a sequence of steps host by host, and a finalization is
two steps (read the runs under `finMu`, write the row), so every other write can fall between them. The approval requests and the handing of commands to
the stream are steps too, so a write follows only what leads to it. Store operations follow their SQL. `Finalize` is
the source's counting code as a method. `Sweeper` is the time arithmetic of the stranded-run sweep.

**Dispatch and approval** (`Dispatch`, `DispatchSteps`, `Approvals`). Policy evaluation as its loops; a class with the
dispatch loop, approve, reject and the listing with its two expiry passes over the stored rows; and safety over
any history of them, the steps of listings interleaved with the rest.

**Offline delivery** (`Delivery`, `DeliverySteps`, `DeliveryOrder`, `DeliveryAgent`, `SpoolLog`, `BigEndian`).
Direct send, then spool, then drain, with concurrent pumps and drains, doubtful sends, and drops by the spool's limits.
`DeliveryAgent` has the agent's two routines as methods on its flag and spool. `SpoolLog` is the on-disk record format.

**Self-update** (`SelfUpdate`, `Rollback`, `UpdateMethod`). The update's disk steps, the boot guard script, the
boot check and the first connect, with a crash possible between any two steps.

**Event broker** (`Broker`, `BrokerSteps`, `BrokerDelivery`, `BrokerMethods`). The read-locked fan-out and the
write-locked drop as separate steps of a machine, and the code as methods on the client map.

**Handshake** (`Handshake`). The signed message and the skew check in 64-bit arithmetic.

**Line diff, command splitter, uninstaller** (`ElevationDiff`, `SplitCommand`, `NestedPaths`, `Uninstall`,
`UninstallSteps`, `UninstallTheorems`). Loops as methods, proved against recursive specifications, and what those mean.

**Policy history** (`PolicyHistory`, `PolicySteps`, `PolicyRaces`). Update and restore of stored elevation policies
over the two tables, as whole requests, and as interleaved SQL statements of overlapping requests.

The modules ending in `Steps`, and `Rollback`, say of every step of a machine, and of every request and plan,
what it changes, what it leaves alone and when it happens, over the stored words, names and numbers themselves.

Each class's methods are proved equal to value-level functions or to stretches of protocol steps; the theorems
are about those.

## Where code and promise differ

The code is modelled as it is. Each item has a witness or an exact condition among the lemmas.

- A result that is finalized while dispatch still records a later host can leave the execution on the wrong
  aggregate (internal/control/control.go:309-315), even on a failure while a run is in flight.
  So does an approved command that cannot be sent (372-376), and a run that its agent reports as cancelled
  on its own (466-471).
- A cancel does not stick when every unfinished run is interrupted, or when a finalization is between its read
  and its write (internal/control/control.go:430-433 does not take `finMu`).
- docs/architecture.md:207 says that a run lost to the spool's limits stays interrupted and is never silently
  succeeded. A run dropped once while it is still running goes on to deliver its result.
- The spool reader ignores a truncated tail (internal/spool/spool.go:571-572), except when the file ends right behind a
  length, which it reports as an error (596-601).
- The comment at internal/agent/agent.go:988-994 says that every crash window is covered. A crash after the marker and
  before the copy is refreshed makes the guard install the copy left by the previous update; a crash inside
  the copy makes it install a torn file.
- The stranded sweep works in whole seconds, so 5/4 of the ttl is not a bound for short ttls; a ttl of
  1 to 3 ns gives a zero tick.
- The skew check accepts one timestamp 2^63 seconds in the past.
- Overlapping Emit calls can leave a gap in a client's stream.
- The diff's lookahead does not consume the matched line on the other side (cmd/partout/elevation.go:94-97, 108-111), so
  shared lines can be reported.
- `dedupeNested` drops both of two equal paths (cmd/partout/uninstall.go:430-445). A plan meets that when the database is
  configured in the file root.
- Overlapping updates of a policy can lose a document, and a failed save of a version is ignored
  (internal/api/elevation.go:162, 228).
- Approving an overdue request tries to record a state that the store refuses
  (internal/store/approvals.go:184-187) and ignores the error, so the request stays pending until a listing
  expires it.
- A listing runs two expiry passes and throws the result of the second away
  (internal/server/approvals/approvals.go:234, 239), so a request that expires between them leaves its run
  waiting for ever. A pass returns a request that was approved after
  its selection (internal/store/approvals.go:166-178), and the run fails although its command was sent.
- An update whose retained copy is empty fails after the swap and undoes nothing (internal/agent/agent.go:1023-1026).
- docs/architecture.md:211-215 describes interrupted as counting as a failure; the code keeps a state of its own.

## Model

| member | source | states |
|---|---|---|
| Aggregate.Finalize | internal/control/control.go:452-515 | the scan for a cancelled run and the four counters decide exactly what the independent, quantifier-based reading of the run states decides: nothing for a cancelled run, otherwise the aggregate |
| Aggregate.Homomorphism | internal/control/control.go:473-506 | the aggregate of a concatenation is the join of the aggregates (running over interrupted over partial over the uniform outcomes), for all non-empty run lists |
| Aggregate.JoinLaws | internal/control/control.go:494-506 | the join of aggregates is commutative, idempotent and associative on the five computed states |
| Aggregate.OrderIrrelevant | internal/control/control.go:462-506 | permuting the runs never changes what a finalization decides, the cancelled and the empty case included |
| Aggregate.FailureMeansFailure | internal/control/control.go:478-506 | failed or partial is computed exactly when every run has its final outcome and one of them is a failure, so never while a run is interrupted or in flight; succeeded exactly when all runs succeeded |
| Executions.RunsAreFinal | internal/store/exec.go:180-196 | under every step of the system a run in a final state keeps it, keeps its agent, and is never removed (interrupted is not final) |
| Executions.OutcomesAreFinal | internal/store/exec.go:180-196 | ... and so over every sequence of steps: a recorded outcome is never overwritten by stale dispatch writes, disconnects, replays, sweeps or cancels |
| Executions.CancelCancels | internal/store/paging.go:152-164 | a cancel leaves some cancelled run behind exactly when some run was cancelled or in one of the five states it reaches (interrupted is not one of them) |
| Executions.Reachable | internal/control/control.go:44-48 | every interleaving of run writes, dispatch steps, cancels and finalizations split at finMu: a run is cancelled, or the row is what its last finalization made of what it read, and while none is due only writes without one have touched the runs since (they record runs, keep outcomes, and never make a run succeed or interrupted) |
| Executions.AgreesExactly | internal/control/control.go:452-515 | in every reachable state with no finalization due and no run cancelled, the row (with the write under way) is the aggregate of the current runs if and only if: it reads running just when some run is open, it reads succeeded only over as many runs as were read, it reads interrupted only while some run is, and it is not a fruitless cancel's; it then shows a failure only when every run has its outcome |
| AfterDispatch.AgreesAfterDispatch | internal/control/control.go:309-315 | in every history whose finalizations read after dispatch and that takes none of the steps of WhenBehind with nothing due: from the end of dispatch on a run is cancelled, a finalization that has not read is due, or the row is the aggregate of the runs, in flight or not |
| AfterDispatch.QuiescentAgrees | internal/control/control.go:452-515 | ... hence at quiescence the stored state is the aggregate of the current runs: a failure only when every run has its outcome, succeeded only when all succeeded, interrupted only while some run is interrupted and none is open |
| Executions.RecordedSince | internal/control/control.go:309-315 | when the runs a finalization read are as it read them and dispatch has recorded later ones: the row agrees if and only if joining their aggregate changes nothing, that is, open ones need a row that reads running and finished ones a row that does not read succeeded |
| Executions.BrokenWrite | internal/control/control.go:372-375 | writing not_delivered over a run changes the aggregate exactly when that run alone decided it |
| Executions.UnfinishedWrite | internal/control/control.go:354-356 | writing an in-flight state over a run changes the aggregate exactly when that run was interrupted and nothing else was unfinished |
| Executions.WhenBehind | internal/control/control.go:309-315 | exactly which steps without a finalization turn an agreeing row into a disagreeing one: dispatch records a run when none is open, or writes a final state over the run that decides the aggregate, an approved command that decides it proves undeliverable, a late mark falls on the last interrupted run, a cancel finds nothing to cancel |
| ExecutionTheorems.CancelledIsAbsorbing | internal/control/control.go:459-471 | from any reachable state that reads cancelled: no later sequence of results, disconnects, sweeps or finalizations changes it if and only if some run is cancelled and no finalization sits between its read and its write |
| ExecutionTheorems.WhenCancelSticks | internal/control/control.go:398-448 | the same as a condition the caller of CancelExecution can check before the call: some run is in a state the cancel reaches, and finMu is not held by a finalization about to write |
| Disconnects.DisconnectsAreInvisible | internal/control/control.go:566-600 | for every settled history without sweep or cancel and every history with the same run writes whose finalizations are done, whatever the disconnects and schedules: the same outcomes; the same stored state if and only if the second row is fresh; always the same state when the second one's finalizations read after dispatch and no approved command was undeliverable |
| Disconnects.ErasedHistory | internal/control/control.go:566-600 | from any settled history without sweep or cancel alone: its writes with all disconnects erased, followed by the finalizations they call for, are a history that ends quiescent with the same outcomes and the same stored state |
| Disconnects.WritesCallForOne | internal/control/control.go:452-515 | the writes of a settled history call for a finalization without any disconnect: a run whose command is handed over gets its outcome only by a write that calls for one |
| AfterDispatch.OrderlySettles | internal/control/control.go:452-515 | a history whose finalizations read after dispatch, without cancel and undeliverable approved command, shows the aggregate of its outcomes once they are recorded and its finalizations done, whatever its disconnects, replays and sweeps |
| Disconnects.ErasedOutcomesAgree | internal/control/control.go:575-600 | run by run: an outcome recorded in one of two histories with the same writes is recorded in the other |
| ExecutionTheorems.ResultDuringDispatchStrands | internal/control/control.go:309-315 | a reachable quiescent state that reads succeeded although one of its two runs was denied: a result finalized while dispatch is still recording |
| ExecutionTheorems.FailureWhileInFlight | internal/control/control.go:309-315 | a reachable quiescent state that reads failed while a run is in flight, and a cancel is refused in it |
| ExecutionTheorems.UndeliverableStrands | internal/control/control.go:372-376 | a reachable quiescent state that reads dispatching although its only run is not_delivered: the approved command could not be sent |
| ExecutionTheorems.AgentCancelStrands | internal/control/control.go:463-471 | a reachable quiescent state that reads dispatching although its only run is final: the agent reported the run cancelled without a cancel request |
| ExecutionSteps.DisconnectExactly | internal/store/exec.go:198-243 | a disconnect interrupts exactly the delivered and running runs of its own agent, leaves every other run as it was, and calls for a finalization if and only if some run changed |
| ExecutionSteps.SweepExactly | internal/control/control.go:523-538 | a sweep turns exactly the interrupted runs among those selected into not_delivered, and calls for a finalization if and only if there is one |
| ExecutionSteps.CancelExactly | internal/control/control.go:400-448 | a cancel is refused exactly on a row that reads succeeded, failed, partial or cancelled; otherwise exactly the runs in the five states it reaches are cancelled, and the row reads cancelled |
| ExecutionSteps.OutcomeExactly | internal/store/exec.go:180-196 | a result, an expiry and a rejection write their state over a run without an outcome, never over one with an outcome, and always call for a finalization; a rejection needs the run's request and spends it if it waits |
| ExecutionSteps.OutputExactly | internal/store/paging.go:143-150 | output turns a delivered run into a running one and does nothing else |
| ExecutionSteps.LateExactly | internal/control/control.go:340-388 | the late marks happen exactly after what leads to them (a hand-over, a granted approval), are guarded, and call for no finalization |
| ExecutionSteps.GrantExactly | internal/server/approvals/approvals.go:132-197 | a waiting request is granted once, and a granted command is handed over once |
| ExecutionSteps.LoopExactly | internal/control/control.go:162-315 | dispatch records one queued run at a time; its end calls for a finalization if and only if no recorded run was left without an outcome by it |
| ExecutionSteps.DispatchExactly | internal/control/control.go:209-307 | the one write for a recorded run: its state, whether the finalization flag survives, and which of the six writes is possible after which hand-over or request |
| ExecutionSteps.DispatchIdle | internal/control/control.go:209-307 | none of these writes happens without a recorded run under decision |
| ExecutionSteps.FinalizeReadExactly | internal/control/control.go:452-471 | a finalization reads exactly when one is due and finMu is free; it will write nothing if some run is cancelled, pending without runs, otherwise the aggregate of what it read |
| ExecutionSteps.FinalizeWriteExactly | internal/control/control.go:507-515 | its write frees finMu and changes the row exactly when it has something to write |
| ExecutionSteps.AggregateExactly | internal/control/control.go:473-506 | each of the five aggregates if and only if, over the stored state words: some run is open; none open and one interrupted; all succeeded; all failed one way or another; all finished with both |
| Sweeper.Interval | internal/control/control.go:544-548 | for every positive ttl the tick is at most a quarter of it and at most a minute; it is zero, which a ticker refuses, exactly for a ttl of 1 to 3 ns |
| Sweeper.IntervalExactly | internal/control/control.go:544-548 | the tick is a quarter, rounded down, of a positive ttl under four minutes, and a minute otherwise |
| Sweeper.ResolvesExactly | internal/store/exec.go:249-255 | a sweep resolves a run exactly when the second of its interruption lies before the sweep's by more than the ttl's whole seconds |
| Sweeper.ResolvesWhenDue | internal/store/exec.go:249-255 | with rows stamped in whole seconds, a sweep resolves a run exactly from a due time on that lies up to one second after the ttl |
| Sweeper.ResolveAllNow | internal/store/exec.go:250-255 | a non-positive ttl resolves every interrupted run at once |
| Sweeper.ResolvedInTime | internal/control/control.go:544-563 | for every start, ttl and interruption: the run is resolved by a first tick, not by an earlier one, after the ttl in whole seconds and within the worst case |
| Sweeper.WorstCaseIsReached | internal/control/control.go:544-563 | for every ttl some start and interruption take exactly the worst case |
| Sweeper.ExactBound | internal/control/control.go:544-563 | a bound on the time a run can stay interrupted holds for all starts and interruptions if and only if it is at least (whole seconds of ttl + 1 s) + tick - 1 ns |
| Sweeper.FiveQuarters | internal/control/control.go:540-548 | for every ttl from 4 ns: five quarters of it bound the time a run stays interrupted if and only if, below four minutes, it is one nanosecond short of a whole second, and from there on, the quarter makes up for the tick and the rest of the second (always from 244 s on) |
| Dispatch.Evaluate | internal/policy/policy.go:133-172 | the three collecting loops give deny over require_approval over allow, allow by default, with exactly the matching rule ids of the winning effect in rule order |
| Dispatch.IdsNonEmpty | internal/policy/policy.go:135-171 | an effect has collected ids exactly when some matching rule has it |
| DispatchSteps.VerdictExactly | internal/policy/policy.go:133-172 | deny if and only if some matching rule denies; require_approval if and only if one asks for it and none denies; allow otherwise |
| DispatchSteps.IdsExactly | internal/policy/policy.go:135-171 | the reported ids are those of exactly the matching rules with the effect, by position and in rule order |
| Dispatch.Control.DispatchHost | internal/control/control.go:166-307 | one turn of the host loop: the new rows, the request and the command handed out, and whether the run stays open |
| Dispatch.Control.DispatchAll | internal/control/control.go:162-315 | the whole loop, and that it ends with a finalization exactly when every recorded run already has its outcome |
| DispatchSteps.AddHostExactly | internal/control/control.go:189-307 | one host: nothing at all without a stored run; otherwise the run's state for every verdict, engine and link, one command if and only if the verdict is allow, one pending request if and only if it is require_approval and can be stored |
| DispatchSteps.HostsAdd | internal/control/control.go:162-307 | the loop only adds to the rows, one run for each host whose run is stored |
| DispatchSteps.HostRuns | internal/control/control.go:162-307 | the loop: one run, in host order, for exactly the hosts whose run is stored, each in the state its verdict and link give |
| DispatchSteps.HostCommands | internal/control/control.go:270-307 | ... one command for exactly the stored runs under allow |
| DispatchSteps.HostRequests | internal/control/control.go:209-255 | ... one pending request for exactly the stored runs under require_approval whose request can be stored |
| DispatchSteps.ApproveExactly | internal/server/approvals/approvals.go:132-197 | an approval adds a command if and only if the approver is an admin, the request is pending and not past its expiry, and its run is in one of the five open states; it then adds exactly one, with the parked payload, and marks request and run; otherwise it changes nothing |
| DispatchSteps.OnlyAnAdminReleases | internal/server/approvals/approvals.go:132-197 | over every history: a command that carries an approval was put on the stream by an approve operation on that request which met all those conditions at that moment |
| DispatchSteps.RejectExactly | internal/server/approvals/approvals.go:201-228 | a denial takes effect if and only if an admin denies a pending request; it fails the held run unless that has an outcome, and touches nothing else |
| Dispatch.Control.Approve | internal/server/approvals/approvals.go:132-197 | the request's new state, the command that leaves with the parked payload and the run's new state, or nothing at all, exactly by role, expiry, request state and run state; an overdue request is refused and stays pending |
| Dispatch.Control.Reject | internal/server/approvals/approvals.go:201-228 | the request's new state and its run's failure, exactly for an admin and a pending request |
| Dispatch.Control.ExpireOverdue | internal/store/approvals.go:137-179 | the pass returns exactly the overdue pending requests it selected, and marks those of them still pending |
| Dispatch.Control.List | internal/server/approvals/approvals.go:233-258 | a listing that nothing interrupts: the first pass marks its selection and fails the runs it held, the second pass of the store marks and its result is thrown away |
| DispatchSteps.SelectExactly | internal/store/approvals.go:137-165 | the first pass selects exactly the pending requests past their expiry, in order |
| DispatchSteps.MarkExactly | internal/store/approvals.go:166-178 | its marking expires exactly those of its selection that are still pending |
| DispatchSteps.FailListedExactly | internal/server/approvals/approvals.go:233-258 | its failing changes exactly the runs without an outcome that the selected requests hold |
| DispatchSteps.SecondPassExactly | internal/store/approvals.go:98-103 | the second pass expires exactly the pending requests past their expiry by then |
| DispatchSteps.ListingIdle | internal/server/approvals/approvals.go:233-240 | out of turn a step of a listing does nothing |
| DispatchSteps.ReportExactly | internal/store/exec.go:180-196 | any other run write changes exactly a run without an outcome |
| Approvals.Uninterrupted | internal/server/approvals/approvals.go:233-240 | the four steps of a listing taken in one go are the method's effect |
| Approvals.FailExactly | internal/server/approvals/approvals.go:242-258 | failing the runs of a selection changes exactly those of them that have no outcome |
| Approvals.ReleasedExactly | internal/server/approvals/approvals.go:233-240 | one operation keeps every rejected or expired request's run released (an outcome, or a listing about to give it one) if and only if it is not a second pass that expires a request still holding its run |
| Approvals.ReleasedHistory | internal/server/approvals/approvals.go:233-258 | over every history, listings interleaved with everything else: the runs are released at all times if and only if no second pass does that |
| Approvals.SecondPassForgets | internal/store/approvals.go:98-103 | a request that expires between the two passes of one listing: it is expired, its run waits for approval, and no listing will fail it |
| Approvals.ForgottenForever | internal/store/approvals.go:137-147 | such a run is touched by no later dispatch, approval, rejection or listing, whatever the sequence |
| Approvals.FailsSentExactly | internal/store/approvals.go:166-178 | a listing fails a run whose command was sent if and only if the run has no outcome and its request was approved between the listing's selection and its marking |
| Approvals.ApprovedThenFailed | internal/store/approvals.go:166-178 | a history in which that happens |
| Dispatch.SoundHistory | internal/control/control.go:166-387 | over every history of dispatches, approvals, rejections, listings and run writes: every sent command is justified, no two commands and no two requests share a run |
| Dispatch.CommandsFailClosed | internal/control/control.go:189-307 | ... hence every command that ever left was recorded first, was not under a deny, left through an approved request if its verdict was require_approval, carries the cmd, args, env and timeout asked for, and left once |
| Dispatch.SendsExactlyTheAllowed | internal/control/control.go:279-307 | one dispatch sends the command of a run it records exactly when the verdict is allow |
| Dispatch.SentThroughRequest | internal/control/control.go:340-387 | a command for the run of an approval request can have left only through that request's approval |
| Delivery.Reachable | internal/agent/agent.go:1365-1437 | every interleaving of two pumps, the result, concurrent drains, lost or doubtful sends and spool drops keeps: nothing produced is forgotten, and the result never overtakes a chunk |
| Delivery.ResultMeansComplete | internal/spool/spool.go:222-232 | a run whose result reached the server has all its output there if and only if the spool dropped nothing undelivered of it before the result was spooled |
| Delivery.LostForever | internal/spool/spool.go:523-543 | a chunk that the spool dropped undelivered never reaches the server |
| Delivery.FullDrainDelivers | internal/spool/spool.go:227-291 | once the result call has returned and the spool is empty, every chunk and the result are at the server, unless the spool dropped something |
| DeliveryOrder.ReceivedIsPrefix | internal/agent/agent.go:1365-1460 | with one pump at a time, under any losses and any failed, repeated or concurrent drains: what the server received, by first receipt, is a prefix of what the run produced; with the spooled records it covers it; after a full drain both are equal, the result last |
| DeliveryOrder.DropInTheMiddle | internal/spool/spool.go:546-556 | a reachable end state in which the server holds the run's result and not its first chunk, the run having been dropped once while it went on |
| DeliveryAgent.Agent.Deliver | internal/agent/agent.go:1367-1402 | the method's flag and spool afterwards, and that it is a stretch of protocol steps, for every answer of the stream |
| DeliveryAgent.Agent.DrainSpool | internal/agent/agent.go:1446-1460 | sends a copy in order; empties the spool and clears the flag exactly when all sends succeeded, else leaves both alone; and is a stretch of protocol steps |
| DeliveryAgent.DeliverEffect | internal/agent/agent.go:1367-1402 | the four protocol steps of a delivery amount to a direct send, or to spooling after a failed send or because the run spools already |
| DeliverySteps.BeginExactly | internal/agent/agent.go:1365-1425 | when a chunk and when the result begin their delivery, and that the result does so once, after all chunks' calls have returned |
| DeliverySteps.CallExactly | internal/agent/agent.go:1381-1402 | a record of a run that spools is appended without a send; any other is sent, and appended only after a failed send has set the flag |
| DeliverySteps.CallIdle | internal/agent/agent.go:1381-1402 | a call's steps happen in this order only |
| DeliverySteps.StartDrainExactly | internal/spool/spool.go:235-262 | a drain begins if and only if the spool holds the result, on a copy of all records |
| DeliverySteps.DrainSendExactly | internal/spool/spool.go:262-280 | it sends its copy in order and is given up at the first failed send |
| DeliverySteps.EndDrainExactly | internal/spool/spool.go:412-470 | after its last send as many records as it copied are removed from the front, and the flag goes if and only if the spool is then empty |
| DeliverySteps.DropExactly | internal/spool/spool.go:523-556 | a drop empties the spool and leaves the flag; it loses exactly the spooled records that the server has not received |
| DeliverySteps.DrainDelivers | internal/spool/spool.go:227-291 | a drain of which every send succeeds delivers the whole spool in order and empties it |
| DeliverySteps.DrainStops | internal/spool/spool.go:262-280 | one that fails at record k delivers the records before it, and k itself if it got through all the same; spool and flag stay |
| SelfUpdate.CrashSafe | internal/agent/agent.go:926-1066 | with whole copies, after any number of updates, crashes, guarded and unguarded boots: the installed binary has connected as a target (or is the first one), or is validated with a marker naming it and a proven N-1 copy |
| SelfUpdate.NothingUnvalidated | internal/agent/agent.go:926-1066 | after any history whatever, copies torn, emptied or refused included: what is installed and what is kept to go back to is a proven binary, a validated artifact or a damaged copy, never any other artifact |
| SelfUpdate.OldProcessKeepsMarker | internal/agent/agent.go:1113-1139 | a process that has swapped cannot remove its own update's marker by connecting, nor start a second update |
| SelfUpdate.WhenUpdateIsSafe | internal/agent/agent.go:984-1023 | one update under crashes at any point leaves the original or a validated artifact installed if and only if the N-1 copy already equals the installed binary, or there is none and copies are never torn |
| SelfUpdate.StaleCopyInstalled | deploy/systemd/partout-update-guard.sh:57-66 | a crash right after the marker was written makes the guard install an older copy over the untouched original |
| SelfUpdate.TornCopyInstalled | internal/agent/update/update.go:270-279 | a crash while the N-1 copy is written makes the guard install the torn copy |
| SelfUpdate.NextUpdateIsUnsafe | internal/agent/update/update.go:246-279 | after every completed and verified update the retained copy is the previous version, so the next update starts from a disk on which it is not crash-safe |
| Rollback.DirectiveExactly | internal/agent/agent.go:926-982 | an update starts if and only if the agent is connected with none in flight, the offer is signed, has the signed hash and reports the offered version, and that is not the running one |
| Rollback.SwapExactly | internal/agent/agent.go:984-1013 | the marker names the offered version before the copy is taken, and the copy is the installed binary before the artifact replaces it |
| Rollback.CopyFailsExactly | internal/agent/update/update.go:246-290 | what a torn, a failed and an impossible copy leave, and that a copy equal to the installed binary is not written |
| Rollback.RenameFailsExactly | internal/agent/update/update.go:290-309 | a failed rename removes the marker and keeps the copy; after a rename the process exits unless the copy is empty |
| Rollback.OutOfPhase | internal/agent/agent.go:984-1027 | the steps of an update, of the guard and of a boot happen in this order only |
| Rollback.CrashExactly | internal/agent/update/update.go:338-360 | a crash keeps the disk; without the guard a binary that runs is started whatever the marker says |
| Rollback.GuardStartsExactly | deploy/systemd/partout-update-guard.sh:27-55 | from Off the guard starts the installed binary untouched if and only if it runs and, with a marker, it reports the marker's version and the marker is fresh |
| Rollback.GuardRollsBack | deploy/systemd/partout-update-guard.sh:57-66 | with a marker and in every other case the retained copy, if any, is installed, the marker is removed, and what is then installed is started if it runs |
| Rollback.BootCheckExactly | internal/agent/update/update.go:338-360 | the boot check keeps a binary without marker or with the marker's version, and otherwise installs the copy and removes the marker |
| Rollback.ConnectExactly | internal/agent/agent.go:1113-1139 | a connect past the boot check proves the binary and removes the marker exactly when the marker names its version |
| Rollback.StaysUnconfirmed | internal/agent/agent.go:988-994 | a swapped binary that never connects stays installed, with marker and copy, through any number of boots, boot checks and crashes while the marker is fresh |
| Rollback.UnhealthyIsRolledBack | deploy/systemd/partout-update-guard.sh:51-66 | ... and is replaced by the retained N-1 binary, and the marker removed, at the first guard run that finds the marker stale |
| Rollback.SwappedIsUnconfirmed | internal/agent/agent.go:996-1066 | every completed swap of a valid offer is such a state once the old process is gone |
| UpdateMethod.Updater.BeginUpdate | internal/agent/agent.go:918-920 | the slot is claimed exactly when it was free |
| UpdateMethod.Updater.ExecUpdate | internal/agent/agent.go:926-1066 | the disk afterwards is that of the protocol's steps; a swap is reported exactly for an accepted offer whose swap works and whose retained copy is not empty; every failure frees the slot, and leaves the installed binary alone except the refusal of an empty copy, which comes after the swap |
| UpdateMethod.UpdateEffect | internal/agent/agent.go:988-1027 | an uninterrupted update amounts to the new binary with the old one retained, or to the old binary with the marker removed |
| BigEndian.DecodeEncode | internal/hsauth/hsauth.go:25-27 | a number that fits is read back from its big-endian bytes |
| BigEndian.EncodeDecode | internal/spool/spool.go:566-569 | bytes are written back from the number they stand for |
| BigEndian.EncodeAt | internal/hsauth/hsauth.go:25-27 | byte i of an encoding is the number divided by the power of 256 for the bytes behind it, modulo 256 |
| Handshake.TimestampBytes | internal/hsauth/hsauth.go:25-28 | the last eight bytes of a message are the timestamp in two's complement, the most significant first |
| Handshake.BuildMsg | internal/hsauth/hsauth.go:21-29 | the buffer is nonce, uuid and the timestamp's two's complement in eight big-endian bytes, for every int64 |
| Handshake.ParseMessage | internal/hsauth/hsauth.go:20-29 | a message is read back to exactly the nonce, uuid and timestamp it was built from when the nonce length is known |
| Handshake.MessageInjective | internal/hsauth/hsauth.go:20-29 | two messages are equal if and only if timestamps and nonce+uuid texts are; for nonces of one length, if and only if all three parts are |
| Handshake.CheckSkew | internal/hsauth/hsauth.go:31-41 | with wrapping int64 arithmetic accepts exactly the tolerated timestamps |
| Handshake.SkewExact | internal/hsauth/hsauth.go:33-37 | ... which over all int64 pairs are the distances up to 300, exactly 2^63, and from 2^64-300 on |
| Handshake.RealisticClock | internal/hsauth/hsauth.go:31-41 | for 0 <= now < 2^62: exactly &#124;now-ts&#124; <= 300, and the single wrap point ts = now - 2^63 |
| SpoolLog.RecordBytes | internal/spool/spool.go:560-570 | a record is its length in four bytes, the most significant first, and itself |
| SpoolLog.ReadExactly | internal/spool/spool.go:573-609 | reading by cases on the next length: short tail, length 0 or over 2^24, end of file behind the length, cut record, whole record |
| SpoolLog.WholeRecordsExactly | internal/spool/spool.go:571-609 | the whole records of a cut log are as many as fit into the bytes that are left |
| SpoolLog.AfterLengthExactly | internal/spool/spool.go:596-601 | the cuts at which reading fails are exactly those four bytes into a record |
| SpoolLog.ReadSpoolFile | internal/spool/spool.go:573-609 | the loop over the file yields the records and the status of the recursive reading |
| SpoolLog.ReadLog | internal/spool/spool.go:560-609 | a log of records of 1 to 2^24 bytes is read back in full |
| SpoolLog.ReadCut | internal/spool/spool.go:571-609 | a log cut at any byte is read to exactly its whole records before the cut, and reading ends normally unless the cut falls right behind a length, where it ends in an error |
| SpoolLog.AppendLog | internal/spool/spool.go:372-382 | appending a record's bytes to the file of a log gives the file of the longer log |
| Broker.AlwaysSafe | internal/sse/sse.go:36-99 | in every interleaving of Emit calls (read and write section apart), subscribes, unsubscribes and receives: no send on a closed channel, no channel closed twice, every channel in the map open, at most 256 events buffered |
| BrokerSteps.StartExactly | internal/sse/sse.go:53-54 | an Emit call is to offer its event to exactly the clients of that moment |
| BrokerSteps.OfferExactly | internal/sse/sse.go:55-61 | an offer appends the event behind fewer than 256 waiting ones, and otherwise notes the client and leaves its channel alone |
| BrokerSteps.EndExactly | internal/sse/sse.go:62-65 | after its last offer a call returns if no client was full, and otherwise waits to drop those that were |
| BrokerSteps.DropExactly | internal/sse/sse.go:64-73 | once no call is offering, exactly the noted clients still in the map are closed, with what they have buffered, and removed |
| BrokerSteps.MembersExactly | internal/sse/sse.go:90-99 | a subscriber joins with an empty open channel, a leaving one keeps its channel open, both only while no call is offering |
| BrokerSteps.ReceiveExactly | internal/sse/sse.go:106-117 | a client receives the event that has waited longest, from a closed channel too |
| BrokerDelivery.DeliveredToSubscribers | internal/sse/sse.go:53-74 | in every interleaving a client gets each event at most once, only events begun after it subscribed, and while subscribed every such event whose Emit has returned |
| BrokerDelivery.GapFree | internal/sse/sse.go:53-74 | when Emit calls do not overlap, each client's stream is a gap-free segment of the emitted sequence from its subscription on, up to the last event while it is subscribed |
| BrokerDelivery.DeliveryExtends | internal/sse/sse.go:53-62 | a delivery leaves a gap-free stream gap-free if and only if no Emit call with an earlier event has still to offer it to the client or to drop the client |
| BrokerDelivery.GapFreeExactly | internal/sse/sse.go:53-74 | in every interleaving a client's stream is a gap-free segment if and only if every delivery to it came in turn in that sense |
| BrokerDelivery.FullMeansMissed | internal/sse/sse.go:55-61 | a client that was full when offered an event never gets it, whatever it reads and whatever is emitted later |
| BrokerDelivery.OverlapLeavesGap | internal/sse/sse.go:53-74 | with overlapping Emit calls a client that was full, read one event and is not dropped yet receives event 257 and never 256 |
| BrokerMethods.EventBroker.AddClient | internal/sse/sse.go:90-94 | the new map, and that subscribing is one protocol step |
| BrokerMethods.EventBroker.RemoveClient | internal/sse/sse.go:95-99 | the new map, and that unsubscribing is one protocol step; the channel is not closed |
| BrokerMethods.EventBroker.OfferAll | internal/sse/sse.go:53-62 | the read section: the event appended for exactly the clients with room, the others noted, by protocol steps |
| BrokerMethods.EventBroker.DropClients | internal/sse/sse.go:64-73 | the write section: exactly the noted clients closed and removed |
| BrokerMethods.EventBroker.Emit | internal/sse/sse.go:36-74 | exactly the clients with room stay, each with the event appended; the full ones are closed and removed |
| BrokerMethods.EventBroker.Take | internal/sse/sse.go:106-117 | a client receives the oldest buffered event and no other client is affected |
| ElevationDiff.Diff | cmd/partout/elevation.go:72-123 | terminates; the text is that of the scan, and it is empty if and only if one file is the other with newlines at its end, so they are equal up to trailing newlines |
| ElevationDiff.DiffLines | cmd/partout/elevation.go:76-121 | the nested index loops emit exactly the report of the recursive scan |
| ElevationDiff.FindAhead | cmd/partout/elevation.go:84-93 | the lookahead finds the first of at most three lines that matches, or none |
| ElevationDiff.TrimExactly | cmd/partout/elevation.go:73-74 | trimming takes off newlines only, and all of them at the end |
| ElevationDiff.TrimSame | cmd/partout/elevation.go:73-74 | two texts are the same after trimming if and only if one is the other with newlines at its end |
| ElevationDiff.SplitJoin | cmd/partout/elevation.go:73-74 | splitting a text joined from lines without newlines gives those lines |
| ElevationDiff.SplitIntoLines | cmd/partout/elevation.go:73-74 | no line of a split contains a newline |
| ElevationDiff.TurnExactly | cmd/partout/elevation.go:76-114 | one turn of the scan by cases on the next three lines of either file: what it reports and where it goes on |
| ElevationDiff.TailExactly | cmd/partout/elevation.go:116-121 | when one file is used up, every remaining line of the other is reported, and nothing else |
| ElevationDiff.JoinSplit | cmd/partout/elevation.go:73-74 | joining the lines of a text gives the text back |
| ElevationDiff.NothingReported | cmd/partout/elevation.go:76-121 | the report is empty if and only if the line lists are equal |
| ElevationDiff.Accounted | cmd/partout/elevation.go:76-121 | every line of either file is consumed exactly once and in order |
| ElevationDiff.SilentLinesAreShared | cmd/partout/elevation.go:77-113 | a line passed over in one file occurs in the other |
| ElevationDiff.ReportIsSound | cmd/partout/elevation.go:70-123 | for all files: the '-' lines and some kept lines interleave to the installed file, the '+' lines and some kept lines to the rendered one, and each kept line occurs in the other file |
| ElevationDiff.WhenItIsADiff | cmd/partout/elevation.go:94-111 | if no differing line recurs one or two places further down the other file, the lines left out of both sides are one and the same sequence; for files without repeated lines also only then |
| ElevationDiff.SharedLineReported | cmd/partout/elevation.go:94-97 | for [x, y] against [y] the report is '- x', '- y' although y is in both files |
| ElevationDiff.RepeatsCanRealign | cmd/partout/elevation.go:94-111 | with a repeated line the report can be a diff although the lookahead fired |
| SplitCommand.Command | internal/api/elevation_explain.go:156-189 | the scanning loop returns the words of the line as name and argv; the name is empty exactly when there is no word |
| SplitCommand.SplitShow | internal/api/elevation_explain.go:151-189 | round trip: however a line is laid out from bare characters, quoted segments of either mark, separators and possibly an unclosed last quotation, splitting it gives back its words |
| SplitCommand.LayoutShows | internal/api/elevation_explain.go:170-183 | every string is such a layout |
| SplitCommand.SplitExactly | internal/api/elevation_explain.go:156-189 | splitting gives ts if and only if the line can be laid out with words ts |
| SplitCommand.NoEmptyWord | internal/api/elevation_explain.go:160-165 | no word of a split is empty |
| SplitCommand.SplitDistributes | internal/api/elevation_explain.go:178-179 | appending a separator and a second line outside quotes splits into the words of both |
| SplitCommand.Writable | internal/api/elevation_explain.go:156-189 | a list of words is the split of some line if and only if none of them is empty |
| NestedPaths.UnderIsPrefix | cmd/partout/uninstall.go:419-427 | containment by relative path is the component-prefix relation, save for a next component of '..' |
| NestedPaths.UnderTransitive | cmd/partout/uninstall.go:419-427 | containment is transitive |
| NestedPaths.DedupeNested | cmd/partout/uninstall.go:429-445 | the nested loops return the list without exactly the paths inside another entry |
| NestedPaths.InsideAnother | cmd/partout/uninstall.go:433-439 | the inner loop finds exactly whether another entry contains the path |
| NestedPaths.InOrder | cmd/partout/uninstall.go:429-445 | the result is the paths inside no other entry, each at its place in the order of the list |
| NestedPaths.Antichain | cmd/partout/uninstall.go:429-445 | no path of the result lies under another one, for every input list |
| NestedPaths.CoveredExactly | cmd/partout/uninstall.go:429-445 | every path of the list lies under a path of the result if and only if no outermost path occurs twice |
| Uninstall.Plan.Build | cmd/partout/uninstall.go:104-255 | the constructed plan's steps, kept directories, notes and scope for every host, and that root is needed if and only if one of the five unit files exists |
| Uninstall.Plan.Execute | cmd/partout/uninstall.go:305-357 | what took effect and whether the run failed, for every outcome of every step, and the note off systemd |
| Uninstall.FindState | cmd/partout/uninstall.go:154-181 | the state directories of a host |
| UninstallSteps.UnitsExactly | cmd/partout/uninstall.go:107-112 | the units found are exactly those of the five names whose file exists in the unit directory, in stop order |
| UninstallSteps.ConfigExactly | cmd/partout/uninstall.go:200-206 | the configuration files found are exactly those of the four names whose file exists in the configuration directory, in that order |
| UninstallSteps.ServicesExactly | cmd/partout/uninstall.go:129-138 | a unit is stopped, and it is disabled, if and only if it is one of the five names and its file exists |
| UninstallSteps.UnitFilesExactly | cmd/partout/uninstall.go:183-186 | a path is removed as a unit file if and only if it is the file of such a unit |
| UninstallSteps.PlanExactly | cmd/partout/uninstall.go:129-250 | the plan in full, step by step, in terms of the units, configuration files and state directories on the host |
| UninstallSteps.LocationsExactly | cmd/partout/uninstall.go:152-180 | how often each directory is found as a location of state, under each of the five conditions |
| UninstallSteps.StateExactly | cmd/partout/uninstall.go:152-181 | a directory is a state directory of the plan if and only if it is found exactly once and lies inside no other location |
| UninstallSteps.NotesExactly | cmd/partout/uninstall.go:211-228 | the configuration directory is noted as kept exactly when it can be listed, holds a file of ours and one that is not ours; the binary exactly when it exists and is to be kept |
| UninstallSteps.ScopeExactly | cmd/partout/uninstall.go:106-127 | the scope from the presence of the three service units |
| UninstallSteps.NothingExactly | cmd/partout/uninstall.go:252-254 | nothing is reported if and only if none of the five units, four configuration files and the binary exists and no state directory is left |
| UninstallSteps.RunLiterally | cmd/partout/uninstall.go:305-357 | a run does exactly the attempted steps (services on systemd only, an existing user only, everything else always) that succeed before an attempted one fails hard, and fails if and only if one does |
| UninstallTheorems.PlanOrder | cmd/partout/uninstall.go:130-241 | in every plan all stops and disables come before anything else, stops before disables before unit files before the reload before the configuration directory before the state before its user |
| UninstallTheorems.RunExactly | cmd/partout/uninstall.go:319-356 | a run performs, in plan order, exactly the attempted steps that succeed with no hard failure before them, and fails if and only if some step fails hard |
| UninstallTheorems.FailedStopRemovesNothing | cmd/partout/uninstall.go:302-304 | on systemd, for every host and plan: when stopping some unit fails hard, only stops took effect |
| UninstallTheorems.StateIsRemovedOrKept | cmd/partout/uninstall.go:230-241 | a directory is removed as state if and only if the plan is a purge and it is a state directory; Build lists the same directories as kept exactly in the other case |
| UninstallTheorems.StateIsCoveredExactly | cmd/partout/uninstall.go:153-181 | a purge removes a directory above every state location if and only if no outermost location is found twice |
| UninstallTheorems.DatabaseInTheFileRoot | cmd/partout/uninstall.go:159-166 | with the database configured directly in the file root that directory is itself neither removed by a purge nor kept |
| UninstallTheorems.FileRootIsForgotten | cmd/partout/uninstall.go:159-166 | ... and unless some other location contains it, no removed and no kept directory lies above it |
| UninstallTheorems.NothingFoundExactly | cmd/partout/uninstall.go:252-254 | whatever the options, nothing to remove is reported if and only if there is no unit, no configuration file, no binary and no state directory left; the last means no state location at all unless an outermost one is found twice |
| PolicyHistory.Store.EplUpdate | internal/api/elevation.go:141-174 | the store afterwards and the outcome, for every body and every failing statement; only a done update changes a policy |
| PolicyHistory.Store.EplVersionRestore | internal/api/elevation.go:209-237 | the store afterwards and the outcome of a restore; only a done one changes a policy |
| PolicySteps.CreateExactly | internal/api/elevation.go:102-139 | a create is refused without a policy or a name, conflicts on an id or a name that exists, and otherwise adds one row |
| PolicySteps.UpdateExactly | internal/api/elevation.go:141-174 | each outcome of an update if and only if its condition on body, key and statements holds; the policy's document before it is saved under the next number even where the write fails, and exactly that policy's document is replaced |
| PolicySteps.RestoreExactly | internal/api/elevation.go:209-237 | no policy, no positive number, no such version are refused in this order and change nothing; otherwise the current document is saved and the version's written |
| PolicySteps.NextIsMaxPlusOne | internal/store/elevation.go:133-136 | the number drawn is the one after the highest the policy has used, and 1 before any |
| PolicyHistory.MaxIsCount | internal/store/elevation.go:133-136 | the highest version number of a policy is the number of its versions |
| PolicyHistory.InvKept | internal/store/elevation.go:130-147 | every request keeps ids and names distinct and version numbers consecutive |
| PolicyHistory.NumbersAreContiguous | internal/store/elevation.go:130-158 | the versions of a policy are 1..n, each once, in the order they were saved |
| PolicyHistory.LosslessExactly | internal/api/elevation.go:156-168 | a request keeps every document current or recorded if and only if the save of the row it overwrites goes through, or the row already holds the new document, or has its document recorded |
| PolicyHistory.NothingIsLost | internal/api/elevation.go:156-168 | over every run of such requests every current or recorded document stays current or recorded |
| PolicyHistory.EverCurrent | internal/api/elevation.go:156-168 | ... hence every document that was ever current is current or recorded at the end |
| PolicyHistory.SavedRunsLoseNothing | internal/api/elevation.go:156-168 | every run of requests whose saves go through whenever their writes do is such a run |
| PolicyHistory.FindSelf | internal/store/elevation.go:70-74 | a lookup by the id of a policy finds that policy, however other policies are named |
| PolicyHistory.RestorableExactly | internal/api/elevation.go:209-233 | with working statements a restore is done if and only if the key names a policy and the number one of its versions |
| PolicyHistory.RestoreTwice | internal/api/elevation.go:209-237 | restoring a version and then the version this restore saved gives back every policy's rules, hash and description, with two versions appended |
| PolicySteps.ReadsExactly | internal/api/elevation.go:156-165 | a request remembers the document it read and draws the number that is next when it asks |
| PolicySteps.InsertExactly | internal/store/elevation.go:133-147 | the insert adds what was read under the number drawn if and only if the database takes it and the number is still free |
| PolicySteps.WriteExactly | internal/store/elevation.go:55-65 | the write replaces whatever is current by then |
| PolicyRaces.LossExactly | internal/api/elevation.go:156-168 | one statement loses a document if and only if it is a write of another one over it while no version records it; its request then had read another document or had not saved it |
| PolicyRaces.KeptExactly | internal/api/elevation.go:156-168 | in every interleaving of requests, statement by statement, a document stays current or recorded at all times if and only if there is no such write |
| PolicyRaces.LostOnlyToABlindWrite | internal/api/elevation.go:156-168 | a document that is lost in the end was lost to such a write |
| PolicyRaces.Uninterrupted | internal/api/elevation.go:156-168 | a request that nothing interrupts saves the document it overwrites under the next number |
| PolicyRaces.OvertakenIsReached | internal/api/elevation.go:159-164 | the state the next two start from is reached: one request has read a document that another one then replaced |
| PolicyRaces.OverlapLosesADocument | internal/api/elevation.go:159-164 | two overlapping updates lose the document written by the first |
| PolicyRaces.CollisionLosesADocument | internal/store/elevation.go:133-147 | two requests that draw one number lose a document that the second one did read, its refused insert being ignored |

## Left out

- Executions.Reachable: cancel is one step, though the source checks the state, cancels the runs and writes the row in three statements. A disconnect's SELECT and UPDATE are one step: a run of the agent that becomes delivered between them is interrupted in the code without a finalization of its execution.
- Executions.AgreesExactly: server restarts, the expiry of stale offline runs at start-up and database errors are not steps of the system.
- Disconnects.DisconnectsAreInvisible: histories with a sweep or a cancel are excluded, since those turn an interrupted run into another outcome.
- Sweeper.ResolvedInTime: sweeps are on time and instantaneous; a ttl of 1 to 3 ns, for which the ticker panics, is excluded.
- Dispatch.Evaluate: how a rule matches an action (selectors, roles, regular expressions, end of support) is a parameter.
- Dispatch.CommandsFailClosed: signatures, audit rows and the JSON round trip of the parked payload are not modelled; an approval request for a surface other than exec is not modelled.
- Delivery.Reachable: a send that returns nil has reached the server and an append to the spool succeeds; the spool's memory and disk tiers, and the choice of the run it drops, are one Drop step.
- DeliveryOrder.ReceivedIsPrefix: needs one output pump at a time and no chunk dropped; two pumps number their chunks with one counter and may send them out of order.
- SelfUpdate.CrashSafe: the copy is written whole; WhenUpdateIsSafe says what a torn copy does. NothingUnvalidated says what holds with damaged copies. The data directory is set, versions are compared after stripping a leading "v", a refused beta or architecture counts as an unsigned offer, and a marker without a target version is not modelled.
- SpoolLog.ReadSpoolFile: that a record's bytes decode as an envelope is not modelled, nor are read errors of the file system.
- Broker.AlwaysSafe: subscribing takes its number and enters the map in one step, though the source draws the number before it takes the lock.
- BrokerMethods.EventBroker.Emit: the order in which the map is walked is left open.
- ElevationDiff.WhenItIsADiff: the only-if half is for files without repeated lines; RepeatsCanRealign shows that it fails with them.
- SplitCommand.Command: strings are sequences of characters; bytes that are not UTF-8 are not modelled.
- NestedPaths.UnderIsPrefix: paths are given as cleaned component lists; the string-level cleaning is not modelled.
- Uninstall.Plan.Build: reading the env files is not modelled; the directory of a configured database and the agent's data directory are inputs.
- Uninstall.Plan.Execute: each command or removal has a given outcome; printing, signals and the root check are left out.
- UninstallTheorems.FailedStopRemovesNothing: off systemd stops are skipped, so nothing protects a running process there.
- PolicyHistory.FindSelf: when a key is one policy's id and another one's name, SQL leaves open which row comes first; the model takes the id match, as SQLite answers with the two unique indexes of the schema.
- PolicyHistory.EverCurrent: deleting a policy, which drops its current document without a version, is not among the requests.
- PolicyRaces.LostOnlyToABlindWrite: one policy, and a restore counts as an update with an earlier document.
- Rule canonicalisation and hashing, elevation pushes, REST plumbing, audit rows, event payloads and logging.
- Certificates, identities, random ids, configuration and static files: thin wrappers or enum mappings.
