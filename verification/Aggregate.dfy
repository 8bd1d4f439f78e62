/** Run and execution states, the guarded run update of the store, and the
    aggregate that FinalizeExecution recomputes from the runs of an execution. */
module Aggregate {

  /** The state of one run (one host's share of an execution), as stored. */
  datatype RunState =
    | Queued | QueuedOffline | Delivered | Running | AwaitingApproval
    | Succeeded | Failed | TimedOut | Cancelled | Interrupted
    | Expired | NotDelivered | Denied

  /** The state of an execution.  The stored words are, in this order: pending,
      dispatching, running, succeeded, failed, partial, cancelled, interrupted. */
  datatype ExecState =
    | NoRuns | Dispatching | InFlight | AllSucceeded | AllFailed | Partial
    | WasCancelled | Stalled

  /** What one finalization does with the execution row. */
  datatype Decision = Keep | Write(state: ExecState)

  // ---- how FinalizeExecution sorts run states ----

  predicate Broken(r: RunState) {
    r in {Failed, TimedOut, NotDelivered, Cancelled, Denied, Expired}
  }

  predicate Unfinished(r: RunState) {
    r != Succeeded && r != Interrupted && !Broken(r)
  }

  /** Final states are the ones UpdateRunState never overwrites. */
  predicate Final(r: RunState) {
    r == Succeeded || Broken(r)
  }

  /** The guard of the store's UpdateRunState. */
  function Update(r: RunState, to: RunState): RunState {
    if r in {Queued, Delivered, Running, Interrupted, AwaitingApproval, QueuedOffline} || r == to then to else r
  }

  // ---- the aggregate ----

  ghost predicate AnyUnfinished(rs: seq<RunState>) { exists i :: 0 <= i < |rs| && Unfinished(rs[i]) }

  ghost predicate AnyBroken(rs: seq<RunState>) { exists i :: 0 <= i < |rs| && Broken(rs[i]) }

  /** The aggregate of a list of runs, read off the states that occur in it. */
  ghost function AggregateOf(rs: seq<RunState>): ExecState {
    if AnyUnfinished(rs) then InFlight
    else if Interrupted in rs then Stalled
    else if !AnyBroken(rs) then AllSucceeded
    else if Succeeded !in rs then AllFailed
    else Partial
  }

  /** What a finalization that has read `rs` decides to write. */
  ghost function Decide(rs: seq<RunState>): Decision {
    if rs == [] then Write(NoRuns)
    else if Cancelled in rs then Keep
    else Write(AggregateOf(rs))
  }

  /** FinalizeExecution between reading the runs and writing the execution row:
      the scan for a cancelled run, then the four counters. */
  method Finalize(rs: seq<RunState>) returns (d: Decision)
    ensures d == Decide(rs)
  {
    if |rs| == 0 {
      return Write(NoRuns);
    }
    for i := 0 to |rs|
      invariant Cancelled !in rs[..i]
    {
      if rs[i] == Cancelled {
        return Keep;
      }
    }
    assert rs[..|rs|] == rs;
    var succeeded, failed, interrupted, other := 0, 0, 0, 0;
    for i := 0 to |rs|
      invariant succeeded >= 0 && failed >= 0 && interrupted >= 0 && other >= 0
      invariant succeeded > 0 <==> Succeeded in rs[..i]
      invariant interrupted > 0 <==> Interrupted in rs[..i]
      invariant failed > 0 <==> AnyBroken(rs[..i])
      invariant other > 0 <==> AnyUnfinished(rs[..i])
    {
      SplitLast(rs, i);
      match rs[i] {
        case Succeeded => succeeded := succeeded + 1;
        case Interrupted => interrupted := interrupted + 1;
        case Failed | TimedOut | NotDelivered | Cancelled | Denied | Expired => failed := failed + 1;
        case _ => other := other + 1;
      }
    }
    assert rs[..|rs|] == rs;
    var state := InFlight;
    if other == 0 {
      if interrupted > 0 {
        state := Stalled;
      } else if failed == 0 {
        state := AllSucceeded;
      } else if succeeded == 0 {
        state := AllFailed;
      } else {
        state := Partial;
      }
    }
    return Write(state);
  }

  lemma SplitLast(rs: seq<RunState>, i: nat)
    requires i < |rs|
    ensures AnyUnfinished(rs[..i + 1]) <==> AnyUnfinished(rs[..i]) || Unfinished(rs[i])
    ensures AnyBroken(rs[..i + 1]) <==> AnyBroken(rs[..i]) || Broken(rs[i])
    ensures forall x :: x in rs[..i + 1] <==> x in rs[..i] || x == rs[i]
  {
    assert rs[..i + 1] == rs[..i] + [rs[i]];
    AnyConcat(rs[..i], [rs[i]]);
    assert [rs[i]][0] == rs[i];
  }

  // ---- laws ----

  /** The order of aggregates: running over interrupted over partial over the
      two uniform outcomes, which meet in partial. */
  function Join(a: ExecState, b: ExecState): ExecState {
    if a == InFlight || b == InFlight then InFlight
    else if a == Stalled || b == Stalled then Stalled
    else if a == b then a
    else Partial
  }

  lemma AnyConcat(a: seq<RunState>, b: seq<RunState>)
    ensures AnyUnfinished(a + b) <==> AnyUnfinished(a) || AnyUnfinished(b)
    ensures AnyBroken(a + b) <==> AnyBroken(a) || AnyBroken(b)
  {
    var ab := a + b;
    forall i | 0 <= i < |a| ensures ab[i] == a[i] {}
    forall i | 0 <= i < |b| ensures ab[|a| + i] == b[i] {}
    if i :| 0 <= i < |ab| && Unfinished(ab[i]) {
      assert if i < |a| then Unfinished(a[i]) else Unfinished(b[i - |a|]);
    }
    if i :| 0 <= i < |ab| && Broken(ab[i]) {
      assert if i < |a| then Broken(a[i]) else Broken(b[i - |a|]);
    }
    if i :| 0 <= i < |a| && Unfinished(a[i]) { assert Unfinished(ab[i]); }
    if i :| 0 <= i < |b| && Unfinished(b[i]) { assert Unfinished(ab[|a| + i]); }
    if i :| 0 <= i < |a| && Broken(a[i]) { assert Broken(ab[i]); }
    if i :| 0 <= i < |b| && Broken(b[i]) { assert Broken(ab[|a| + i]); }
  }

  /** A list of runs that contains neither an unfinished nor a broken nor an
      interrupted one contains only successes. */
  lemma SomeOutcome(rs: seq<RunState>)
    requires rs != [] && !AnyUnfinished(rs) && Interrupted !in rs
    ensures AnyBroken(rs) || Succeeded in rs
  {
    assert !Unfinished(rs[0]);
    assert rs[0] in rs;
  }

  /** Aggregation is a homomorphism from concatenation to Join. */
  lemma Homomorphism(a: seq<RunState>, b: seq<RunState>)
    requires a != [] && b != []
    ensures AggregateOf(a + b) == Join(AggregateOf(a), AggregateOf(b))
  {
    AnyConcat(a, b);
    if !AnyUnfinished(a) && Interrupted !in a { SomeOutcome(a); }
    if !AnyUnfinished(b) && Interrupted !in b { SomeOutcome(b); }
  }

  lemma JoinLaws(a: ExecState, b: ExecState, c: ExecState)
    requires {a, b, c} <= {InFlight, Stalled, Partial, AllSucceeded, AllFailed}
    ensures Join(a, b) == Join(b, a) && Join(a, a) == a
    ensures Join(a, Join(b, c)) == Join(Join(a, b), c)
  {
    assert a in {a, b, c} && b in {a, b, c} && c in {a, b, c};
  }

  /** The decision does not depend on the order in which the runs are listed. */
  lemma OrderIrrelevant(a: seq<RunState>, b: seq<RunState>)
    requires multiset(a) == multiset(b)
    ensures Decide(a) == Decide(b)
  {
    forall x ensures x in a <==> x in b {
      assert x in a <==> x in multiset(a);
      assert x in b <==> x in multiset(b);
    }
    if a == [] || b == [] {
      assert |multiset(a)| == |a| && |multiset(b)| == |b|;
    }
    if i :| 0 <= i < |a| && Unfinished(a[i]) { assert a[i] in b; }
    if i :| 0 <= i < |b| && Unfinished(b[i]) { assert b[i] in a; }
    if i :| 0 <= i < |a| && Broken(a[i]) { assert a[i] in b; }
    if i :| 0 <= i < |b| && Broken(b[i]) { assert b[i] in a; }
  }

  /** Failed and partial are never reported while a run is interrupted or in flight,
      and they are reported only when a run has really failed. */
  lemma FailureMeansFailure(rs: seq<RunState>)
    requires rs != []
    ensures AggregateOf(rs) in {AllFailed, Partial} <==>
            AnyBroken(rs) && forall i :: 0 <= i < |rs| ==> Final(rs[i])
    ensures AggregateOf(rs) == AllSucceeded <==> forall i :: 0 <= i < |rs| ==> rs[i] == Succeeded
  {
    if !AnyUnfinished(rs) && Interrupted !in rs {
      SomeOutcome(rs);
      forall i | 0 <= i < |rs| ensures Final(rs[i]) {
        assert rs[i] in rs;
      }
    }
    if Interrupted in rs {
      var i :| 0 <= i < |rs| && rs[i] == Interrupted;
      assert !Final(rs[i]);
    }
    if i :| 0 <= i < |rs| && Unfinished(rs[i]) {
      assert !Final(rs[i]);
    }
  }
}
