/** What becomes of the runs that approval requests hold, over histories in which
    listings expire requests between the steps of everything else. */
module Approvals {
  import opened Aggregate
  import opened Executions
  import opened Dispatch

  // ---- the expiry passes ----

  lemma {:induction false} PickExactly(requests: seq<Request>, due: set<nat>, n: nat)
    requires n <= |requests|
    ensures forall a: nat :: a in Pick(requests, due, n) <==> a < n && Overdue(requests, due, a)
  {
    if n > 0 { PickExactly(requests, due, n - 1); }
  }

  lemma {:induction false} NothingDue(requests: seq<Request>, n: nat)
    requires n <= |requests|
    ensures Pick(requests, {}, n) == []
  {
    if n > 0 { NothingDue(requests, n - 1); }
  }

  /** Failing the runs of the picked requests changes exactly those of them without an outcome. */
  lemma {:induction false} FailExactly(runs: seq<Run>, requests: seq<Request>, picked: seq<nat>, r: nat)
    requires r < |runs|
    ensures var held := exists a :: a in picked && a < |requests| && requests[a].run == r;
            Fail(runs, requests, picked)[r] ==
            if held && !Final(runs[r].state) then runs[r].(state := Failed) else runs[r]
  {
    if picked != [] {
      var front, last := picked[..|picked| - 1], picked[|picked| - 1];
      FailExactly(runs, requests, front, r);
      assert picked == front + [last];
      assert forall a :: a in picked <==> a in front || a == last;
    }
  }

  // ---- released runs ----

  /** The run of the request will be failed by a listing that has picked the request. */
  predicate InListing(s: Server, a: nat) {
    exists l :: l in s.listings && a in s.listings[l].picked
  }

  ghost predicate ReleasedAt(s: Server, a: nat)
    requires a < |s.requests|
  {
    s.requests[a].state in {Rejected, RequestState.Expired} ==>
      (s.requests[a].run < |s.runs| && Final(s.runs[s.requests[a].run].state)) || InListing(s, a)
  }

  /** A request that was rejected or has expired no longer holds its run, or a listing is
      about to release it. */
  ghost predicate Released(s: Server) {
    forall a :: 0 <= a < |s.requests| ==> ReleasedAt(s, a)
  }

  /** The discarding second pass of a listing finds no overdue request whose run is still
      without an outcome, unless another listing has picked the request. */
  ghost predicate Harmless(s: Server, op: Op) {
    op.OpSecondPass? ==>
      forall a: nat :: Overdue(s.requests, op.due, a) ==>
        (s.requests[a].run < |s.runs| && Final(s.runs[s.requests[a].run].state)) || InListing(s, a)
  }

  lemma {:induction false} AddedHosts(s: Server, hosts: seq<Agent>, verdicts: seq<Effect>, payload: Payload,
                                      envs: seq<HostEnv>)
    requires |hosts| == |verdicts| == |envs|
    ensures var t := AddHosts(s, hosts, verdicts, payload, envs);
            && s.runs <= t.runs && s.requests <= t.requests && t.listings == s.listings
            && forall a :: |s.requests| <= a < |t.requests| ==> t.requests[a].state == Pending
  {
    if hosts != [] {
      var n := |hosts| - 1;
      AddedHosts(s, hosts[..n], verdicts[..n], payload, envs[..n]);
    }
  }

  lemma ReleasedFail(s: Server, l: nat)
    requires Sound(s) && Released(s)
    ensures Released(ListFail(s, l))
  {
    var t := ListFail(s, l);
    if t != s {
      forall a | 0 <= a < |t.requests| ensures ReleasedAt(t, a) {
        assert Parked(s, s.requests[a]) && ReleasedAt(s, a);
        FailExactly(s.runs, s.requests, s.listings[l].picked, s.requests[a].run);
        if k :| k in s.listings && a in s.listings[k].picked && k != l {
          assert k in t.listings && a in t.listings[k].picked;
        }
      }
    }
  }

  lemma ReleasedMark(s: Server, l: nat)
    requires Sound(s) && Released(s)
    ensures Released(ListMark(s, l))
  {
    var t := ListMark(s, l);
    if t != s {
      forall a | 0 <= a < |t.requests| ensures ReleasedAt(t, a) {
        assert ReleasedAt(s, a);
        if a in s.listings[l].picked {
          assert a in t.listings[l].picked;
        } else if k :| k in s.listings && a in s.listings[k].picked {
          assert k in t.listings && a in t.listings[k].picked;
        }
      }
    }
  }

  lemma ReleasedSelect(s: Server, l: nat, due: set<nat>)
    requires Released(s)
    ensures Released(ListSelect(s, l, due))
  {
    var t := ListSelect(s, l, due);
    forall a | 0 <= a < |t.requests| ensures ReleasedAt(t, a) {
      assert ReleasedAt(s, a);
      if k :| k in s.listings && a in s.listings[k].picked {
        assert k in t.listings && a in t.listings[k].picked;
      }
    }
  }

  lemma ReleasedSecondPass(s: Server, due: set<nat>)
    requires Released(s)
    ensures Released(SecondPass(s, due)) <==> Harmless(s, OpSecondPass(due))
  {
    var t := SecondPass(s, due);
    PickExactly(s.requests, due, |s.requests|);
    forall a | 0 <= a < |t.requests|
      ensures ReleasedAt(t, a) <==> (Overdue(s.requests, due, a) ==>
                (s.requests[a].run < |s.runs| && Final(s.runs[s.requests[a].run].state)) || InListing(s, a))
    {
      assert ReleasedAt(s, a);
      assert InListing(t, a) <==> InListing(s, a);
    }
  }

  lemma ReleasedOther(s: Server, op: Op)
    requires Sound(s) && Released(s) && (op.OpDispatch? || op.OpApprove? || op.OpReject? || op.OpReport?)
    ensures Released(Apply(s, op))
  {
    var t := Apply(s, op);
    if op.OpDispatch? && |op.hosts| == |op.matches| == |op.envs| {
      AddedHosts(s, op.hosts, Verdicts(op.rules, op.matches), op.payload, op.envs);
    }
    forall a | 0 <= a < |t.requests| ensures ReleasedAt(t, a) {
      if a < |s.requests| {
        assert ReleasedAt(s, a) && Parked(s, s.requests[a]);
        assert InListing(t, a) <==> InListing(s, a);
      }
    }
  }

  /** One operation keeps the runs released exactly when it is harmless. */
  lemma ReleasedExactly(s: Server, op: Op)
    requires Sound(s) && Released(s)
    ensures Released(Apply(s, op)) <==> Harmless(s, op)
  {
    match op {
      case OpListSelect(l, due) => ReleasedSelect(s, l, due);
      case OpListMark(l) => ReleasedMark(s, l);
      case OpListFail(l) => ReleasedFail(s, l);
      case OpSecondPass(due) => ReleasedSecondPass(s, due);
      case _ => ReleasedOther(s, op);
    }
  }

  lemma {:induction false} ReleasedPrefix(engine: bool, ops: seq<Op>, n: nat)
    requires n <= |ops|
    requires forall k :: 0 <= k < n ==> Harmless(History(engine, ops[..k]), ops[k])
    ensures Released(History(engine, ops[..n]))
  {
    if n > 0 {
      ReleasedPrefix(engine, ops, n - 1);
      SoundHistory(engine, ops[..n - 1]);
      assert ops[..n][..n - 1] == ops[..n - 1];
      ReleasedExactly(History(engine, ops[..n - 1]), ops[n - 1]);
    }
  }

  /** Over every history: at all times the run of a rejected or expired request has an
      outcome, or a listing is about to give it one, exactly when no second pass expires
      a request that still holds its run. */
  lemma ReleasedHistory(engine: bool, ops: seq<Op>)
    ensures (forall n :: 0 <= n <= |ops| ==> Released(History(engine, ops[..n]))) <==>
            (forall k :: 0 <= k < |ops| ==> Harmless(History(engine, ops[..k]), ops[k]))
  {
    if forall k :: 0 <= k < |ops| ==> Harmless(History(engine, ops[..k]), ops[k]) {
      forall n | 0 <= n <= |ops| ensures Released(History(engine, ops[..n])) {
        ReleasedPrefix(engine, ops, n);
      }
    }
    if forall n :: 0 <= n <= |ops| ==> Released(History(engine, ops[..n])) {
      forall k | 0 <= k < |ops| ensures Harmless(History(engine, ops[..k]), ops[k]) {
        SoundHistory(engine, ops[..k]);
        assert ops[..k + 1][..k] == ops[..k];
        ReleasedExactly(History(engine, ops[..k]), ops[k]);
      }
    }
  }

  // ---- a run that nothing releases ----

  /** The request has expired, and no listing will fail the run that it holds. */
  predicate Forgotten(s: Server, a: nat, r: nat) {
    && a < |s.requests| && s.requests[a].state.Expired? && s.requests[a].run == r && !InListing(s, a)
    && r < |s.runs| && s.runs[r].state == AwaitingApproval
  }

  ghost function Later(s: Server, ops: seq<Op>): Server {
    if ops == [] then s else Apply(Later(s, ops[..|ops| - 1]), ops[|ops| - 1])
  }

  lemma ForgottenStep(s: Server, op: Op, a: nat, r: nat)
    requires Sound(s) && Forgotten(s, a, r) && (op.OpReport? ==> op.r != r)
    ensures Forgotten(Apply(s, op), a, r)
  {
    var t := Apply(s, op);
    match op {
      case OpDispatch(hosts, rules, matches, payload, envs) =>
        if |hosts| == |matches| == |envs| { AddedHosts(s, hosts, Verdicts(rules, matches), payload, envs); }
        assert InListing(t, a) <==> InListing(s, a);
      case OpListSelect(l, due) => PickExactly(s.requests, due, |s.requests|);
      case OpListMark(l) =>
        if l in s.listings {
          assert a !in s.listings[l].picked;
          assert forall k :: k in t.listings ==> t.listings[k].picked == s.listings[k].picked;
        }
      case OpListFail(l) =>
        if l in s.listings {
          assert a !in s.listings[l].picked;
          FailExactly(s.runs, s.requests, s.listings[l].picked, r);
        }
      case OpSecondPass(due) => assert InListing(t, a) <==> InListing(s, a);
      case _ => assert InListing(t, a) <==> InListing(s, a);
    }
  }

  /** A forgotten run waits for ever: no dispatch, approval, rejection or listing touches
      it again, only a write of its own, such as a cancel of its execution. */
  lemma {:induction false} ForgottenForever(s: Server, ops: seq<Op>, a: nat, r: nat)
    requires Sound(s) && Forgotten(s, a, r) && forall op <- ops :: op.OpReport? ==> op.r != r
    ensures Sound(Later(s, ops)) && Forgotten(Later(s, ops), a, r)
  {
    if ops != [] {
      assert ops[|ops| - 1] in ops;
      ForgottenForever(s, ops[..|ops| - 1], a, r);
      SoundApply(Later(s, ops[..|ops| - 1]), ops[|ops| - 1]);
      ForgottenStep(Later(s, ops[..|ops| - 1]), ops[|ops| - 1], a, r);
    }
  }

  const ASK := OpDispatch(["a"], [Rule("rule", RequireApproval)], [(rule: Rule) => true], Payload("id", [], map[], 0),
                          [HostEnv(true, true, Up)])

  /** One host, whose run is parked on an approval request. */
  lemma OneParked()
    ensures var s := History(true, [ASK]);
            && s.runs == [Run("a", AwaitingApproval)] && s.listings == map[] && s.sent == []
            && |s.requests| == 1 && s.requests[0].run == 0 && s.requests[0].state == Pending
  {
    var rules := ASK.rules;
    assert rules[0] == Rule("rule", RequireApproval) && ASK.matches[0](rules[0]);
    assert Hit(rules, ASK.matches[0], RequireApproval) && !Hit(rules, ASK.matches[0], Deny);
    assert Verdicts(rules, ASK.matches) == [RequireApproval];
    var s0 := Server(true, [], [], [], [], [], map[]);
    assert [ASK][..0] == [] && History(true, []) == s0;
    assert ["a"][..0] == [] && [RequireApproval][..0] == [];
    assert AddHosts(s0, ["a"], [RequireApproval], ASK.payload, ASK.envs) ==
           AddHost(s0, "a", RequireApproval, ASK.payload, HostEnv(true, true, Up));
  }

  /** A request that expires between the two passes of one listing: the first pass finds
      nothing, the second marks it, and its run is forgotten. */
  lemma SecondPassForgets()
    ensures Forgotten(Later(History(true, [ASK]), [OpListSelect(0, {}), OpListMark(0), OpListFail(0), OpSecondPass({0})]), 0, 0)
  {
    OneParked();
    var s := History(true, [ASK]);
    var ops := [OpListSelect(0, {}), OpListMark(0), OpListFail(0), OpSecondPass({0})];
    NothingDue(s.requests, 1);
    var s1 := Apply(s, ops[0]);
    var s2 := Apply(s1, ops[1]);
    var s3 := Apply(s2, ops[2]);
    var s4 := Apply(s3, ops[3]);
    assert s2.requests == s.requests && s3.runs == s.runs && s3.listings == map[];
    PickExactly(s3.requests, {0}, 1);
    assert 0 in Pick(s3.requests, {0}, 1);
    LaterFour(s, ops);
  }

  lemma LaterFour(s: Server, ops: seq<Op>)
    requires |ops| == 4
    ensures Later(s, ops) == Apply(Apply(Apply(Apply(s, ops[0]), ops[1]), ops[2]), ops[3])
  {
    assert ops[..3][..2] == ops[..2] && ops[..2][..1] == ops[..1] && ops[..1][..0] == [];
    assert Later(s, ops[..1]) == Apply(s, ops[0]);
    assert Later(s, ops[..2]) == Apply(Apply(s, ops[0]), ops[1]);
    assert Later(s, ops[..3]) == Apply(Apply(Apply(s, ops[0]), ops[1]), ops[2]);
  }

  // ---- a run that fails although its command was sent ----

  ghost predicate IsSent(s: Server, r: nat) {
    exists i :: 0 <= i < |s.sent| && s.sent[i].run == r
  }

  /** The failing step of a listing hits a run whose command has been sent exactly when the
      run has no outcome yet and a request that the listing had picked for it was approved
      between the selection and the marking. */
  lemma FailsSentExactly(s: Server, l: nat, r: nat)
    requires Sound(s) && l in s.listings && s.listings[l].marked && r < |s.runs| && IsSent(s, r)
    ensures ListFail(s, l).runs[r] != s.runs[r] <==>
            !Final(s.runs[r].state) &&
            exists a :: a in s.listings[l].picked && a < |s.requests| && s.requests[a].run == r && s.requests[a].state == Approved
  {
    FailExactly(s.runs, s.requests, s.listings[l].picked, r);
    var i :| 0 <= i < |s.sent| && s.sent[i].run == r;
    if a :| a in s.listings[l].picked && a < |s.requests| && s.requests[a].run == r {
      SentThroughRequest(s, a, i);
    }
  }

  /** The approval was checked before the expiry and lands after the selection: the command
      is sent, and its run fails. */
  lemma ApprovedThenFailed()
    ensures var s := Later(History(true, [ASK]), [OpListSelect(0, {0}), OpApprove(0, true, true, Up), OpListMark(0), OpListFail(0)]);
            IsSent(s, 0) && s.runs == [Run("a", Failed)] && |s.requests| == 1 && s.requests[0].state == Approved
  {
    OneParked();
    var s := History(true, [ASK]);
    var ops := [OpListSelect(0, {0}), OpApprove(0, true, true, Up), OpListMark(0), OpListFail(0)];
    PickExactly(s.requests, {0}, 1);
    var s1 := Apply(s, ops[0]);
    assert 0 in s1.listings[0].picked;
    var s2 := Apply(s1, ops[1]);
    assert s2.requests[0].state == Approved && s2.runs == [Run("a", Delivered)] && s2.sent[0].run == 0;
    var s3 := Apply(s2, ops[2]);
    assert s3.requests[0] == s2.requests[0] && s3.listings[0].marked;
    FailExactly(s3.runs, s3.requests, s3.listings[0].picked, 0);
    var s4 := Apply(s3, ops[3]);
    assert s4.runs[0] == Run("a", Failed);
    LaterFour(s, ops);
  }

  // ---- a listing that nothing interrupts ----

  /** The steps of a listing, taken in one go, are the whole listing. */
  lemma Uninterrupted(s: Server, l: nat, due: set<nat>, later: set<nat>)
    requires l !in s.listings
    ensures SecondPass(ListFail(ListMark(ListSelect(s, l, due), l), l), later) == ListRequests(s, due, later)
  {
    FirstPass(s, l, due);
  }

  lemma FirstPass(s: Server, l: nat, due: set<nat>)
    requires l !in s.listings
    ensures var picked := Pick(s.requests, due, |s.requests|);
            ListFail(ListMark(ListSelect(s, l, due), l), l) ==
            s.(requests := Mark(s.requests, picked), runs := Fail(s.runs, s.requests, picked))
  {
    var picked := Pick(s.requests, due, |s.requests|);
    FailSameRuns(s.runs, s.requests, Mark(s.requests, picked), picked);
    assert s.listings[l := Listing(picked, false)][l := Listing(picked, true)] - {l} == s.listings;
  }

  lemma {:induction false} FailSameRuns(runs: seq<Run>, requests: seq<Request>, requests': seq<Request>, picked: seq<nat>)
    requires |requests| == |requests'| && forall a :: 0 <= a < |requests| ==> requests[a].run == requests'[a].run
    ensures Fail(runs, requests, picked) == Fail(runs, requests', picked)
  {
    if picked != [] { FailSameRuns(runs, requests, requests', picked[..|picked| - 1]); }
  }
}
