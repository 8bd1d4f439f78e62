/** What each operation on the dispatch rows does, with the source's conditions written
    out; which operation put a command on the stream; and the verdict over a rule list. */
module DispatchSteps {
  import opened Aggregate
  import opened Executions
  import opened ExecutionSteps
  import opened Options
  import opened Dispatch
  import opened Approvals

  // ---- the verdict ----

  /** ks are the positions of the matching rules with the effect, in rule order, and ids their ids. */
  ghost predicate Selects(rules: seq<Rule>, matches: Matches, effect: Effect, ks: seq<nat>, ids: seq<string>) {
    && |ids| == |ks|
    && (forall m :: 0 <= m < |ks| ==> ks[m] < |rules| && ids[m] == rules[ks[m]].id)
    && (forall m, n :: 0 <= m < n < |ks| ==> ks[m] < ks[n])
    && (forall k: nat :: k in ks <==> k < |rules| && matches(rules[k]) && rules[k].effect == effect)
  }

  lemma SelectsSnoc(rules: seq<Rule>, rule: Rule, matches: Matches, effect: Effect, ks: seq<nat>, ids: seq<string>)
    requires Selects(rules, matches, effect, ks, ids)
    ensures if matches(rule) && rule.effect == effect
            then Selects(rules + [rule], matches, effect, ks + [|rules|], ids + [rule.id])
            else Selects(rules + [rule], matches, effect, ks, ids)
  {
    var all := rules + [rule];
    assert forall k :: 0 <= k < |rules| ==> all[k] == rules[k];
    assert all[|rules|] == rule;
    assert forall m :: 0 <= m < |ks| ==> ks[m] in ks;
  }

  lemma {:induction false} IdsExactly(rules: seq<Rule>, matches: Matches, effect: Effect) returns (ks: seq<nat>)
    ensures Selects(rules, matches, effect, ks, Ids(rules, matches, effect))
  {
    ks := [];
    if rules != [] {
      var n := |rules| - 1;
      ks := IdsExactly(rules[..n], matches, effect);
      SelectsSnoc(rules[..n], rules[n], matches, effect, ks, Ids(rules[..n], matches, effect));
      assert rules[..n] + [rules[n]] == rules;
      if matches(rules[n]) && rules[n].effect == effect { ks := ks + [n]; }
    }
  }

  /** One matching deny rule denies; without one, one matching require_approval rule parks;
      everything else is allowed, matched or not. */
  lemma VerdictExactly(rules: seq<Rule>, matches: Matches)
    ensures EffectOf(rules, matches) == Deny <==>
            exists i :: 0 <= i < |rules| && matches(rules[i]) && rules[i].effect == Deny
    ensures EffectOf(rules, matches) == RequireApproval <==>
            && (exists i :: 0 <= i < |rules| && matches(rules[i]) && rules[i].effect == RequireApproval)
            && (forall i :: 0 <= i < |rules| && matches(rules[i]) ==> rules[i].effect != Deny)
    ensures EffectOf(rules, matches) == Allow <==>
            forall i :: 0 <= i < |rules| && matches(rules[i]) ==> rules[i].effect in {Allow, Unknown}
  {
  }

  // ---- dispatch ----

  /** The state in which a host's run is left. */
  function LeftIn(engine: bool, effect: Effect, env: HostEnv): RunState {
    if effect == Deny then Denied
    else if effect == RequireApproval then (if engine && env.requestStored then AwaitingApproval else Denied)
    else if env.link == Up then Delivered
    else if env.link == Offline then QueuedOffline
    else NotDelivered
  }

  predicate Aligned(s: Server) {
    |s.decided| == |s.asked| == |s.runs|
  }

  /** One host: without a stored run nothing happens at all. */
  lemma AddHostExactly(s: Server, host: Agent, effect: Effect, payload: Payload, env: HostEnv)
    ensures var t := AddHost(s, host, effect, payload, env);
            if !env.recorded then t == s
            else
              && t == s.(runs := t.runs, decided := t.decided, asked := t.asked, sent := t.sent, requests := t.requests)
              && t.runs == s.runs + [Run(host, LeftIn(s.engine, effect, env))]
              && t.decided == s.decided + [effect] && t.asked == s.asked + [payload]
              && (effect == Allow ==> t.sent == s.sent + [Command(|s.runs|, payload, None)])
              && (effect != Allow ==> t.sent == s.sent)
              && (t.requests != s.requests <==> effect == RequireApproval && s.engine && env.requestStored)
              && (t.requests != s.requests ==> t.requests == s.requests + [Request(|s.runs|, payload, Pending)])
  {
  }

  /** How many of the first `n` hosts get a run. */
  function Recorded(envs: seq<HostEnv>, n: nat): (k: nat)
    requires n <= |envs|
    ensures k <= n
  {
    if n == 0 then 0 else Recorded(envs, n - 1) + if envs[n - 1].recorded then 1 else 0
  }

  lemma Fronts(hosts: seq<Agent>, verdicts: seq<Effect>, envs: seq<HostEnv>, n: nat)
    requires |hosts| == |verdicts| == |envs| && 0 < n <= |hosts|
    ensures hosts[..n][..n - 1] == hosts[..n - 1] && verdicts[..n][..n - 1] == verdicts[..n - 1]
    ensures envs[..n][..n - 1] == envs[..n - 1]
  {
  }

  /** The loop adds to the rows, one run for each host whose run is stored. */
  lemma {:induction false} HostsAdd(s: Server, hosts: seq<Agent>, verdicts: seq<Effect>, payload: Payload,
                                    envs: seq<HostEnv>, n: nat)
    requires |hosts| == |verdicts| == |envs| && n <= |hosts| && Aligned(s)
    ensures var t := AddHosts(s, hosts[..n], verdicts[..n], payload, envs[..n]);
            && Aligned(t) && |t.runs| == |s.runs| + Recorded(envs, n)
            && t == s.(runs := t.runs, decided := t.decided, asked := t.asked, sent := t.sent, requests := t.requests)
            && s.runs <= t.runs && s.decided <= t.decided && s.asked <= t.asked
  {
    if n > 0 {
      HostsAdd(s, hosts, verdicts, payload, envs, n - 1);
      Fronts(hosts, verdicts, envs, n);
    }
  }

  /** Each such run, in host order, is left in the state that its verdict and link give. */
  lemma {:induction false} HostRuns(s: Server, hosts: seq<Agent>, verdicts: seq<Effect>, payload: Payload,
                                    envs: seq<HostEnv>, n: nat, h: nat)
    requires |hosts| == |verdicts| == |envs| && h < n <= |hosts| && Aligned(s) && envs[h].recorded
    ensures var t, r := AddHosts(s, hosts[..n], verdicts[..n], payload, envs[..n]), |s.runs| + Recorded(envs, h);
            && r < |t.runs| == |t.decided| == |t.asked|
            && t.runs[r] == Run(hosts[h], LeftIn(s.engine, verdicts[h], envs[h]))
            && t.decided[r] == verdicts[h] && t.asked[r] == payload
  {
    HostsAdd(s, hosts, verdicts, payload, envs, n - 1);
    HostsAdd(s, hosts, verdicts, payload, envs, n);
    Fronts(hosts, verdicts, envs, n);
    if h < n - 1 { HostRuns(s, hosts, verdicts, payload, envs, n - 1, h); }
  }

  /** Host h gets a run, under allow, and c is the command for it. */
  predicate SendsFor(s: Server, verdicts: seq<Effect>, payload: Payload, envs: seq<HostEnv>, h: nat, c: Command)
    requires h < |verdicts| == |envs|
  {
    envs[h].recorded && verdicts[h] == Allow && c == Command(|s.runs| + Recorded(envs, h), payload, None)
  }

  /** Host h gets a run, under require_approval, and q is the request that holds it. */
  predicate AsksFor(s: Server, verdicts: seq<Effect>, payload: Payload, envs: seq<HostEnv>, h: nat, q: Request)
    requires h < |verdicts| == |envs|
  {
    && envs[h].recorded && verdicts[h] == RequireApproval && s.engine && envs[h].requestStored
    && q == Request(|s.runs| + Recorded(envs, h), payload, Pending)
  }

  /** What the last of n hosts adds. */
  lemma LastHost(s: Server, hosts: seq<Agent>, verdicts: seq<Effect>, payload: Payload, envs: seq<HostEnv>, n: nat)
    returns (t': Server, t: Server)
    requires |hosts| == |verdicts| == |envs| && 0 < n <= |hosts| && Aligned(s)
    ensures t' == AddHosts(s, hosts[..n - 1], verdicts[..n - 1], payload, envs[..n - 1])
    ensures t == AddHosts(s, hosts[..n], verdicts[..n], payload, envs[..n])
    ensures var h, r := n - 1, |s.runs| + Recorded(envs, n - 1);
            && t.sent == t'.sent + (if envs[h].recorded && verdicts[h] == Allow then [Command(r, payload, None)] else [])
            && t.requests == t'.requests +
               (if envs[h].recorded && verdicts[h] == RequireApproval && s.engine && envs[h].requestStored
                then [Request(r, payload, Pending)] else [])
  {
    HostsAdd(s, hosts, verdicts, payload, envs, n - 1);
    Fronts(hosts, verdicts, envs, n);
    t' := AddHosts(s, hosts[..n - 1], verdicts[..n - 1], payload, envs[..n - 1]);
    t := AddHosts(s, hosts[..n], verdicts[..n], payload, envs[..n]);
  }

  lemma InTail<T>(x: seq<T>, y: seq<T>, z: seq<T>, c: T)
    requires x <= y <= z
    ensures c in z[|x|..] <==> c in y[|x|..] || c in z[|y|..]
  {
    assert z[|x|..] == y[|x|..] + z[|y|..];
  }

  /** Its commands: one for each stored run under allow, and no others. */
  lemma {:induction false} HostCommands(s: Server, hosts: seq<Agent>, verdicts: seq<Effect>, payload: Payload,
                                        envs: seq<HostEnv>, n: nat, c: Command)
    requires |hosts| == |verdicts| == |envs| && n <= |hosts| && Aligned(s)
    ensures var t := AddHosts(s, hosts[..n], verdicts[..n], payload, envs[..n]);
            && s.sent <= t.sent
            && (c in t.sent[|s.sent|..] <==> exists h :: 0 <= h < n && SendsFor(s, verdicts, payload, envs, h, c))
  {
    if n > 0 {
      HostCommands(s, hosts, verdicts, payload, envs, n - 1, c);
      var t', t := LastHost(s, hosts, verdicts, payload, envs, n);
      InTail(s.sent, t'.sent, t.sent, c);
      assert c in t.sent[|t'.sent|..] <==> SendsFor(s, verdicts, payload, envs, n - 1, c);
    }
  }

  /** Its requests: one, pending, for each stored run under require_approval whose request can
      be stored, and no others. */
  lemma {:induction false} HostRequests(s: Server, hosts: seq<Agent>, verdicts: seq<Effect>, payload: Payload,
                                        envs: seq<HostEnv>, n: nat, q: Request)
    requires |hosts| == |verdicts| == |envs| && n <= |hosts| && Aligned(s)
    ensures var t := AddHosts(s, hosts[..n], verdicts[..n], payload, envs[..n]);
            && s.requests <= t.requests
            && (q in t.requests[|s.requests|..] <==> exists h :: 0 <= h < n && AsksFor(s, verdicts, payload, envs, h, q))
  {
    if n > 0 {
      HostRequests(s, hosts, verdicts, payload, envs, n - 1, q);
      var t', t := LastHost(s, hosts, verdicts, payload, envs, n);
      InTail(s.requests, t'.requests, t.requests, q);
      assert q in t.requests[|t'.requests|..] <==> AsksFor(s, verdicts, payload, envs, n - 1, q);
    }
  }

  // ---- decisions on a request ----

  /** An approval goes through exactly for an admin, on a pending request not past its
      expiry, whose run is still open. */
  predicate LetsThrough(s: Server, op: Op) {
    && op.OpApprove? && op.admin && op.live
    && op.a < |s.requests| && s.requests[op.a].state == Pending
    && s.requests[op.a].run < |s.runs|
    && s.runs[s.requests[op.a].run].state in {Queued, QueuedOffline, Delivered, Running, AwaitingApproval}
  }

  /** It then hands over the parked payload, once, and marks the run by what became of it;
      otherwise it changes nothing. */
  lemma ApproveExactly(s: Server, a: nat, admin: bool, live: bool, link: Link)
    ensures var op := OpApprove(a, admin, live, link); var t := Apply(s, op);
            && (t.sent != s.sent <==> LetsThrough(s, op))
            && (!LetsThrough(s, op) ==> t == s)
            && (LetsThrough(s, op) ==>
                 var q := s.requests[a];
                 t == s.(requests := s.requests[a := Request(q.run, q.payload, Approved)],
                         sent := s.sent + [Command(q.run, q.payload, Some(a))],
                         runs := s.runs[q.run := Run(s.runs[q.run].agent,
                           match link case Up => Delivered case Offline => QueuedOffline case Down => NotDelivered)]))
  {
  }

  /** A denial is an admin's too, and of a pending request; it fails the run that was held,
      unless that has an outcome. */
  lemma RejectExactly(s: Server, a: nat, admin: bool)
    ensures var t := Apply(s, OpReject(a, admin));
            if admin && a < |s.requests| && s.requests[a].state == Pending
            then
              && t == s.(requests := t.requests, runs := t.runs)
              && t.requests == s.requests[a := Request(s.requests[a].run, s.requests[a].payload, Rejected)]
              && |t.runs| == |s.runs|
              && forall r :: 0 <= r < |s.runs| ==>
                   t.runs[r] == if r == s.requests[a].run && !HasOutcome(s.runs[r].state)
                                then Run(s.runs[r].agent, Failed) else s.runs[r]
            else t == s
  {
  }

  /** The only other run writes are guarded ones. */
  lemma ReportExactly(s: Server, r: nat, to: RunState)
    ensures Apply(s, OpReport(r, to)) ==
            if r < |s.runs| && !HasOutcome(s.runs[r].state)
            then s.(runs := s.runs[r := Run(s.runs[r].agent, to)]) else s
  {
    if r < |s.runs| && HasOutcome(s.runs[r].state) { assert s.runs[r := s.runs[r]] == s.runs; }
  }

  // ---- the four steps of a listing ----

  /** A listing selects exactly the pending requests past their expiry, in order. */
  lemma SelectExactly(s: Server, l: nat, due: set<nat>)
    requires l !in s.listings
    ensures var t := Apply(s, OpListSelect(l, due));
            && t == s.(listings := t.listings) && t.listings.Keys == s.listings.Keys + {l}
            && (forall k :: k in s.listings ==> t.listings[k] == s.listings[k])
            && !t.listings[l].marked
            && (forall a: nat :: a in t.listings[l].picked <==>
                 a < |s.requests| && a in due && s.requests[a].state == Pending)
            && Ascending(t.listings[l].picked, |s.requests|)
  {
    PickExactly(s.requests, due, |s.requests|);
    PickAscends(s.requests, due, |s.requests|);
  }

  predicate Ascending(ks: seq<nat>, n: nat) {
    && (forall i :: 0 <= i < |ks| ==> ks[i] < n)
    && (forall i, j :: 0 <= i < j < |ks| ==> ks[i] < ks[j])
  }

  lemma AscendingSnoc(ks: seq<nat>, n: nat)
    requires Ascending(ks, n)
    ensures Ascending(ks, n + 1) && Ascending(ks + [n], n + 1)
  {
  }

  lemma {:induction false} PickAscends(requests: seq<Request>, due: set<nat>, n: nat)
    requires n <= |requests|
    ensures Ascending(Pick(requests, due, n), n)
  {
    if n > 0 {
      PickAscends(requests, due, n - 1);
      AscendingSnoc(Pick(requests, due, n - 1), n - 1);
    }
  }

  /** Marking expires exactly the selected requests that are still pending; */
  lemma MarkExactly(s: Server, l: nat)
    requires l in s.listings && !s.listings[l].marked
    ensures var t := Apply(s, OpListMark(l));
            && t == s.(requests := t.requests, listings := s.listings[l := Listing(s.listings[l].picked, true)])
            && |t.requests| == |s.requests|
            && forall a :: 0 <= a < |s.requests| ==>
                 t.requests[a] == if a in s.listings[l].picked && s.requests[a].state == Pending
                                  then Request(s.requests[a].run, s.requests[a].payload, RequestState.Expired)
                                  else s.requests[a]
  {
  }

  /** failing fails exactly the runs without an outcome of all that were selected; */
  lemma FailListedExactly(s: Server, l: nat)
    requires l in s.listings && s.listings[l].marked
    ensures var t := Apply(s, OpListFail(l));
            && t == s.(runs := t.runs, listings := s.listings - {l}) && |t.runs| == |s.runs|
            && forall r :: 0 <= r < |s.runs| ==>
                 t.runs[r] == if !HasOutcome(s.runs[r].state) &&
                                 exists a :: a in s.listings[l].picked && a < |s.requests| && s.requests[a].run == r
                              then Run(s.runs[r].agent, Failed) else s.runs[r]
  {
    forall r | 0 <= r < |s.runs| ensures Final(s.runs[r].state) <==> HasOutcome(s.runs[r].state) {
      FailExactly(s.runs, s.requests, s.listings[l].picked, r);
    }
    forall r | 0 <= r < |s.runs|
      ensures Fail(s.runs, s.requests, s.listings[l].picked)[r] ==
              if !HasOutcome(s.runs[r].state) &&
                 exists a :: a in s.listings[l].picked && a < |s.requests| && s.requests[a].run == r
              then Run(s.runs[r].agent, Failed) else s.runs[r]
    {
      FailExactly(s.runs, s.requests, s.listings[l].picked, r);
    }
  }

  /** and the second pass expires exactly the pending requests past their expiry by then. */
  lemma SecondPassExactly(s: Server, due: set<nat>)
    ensures var t := Apply(s, OpSecondPass(due));
            && t == s.(requests := t.requests) && |t.requests| == |s.requests|
            && forall a :: 0 <= a < |s.requests| ==>
                 t.requests[a] == if a in due && s.requests[a].state == Pending
                                  then Request(s.requests[a].run, s.requests[a].payload, RequestState.Expired)
                                  else s.requests[a]
  {
    PickExactly(s.requests, due, |s.requests|);
  }

  /** Out of turn, a step of a listing does nothing. */
  lemma ListingIdle(s: Server, l: nat, due: set<nat>)
    ensures l in s.listings ==> Apply(s, OpListSelect(l, due)) == s
    ensures l !in s.listings || s.listings[l].marked ==> Apply(s, OpListMark(l)) == s
    ensures l !in s.listings || !s.listings[l].marked ==> Apply(s, OpListFail(l)) == s
  {
  }

  // ---- who sent a command ----

  /** Step k of the history is an approval that was let through and put command i on the stream. */
  ghost predicate ApprovedAt(engine: bool, ops: seq<Op>, k: nat, i: nat, a: nat) {
    && k < |ops| && ops[k].OpApprove? && ops[k].a == a
    && var s := History(engine, ops[..k]);
       var t := History(engine, ops[..k + 1]);
       && LetsThrough(s, ops[k]) && |s.sent| == i && |t.sent| == i + 1
  }

  lemma {:induction false} SentGrows(engine: bool, ops: seq<Op>, k: nat)
    requires k <= |ops|
    ensures History(engine, ops[..k]).sent <= History(engine, ops).sent
  {
    if k < |ops| {
      var n := |ops| - 1;
      SentGrows(engine, ops[..n], k);
      assert ops[..n][..k] == ops[..k];
      SoundHistory(engine, ops[..n]);
      var s, op := History(engine, ops[..n]), ops[n];
      if op.OpDispatch? && |op.hosts| == |op.matches| == |op.envs| {
        SendsExactlyTheAllowed(s, op.hosts, Verdicts(op.rules, op.matches), op.payload, op.envs, 0);
      }
    } else {
      assert ops[..k] == ops;
    }
  }

  /** What a dispatch sends carries no approval. */
  lemma DispatchSendsUnapproved(engine: bool, ops: seq<Op>, op: Op, i: nat)
    ensures var s := History(engine, ops); var t := Apply(s, op);
            op.OpDispatch? && |s.sent| <= i < |t.sent| ==> t.sent[i].approval == None
  {
    var s := History(engine, ops);
    var t := Apply(s, op);
    SoundHistory(engine, ops);
    if op.OpDispatch? && |op.hosts| == |op.matches| == |op.envs| && |s.sent| <= i < |t.sent| {
      var verdicts := Verdicts(op.rules, op.matches);
      HostCommands(s, op.hosts, verdicts, op.payload, op.envs, |op.hosts|, t.sent[i]);
      assert op.hosts[..|op.hosts|] == op.hosts && verdicts[..|verdicts|] == verdicts && op.envs[..|op.envs|] == op.envs;
      assert t.sent[i] in t.sent[|s.sent|..];
    }
  }

  /** Over every history: a command that carries an approval was put on the stream by an
      approve operation on that very request, by an admin, while the request was pending and
      not past its expiry and its run open. */
  lemma {:induction false} OnlyAnAdminReleases(engine: bool, ops: seq<Op>, i: nat, a: nat)
    requires i < |History(engine, ops).sent| && History(engine, ops).sent[i].approval == Some(a)
    ensures exists k: nat :: ApprovedAt(engine, ops, k, i, a)
  {
    var n := |ops| - 1;
    var s, op := History(engine, ops[..n]), ops[n];
    SentGrows(engine, ops, n);
    if i < |s.sent| {
      OnlyAnAdminReleases(engine, ops[..n], i, a);
      var k: nat :| ApprovedAt(engine, ops[..n], k, i, a);
      assert k < n;
      assert ops[..n][..k] == ops[..k] && ops[..n][..k + 1] == ops[..k + 1];
      assert ApprovedAt(engine, ops, k, i, a);
    } else {
      assert ops[..n + 1] == ops;
      DispatchSendsUnapproved(engine, ops[..n], op, i);
      if op.OpApprove? { ApproveExactly(s, op.a, op.admin, op.live, op.link); }
      assert ApprovedAt(engine, ops, n, i, a);
    }
  }
}
