/** Policy evaluation, dispatch and approval of commands: a command leaves the
    server only for a recorded run that the policy allows, or whose parked payload
    an admin has approved, and it leaves at most once per run. */
module Dispatch {
  import opened Aggregate
  import opened Executions
  import opened Options

  // ---- policy ----

  /** `Unknown` stands for any other word in a rule's effect field. */
  datatype Effect = Deny | RequireApproval | Allow | Unknown

  datatype Rule = Rule(id: string, effect: Effect)

  datatype Verdict = Verdict(effect: Effect, matched: seq<string>)

  /** Rules, and which of them match the action (host, actor, command line, end of support). */
  type Matches = Rule -> bool

  ghost predicate Hit(rules: seq<Rule>, matches: Matches, effect: Effect) {
    exists i :: 0 <= i < |rules| && matches(rules[i]) && rules[i].effect == effect
  }

  /** Deny over require_approval over allow, and allow when nothing matches. */
  ghost function EffectOf(rules: seq<Rule>, matches: Matches): Effect {
    if Hit(rules, matches, Deny) then Deny
    else if Hit(rules, matches, RequireApproval) then RequireApproval
    else Allow
  }

  /** The ids of the matching rules with a given effect, in rule order. */
  function Ids(rules: seq<Rule>, matches: Matches, effect: Effect): seq<string> {
    if rules == [] then []
    else
      var last := rules[|rules| - 1];
      Ids(rules[..|rules| - 1], matches, effect) +
      if matches(last) && last.effect == effect then [last.id] else []
  }

  lemma {:induction false} IdsNonEmpty(rules: seq<Rule>, matches: Matches, effect: Effect)
    ensures Ids(rules, matches, effect) != [] <==> Hit(rules, matches, effect)
  {
    if rules != [] {
      var n := |rules| - 1;
      IdsNonEmpty(rules[..n], matches, effect);
      if i :| 0 <= i < n && matches(rules[..n][i]) && rules[..n][i].effect == effect {
        assert rules[i] == rules[..n][i];
      }
      if i :| 0 <= i < |rules| && matches(rules[i]) && rules[i].effect == effect {
        assert i < n ==> rules[..n][i] == rules[i];
      }
    }
  }

  method Evaluate(rules: seq<Rule>, matches: Matches) returns (d: Verdict)
    ensures d.effect == EffectOf(rules, matches)
    ensures d.matched == Ids(rules, matches, d.effect)
  {
    var deny, approve, allow := [], [], [];
    for i := 0 to |rules|
      invariant deny == Ids(rules[..i], matches, Deny)
      invariant approve == Ids(rules[..i], matches, RequireApproval)
      invariant allow == Ids(rules[..i], matches, Allow)
    {
      assert rules[..i + 1][..i] == rules[..i];
      if matches(rules[i]) {
        match rules[i].effect {
          case Deny => deny := deny + [rules[i].id];
          case RequireApproval => approve := approve + [rules[i].id];
          case Allow => allow := allow + [rules[i].id];
          case Unknown =>
        }
      }
    }
    assert rules[..|rules|] == rules;
    IdsNonEmpty(rules, matches, Deny);
    IdsNonEmpty(rules, matches, RequireApproval);
    if |deny| > 0 {
      return Verdict(Deny, deny);
    }
    if |approve| > 0 {
      return Verdict(RequireApproval, approve);
    }
    return Verdict(Allow, allow);
  }

  // ---- the server ----

  datatype Payload = Payload(cmd: string, args: seq<string>, env: map<string, string>, timeoutS: int)

  /** A command handed to the stream (sent, queued for an offline agent, or attempted). */
  datatype Command = Command(run: nat, payload: Payload, approval: Option<nat>)

  datatype RequestState = Pending | Approved | Rejected | Expired

  datatype Request = Request(run: nat, payload: Payload, state: RequestState)

  datatype Link = Up | Offline | Down

  /** What the environment does for one host: whether the run row is stored,
      whether an approval request can be created, and how the link is. */
  datatype HostEnv = HostEnv(recorded: bool, requestStored: bool, link: Link)

  /** The state in which Dispatch leaves a run. */
  function Outcome(engine: bool, effect: Effect, env: HostEnv): RunState {
    match effect
    case Deny => Denied
    case RequireApproval => if engine && env.requestStored then AwaitingApproval else Denied
    case _ =>
      match env.link
      case Up => Delivered
      case Offline => QueuedOffline
      case Down => NotDelivered
  }

  // ---- the effect of each operation on the server's rows and its trace ----

  /** A listing whose first expiry pass has picked the overdue requests, and whether it
      has marked them; failing the runs they hold is still to come. */
  datatype Listing = Listing(picked: seq<nat>, marked: bool)

  /** The stored rows, the trace of commands handed to the stream, and for every run
      the verdict it was recorded under and what was asked for. */
  datatype Server = Server(
    engine: bool,                // an approvals engine is wired in
    runs: seq<Run>,
    requests: seq<Request>,
    sent: seq<Command>,
    decided: seq<Effect>,
    asked: seq<Payload>,
    listings: map<nat, Listing>  // the listings of approval requests under way
  )

  /** One host of the dispatch loop. */
  function AddHost(s: Server, host: Agent, effect: Effect, payload: Payload, env: HostEnv): Server {
    if !env.recorded then s
    else
      s.(runs := s.runs + [Run(host, Outcome(s.engine, effect, env))],
         decided := s.decided + [effect],
         asked := s.asked + [payload],
         sent := s.sent + if effect == Allow then [Command(|s.runs|, payload, None)] else [],
         requests := s.requests +
           if effect == RequireApproval && s.engine && env.requestStored then [Request(|s.runs|, payload, Pending)] else [])
  }

  function AddHosts(s: Server, hosts: seq<Agent>, verdicts: seq<Effect>, payload: Payload, envs: seq<HostEnv>): Server
    requires |hosts| == |verdicts| == |envs|
  {
    if hosts == [] then s
    else
      var n := |hosts| - 1;
      AddHost(AddHosts(s, hosts[..n], verdicts[..n], payload, envs[..n]), hosts[n], verdicts[n], payload, envs[n])
  }

  /** Whether Approve lets request `a` through; `live` says that it has not expired.  An
      expired one is refused and stays pending: the store accepts only approved and
      denied as decisions, and the error is ignored. */
  predicate Approvable(s: Server, a: nat, admin: bool, live: bool) {
    && a < |s.requests| && admin && live && s.requests[a].state == Pending
    && s.requests[a].run < |s.runs| && !Done(s.runs[s.requests[a].run].state)
  }

  function ApproveRequest(s: Server, a: nat, admin: bool, live: bool, link: Link): Server {
    if Approvable(s, a, admin, live) then
      var q := s.requests[a];
      s.(requests := s.requests[a := q.(state := Approved)],
         sent := s.sent + [Command(q.run, q.payload, Some(a))],
         runs := SetRun(s.runs, q.run, Outcome(true, Allow, HostEnv(true, true, link))))
    else s
  }

  function RejectRequest(s: Server, a: nat, admin: bool): Server {
    if a < |s.requests| && admin && s.requests[a].state == Pending then
      s.(requests := s.requests[a := s.requests[a].(state := Rejected)],
         runs := SetRun(s.runs, s.requests[a].run, Failed))
    else s
  }

  /** A pending request past its expiry. */
  predicate Overdue(requests: seq<Request>, due: set<nat>, a: nat) {
    a < |requests| && a in due && requests[a].state == Pending
  }

  /** What an expiry pass selects among the first `n` requests; `due` are those past their expiry. */
  function Pick(requests: seq<Request>, due: set<nat>, n: nat): seq<nat>
    requires n <= |requests|
  {
    if n == 0 then []
    else if Overdue(requests, due, n - 1) then Pick(requests, due, n - 1) + [n - 1]
    else Pick(requests, due, n - 1)
  }

  /** The requests after those picked that are still pending have been marked expired. */
  function Mark(requests: seq<Request>, picked: seq<nat>): (out: seq<Request>)
    ensures |out| == |requests|
    ensures forall a :: 0 <= a < |out| ==> out[a].run == requests[a].run && out[a].payload == requests[a].payload
  {
    seq(|requests|, a requires 0 <= a < |requests| =>
      if a in picked && requests[a].state == Pending then requests[a].(state := RequestState.Expired) else requests[a])
  }

  /** The runs after those of the picked requests have failed, whatever became of the requests. */
  function Fail(runs: seq<Run>, requests: seq<Request>, picked: seq<nat>): (out: seq<Run>)
    ensures |out| == |runs|
  {
    if picked == [] then runs
    else
      var a := picked[|picked| - 1];
      var before := Fail(runs, requests, picked[..|picked| - 1]);
      if a < |requests| then SetRun(before, requests[a].run, Failed) else before
  }

  /** A listing, step by step: the first pass selects, */
  function ListSelect(s: Server, l: nat, due: set<nat>): Server {
    if l in s.listings then s
    else s.(listings := s.listings[l := Listing(Pick(s.requests, due, |s.requests|), false)])
  }

  /** marks what is still pending of its selection, */
  function ListMark(s: Server, l: nat): Server {
    if l in s.listings && !s.listings[l].marked
    then s.(requests := Mark(s.requests, s.listings[l].picked), listings := s.listings[l := s.listings[l].(marked := true)])
    else s
  }

  /** and fails the runs of its whole selection; */
  function ListFail(s: Server, l: nat): Server {
    if l in s.listings && s.listings[l].marked
    then s.(runs := Fail(s.runs, s.requests, s.listings[l].picked), listings := s.listings - {l})
    else s
  }

  /** the second pass, inside the store's own listing, marks, and its result is thrown away. */
  function SecondPass(s: Server, due: set<nat>): Server {
    s.(requests := Mark(s.requests, Pick(s.requests, due, |s.requests|)))
  }

  /** A whole listing that nothing interrupts. */
  function ListRequests(s: Server, due: set<nat>, later: set<nat>): Server {
    var picked := Pick(s.requests, due, |s.requests|);
    SecondPass(s.(requests := Mark(s.requests, picked), runs := Fail(s.runs, s.requests, picked)), later)
  }

  // ---- the methods ----

  class Control {
    const engine: bool
    var runs: seq<Run>
    var requests: seq<Request>
    ghost var sent: seq<Command>
    ghost var decided: seq<Effect>
    ghost var asked: seq<Payload>
    ghost var listings: map<nat, Listing>

    ghost function Rows(): Server
      reads this
    {
      Server(engine, runs, requests, sent, decided, asked, listings)
    }

    constructor (engine: bool)
      ensures Rows() == Server(engine, [], [], [], [], [], map[])
    {
      this.engine := engine;
      runs, requests, sent, decided, asked, listings := [], [], [], [], [], map[];
    }

    /** One iteration of the dispatch loop; `terminal` is false when the run stays open. */
    method DispatchHost(host: Agent, effect: Effect, payload: Payload, env: HostEnv) returns (terminal: bool)
      requires effect != Unknown
      modifies this
      ensures Rows() == AddHost(old(Rows()), host, effect, payload, env)
      ensures terminal <==> env.recorded ==> Final(Outcome(engine, effect, env))
    {
      if !env.recorded {
        return true;
      }
      var r := |runs|;
      runs := runs + [Run(host, Queued)];
      decided := decided + [effect];
      asked := asked + [payload];
      var to := Denied;
      terminal := true;
      match effect {
        case Deny =>
        case RequireApproval =>
          if engine && env.requestStored {
            requests := requests + [Request(r, payload, Pending)];
            to := AwaitingApproval;
            terminal := false;
          }
        case Allow =>
          sent := sent + [Command(r, payload, None)];
          match env.link {
            case Up => to := Delivered; terminal := false;
            case Offline => to := QueuedOffline; terminal := false;
            case Down => to := NotDelivered;
          }
      }
      runs := SetRun(runs, r, to);
    }

    /** Dispatch over a resolved host list.  `verdicts` are the policy's effects and
        `envs` the environment's answers, host by host; the result says whether the
        aggregate is finalized at the end: exactly when no recorded run is left
        without an outcome. */
    method DispatchAll(hosts: seq<Agent>, verdicts: seq<Effect>, payload: Payload, envs: seq<HostEnv>)
      returns (finalize: bool)
      requires |hosts| == |verdicts| == |envs| && Unknown !in verdicts
      modifies this
      ensures Rows() == AddHosts(old(Rows()), hosts, verdicts, payload, envs)
      ensures finalize <==>
              forall h :: 0 <= h < |hosts| && envs[h].recorded ==> Final(Outcome(engine, verdicts[h], envs[h]))
    {
      finalize := true;
      for n := 0 to |hosts|
        invariant Rows() == AddHosts(old(Rows()), hosts[..n], verdicts[..n], payload, envs[..n])
        invariant finalize <==>
                  forall h :: 0 <= h < n && envs[h].recorded ==> Final(Outcome(engine, verdicts[h], envs[h]))
      {
        assert hosts[..n + 1][..n] == hosts[..n];
        assert verdicts[..n + 1][..n] == verdicts[..n];
        assert envs[..n + 1][..n] == envs[..n];
        var terminal := DispatchHost(hosts[n], verdicts[n], payload, envs[n]);
        if !terminal {
          finalize := false;
        }
      }
      assert hosts[..|hosts|] == hosts && verdicts[..|verdicts|] == verdicts && envs[..|envs|] == envs;
    }

    /** Approve, and the re-dispatch of the stored payload. */
    method Approve(a: nat, admin: bool, live: bool, link: Link) returns (ok: bool)
      requires a < |requests| ==> requests[a].run < |runs|
      modifies this
      ensures Rows() == ApproveRequest(old(Rows()), a, admin, live, link)
      ensures ok <==> && admin && live && a < |old(requests)| && old(requests)[a].state == Pending
                      && old(runs)[old(requests)[a].run].state in {Queued, QueuedOffline, Delivered, Running, AwaitingApproval}
    {
      if !admin || a >= |requests| {
        return false;
      }
      var state := requests[a].state;
      if state == Pending && !live {
        // the decision "expired" is refused by the store; only the local copy changes
        state := RequestState.Expired;
      }
      if state != Pending {
        return false;
      }
      var q := requests[a];
      if Done(runs[q.run].state) {
        return false;
      }
      requests := requests[a := q.(state := Approved)];
      sent := sent + [Command(q.run, q.payload, Some(a))];
      var to;
      match link {
        case Up => to := Delivered;
        case Offline => to := QueuedOffline;
        case Down => to := NotDelivered;
      }
      runs := SetRun(runs, q.run, to);
      return true;
    }

    /** Deny a request, and finalize the run it was holding. */
    method Reject(a: nat, admin: bool) returns (ok: bool)
      modifies this
      ensures Rows() == RejectRequest(old(Rows()), a, admin)
      ensures ok <==> admin && a < |old(requests)| && old(requests)[a].state == Pending
    {
      if !admin || a >= |requests| || requests[a].state != Pending {
        return false;
      }
      requests := requests[a := requests[a].(state := Rejected)];
      runs := SetRun(runs, requests[a].run, Failed);
      return true;
    }

    /** ExpireApprovalRequests: select the overdue requests, then mark them, guarded; all
        selected ones are returned. */
    method ExpireOverdue(due: set<nat>) returns (picked: seq<nat>)
      modifies this
      ensures picked == Pick(old(requests), due, |old(requests)|)
      ensures Rows() == old(Rows()).(requests := Mark(old(requests), picked))
    {
      picked := SelectOverdue(requests, due);
      requests := MarkSelected(requests, picked);
    }

    /** List: the first expiry pass, the failing of the runs that its requests held, and
        the store's listing with its own expiry pass. */
    method List(due: set<nat>, later: set<nat>)
      modifies this
      ensures Rows() == ListRequests(old(Rows()), due, later)
    {
      var picked := ExpireOverdue(due);
      for k := 0 to |picked|
        invariant Rows() == old(Rows()).(requests := Mark(old(requests), picked),
                                         runs := Fail(old(runs), old(requests), picked[..k]))
      {
        assert picked[..k + 1][..k] == picked[..k];
        if picked[k] < |requests| {
          runs := SetRun(runs, requests[picked[k]].run, Failed);
        }
      }
      assert picked[..|picked|] == picked;
      var _ := ExpireOverdue(later);
    }
  }

  /** The SELECT of the pass. */
  method SelectOverdue(requests: seq<Request>, due: set<nat>) returns (picked: seq<nat>)
    ensures picked == Pick(requests, due, |requests|)
    ensures forall p :: p in picked ==> p < |requests|
  {
    picked := [];
    for a := 0 to |requests|
      invariant picked == Pick(requests, due, a)
      invariant forall p :: p in picked ==> p < |requests|
    {
      if requests[a].state == Pending && a in due {
        picked := picked + [a];
      }
    }
  }

  /** The guarded UPDATE of each selected request. */
  method MarkSelected(requests: seq<Request>, picked: seq<nat>) returns (out: seq<Request>)
    requires forall p :: p in picked ==> p < |requests|
    ensures out == Mark(requests, picked)
  {
    out := requests;
    assert Mark(requests, picked[..0]) == requests;
    for k := 0 to |picked|
      invariant out == Mark(requests, picked[..k])
    {
      var a := picked[k];
      assert a in picked;
      MarkSnoc(requests, picked[..k], a);
      assert picked[..k + 1] == picked[..k] + [a];
      if out[a].state == Pending {
        out := out[a := out[a].(state := RequestState.Expired)];
      }
    }
    assert picked[..|picked|] == picked;
  }

  lemma MarkSnoc(requests: seq<Request>, picked: seq<nat>, a: nat)
    requires a < |requests|
    ensures var before := Mark(requests, picked);
            Mark(requests, picked + [a]) ==
            if before[a].state == Pending then before[a := before[a].(state := RequestState.Expired)] else before
  {
  }

  /** The run states that IsTerminalRun calls final (interrupted among them). */
  predicate Done(r: RunState) { Final(r) || r == Interrupted }

  // ---- safety over whole histories ----

  datatype Op =
    | OpDispatch(hosts: seq<Agent>, rules: seq<Rule>, matches: seq<Matches>, payload: Payload, envs: seq<HostEnv>)
    | OpApprove(a: nat, admin: bool, live: bool, link: Link)
    | OpReject(a: nat, admin: bool)
    | OpListSelect(l: nat, due: set<nat>) | OpListMark(l: nat) | OpListFail(l: nat)
    | OpSecondPass(due: set<nat>)
    | OpReport(r: nat, to: RunState)   // any other run write: results, disconnects, sweeps, cancels

  ghost function Verdicts(rules: seq<Rule>, matches: seq<Matches>): (out: seq<Effect>)
    ensures |out| == |matches| && Unknown !in out
  {
    seq(|matches|, h requires 0 <= h < |matches| => EffectOf(rules, matches[h]))
  }

  ghost function Apply(s: Server, op: Op): Server {
    match op
    case OpDispatch(hosts, rules, matches, payload, envs) =>
      if |hosts| == |matches| == |envs|
      then AddHosts(s, hosts, Verdicts(rules, matches), payload, envs)
      else s
    case OpApprove(a, admin, live, link) => ApproveRequest(s, a, admin, live, link)
    case OpReject(a, admin) => RejectRequest(s, a, admin)
    case OpListSelect(l, due) => ListSelect(s, l, due)
    case OpListMark(l) => ListMark(s, l)
    case OpListFail(l) => ListFail(s, l)
    case OpSecondPass(due) => SecondPass(s, due)
    case OpReport(r, to) => s.(runs := SetRun(s.runs, r, to))
  }

  ghost function History(engine: bool, ops: seq<Op>): Server {
    if ops == [] then Server(engine, [], [], [], [], [], map[])
    else Apply(History(engine, ops[..|ops| - 1]), ops[|ops| - 1])
  }

  /** A command leaves under an allow verdict, or under a require_approval verdict with
      an approved request for that very run; what leaves is what was asked for. */
  ghost predicate Justified(s: Server, c: Command) {
    && c.run < |s.asked| == |s.decided|
    && c.payload == s.asked[c.run]
    && match c.approval
       case None => s.decided[c.run] == Allow
       case Some(a) =>
         && s.decided[c.run] == RequireApproval
         && a < |s.requests| && s.requests[a].state == Approved && s.requests[a].run == c.run
  }

  ghost predicate Parked(s: Server, q: Request) {
    && q.run < |s.asked| == |s.decided|
    && q.payload == s.asked[q.run] && s.decided[q.run] == RequireApproval
  }

  ghost predicate Sound(s: Server) {
    && |s.decided| == |s.asked| == |s.runs|
    && (forall i :: 0 <= i < |s.sent| ==> Justified(s, s.sent[i]))
    && (forall i, j :: 0 <= i < j < |s.sent| ==> s.sent[i].run != s.sent[j].run)
    && (forall a :: 0 <= a < |s.requests| ==> Parked(s, s.requests[a]))
    && (forall a, b :: 0 <= a < b < |s.requests| ==> s.requests[a].run != s.requests[b].run)
  }

  /** A command for the run of a request can only have left through that request. */
  lemma SentThroughRequest(s: Server, a: nat, i: nat)
    requires Sound(s) && a < |s.requests| && i < |s.sent| && s.sent[i].run == s.requests[a].run
    ensures s.requests[a].state == Approved
  {
    assert Justified(s, s.sent[i]) && Parked(s, s.requests[a]);
    var Some(b) := s.sent[i].approval;
    assert a == b;
  }

  lemma SoundAddHost(s: Server, host: Agent, effect: Effect, payload: Payload, env: HostEnv)
    requires Sound(s)
    ensures Sound(AddHost(s, host, effect, payload, env))
  {
    var t := AddHost(s, host, effect, payload, env);
    if env.recorded {
      forall i | 0 <= i < |t.sent| ensures Justified(t, t.sent[i]) {
        if i < |s.sent| { assert Justified(s, s.sent[i]); }
      }
      forall a | 0 <= a < |t.requests| ensures Parked(t, t.requests[a]) {
        if a < |s.requests| { assert Parked(s, s.requests[a]); }
      }
      assert forall i :: 0 <= i < |s.sent| ==> Justified(s, s.sent[i]);
      assert forall a :: 0 <= a < |s.requests| ==> Parked(s, s.requests[a]);
    }
  }

  lemma {:induction false} SoundAddHosts(s: Server, hosts: seq<Agent>, verdicts: seq<Effect>, payload: Payload, envs: seq<HostEnv>)
    requires |hosts| == |verdicts| == |envs| && Sound(s)
    ensures Sound(AddHosts(s, hosts, verdicts, payload, envs))
  {
    if hosts != [] {
      var n := |hosts| - 1;
      SoundAddHosts(s, hosts[..n], verdicts[..n], payload, envs[..n]);
      SoundAddHost(AddHosts(s, hosts[..n], verdicts[..n], payload, envs[..n]), hosts[n], verdicts[n], payload, envs[n]);
    }
  }

  lemma SoundApprove(s: Server, a: nat, admin: bool, live: bool, link: Link)
    requires Sound(s)
    ensures Sound(ApproveRequest(s, a, admin, live, link))
  {
    var t := ApproveRequest(s, a, admin, live, link);
    forall b | 0 <= b < |t.requests| ensures Parked(t, t.requests[b]) {
      assert Parked(s, s.requests[b]);
    }
    forall i | 0 <= i < |t.sent| ensures Justified(t, t.sent[i]) {
      if i < |s.sent| { assert Justified(s, s.sent[i]); }
    }
    if Approvable(s, a, admin, live) {
      forall i | 0 <= i < |s.sent| ensures s.sent[i].run != s.requests[a].run {
        if s.sent[i].run == s.requests[a].run { SentThroughRequest(s, a, i); }
      }
    }
  }

  lemma SoundReject(s: Server, a: nat, admin: bool)
    requires Sound(s)
    ensures Sound(RejectRequest(s, a, admin))
  {
    var t := RejectRequest(s, a, admin);
    forall b | 0 <= b < |t.requests| ensures Parked(t, t.requests[b]) {
      assert Parked(s, s.requests[b]);
    }
    forall i | 0 <= i < |t.sent| ensures Justified(t, t.sent[i]) {
      assert Justified(s, s.sent[i]);
    }
  }

  /** Marking pending requests as expired, and writing runs, takes nothing from soundness. */
  lemma SoundMark(s: Server, t: Server, picked: seq<nat>)
    requires Sound(s) && |t.runs| == |s.runs|
    requires t == s.(requests := Mark(s.requests, picked), runs := t.runs, listings := t.listings)
    ensures Sound(t)
  {
    forall b | 0 <= b < |t.requests| ensures Parked(t, t.requests[b]) {
      assert Parked(s, s.requests[b]);
    }
    forall i | 0 <= i < |t.sent| ensures Justified(t, t.sent[i]) {
      assert Justified(s, s.sent[i]);
    }
  }

  lemma SoundListing(s: Server, op: Op)
    requires Sound(s) && (op.OpListSelect? || op.OpListMark? || op.OpListFail? || op.OpSecondPass?)
    ensures Sound(Apply(s, op))
  {
    var t := Apply(s, op);
    assert Mark(s.requests, []) == s.requests;
    match op {
      case OpListMark(l) =>
        if l in s.listings && !s.listings[l].marked { SoundMark(s, t, s.listings[l].picked); }
      case OpSecondPass(due) => SoundMark(s, t, Pick(s.requests, due, |s.requests|));
      case _ => SoundMark(s, t, []);
    }
  }

  lemma SoundApply(s: Server, op: Op)
    requires Sound(s)
    ensures Sound(Apply(s, op))
  {
    match op {
      case OpDispatch(hosts, rules, matches, payload, envs) =>
        if |hosts| == |matches| == |envs| {
          SoundAddHosts(s, hosts, Verdicts(rules, matches), payload, envs);
        }
      case OpApprove(a, admin, live, link) => SoundApprove(s, a, admin, live, link);
      case OpReject(a, admin) => SoundReject(s, a, admin);
      case OpReport(r, to) =>
        var t := Apply(s, op);
        assert forall i :: 0 <= i < |s.sent| ==> Justified(s, s.sent[i]) ==> Justified(t, t.sent[i]);
        assert forall a :: 0 <= a < |s.requests| ==> Parked(s, s.requests[a]) ==> Parked(t, t.requests[a]);
      case _ => SoundListing(s, op);
    }
  }

  lemma {:induction false} SoundHistory(engine: bool, ops: seq<Op>)
    ensures Sound(History(engine, ops))
  {
    if ops != [] {
      SoundHistory(engine, ops[..|ops| - 1]);
      SoundApply(History(engine, ops[..|ops| - 1]), ops[|ops| - 1]);
    }
  }

  /** Fail closed, over any history of dispatches under any rules, approvals,
      rejections and run writes: every command that ever left was recorded first, was
      not under a deny, and if its verdict was require_approval it left through an
      approved request for its run; it carries the cmd, args, env and timeout asked
      for; and no run's command leaves twice. */
  lemma CommandsFailClosed(engine: bool, ops: seq<Op>, i: nat)
    requires i < |History(engine, ops).sent|
    ensures var s := History(engine, ops); var c := s.sent[i];
            && c.run < |s.runs| == |s.asked| == |s.decided|
            && c.payload == s.asked[c.run]
            && s.decided[c.run] != Deny
            && (s.decided[c.run] == RequireApproval ==>
                 exists a :: 0 <= a < |s.requests| && s.requests[a].run == c.run && s.requests[a].state == Approved)
            && forall j :: 0 <= j < |s.sent| && s.sent[j].run == c.run ==> j == i
  {
    SoundHistory(engine, ops);
    var s := History(engine, ops);
    assert Justified(s, s.sent[i]);
  }

  /** Complete as well as closed: one dispatch sends the command of a run it records
      exactly when the verdict is allow. */
  lemma {:induction false} SendsExactlyTheAllowed(s: Server, hosts: seq<Agent>, verdicts: seq<Effect>, payload: Payload,
                                                  envs: seq<HostEnv>, r: nat)
    requires |hosts| == |verdicts| == |envs| && Sound(s)
    ensures var t := AddHosts(s, hosts, verdicts, payload, envs);
            && s.runs <= t.runs && s.sent <= t.sent && |t.decided| == |t.runs|
            && (|s.runs| <= r < |t.runs| ==>
                 (t.decided[r] == Allow <==> Command(r, payload, None) in t.sent[|s.sent|..]))
  {
    if hosts != [] {
      var n := |hosts| - 1;
      var t' := AddHosts(s, hosts[..n], verdicts[..n], payload, envs[..n]);
      SendsExactlyTheAllowed(s, hosts[..n], verdicts[..n], payload, envs[..n], r);
      SoundAddHosts(s, hosts, verdicts, payload, envs);
      SoundAddHosts(s, hosts[..n], verdicts[..n], payload, envs[..n]);
      var t := AddHosts(s, hosts, verdicts, payload, envs);
      assert t.sent[|s.sent|..] == t'.sent[|s.sent|..] + t.sent[|t'.sent|..];
      if Command(r, payload, None) in t'.sent[|s.sent|..] {
        var i :| 0 <= i < |t'.sent| && t'.sent[i] == Command(r, payload, None);
        assert Justified(t', t'.sent[i]);
      }
    }
  }
}
