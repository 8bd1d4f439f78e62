/** The agent's own code for one run, `deliver` and `drainSpool`, as methods that
    update the flag and the spool.  Run without interruption, each is a stretch of
    steps of the delivery protocol. */
module DeliveryAgent {
  import opened Delivery

  /** What the stream answers to one send. */
  datatype Answer = Answer(ok: bool, reached: bool)

  /** The steps of one call of deliver; those of the branch not taken do nothing. */
  function DeliverSteps(x: Record, a: Answer): seq<Event> {
    [Check(x), Send(x, a.ok, a.reached), Mark(x), Append(x)]
  }

  /** The steps of one drain; those after a failed send do nothing. */
  function DrainSteps(answers: seq<Answer>): seq<Event> {
    [StartDrain(0)] + Sends(answers) + [EndDrain(0)]
  }

  function Sends(answers: seq<Answer>): (out: seq<Event>)
    ensures |out| == |answers|
  {
    if answers == [] then []
    else
      var a := answers[|answers| - 1];
      Sends(answers[..|answers| - 1]) + [DrainSend(0, a.ok, a.reached)]
  }

  lemma Extend(s: State, es: seq<Event>, e: Event)
    ensures After(s, es + [e]) == Next(After(s, es), e)
  {
    assert (es + [e])[..|es|] == es;
  }

  lemma CheckStep(s: State, x: Record)
    requires s.calls == map[x := Checking]
    ensures Next(s, Check(x)) == s.(calls := map[x := if s.flag then Appending else Sending])
  {
  }

  lemma SendStep(s: State, x: Record, a: Answer)
    requires s.calls == map[x := Sending]
    ensures Next(s, Send(x, a.ok, a.reached)) ==
            s.(calls := if a.ok then map[] else map[x := Marking],
               received := if a.ok || a.reached then s.received + [x] else s.received)
  {
    assert s.calls - {x} == map[];
  }

  lemma MarkStep(s: State, x: Record)
    requires s.calls == map[x := Marking]
    ensures Next(s, Mark(x)) == s.(calls := map[x := Appending], flag := true)
  {
  }

  lemma AppendStep(s: State, x: Record)
    requires s.calls == map[x := Appending]
    ensures Next(s, Append(x)) == s.(calls := map[], spool := s.spool + [x])
  {
    assert s.calls - {x} == map[];
  }

  /** Steps that belong to another stage do nothing. */
  lemma IdleStep(s: State, x: Record, a: Answer)
    ensures s.calls == map[] ==> Next(s, Mark(x)) == s && Next(s, Append(x)) == s
    ensures s.calls == map[x := Appending] ==> Next(s, Send(x, a.ok, a.reached)) == s && Next(s, Mark(x)) == s
  {
  }

  /** A call of deliver: sent directly, or spooled after a failed send or because the
      run spools already. */
  function Delivered(s: State, x: Record, a: Answer): State {
    s.(calls := map[],
       received := if !s.flag && (a.ok || a.reached) then s.received + [x] else s.received,
       flag := s.flag || !a.ok,
       spool := if s.flag || !a.ok then s.spool + [x] else s.spool)
  }

  lemma DeliverEffect(s: State, x: Record, a: Answer)
    requires s.calls == map[x := Checking]
    ensures After(s, DeliverSteps(x, a)) == Delivered(s, x, a)
  {
    var es := DeliverSteps(x, a);
    assert [] + [es[0]] == es[..1] && es[..1] + [es[1]] == es[..2] && es[..2] + [es[2]] == es[..3] && es[..3] + [es[3]] == es;
    Extend(s, [], es[0]);
    CheckStep(s, x);
    Extend(s, es[..1], es[1]);
    var s1 := After(s, es[..1]);
    if s.flag { IdleStep(s1, x, a); } else { SendStep(s1, x, a); }
    Extend(s, es[..2], es[2]);
    var s2 := After(s, es[..2]);
    if s.flag || a.ok { IdleStep(s2, x, a); } else { MarkStep(s2, x); }
    Extend(s, es[..3], es[3]);
    var s3 := After(s, es[..3]);
    if !s.flag && a.ok { IdleStep(s3, x, a); } else { AppendStep(s3, x); }
  }

  lemma DrainStep(s: State, copy: seq<Record>, i: nat, a: Answer)
    requires s.drains == map[0 := Drain(copy, i)] && i < |copy|
    ensures Next(s, DrainSend(0, a.ok, a.reached)) ==
            s.(received := if a.ok || a.reached then s.received + [copy[i]] else s.received,
               drains := if a.ok then map[0 := Drain(copy, i + 1)] else map[])
  {
    assert s.drains - {0} == map[];
    assert s.drains[0 := Drain(copy, i + 1)] == map[0 := Drain(copy, i + 1)];
  }

  lemma StartStep(s: State)
    requires s.drains == map[] && Outcome in s.spool
    ensures Next(s, StartDrain(0)) == s.(drains := map[0 := Drain(s.spool, 0)])
  {
  }

  lemma EndStep(s: State)
    requires s.drains == map[0 := Drain(s.spool, |s.spool|)]
    ensures Next(s, EndDrain(0)) == s.(spool := [], flag := false, drains := map[])
  {
    assert s.drains - {0} == map[];
  }

  lemma NoDrainStep(s: State, a: Answer)
    requires s.drains == map[]
    ensures Next(s, DrainSend(0, a.ok, a.reached)) == s && Next(s, EndDrain(0)) == s
  {
  }

  class Agent {
    var flag: bool
    var spool: seq<Record>
    ghost var state: State   // the state of the protocol that these two fields belong to

    ghost predicate Valid()
      reads this
    {
      state.flag == flag && state.spool == spool
    }

    constructor ()
      ensures Valid() && state == Init(true)
    {
      flag, spool, state := false, [], Init(true);
    }

    /** deliver, for the record whose call has just begun. */
    method Deliver(x: Record, answer: Answer)
      requires Valid() && state.calls == map[x := Checking]
      modifies this
      ensures Valid() && state == After(old(state), DeliverSteps(x, answer))
      ensures flag == (old(flag) || !answer.ok)
      ensures spool == if flag then old(spool) + [x] else old(spool)
    {
      DeliverEffect(state, x, answer);
      state := Delivered(state, x, answer);
      var spooling := flag;
      if !spooling {
        // the send
        if answer.ok {
          return;
        }
        flag := true;
      }
      spool := spool + [x];
    }

    /** drainSpool: send a copy of the spooled records in order, stop at the first
        failure and keep them all, remove them once all are sent. */
    method DrainSpool(answers: seq<Answer>) returns (drained: bool)
      requires Valid() && Outcome in spool && |answers| == |spool| && state.drains == map[]
      modifies this
      ensures Valid() && state == After(old(state), DrainSteps(answers))
      ensures drained <==> forall i :: 0 <= i < |answers| ==> answers[i].ok
      ensures if drained then spool == [] && !flag else spool == old(spool) && flag == old(flag)
    {
      ghost var s := state;
      var copy := spool;
      Begin(s, answers);
      ghost var now := Sent(s, answers, 0);
      drained := true;
      for i := 0 to |copy|
        invariant forall j :: 0 <= j < i ==> answers[j].ok
        invariant now == Sent(s, answers, i) && now.drains == map[0 := Drain(copy, i)]
        invariant now.spool == copy == spool && now.flag == s.flag == flag && drained
        modifies {}
      {
        SentStep(s, copy, answers, i);
        now := Sent(s, answers, i + 1);
        if !answers[i].ok {
          NoDrainLeft(s, answers, i + 1);
          drained := false;
          break;
        }
      }
      if drained {
        Finished(s, answers);
        spool := [];
        flag := false;
      }
      state := After(s, DrainSteps(answers));
    }
  }

  /** The protocol state after the drain has begun and tried its first `i` sends. */
  function Sent(s: State, answers: seq<Answer>, i: nat): State
    requires i <= |answers|
  {
    After(s, [StartDrain(0)] + Sends(answers[..i]))
  }

  lemma Begin(s: State, answers: seq<Answer>)
    requires s.drains == map[] && Outcome in s.spool
    ensures Sent(s, answers, 0) == s.(drains := map[0 := Drain(s.spool, 0)])
  {
    assert [StartDrain(0)] + Sends(answers[..0]) == [] + [StartDrain(0)];
    Extend(s, [], StartDrain(0));
    StartStep(s);
  }

  lemma SentStep(s: State, copy: seq<Record>, answers: seq<Answer>, i: nat)
    requires i < |answers| && i < |copy| && Sent(s, answers, i).drains == map[0 := Drain(copy, i)]
    ensures var t, a := Sent(s, answers, i), answers[i];
            Sent(s, answers, i + 1) ==
            t.(received := if a.ok || a.reached then t.received + [copy[i]] else t.received,
               drains := if a.ok then map[0 := Drain(copy, i + 1)] else map[])
  {
    SendsStep(s, answers, i);
    DrainStep(Sent(s, answers, i), copy, i, answers[i]);
  }

  lemma Finished(s: State, answers: seq<Answer>)
    requires var t := Sent(s, answers, |answers|); t.drains == map[0 := Drain(t.spool, |t.spool|)]
    ensures var t := Sent(s, answers, |answers|);
            After(s, DrainSteps(answers)) == t.(spool := [], flag := false, drains := map[])
  {
    assert answers[..|answers|] == answers;
    EndStep(Sent(s, answers, |answers|));
    Extend(s, [StartDrain(0)] + Sends(answers), EndDrain(0));
  }

  lemma SendsStep(s: State, answers: seq<Answer>, i: nat)
    requires i < |answers|
    ensures Sent(s, answers, i + 1) == Next(Sent(s, answers, i), DrainSend(0, answers[i].ok, answers[i].reached))
  {
    var e := DrainSend(0, answers[i].ok, answers[i].reached);
    assert answers[..i + 1][..i] == answers[..i];
    assert [StartDrain(0)] + Sends(answers[..i + 1]) == [StartDrain(0)] + Sends(answers[..i]) + [e];
    Extend(s, [StartDrain(0)] + Sends(answers[..i]), e);
  }

  /** After a failed send the remaining steps of that drain do nothing. */
  lemma {:induction false} NoDrainLeft(s: State, answers: seq<Answer>, k: nat)
    requires k <= |answers| && Sent(s, answers, k).drains == map[]
    ensures After(s, DrainSteps(answers)) == Sent(s, answers, k)
    decreases |answers| - k
  {
    var t := Sent(s, answers, k);
    if k == |answers| {
      assert answers[..k] == answers;
      Extend(s, [StartDrain(0)] + Sends(answers), EndDrain(0));
      NoDrainStep(t, Answer(true, true));
    } else {
      SendsStep(s, answers, k);
      NoDrainStep(t, answers[k]);
      NoDrainLeft(s, answers, k + 1);
    }
  }
}
