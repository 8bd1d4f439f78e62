/** What each step of the delivery protocol changes, when it can happen, and what a whole
    drain amounts to. */
module DeliverySteps {
  import opened Delivery
  import opened DeliveryAgent

  // ---- the calls of deliver ----

  /** A new chunk begins its call until the command has ended, and with one pump only while
      no other call runs; the result begins its call once, after all others have returned. */
  lemma BeginExactly(s: State)
    ensures var t := Next(s, Produce);
            if !s.finished && (!s.serial || s.calls == map[])
            then t == s.(produced := s.produced + 1, calls := s.calls[Chunk(s.produced) := Checking])
            else t == s
    ensures var t := Next(s, Finish);
            if !s.finished && s.calls == map[] then t == s.(finished := true, calls := map[Outcome := Checking]) else t == s
  {
  }

  /** A call of a run that spools goes straight to the spool; any other one sends, and only if
      the send fails sets the flag and then appends. */
  lemma CallExactly(s: State, x: Record, ok: bool, reached: bool)
    requires x in s.calls
    ensures s.calls[x] == Checking ==>
            Next(s, Check(x)) == s.(calls := s.calls[x := if s.flag then Appending else Sending])
    ensures s.calls[x] == Sending && ok ==>
            Next(s, Send(x, ok, reached)) == s.(received := s.received + [x], calls := s.calls - {x})
    ensures s.calls[x] == Sending && !ok ==>
            Next(s, Send(x, ok, reached)) ==
            s.(received := s.received + (if reached then [x] else []), calls := s.calls[x := Marking])
    ensures s.calls[x] == Marking ==> Next(s, Mark(x)) == s.(flag := true, calls := s.calls[x := Appending])
    ensures s.calls[x] == Appending ==> Next(s, Append(x)) == s.(spool := s.spool + [x], calls := s.calls - {x})
  {
    assert s.received + [] == s.received;
  }

  /** At any other stage these steps do nothing. */
  lemma CallIdle(s: State, x: Record, ok: bool, reached: bool)
    ensures x !in s.calls || s.calls[x] != Checking ==> Next(s, Check(x)) == s
    ensures x !in s.calls || s.calls[x] != Sending ==> Next(s, Send(x, ok, reached)) == s
    ensures x !in s.calls || s.calls[x] != Marking ==> Next(s, Mark(x)) == s
    ensures x !in s.calls || s.calls[x] != Appending ==> Next(s, Append(x)) == s
  {
  }

  // ---- drains and drops ----

  /** A drain begins exactly when the spool holds the result, on a copy of it all. */
  lemma StartDrainExactly(s: State, d: nat)
    ensures var t := Next(s, StartDrain(d));
            if d !in s.drains && Outcome in s.spool then t == s.(drains := s.drains[d := Drain(s.spool, 0)]) else t == s
  {
  }

  /** It sends its copy in order and is given up at the first failure. */
  lemma DrainSendExactly(s: State, d: nat, ok: bool, reached: bool)
    ensures var t := Next(s, DrainSend(d, ok, reached));
            if d !in s.drains || s.drains[d].sent >= |s.drains[d].copy| then t == s
            else
              var copy, n := s.drains[d].copy, s.drains[d].sent;
              && t == s.(received := t.received, drains := t.drains)
              && t.received == (if ok || reached then s.received + [copy[n]] else s.received)
              && t.drains == (if ok then s.drains[d := Drain(copy, n + 1)] else s.drains - {d})
  {
  }

  /** Only after the last send does it take from the spool, and no more than it copied; the flag
      goes exactly when the spool is then empty. */
  lemma EndDrainExactly(s: State, d: nat)
    ensures var t := Next(s, EndDrain(d));
            if d !in s.drains || s.drains[d].sent != |s.drains[d].copy| then t == s
            else
              var n := |s.drains[d].copy|;
              && t == s.(spool := t.spool, flag := t.flag, drains := s.drains - {d})
              && |t.spool| == (if n <= |s.spool| then |s.spool| - n else 0)
              && (forall i :: 0 <= i < |t.spool| ==> t.spool[i] == s.spool[n + i])
              && (t.flag <==> s.flag && |s.spool| > n)
  {
  }

  /** A drop empties the spool and leaves the flag.  What it loses: the run's result, if that was
      in the spool; otherwise exactly the spooled records that have not reached the server. */
  lemma DropExactly(s: State, x: Record)
    ensures var t := Next(s, Drop);
            && t == s.(spool := [], lost := t.lost, abandoned := t.abandoned)
            && (t.abandoned <==> s.abandoned || Outcome in s.spool)
            && (x in t.lost <==> x in s.lost || (x in s.spool && x !in s.received && Outcome !in s.spool))
  {
  }

  // ---- a drain that nothing interrupts ----

  lemma {:induction false} SentUpTo(s: State, answers: seq<Answer>, k: nat)
    requires s.drains == map[] && Outcome in s.spool && k <= |answers| == |s.spool|
    requires forall i :: 0 <= i < k ==> answers[i].ok
    ensures Sent(s, answers, k) == s.(received := s.received + s.spool[..k], drains := map[0 := Drain(s.spool, k)])
  {
    if k == 0 {
      Begin(s, answers);
      assert s.received + s.spool[..0] == s.received;
    } else {
      SentUpTo(s, answers, k - 1);
      SentStep(s, s.spool, answers, k - 1);
      assert s.received + s.spool[..k] == s.received + s.spool[..k - 1] + [s.spool[k - 1]];
    }
  }

  /** A drain of which every send succeeds delivers the whole spool, in order, and empties it. */
  lemma DrainDelivers(s: State, answers: seq<Answer>)
    requires s.drains == map[] && Outcome in s.spool && |answers| == |s.spool|
    requires forall i :: 0 <= i < |answers| ==> answers[i].ok
    ensures After(s, DrainSteps(answers)) == s.(received := s.received + s.spool, spool := [], flag := false)
  {
    SentUpTo(s, answers, |answers|);
    Finished(s, answers);
    assert s.spool[..|answers|] == s.spool;
  }

  lemma FailsAt(s: State, answers: seq<Answer>, k: nat)
    requires s.drains == map[] && Outcome in s.spool && |answers| == |s.spool|
    requires k < |answers| && !answers[k].ok && forall i :: 0 <= i < k ==> answers[i].ok
    ensures Sent(s, answers, k + 1) == s.(received := s.received + s.spool[..if answers[k].reached then k + 1 else k])
  {
    SentUpTo(s, answers, k);
    SentStep(s, s.spool, answers, k);
    assert s.spool[..k + 1] == s.spool[..k] + [s.spool[k]];
    assert s.received + s.spool[..k + 1] == s.received + s.spool[..k] + [s.spool[k]];
  }

  /** One that fails at record k has delivered the records before it, and that one if it got
      through all the same; the spool and the flag stay as they were. */
  lemma DrainStops(s: State, answers: seq<Answer>, k: nat)
    requires s.drains == map[] && Outcome in s.spool && |answers| == |s.spool|
    requires k < |answers| && !answers[k].ok && forall i :: 0 <= i < k ==> answers[i].ok
    ensures After(s, DrainSteps(answers)) ==
            s.(received := s.received + s.spool[..if answers[k].reached then k + 1 else k])
  {
    FailsAt(s, answers, k);
    NoDrainLeft(s, answers, k + 1);
  }
}
