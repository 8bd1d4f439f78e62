/** Overlapping updates and restores of one elevation policy, one SQL statement at a time
    (internal/api/elevation.go:157-168, 227-233; internal/store/elevation.go:55-65, 133-147).
    No lock or transaction spans the statements of a request. */
module PolicyRaces {
  import opened PolicyHistory

  /** A request after its first SELECT: the document it read, the document it will write, the number
      it drew for the version it saves (0 before that), and whether its INSERT went through. */
  datatype Task = Task(read: Doc, next: Doc, number: nat, saved: bool)

  datatype State = State(cur: Doc, versions: seq<Version>, tasks: map<nat, Task>)

  datatype Event =
    | Begin(t: nat, next: Doc)      // SELECT the current document
    | Number(t: nat)                // SELECT COALESCE(MAX(version), 0)
    | Save(t: nat, ok: bool)        // INSERT; an error is ignored
    | Write(t: nat, ok: bool)       // UPDATE

  const POLICY := "p"

  function Next(s: State, e: Event): State {
    match e
    case Begin(t, next) =>
      if t in s.tasks then s else s.(tasks := s.tasks[t := Task(s.cur, next, 0, false)])
    case Number(t) =>
      if t in s.tasks then s.(tasks := s.tasks[t := s.tasks[t].(number := MaxVersion(s.versions, POLICY) + 1)]) else s
    case Save(t, ok) =>
      if t in s.tasks && s.tasks[t].number > 0 then
        var v := Version(POLICY, s.tasks[t].number, s.tasks[t].read);
        var vs := Insert(s.versions, v, ok);
        s.(versions := vs, tasks := s.tasks[t := s.tasks[t].(saved := s.tasks[t].saved || vs != s.versions)])
      else s
    case Write(t, ok) =>
      if t in s.tasks then
        s.(cur := if ok then s.tasks[t].next else s.cur, tasks := s.tasks - {t})
      else s
  }

  function After(s: State, es: seq<Event>): State
    decreases |es|
  {
    if es == [] then s else After(Next(s, es[0]), es[1..])
  }

  /** What a request saved is in the history. */
  ghost predicate Inv(s: State) {
    forall t :: t in s.tasks && s.tasks[t].saved ==> Recorded(s.versions, POLICY, s.tasks[t].read)
  }

  ghost predicate KeptIn(s: State, d: Doc) {
    s.cur == d || Recorded(s.versions, POLICY, d)
  }

  /** e replaces document d by another one while no version records d. */
  ghost predicate Loses(s: State, e: Event, d: Doc) {
    && e.Write? && e.ok && e.t in s.tasks && s.cur == d && s.tasks[e.t].next != d
    && !Recorded(s.versions, POLICY, d)
  }

  /** e overwrites document d although its request read another document, or did not save d. */
  predicate Blind(s: State, e: Event, d: Doc) {
    e.Write? && e.ok && e.t in s.tasks && s.cur == d && !(s.tasks[e.t].read == d && s.tasks[e.t].saved)
  }

  lemma RecordedInMore(vs: seq<Version>, v: Version, ok: bool, d: Doc)
    ensures Recorded(vs, POLICY, d) ==> Recorded(Insert(vs, v, ok), POLICY, d)
    ensures Insert(vs, v, ok) != vs && v.policy == POLICY ==> Recorded(Insert(vs, v, ok), POLICY, v.doc)
  {
    var vs' := Insert(vs, v, ok);
    if k :| 0 <= k < |vs| && vs[k].policy == POLICY && vs[k].doc == d { assert vs'[k] == vs[k]; }
    if vs' != vs { assert vs'[|vs|] == v; }
  }

  lemma SavesKept(s: State, e: Event, d: Doc)
    requires e.Save?
    ensures Next(s, e).cur == s.cur
    ensures Recorded(s.versions, POLICY, d) ==> Recorded(Next(s, e).versions, POLICY, d)
  {
    if e.t in s.tasks && s.tasks[e.t].number > 0 {
      RecordedInMore(s.versions, Version(POLICY, s.tasks[e.t].number, s.tasks[e.t].read), e.ok, d);
    }
  }

  lemma InvStep(s: State, e: Event)
    requires Inv(s)
    ensures Inv(Next(s, e))
  {
    if e.Save? && e.t in s.tasks && s.tasks[e.t].number > 0 {
      var v := Version(POLICY, s.tasks[e.t].number, s.tasks[e.t].read);
      forall t | t in s.tasks ensures Recorded(s.versions, POLICY, s.tasks[t].read) ==>
                                      Recorded(Next(s, e).versions, POLICY, s.tasks[t].read) {
        RecordedInMore(s.versions, v, e.ok, s.tasks[t].read);
      }
      RecordedInMore(s.versions, v, e.ok, v.doc);
    }
  }

  /** One statement loses a document exactly when it is a write of another one while no
      version records it; such a write is blind. */
  lemma LossExactly(s: State, e: Event, d: Doc)
    requires Inv(s) && KeptIn(s, d)
    ensures !KeptIn(Next(s, e), d) <==> Loses(s, e, d)
    ensures Loses(s, e, d) ==> Blind(s, e, d)
  {
    if e.Save? { SavesKept(s, e, d); }
  }

  lemma AfterSnoc(s: State, es: seq<Event>, k: nat)
    requires k < |es|
    ensures After(s, es[..k + 1]) == Next(After(s, es[..k]), es[k])
    decreases |es|
  {
    if k > 0 {
      assert es[..k + 1][1..] == es[1..][..k] && es[..k][1..] == es[1..][..k - 1];
      AfterSnoc(Next(s, es[0]), es[1..], k - 1);
    } else {
      assert es[..1][1..] == [] && es[..0] == [];
    }
  }

  lemma {:induction false} InvAfter(s: State, es: seq<Event>)
    requires Inv(s)
    ensures Inv(After(s, es))
    decreases |es|
  {
    if es != [] {
      InvStep(s, es[0]);
      InvAfter(Next(s, es[0]), es[1..]);
    }
  }

  lemma {:induction false} KeptUpTo(s: State, es: seq<Event>, d: Doc, n: nat)
    requires Inv(s) && KeptIn(s, d) && n <= |es|
    requires forall k :: 0 <= k < n ==> !Loses(After(s, es[..k]), es[k], d)
    ensures KeptIn(After(s, es[..n]), d)
  {
    if n > 0 {
      KeptUpTo(s, es, d, n - 1);
      InvAfter(s, es[..n - 1]);
      AfterSnoc(s, es, n - 1);
      LossExactly(After(s, es[..n - 1]), es[n - 1], d);
    }
  }

  /** In every interleaving, statement by statement: a document that is current or recorded
      stays so at all times exactly when no write replaces it while no version records it. */
  lemma KeptExactly(s: State, es: seq<Event>, d: Doc)
    requires Inv(s) && KeptIn(s, d)
    ensures (forall n :: 0 <= n <= |es| ==> KeptIn(After(s, es[..n]), d)) <==>
            (forall k :: 0 <= k < |es| ==> !Loses(After(s, es[..k]), es[k], d))
  {
    if forall k :: 0 <= k < |es| ==> !Loses(After(s, es[..k]), es[k], d) {
      forall n | 0 <= n <= |es| ensures KeptIn(After(s, es[..n]), d) {
        KeptUpTo(s, es, d, n);
      }
    }
    if forall n :: 0 <= n <= |es| ==> KeptIn(After(s, es[..n]), d) {
      forall k | 0 <= k < |es| ensures !Loses(After(s, es[..k]), es[k], d) {
        InvAfter(s, es[..k]);
        AfterSnoc(s, es, k);
        LossExactly(After(s, es[..k]), es[k], d);
      }
    }
  }

  /** Hence a lost document was overwritten by a request that had not read it or had not saved it. */
  lemma LostOnlyToABlindWrite(s: State, es: seq<Event>, d: Doc) returns (k: nat)
    requires Inv(s) && KeptIn(s, d) && !KeptIn(After(s, es), d)
    ensures Inv(After(s, es))
    ensures k < |es| && Loses(After(s, es[..k]), es[k], d) && Blind(After(s, es[..k]), es[k], d)
  {
    KeptExactly(s, es, d);
    InvAfter(s, es);
    assert es[..|es|] == es;
    k :| 0 <= k < |es| && Loses(After(s, es[..k]), es[k], d);
    InvAfter(s, es[..k]);
    LossExactly(After(s, es[..k]), es[k], d);
  }

  /** A request that nothing interrupts saves the document it overwrites. */
  lemma Uninterrupted(s: State, t: nat, next: Doc)
    requires t !in s.tasks
    ensures var s' := After(s, [Begin(t, next), Number(t), Save(t, true), Write(t, true)]);
            && s'.cur == next && s'.tasks == s.tasks
            && s'.versions == s.versions + [Version(POLICY, MaxVersion(s.versions, POLICY) + 1, s.cur)]
  {
    var s1 := Next(s, Begin(t, next));
    var s2 := Next(s1, Number(t));
    var s3 := Next(s2, Save(t, true));
    var s4 := Next(s3, Write(t, true));
    Four(s, Begin(t, next), Number(t), Save(t, true), Write(t, true));
    assert s4.tasks == s.tasks;
  }

  lemma Unfold(s: State, e: Event, es: seq<Event>)
    ensures After(s, [e] + es) == After(Next(s, e), es)
  {
    assert ([e] + es)[1..] == es;
  }

  lemma Four(s: State, a: Event, b: Event, c: Event, d: Event)
    ensures After(s, [a, b, c, d]) == Next(Next(Next(Next(s, a), b), c), d)
  {
    assert [a, b, c, d] == [a] + ([b] + ([c] + ([d] + [])));
    Unfold(s, a, [b] + ([c] + ([d] + [])));
    Unfold(Next(s, a), b, [c] + ([d] + []));
    Unfold(Next(Next(s, a), b), c, [d] + []);
    Unfold(Next(Next(Next(s, a), b), c), d, []);
  }

  /** Request 2 has read d0, and meanwhile d1 replaced it. */
  function Overtaken(d0: Doc, d1: Doc, d2: Doc): State {
    State(d1, [Version(POLICY, 1, d0)], map[2 := Task(d0, d2, 0, false)])
  }

  lemma OvertakenIsReached(d0: Doc, d1: Doc, d2: Doc)
    ensures After(State(d0, [], map[]), [Begin(2, d2)] + [Begin(1, d1), Number(1), Save(1, true), Write(1, true)])
            == Overtaken(d0, d1, d2)
  {
    var s := Next(State(d0, [], map[]), Begin(2, d2));
    Unfold(State(d0, [], map[]), Begin(2, d2), [Begin(1, d1), Number(1), Save(1, true), Write(1, true)]);
    Uninterrupted(s, 1, d1);
  }

  lemma MaxIsOne(d0: Doc)
    ensures MaxVersion([Version(POLICY, 1, d0)], POLICY) == 1
  {
    assert [Version(POLICY, 1, d0)][..0] == [];
  }

  /** Two overlapping updates: the document written by the first one is gone. */
  lemma OverlapLosesADocument(d0: Doc, d1: Doc, d2: Doc)
    requires d0 != d1 && d1 != d2
    ensures !KeptIn(After(Overtaken(d0, d1, d2), [Number(2)] + ([Save(2, true)] + ([Write(2, true)] + []))), d1)
  {
    var s := Overtaken(d0, d1, d2);
    var s1 := Next(s, Number(2));
    var s2 := Next(s1, Save(2, true));
    var s3 := Next(s2, Write(2, true));
    Unfold(s, Number(2), [Save(2, true)] + ([Write(2, true)] + []));
    Unfold(s1, Save(2, true), [Write(2, true)] + []);
    Unfold(s2, Write(2, true), []);
    MaxIsOne(d0);
    assert s3.cur == d2;
    assert forall k :: 0 <= k < |s3.versions| ==> s3.versions[k].doc == d0;
  }

  /** Two requests that drew the same number: the second INSERT is refused, the error is ignored, and
      the document that this request did read is gone. */
  lemma CollisionLosesADocument(d0: Doc, d1: Doc, d2: Doc, d3: Doc)
    requires d0 != d1 && d1 != d3
    ensures var s := After(Overtaken(d0, d1, d2), [Number(2)] + ([Begin(1, d3)] + ([Number(1)] + ([Save(2, true)] + []))));
            && 1 in s.tasks && s.tasks[1].read == d1 == s.cur
            && !KeptIn(Next(Next(s, Save(1, true)), Write(1, true)), d1)
  {
    var s := Overtaken(d0, d1, d2);
    var s1 := Next(s, Number(2));
    var s2 := Next(s1, Begin(1, d3));
    var s3 := Next(s2, Number(1));
    var s4 := Next(s3, Save(2, true));
    Unfold(s, Number(2), [Begin(1, d3)] + ([Number(1)] + ([Save(2, true)] + [])));
    Unfold(s1, Begin(1, d3), [Number(1)] + ([Save(2, true)] + []));
    Unfold(s2, Number(1), [Save(2, true)] + []);
    Unfold(s3, Save(2, true), []);
    MaxIsOne(d0);
    assert s4.versions == [Version(POLICY, 1, d0), Version(POLICY, 2, d0)];
    assert s4.versions[1].number == s4.tasks[1].number;
    var s5 := Next(s4, Save(1, true));
    assert s5.versions == s4.versions;
    assert forall k :: 0 <= k < |s5.versions| ==> s5.versions[k].doc == d0;
  }
}
