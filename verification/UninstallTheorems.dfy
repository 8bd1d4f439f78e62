/** What every uninstall plan, and every run of one, guarantees. */
module UninstallTheorems {
  import opened NestedPaths
  import opened Options
  import opened Uninstall

  // ---- order of the plan ----

  /** Units are stopped, then disabled, then their files removed, then systemd is reloaded; the
      configuration directory goes before the state, and the state before its owner. */
  function Rank(s: Step): nat
    requires !s.File?
  {
    match s
    case Stop(_) => 0
    case Disable(_) => 1
    case UnitFile(_) => 2
    case Reload => 3
    case EtcDir(_) => 4
    case Dir(_) => 5
    case User(_) => 6
  }

  ghost predicate Between(ss: seq<Step>, lo: nat, hi: nat) {
    && (forall i :: 0 <= i < |ss| && !ss[i].File? ==> lo <= Rank(ss[i]) <= hi)
    && (forall i, j :: 0 <= i < j < |ss| && !ss[i].File? && !ss[j].File? ==> Rank(ss[i]) <= Rank(ss[j]))
  }

  lemma Glue(s: seq<Step>, t: seq<Step>, lo: nat, mid: nat, hi: nat)
    requires lo <= mid <= hi && Between(s, lo, mid) && Between(t, mid, hi)
    ensures Between(s + t, lo, hi)
  {
  }

  /** No step stops or disables a unit. */
  ghost predicate NoService(ss: seq<Step>) {
    forall i :: 0 <= i < |ss| ==> !ss[i].Stop? && !ss[i].Disable?
  }

  lemma ServiceOrder(us: seq<string>)
    ensures var ss := Stops(us) + Disables(us);
            Between(ss, 0, 1) && forall i :: 0 <= i < |ss| ==> ss[i].Stop? || ss[i].Disable?
  {
    Glue(Stops(us), Disables(us), 0, 1, 1);
  }

  lemma UnitPieces(dir: Path, us: seq<string>, guard: seq<Step>, backup: seq<Step>, reload: bool)
    requires forall i :: 0 <= i < |guard| ==> guard[i].File?
    requires forall i :: 0 <= i < |backup| ==> backup[i].File?
    ensures var ss := UnitFiles(dir, us) + guard + backup + If(reload, Reload);
            Between(ss, 1, 3) && NoService(ss)
  {
    var files := UnitFiles(dir, us);
    Glue(files, guard, 1, 2, 2);
    Glue(files + guard, backup, 1, 2, 2);
    Glue(files + guard + backup, If(reload, Reload), 1, 2, 3);
  }

  lemma UnitOrder(h: Host)
    ensures Between(UnitSteps(h), 1, 3) && NoService(UnitSteps(h))
  {
    var us := Units(h);
    UnitPieces(h.env.unitDir, us, If(us != [] && h.env.guardPath in h.present, File(h.env.guardPath)),
               If(us != [] && h.env.backupScriptPath in h.present, File(h.env.backupScriptPath)), us != []);
  }

  lemma ConfigOrder(h: Host)
    ensures Between(ConfigSteps(h), 3, 4) && NoService(ConfigSteps(h))
  {
    Glue(EtcSteps(h.env.etcDir, EtcFiles(h)), If(EtcFiles(h) != [] && AllOurs(h), EtcDir(h.env.etcDir)), 3, 3, 4);
  }

  lemma DirsThenUser(ds: seq<Path>, user: bool)
    ensures var ss := Dirs(ds) + If(user, User("partout")); Between(ss, 4, 6) && NoService(ss)
  {
    Glue(Dirs(ds), If(user, User("partout")), 4, 5, 6);
  }

  lemma StateOrder(h: Host, purge: bool)
    ensures Between(StateSteps(h, purge), 4, 6) && NoService(StateSteps(h, purge))
  {
    if purge { DirsThenUser(StateDirs(h), Units(h) != []); }
  }

  lemma Assemble(services: seq<Step>, units: seq<Step>, config: seq<Step>, state: seq<Step>, last: seq<Step>)
    requires Between(services, 0, 1) && forall i :: 0 <= i < |services| ==> services[i].Stop? || services[i].Disable?
    requires Between(units, 1, 3) && Between(config, 3, 4) && Between(state, 4, 6)
    requires NoService(units) && NoService(config) && NoService(state)
    requires forall i :: 0 <= i < |last| ==> last[i].File?
    ensures var ss := services + units + config + state + last;
            && Between(ss, 0, 6)
            && forall i, j :: 0 <= i < j < |ss| && (ss[j].Stop? || ss[j].Disable?) ==> ss[i].Stop? || ss[i].Disable?
  {
    Glue(services, units, 0, 1, 3);
    Glue(services + units, config, 0, 3, 4);
    Glue(services + units + config, state, 0, 4, 6);
    Glue(services + units + config + state, last, 0, 6, 6);
    var tail := units + config + state + last;
    assert NoService(tail);
    var ss := services + units + config + state + last;
    assert ss == services + tail;
    forall j | |services| <= j < |ss| ensures !ss[j].Stop? && !ss[j].Disable? {
      assert ss[j] == tail[j - |services|];
    }
  }

  lemma PlanOrder(h: Host, purge: bool, keepBinary: bool)
    ensures var ss := StepsOf(h, purge, keepBinary);
            && Between(ss, 0, 6)
            && forall i, j :: 0 <= i < j < |ss| && (ss[j].Stop? || ss[j].Disable?) ==> ss[i].Stop? || ss[i].Disable?
  {
    ServiceOrder(Units(h));
    UnitOrder(h);
    ConfigOrder(h);
    StateOrder(h, purge);
    var last := If(h.env.binPath in h.present && !keepBinary, File(h.env.binPath));
    Assemble(Stops(Units(h)) + Disables(Units(h)), UnitSteps(h), ConfigSteps(h), StateSteps(h, purge), last);
  }

  // ---- what a run does ----

  predicate Fails(steps: seq<Step>, systemd: bool, missing: bool, o: nat -> Outcome, i: nat)
    requires i < |steps|
  {
    Try(steps[i], systemd, missing, o(i)) == Tried(Hard)
  }

  /** Step i is attempted, succeeds, and no step before it failed hard. */
  ghost predicate TakesEffect(steps: seq<Step>, systemd: bool, missing: bool, o: nat -> Outcome, i: nat)
    requires i < |steps|
  {
    && Try(steps[i], systemd, missing, o(i)) == Tried(Ok)
    && forall j: nat :: j < i ==> !Fails(steps, systemd, missing, o, j)
  }

  /** A run performs, in plan order, exactly the steps that take effect, and fails exactly when some step does. */
  lemma {:induction false} RunExactly(steps: seq<Step>, systemd: bool, missing: bool, o: nat -> Outcome, n: nat)
    returns (ks: seq<nat>)
    requires n <= |steps|
    ensures var (done, failed) := Run(steps, systemd, missing, o, n);
            && |ks| == |done|
            && (forall m :: 0 <= m < |ks| ==> ks[m] < n && done[m] == steps[ks[m]])
            && (failed <==> exists i: nat :: i < n && Fails(steps, systemd, missing, o, i))
    ensures forall l, m :: 0 <= l < m < |ks| ==> ks[l] < ks[m]
    ensures forall i: nat :: i < n ==> (i in ks <==> TakesEffect(steps, systemd, missing, o, i))
  {
    if n == 0 {
      ks := [];
    } else {
      ks := RunExactly(steps, systemd, missing, o, n - 1);
      var failed := Run(steps, systemd, missing, o, n - 1).1;
      if !failed && Try(steps[n - 1], systemd, missing, o(n - 1)) == Tried(Ok) {
        ks := ks + [n - 1];
      }
      assert Fails(steps, systemd, missing, o, n - 1) <==> Try(steps[n - 1], systemd, missing, o(n - 1)) == Tried(Hard);
    }
  }

  /** On systemd, when stopping some unit fails hard, nothing but stops took effect: no unit is disabled,
      no file or directory removed, no user deleted. */
  lemma FailedStopRemovesNothing(h: Host, purge: bool, keepBinary: bool, missing: bool, o: nat -> Outcome, i: nat)
    requires i < |StepsOf(h, purge, keepBinary)| && StepsOf(h, purge, keepBinary)[i].Stop? && o(i) == Hard
    ensures var steps := StepsOf(h, purge, keepBinary);
            var (done, failed) := Run(steps, true, missing, o, |steps|);
            failed && forall s :: s in done ==> s.Stop?
  {
    var steps := StepsOf(h, purge, keepBinary);
    var (done, failed) := Run(steps, true, missing, o, |steps|);
    var ks := RunExactly(steps, true, missing, o, |steps|);
    PlanOrder(h, purge, keepBinary);
    assert Fails(steps, true, missing, o, i);
    forall m | 0 <= m < |done| ensures done[m].Stop? {
      assert ks[m] in ks;
      assert TakesEffect(steps, true, missing, o, ks[m]);
      assert ks[m] < i;
      StopsAreFirst(h, purge, keepBinary, ks[m], i);
    }
  }

  lemma StopsAreFirst(h: Host, purge: bool, keepBinary: bool, i: nat, j: nat)
    requires i < j < |StepsOf(h, purge, keepBinary)| && StepsOf(h, purge, keepBinary)[j].Stop?
    ensures StepsOf(h, purge, keepBinary)[i].Stop?
  {
    PlanOrder(h, purge, keepBinary);
  }

  // ---- state ----

  /** A state directory is removed exactly by a purge and kept exactly otherwise, and no other directory is. */
  lemma StateIsRemovedOrKept(h: Host, purge: bool, keepBinary: bool, d: Path)
    ensures Dir(d) in StepsOf(h, purge, keepBinary) <==> purge && d in StateDirs(h)
  {
    var ds := StateDirs(h);
    if d in ds {
      var k :| 0 <= k < |ds| && ds[k] == d;
      assert Dirs(ds)[k] == Dir(d);
      assert purge ==> Dir(d) in StateSteps(h, purge);
    }
    NoDirElsewhere(h, keepBinary, d);
  }

  lemma NoDirElsewhere(h: Host, keepBinary: bool, d: Path)
    ensures Dir(d) !in Stops(Units(h)) + Disables(Units(h)) + UnitSteps(h) + ConfigSteps(h)
    ensures Dir(d) !in If(h.env.binPath in h.present && !keepBinary, File(h.env.binPath))
  {
  }

  /** A purge removes, and a plain uninstall lists as kept, a directory above every state location
      exactly when no outermost location is found twice. */
  lemma StateIsCoveredExactly(h: Host, keepBinary: bool)
    ensures (forall p :: p in Locations(h) ==> exists d :: Under(p, d) && Dir(d) in StepsOf(h, true, keepBinary))
            <==> NoTopTwice(Locations(h))
  {
    var ls := Locations(h);
    CoveredExactly(ls);
    forall p | p in ls
      ensures Covered(p, StateDirs(h)) <==> exists d :: Under(p, d) && Dir(d) in StepsOf(h, true, keepBinary)
    {
      if Covered(p, StateDirs(h)) {
        var d :| d in StateDirs(h) && Under(p, d);
        StateIsRemovedOrKept(h, true, keepBinary, d);
      }
      if d :| Under(p, d) && Dir(d) in StepsOf(h, true, keepBinary) {
        StateIsRemovedOrKept(h, true, keepBinary, d);
      }
    }
    assert forall i :: 0 <= i < |ls| ==> ls[i] in ls;
  }

  /** A database configured directly in the file root: that directory is found twice, and so is neither
      removed by a purge nor listed as kept. */
  lemma DatabaseInTheFileRoot(h: Host, purge: bool, keepBinary: bool)
    requires h.env.fileRoot in h.present && h.env.fileRoot != h.env.varDir && h.dbDir == Some(h.env.fileRoot)
    ensures Dir(h.env.fileRoot) !in StepsOf(h, purge, keepBinary) && h.env.fileRoot !in StateDirs(h)
  {
    var ls, root := Locations(h), h.env.fileRoot;
    var n := |Only(h.env.varDir in h.present, h.env.varDir)|;
    assert ls[n] == root && ls[n + 1] == root;
    InOuter(ls, root);
    UnderReflexive(root);
    forall k | 0 <= k < |ls| && ls[k] == root ensures Nested(ls, k) {
      var twin := if k == n then n + 1 else n;
      assert Under(ls[k], ls[twin]);
    }
    StateIsRemovedOrKept(h, purge, keepBinary, root);
  }

  /** Unless some other location contains it, nothing above it is removed or kept either: a purge leaves
      the database and the uploaded files behind without a word. */
  lemma FileRootIsForgotten(h: Host, purge: bool, keepBinary: bool, d: Path)
    requires h.env.fileRoot in h.present && h.env.fileRoot != h.env.varDir && h.dbDir == Some(h.env.fileRoot)
    requires forall l :: l in Locations(h) && l != h.env.fileRoot ==> !Under(h.env.fileRoot, l)
    requires d in StateDirs(h) || Dir(d) in StepsOf(h, purge, keepBinary)
    ensures !Under(h.env.fileRoot, d)
  {
    DatabaseInTheFileRoot(h, purge, keepBinary);
    StateIsRemovedOrKept(h, purge, keepBinary, d);
    InOuter(Locations(h), d);
    var k :| 0 <= k < |Locations(h)| && Locations(h)[k] == d;
    assert d in Locations(h);
  }

  // ---- nothing to do ----

  lemma UnitStepsEmpty(h: Host)
    ensures UnitSteps(h) == [] <==> Units(h) == []
  {
    if Units(h) != [] { assert UnitSteps(h)[0] == UnitFiles(h.env.unitDir, Units(h))[0]; }
  }

  lemma ConfigStepsEmpty(h: Host)
    ensures ConfigSteps(h) == [] <==> EtcFiles(h) == []
  {
    if EtcFiles(h) != [] { assert ConfigSteps(h)[0] == EtcSteps(h.env.etcDir, EtcFiles(h))[0]; }
  }

  lemma StateStepsEmpty(h: Host, purge: bool)
    ensures StateSteps(h, purge) == [] <==> !purge || (StateDirs(h) == [] && Units(h) == [])
  {
    if purge { assert |StateSteps(h, purge)| >= |StateDirs(h)|; }
  }

  lemma SixEmpty(a: seq<Step>, b: seq<Step>, c: seq<Step>, d: seq<Step>, e: seq<Step>, f: seq<Step>)
    ensures a + b + c + d + e + f == [] <==> a == b == c == d == e == f == []
  {
    assert |a + b + c + d + e + f| == |a| + |b| + |c| + |d| + |e| + |f|;
  }

  lemma StepsEmpty(h: Host, purge: bool, keepBinary: bool)
    ensures StepsOf(h, purge, keepBinary) == [] <==>
            && Units(h) == [] && EtcFiles(h) == [] && (purge ==> StateDirs(h) == [])
            && (h.env.binPath in h.present ==> keepBinary)
  {
    UnitStepsEmpty(h);
    ConfigStepsEmpty(h);
    StateStepsEmpty(h, purge);
    var us := Units(h);
    assert |Stops(us)| == |Disables(us)| == |us|;
    SixEmpty(Stops(us), Disables(us), UnitSteps(h), ConfigSteps(h), StateSteps(h, purge),
             If(h.env.binPath in h.present && !keepBinary, File(h.env.binPath)));
  }

  lemma SomethingSurvives(h: Host)
    requires NoTopTwice(Locations(h))
    ensures StateDirs(h) == [] <==> Locations(h) == []
  {
    var ls := Locations(h);
    CoveredExactly(ls);
    if ls != [] { assert Covered(ls[0], StateDirs(h)); }
    if StateDirs(h) != [] { InOuter(ls, StateDirs(h)[0]); }
  }

  /** Whatever the options, the planner reports that there is nothing to remove exactly when
      it finds no unit, no configuration file, no binary and no state directory.  The last
      means no state location at all, unless an outermost one is found twice. */
  lemma NothingFoundExactly(h: Host, purge: bool, keepBinary: bool)
    ensures ScopeOf(h, purge, keepBinary).Nothing? <==>
            Units(h) == [] && EtcFiles(h) == [] && h.env.binPath !in h.present && StateDirs(h) == []
    ensures NoTopTwice(Locations(h)) ==> (StateDirs(h) == [] <==> Locations(h) == [])
  {
    StepsEmpty(h, purge, keepBinary);
    if NoTopTwice(Locations(h)) { SomethingSurvives(h); }
  }
}
