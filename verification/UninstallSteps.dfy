/** The uninstall plan in terms of what is on the host, with the names, the order and every
    condition written out. */
module UninstallSteps {
  import opened NestedPaths
  import opened Options
  import opened Uninstall
  import opened UninstallTheorems

  // ---- what is on the host ----

  /** The file of this name exists in the directory. */
  predicate Exists(h: Host, dir: Path, name: string) {
    Path(dir.abs, dir.comps + [name]) in h.present
  }

  /** The unit's place in the stop order, counted from 1; 0 for every other name. */
  function UnitPlace(u: string): nat {
    if u == "partout-server.service" then 1
    else if u == "partout-agent.service" then 2
    else if u == "partout-embedded.service" then 3
    else if u == "partout-backup.service" then 4
    else if u == "partout-backup.timer" then 5
    else 0
  }

  function ConfigPlace(f: string): nat {
    if f == "server.env" then 1
    else if f == "agent.env" then 2
    else if f == "embedded.env" then 3
    else if f == "ca.crt" then 4
    else 0
  }

  predicate HasUnit(h: Host, u: string) { UnitPlace(u) > 0 && Exists(h, h.env.unitDir, u) }

  predicate HasConfig(h: Host, f: string) { ConfigPlace(f) > 0 && Exists(h, h.env.etcDir, f) }

  /** A name is found exactly when it is on the list and its file exists, and the order of the
      list is kept. */
  lemma {:induction false} FoundExactly(h: Host, dir: Path, names: seq<string>) returns (ks: seq<nat>)
    ensures |ks| == |Found(h, dir, names)|
    ensures forall m :: 0 <= m < |ks| ==> ks[m] < |names| && Found(h, dir, names)[m] == names[ks[m]] &&
                                          Exists(h, dir, names[ks[m]])
    ensures forall l, m :: 0 <= l < m < |ks| ==> ks[l] < ks[m]
    ensures forall k: nat :: k < |names| && Exists(h, dir, names[k]) ==> k in ks
  {
    ks := [];
    if names != [] {
      var n := |names| - 1;
      var front := names[..n];
      ks := FoundExactly(h, dir, front);
      assert forall k :: 0 <= k < n ==> front[k] == names[k];
      if Exists(h, dir, names[n]) { ks := ks + [n]; }
    }
  }

  /** The units found, in stop order. */
  lemma UnitsExactly(h: Host)
    ensures forall u :: u in Units(h) <==> HasUnit(h, u)
    ensures forall i, j :: 0 <= i < j < |Units(h)| ==> UnitPlace(Units(h)[i]) < UnitPlace(Units(h)[j])
  {
    var ks := FoundExactly(h, h.env.unitDir, UNITS);
    assert forall k :: 0 <= k < 5 ==> UnitPlace(UNITS[k]) == k + 1;
    forall u ensures u in Units(h) <==> HasUnit(h, u) {
      if HasUnit(h, u) {
        var k: nat := UnitPlace(u) - 1;
        assert UNITS[k] == u && k in ks;
      }
    }
  }

  /** The configuration files found, in their order. */
  lemma ConfigExactly(h: Host)
    ensures forall f :: f in EtcFiles(h) <==> HasConfig(h, f)
    ensures forall i, j :: 0 <= i < j < |EtcFiles(h)| ==> ConfigPlace(EtcFiles(h)[i]) < ConfigPlace(EtcFiles(h)[j])
  {
    var ks := FoundExactly(h, h.env.etcDir, ETC_FILES);
    assert forall k :: 0 <= k < 4 ==> ConfigPlace(ETC_FILES[k]) == k + 1;
    forall f ensures f in EtcFiles(h) <==> HasConfig(h, f) {
      if HasConfig(h, f) {
        var k: nat := ConfigPlace(f) - 1;
        assert ETC_FILES[k] == f && k in ks;
      }
    }
  }

  // ---- which steps are planned ----

  lemma InSix(a: seq<Step>, b: seq<Step>, c: seq<Step>, d: seq<Step>, e: seq<Step>, f: seq<Step>, s: Step)
    ensures s in a + b + c + d + e + f <==> s in a || s in b || s in c || s in d || s in e || s in f
  {
    assert s in a + b + c + d + e + f <==> s in a + b + c + d + e || s in f;
    assert s in a + b + c + d + e <==> s in a + b + c + d || s in e;
    assert s in a + b + c + d <==> s in a + b + c || s in d;
  }

  /** Where a step of the plan can come from. */
  lemma Sources(h: Host, purge: bool, keepBinary: bool, s: Step)
    requires !s.File?
    ensures s in StepsOf(h, purge, keepBinary) <==>
            || s in Stops(Units(h)) || s in Disables(Units(h))
            || s in UnitSteps(h) || s in ConfigSteps(h) || s in StateSteps(h, purge)
    ensures s.Stop? || s.Disable? ==> s !in UnitSteps(h) && s !in ConfigSteps(h) && s !in StateSteps(h, purge)
    ensures s.UnitFile? ==> s !in ConfigSteps(h) && s !in StateSteps(h, purge)
  {
    var last := If(h.env.binPath in h.present && !keepBinary, File(h.env.binPath));
    InSix(Stops(Units(h)), Disables(Units(h)), UnitSteps(h), ConfigSteps(h), StateSteps(h, purge), last, s);
    UnitOrder(h);
    ConfigOrder(h);
    StateOrder(h, purge);
  }

  lemma InServices(us: seq<string>, u: string)
    ensures Stop(u) in Stops(us) <==> u in us
    ensures Disable(u) in Disables(us) <==> u in us
    ensures Stop(u) !in Disables(us) && Disable(u) !in Stops(us)
  {
    if i :| 0 <= i < |us| && us[i] == u { assert Stops(us)[i] == Stop(u) && Disables(us)[i] == Disable(u); }
  }

  /** Exactly the units on the host are stopped and disabled; */
  lemma ServicesExactly(h: Host, purge: bool, keepBinary: bool, u: string)
    ensures Stop(u) in StepsOf(h, purge, keepBinary) <==> HasUnit(h, u)
    ensures Disable(u) in StepsOf(h, purge, keepBinary) <==> HasUnit(h, u)
  {
    UnitsExactly(h);
    InServices(Units(h), u);
    Sources(h, purge, keepBinary, Stop(u));
    Sources(h, purge, keepBinary, Disable(u));
  }

  lemma InUnitFiles(dir: Path, us: seq<string>, guard: seq<Step>, backup: seq<Step>, reload: seq<Step>, p: Path)
    requires UnitFile(p) !in guard && UnitFile(p) !in backup && UnitFile(p) !in reload
    ensures UnitFile(p) in UnitFiles(dir, us) + guard + backup + reload <==>
            exists u <- us :: p == Path(dir.abs, dir.comps + [u])
  {
    var files := UnitFiles(dir, us);
    if u :| u in us && p == Path(dir.abs, dir.comps + [u]) {
      var i :| 0 <= i < |us| && us[i] == u;
      assert files[i] == UnitFile(p) && (files + guard + backup + reload)[i] == files[i];
    }
  }

  /** exactly their files are removed as unit files; */
  lemma UnitFilesExactly(h: Host, purge: bool, keepBinary: bool, p: Path)
    ensures UnitFile(p) in StepsOf(h, purge, keepBinary) <==>
            exists u :: HasUnit(h, u) && p == Path(h.env.unitDir.abs, h.env.unitDir.comps + [u])
  {
    UnitsExactly(h);
    var us := Units(h);
    InUnitFiles(h.env.unitDir, us, If(us != [] && h.env.guardPath in h.present, File(h.env.guardPath)),
                If(us != [] && h.env.backupScriptPath in h.present, File(h.env.backupScriptPath)), If(us != [], Reload), p);
    Sources(h, purge, keepBinary, UnitFile(p));
  }

  /** Each list of steps has one step for each name or directory, in order. */
  ghost predicate Parts(h: Host, us: seq<string>, fs: seq<string>, ds: seq<Path>, stops: seq<Step>, disables: seq<Step>,
                        units: seq<Step>, configs: seq<Step>, dirs: seq<Step>) {
    && |stops| == |us| && (forall i :: 0 <= i < |us| ==> stops[i] == Stop(us[i]))
    && |disables| == |us| && (forall i :: 0 <= i < |us| ==> disables[i] == Disable(us[i]))
    && |units| == |us|
    && (forall i :: 0 <= i < |us| ==> units[i] == UnitFile(Path(h.env.unitDir.abs, h.env.unitDir.comps + [us[i]])))
    && |configs| == |fs|
    && (forall i :: 0 <= i < |fs| ==> configs[i] == File(Path(h.env.etcDir.abs, h.env.etcDir.comps + [fs[i]])))
    && |dirs| == |ds| && (forall i :: 0 <= i < |ds| ==> dirs[i] == Dir(ds[i]))
  }

  /** The plan in full, for the units `us` and the configuration files `fs` on the host, each in
      the order of its list, and the state directories `ds`. */
  lemma PlanExactly(h: Host, purge: bool, keepBinary: bool, us: seq<string>, fs: seq<string>, ds: seq<Path>,
                    stops: seq<Step>, disables: seq<Step>, units: seq<Step>, configs: seq<Step>, dirs: seq<Step>)
    requires us == Units(h) && fs == EtcFiles(h) && ds == StateDirs(h)
    requires Parts(h, us, fs, ds, stops, disables, units, configs, dirs)
    ensures var unitPart := units
              + (if us != [] && h.env.guardPath in h.present then [File(h.env.guardPath)] else [])
              + (if us != [] && h.env.backupScriptPath in h.present then [File(h.env.backupScriptPath)] else [])
              + (if us != [] then [Reload] else []);
            var configPart := configs
              + (if fs != [] && h.etcEntries.Some? && (forall e <- h.etcEntries.value :: e in fs)
                 then [EtcDir(h.env.etcDir)] else []);
            var statePart := if purge then dirs + (if us != [] then [User("partout")] else []) else [];
            StepsOf(h, purge, keepBinary) == stops + disables + unitPart + configPart + statePart
              + (if h.env.binPath in h.present && !keepBinary then [File(h.env.binPath)] else [])
  {
    assert stops == Stops(us) && disables == Disables(us);
    assert units == UnitFiles(h.env.unitDir, us);
    assert configs == EtcSteps(h.env.etcDir, fs);
    assert dirs == Dirs(ds);
  }

  // ---- state ----

  function One(c: bool): nat { if c then 1 else 0 }

  lemma CountFive(a: seq<Path>, b: seq<Path>, c: seq<Path>, d: seq<Path>, e: seq<Path>, p: Path)
    ensures multiset(a + b + c + d + e)[p] ==
            multiset(a)[p] + multiset(b)[p] + multiset(c)[p] + multiset(d)[p] + multiset(e)[p]
  {
  }

  /** How often a directory is found as a location of state. */
  lemma LocationsExactly(h: Host, p: Path)
    ensures var env := h.env;
            var home := Path(env.homeDir.abs, env.homeDir.comps + [".partout"]);
            multiset(Locations(h))[p] ==
            One(p == env.varDir && p in h.present)
            + One(p == env.fileRoot && p in h.present)
            + One(h.dbDir == Some(p) && p != env.varDir && p in h.present)
            + One(h.agentData == Some(p) && p != env.varDir && p in h.present && !Inside(p, env.varDir))
            + One(p == home && p in h.present && !Inside(p, env.varDir))
  {
    var a, b, c, d, e := FiveParts(h, p);
    CountFive(a, b, c, d, e, p);
    UnderIsInside(p, h.env.varDir);
  }

  lemma UnderIsInside(p: Path, dir: Path)
    ensures Under(p, dir) <==> Inside(p, dir)
  {
    UnderIsPrefix(p, dir);
  }

  lemma FiveParts(h: Host, p: Path) returns (a: seq<Path>, b: seq<Path>, c: seq<Path>, d: seq<Path>, e: seq<Path>)
    ensures Locations(h) == a + b + c + d + e
    ensures var v, home := h.env.varDir, Path(h.env.homeDir.abs, h.env.homeDir.comps + [".partout"]);
            && multiset(a)[p] == One(p == v && p in h.present)
            && multiset(b)[p] == One(p == h.env.fileRoot && p in h.present)
            && multiset(c)[p] == One(h.dbDir == Some(p) && p != v && p in h.present)
            && multiset(d)[p] == One(h.agentData == Some(p) && p != v && p in h.present && !Under(p, v))
            && multiset(e)[p] == One(p == home && p in h.present && !Under(p, v))
  {
    var v, home := h.env.varDir, Join(h.env.homeDir, ".partout");
    a := CountOnly(v in h.present, v, p);
    b := CountOnly(h.env.fileRoot in h.present, h.env.fileRoot, p);
    c := CountDatabase(h, p);
    d := CountData(h, p);
    e := CountOnly(home in h.present && !Under(home, v), home, p);
  }

  lemma CountOnly(c: bool, q: Path, p: Path) returns (part: seq<Path>)
    ensures part == Only(c, q) && multiset(part)[p] == One(c && p == q)
  {
    part := Only(c, q);
  }

  lemma CountDatabase(h: Host, p: Path) returns (part: seq<Path>)
    ensures part == if Custom(h, h.dbDir) then [h.dbDir.value] else []
    ensures multiset(part)[p] == One(h.dbDir == Some(p) && p != h.env.varDir && p in h.present)
  {
    part := if Custom(h, h.dbDir) then [h.dbDir.value] else [];
  }

  lemma CountData(h: Host, p: Path) returns (part: seq<Path>)
    ensures part == if Custom(h, h.agentData) && !Under(h.agentData.value, h.env.varDir) then [h.agentData.value] else []
    ensures multiset(part)[p] == One(h.agentData == Some(p) && p != h.env.varDir && p in h.present && !Under(p, h.env.varDir))
  {
    part := if Custom(h, h.agentData) && !Under(h.agentData.value, h.env.varDir) then [h.agentData.value] else [];
  }

  /** p is dir or a path below it, not through "..". */
  predicate Inside(p: Path, dir: Path) {
    && p.abs == dir.abs && |dir.comps| <= |p.comps| && p.comps[..|dir.comps|] == dir.comps
    && (|p.comps| > |dir.comps| ==> p.comps[|dir.comps|] != "..")
  }

  /** The other paths of a list, without the one at position k. */
  lemma Others(ls: seq<Path>, k: nat)
    requires k < |ls|
    ensures multiset(ls)[ls[k]] == 1 <==> forall j :: 0 <= j < |ls| && j != k ==> ls[j] != ls[k]
  {
    var others := ls[..k] + ls[k + 1..];
    assert ls == ls[..k] + [ls[k]] + ls[k + 1..];
    assert multiset(ls) == multiset(others) + multiset{ls[k]};
    forall j | 0 <= j < |ls| && j != k ensures ls[j] in others {
      assert ls[j] == if j < k then others[j] else others[j - 1];
    }
    if ls[k] in others {
      var m :| 0 <= m < |others| && others[m] == ls[k];
      assert ls[if m < k then m else m + 1] == ls[k];
    }
  }

  /** A directory is a state directory of the plan exactly when it is found once, and inside no other. */
  lemma StateExactly(h: Host, d: Path)
    ensures d in StateDirs(h) <==>
            multiset(Locations(h))[d] == 1 && forall l :: l in Locations(h) && l != d ==> !Inside(d, l)
  {
    var ls := Locations(h);
    InOuter(ls, d);
    UnderReflexive(d);
    forall l ensures Under(d, l) <==> Inside(d, l) { UnderIsPrefix(d, l); }
    forall k | 0 <= k < |ls| && ls[k] == d
      ensures Nested(ls, k) <==> !(multiset(ls)[d] == 1 && forall l :: l in ls && l != d ==> !Inside(d, l))
    {
      NestedExactly(ls, k);
    }
    assert multiset(ls)[d] > 0 <==> d in ls;
  }

  lemma NestedExactly(ls: seq<Path>, k: nat)
    requires k < |ls|
    ensures Nested(ls, k) <==> !(multiset(ls)[ls[k]] == 1 && forall l :: l in ls && l != ls[k] ==> !Under(ls[k], l))
  {
    Others(ls, k);
    UnderReflexive(ls[k]);
    if j :| 0 <= j < |ls| && j != k && ls[j] == ls[k] { assert Under(ls[k], ls[j]); }
    if l :| l in ls && l != ls[k] && Under(ls[k], l) {
      var j :| 0 <= j < |ls| && ls[j] == l;
      assert Nested(ls, k);
    }
    if Nested(ls, k) {
      var j :| 0 <= j < |ls| && j != k && Under(ls[k], ls[j]);
      assert ls[j] in ls;
    }
  }

  // ---- what the plan says about itself ----

  lemma NotesExactly(h: Host, keepBinary: bool)
    ensures forall es :: EtcKept(es) in NotesOf(h, keepBinary) <==>
              h.etcEntries == Some(es) && (exists f :: HasConfig(h, f)) && exists e <- es :: !HasConfig(h, e)
    ensures BinaryKept in NotesOf(h, keepBinary) <==> h.env.binPath in h.present && keepBinary
    ensures NoSystemd !in NotesOf(h, keepBinary)
  {
    ConfigExactly(h);
    if EtcFiles(h) != [] { assert HasConfig(h, EtcFiles(h)[0]); }
  }

  /** The scope, from the three service units. */
  lemma ScopeExactly(h: Host, purge: bool, keepBinary: bool)
    ensures var server := Exists(h, h.env.unitDir, "partout-server.service");
            var agent := Exists(h, h.env.unitDir, "partout-agent.service");
            var embedded := Exists(h, h.env.unitDir, "partout-embedded.service");
            var scope := ScopeOf(h, purge, keepBinary);
            && (scope == Mixed <==> server && (agent || embedded))
            && (scope == Server <==> server && !agent && !embedded)
            && (scope == Agent <==> agent && !server)
            && (scope == Embedded <==> embedded && !server && !agent)
            && (scope in {Nothing, Files} <==> !server && !agent && !embedded)
  {
    UnitsExactly(h);
    assert SERVER in Units(h) <==> HasUnit(h, SERVER);
    assert AGENT in Units(h) <==> HasUnit(h, AGENT);
    assert EMBEDDED in Units(h) <==> HasUnit(h, EMBEDDED);
  }

  /** And when nothing at all is found. */
  lemma NothingExactly(h: Host, purge: bool, keepBinary: bool)
    ensures ScopeOf(h, purge, keepBinary) == Nothing <==>
            && (forall u :: !HasUnit(h, u)) && (forall f :: !HasConfig(h, f))
            && h.env.binPath !in h.present && StateDirs(h) == []
  {
    UnitsExactly(h);
    ConfigExactly(h);
    NothingFoundExactly(h, purge, keepBinary);
    var us, fs := Units(h), EtcFiles(h);
    if us != [] { assert HasUnit(h, us[0]); }
    if fs != [] { assert HasConfig(h, fs[0]); }
  }

  // ---- running it ----

  /** Services are only touched on systemd, and a user that does not exist is not deleted;
      everything else is attempted. */
  predicate Attempted(s: Step, systemd: bool, missing: bool) {
    match s
    case Stop(_) | Disable(_) | Reload => systemd
    case User(_) => !missing
    case UnitFile(_) | File(_) | EtcDir(_) | Dir(_) => true
  }

  /** A run does, in plan order, exactly the attempted steps that succeed before any attempted one
      fails hard, and it fails exactly when one does. */
  lemma RunLiterally(steps: seq<Step>, systemd: bool, missing: bool, o: nat -> Outcome) returns (ks: seq<nat>)
    ensures var (done, failed) := Run(steps, systemd, missing, o, |steps|);
            && |ks| == |done|
            && (forall m :: 0 <= m < |ks| ==> ks[m] < |steps| && done[m] == steps[ks[m]])
            && (failed <==> exists i: nat :: i < |steps| && Attempted(steps[i], systemd, missing) && o(i) == Hard)
    ensures forall l, m :: 0 <= l < m < |ks| ==> ks[l] < ks[m]
    ensures forall i: nat :: i < |steps| ==>
              (i in ks <==> (Attempted(steps[i], systemd, missing) && o(i) == Ok &&
                             forall j: nat :: j < i && Attempted(steps[j], systemd, missing) ==> o(j) != Hard))
  {
    ks := RunExactly(steps, systemd, missing, o, |steps|);
    forall i: nat | i < |steps|
      ensures Fails(steps, systemd, missing, o, i) <==> Attempted(steps[i], systemd, missing) && o(i) == Hard
      ensures Try(steps[i], systemd, missing, o(i)) == Tried(Ok) <==> Attempted(steps[i], systemd, missing) && o(i) == Ok
    {
    }
  }
}
