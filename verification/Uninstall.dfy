/** The uninstall plan and its execution (cmd/partout/uninstall.go:66-255, 305-357). */
module Uninstall {
  import opened NestedPaths
  import opened Options

  /** The well-known install locations. */
  datatype Env = Env(unitDir: Path, etcDir: Path, varDir: Path, fileRoot: Path, homeDir: Path,
                     binPath: Path, guardPath: Path, backupScriptPath: Path)

  /** A host as the planner inspects it: the existing paths, the listing of /etc/partout (absent when it
      cannot be read), the directory of a custom database and a custom agent data directory. */
  datatype Host = Host(env: Env, present: set<Path>, etcEntries: Option<seq<string>>,
                       dbDir: Option<Path>, agentData: Option<Path>)

  datatype Step =
    | Stop(unit: string) | Disable(unit: string) | Reload
    | UnitFile(path: Path) | File(path: Path) | EtcDir(path: Path) | Dir(path: Path)
    | User(name: string)

  datatype Note = EtcKept(entries: seq<string>) | BinaryKept | NoSystemd

  datatype Scope = Nothing | Server | Agent | Embedded | Mixed | Files

  const SERVER := "partout-server.service"
  const AGENT := "partout-agent.service"
  const EMBEDDED := "partout-embedded.service"
  const UNITS := [SERVER, AGENT, EMBEDDED, "partout-backup.service", "partout-backup.timer"]
  const ETC_FILES := ["server.env", "agent.env", "embedded.env", "ca.crt"]

  // ---- the plan as a value ----

  /** The names that exist in a directory, in their order. */
  function Found(h: Host, dir: Path, names: seq<string>): seq<string> {
    if names == [] then []
    else
      var n := |names| - 1;
      if Join(dir, names[n]) in h.present then Found(h, dir, names[..n]) + [names[n]]
      else Found(h, dir, names[..n])
  }

  function Units(h: Host): seq<string> { Found(h, h.env.unitDir, UNITS) }
  function EtcFiles(h: Host): seq<string> { Found(h, h.env.etcDir, ETC_FILES) }

  function Stops(us: seq<string>): seq<Step> { seq(|us|, i requires 0 <= i < |us| => Stop(us[i])) }
  function Disables(us: seq<string>): seq<Step> { seq(|us|, i requires 0 <= i < |us| => Disable(us[i])) }
  function UnitFiles(dir: Path, us: seq<string>): seq<Step> {
    seq(|us|, i requires 0 <= i < |us| => UnitFile(Join(dir, us[i])))
  }
  function EtcSteps(dir: Path, fs: seq<string>): seq<Step> {
    seq(|fs|, i requires 0 <= i < |fs| => File(Join(dir, fs[i])))
  }
  function Dirs(ds: seq<Path>): seq<Step> { seq(|ds|, i requires 0 <= i < |ds| => Dir(ds[i])) }

  function If(c: bool, s: Step): seq<Step> { if c then [s] else [] }

  predicate AllOurs(h: Host) {
    h.etcEntries.Some? && forall e :: e in h.etcEntries.value ==> e in EtcFiles(h)
  }

  function Only(c: bool, p: Path): seq<Path> { if c then [p] else [] }

  /** A configured location counts when it exists and is not the default one. */
  predicate Custom(h: Host, p: Option<Path>) {
    p.Some? && p.value != h.env.varDir && p.value in h.present
  }

  /** The state locations before nested ones are dropped. */
  function Locations(h: Host): seq<Path> {
    var home := Join(h.env.homeDir, ".partout");
    Only(h.env.varDir in h.present, h.env.varDir)
    + Only(h.env.fileRoot in h.present, h.env.fileRoot)
    + (if Custom(h, h.dbDir) then [h.dbDir.value] else [])
    + (if Custom(h, h.agentData) && !Under(h.agentData.value, h.env.varDir) then [h.agentData.value] else [])
    + Only(home in h.present && !Under(home, h.env.varDir), home)
  }

  ghost function StateDirs(h: Host): seq<Path> { Outer(Locations(h)) }

  function UnitSteps(h: Host): seq<Step> {
    var us := Units(h);
    UnitFiles(h.env.unitDir, us)
    + If(us != [] && h.env.guardPath in h.present, File(h.env.guardPath))
    + If(us != [] && h.env.backupScriptPath in h.present, File(h.env.backupScriptPath))
    + If(us != [], Reload)
  }

  function ConfigSteps(h: Host): seq<Step> {
    EtcSteps(h.env.etcDir, EtcFiles(h)) + If(EtcFiles(h) != [] && AllOurs(h), EtcDir(h.env.etcDir))
  }

  ghost function StateSteps(h: Host, purge: bool): seq<Step> {
    if purge then Dirs(StateDirs(h)) + If(Units(h) != [], User("partout")) else []
  }

  ghost function StepsOf(h: Host, purge: bool, keepBinary: bool): seq<Step> {
    Stops(Units(h)) + Disables(Units(h)) + UnitSteps(h) + ConfigSteps(h) + StateSteps(h, purge)
    + If(h.env.binPath in h.present && !keepBinary, File(h.env.binPath))
  }

  function NotesOf(h: Host, keepBinary: bool): seq<Note> {
    (if EtcFiles(h) != [] && h.etcEntries.Some? && !AllOurs(h) then [EtcKept(h.etcEntries.value)] else [])
    + (if h.env.binPath in h.present && keepBinary then [BinaryKept] else [])
  }

  function UnitScope(us: seq<string>): Scope {
    if SERVER in us && (AGENT in us || EMBEDDED in us) then Mixed
    else if SERVER in us then Server
    else if AGENT in us then Agent
    else if EMBEDDED in us then Embedded
    else Nothing
  }

  // ---- running it ----

  /** How a command or a removal ends. */
  datatype Outcome = Ok | NotExist | Hard

  /** What happens to one step: nothing is attempted, or the attempt ends somehow. missing says that
      the system user does not exist. */
  datatype Attempt = Skipped | Tried(outcome: Outcome)

  function Try(s: Step, systemd: bool, missing: bool, o: Outcome): Attempt {
    match s
    case Stop(_) => if systemd then Tried(o) else Skipped
    case Disable(_) => if systemd then Tried(o) else Skipped
    case Reload => if systemd then Tried(o) else Skipped
    case User(_) => if missing then Skipped else Tried(o)
    case _ => Tried(o)
  }

  /** The steps among the first n that took effect, and whether one of them failed hard, which ends the run. */
  function Run(steps: seq<Step>, systemd: bool, missing: bool, o: nat -> Outcome, n: nat): (seq<Step>, bool)
    requires n <= |steps|
  {
    if n == 0 then ([], false)
    else
      var (done, failed) := Run(steps, systemd, missing, o, n - 1);
      var a := Try(steps[n - 1], systemd, missing, o(n - 1));
      if failed then (done, true)
      else if a == Tried(Ok) then (done + [steps[n - 1]], false)
      else (done, a == Tried(Hard))
  }

  class Plan {
    var scope: Scope
    var steps: seq<Step>
    var kept: seq<Path>
    var notes: seq<Note>
    var needsRoot: bool

    method Add(s: Step)
      modifies `steps
      ensures steps == old(steps) + [s]
    {
      steps := steps + [s];
    }

    method AddUnits(us: seq<string>)
      modifies `steps
      ensures steps == old(steps) + Stops(us) + Disables(us)
    {
      for i := 0 to |us|
        invariant steps == old(steps) + Stops(us[..i])
      {
        Add(Stop(us[i]));
        assert Stops(us[..i + 1]) == Stops(us[..i]) + [Stop(us[i])];
      }
      assert us[..|us|] == us;
      for i := 0 to |us|
        invariant steps == old(steps) + Stops(us) + Disables(us[..i])
      {
        Add(Disable(us[i]));
        assert Disables(us[..i + 1]) == Disables(us[..i]) + [Disable(us[i])];
      }
    }

    method AddUnitFiles(h: Host, us: seq<string>)
      requires us == Units(h)
      modifies `steps
      ensures steps == old(steps) + UnitSteps(h)
    {
      var dir := h.env.unitDir;
      for i := 0 to |us|
        invariant steps == old(steps) + UnitFiles(dir, us[..i])
      {
        Add(UnitFile(Join(dir, us[i])));
        assert UnitFiles(dir, us[..i + 1]) == UnitFiles(dir, us[..i]) + [UnitFile(Join(dir, us[i]))];
      }
      assert us[..|us|] == us;
      if |us| > 0 && h.env.guardPath in h.present {
        Add(File(h.env.guardPath));
      }
      if |us| > 0 && h.env.backupScriptPath in h.present {
        Add(File(h.env.backupScriptPath));
      }
      if |us| > 0 {
        Add(Reload);
      }
    }

    method AddConfig(h: Host)
      modifies `steps, `notes
      ensures steps == old(steps) + ConfigSteps(h)
      ensures notes == old(notes) + NotesOf(h, false)
    {
      var fs := FindNames(h, h.env.etcDir, ETC_FILES);
      var dir := h.env.etcDir;
      for i := 0 to |fs|
        invariant steps == old(steps) + EtcSteps(dir, fs[..i]) && notes == old(notes)
      {
        Add(File(Join(dir, fs[i])));
        assert EtcSteps(dir, fs[..i + 1]) == EtcSteps(dir, fs[..i]) + [File(Join(dir, fs[i]))];
      }
      assert fs[..|fs|] == fs;
      if |fs| > 0 && h.etcEntries.Some? {
        var allOurs := true;
        var entries := h.etcEntries.value;
        for i := 0 to |entries|
          invariant allOurs
          invariant forall k :: 0 <= k < i ==> entries[k] in fs
        {
          if entries[i] !in fs {
            allOurs := false;
            break;
          }
        }
        if allOurs {
          Add(EtcDir(dir));
        } else {
          notes := notes + [EtcKept(entries)];
        }
      }
    }

    method AddState(h: Host, state: seq<Path>, us: seq<string>, purge: bool)
      requires state == StateDirs(h) && us == Units(h)
      modifies `steps, `kept
      ensures steps == old(steps) + StateSteps(h, purge)
      ensures kept == old(kept) + if purge then [] else state
    {
      if purge {
        for i := 0 to |state|
          invariant steps == old(steps) + Dirs(state[..i]) && kept == old(kept)
        {
          Add(Dir(state[i]));
          assert Dirs(state[..i + 1]) == Dirs(state[..i]) + [Dir(state[i])];
        }
        assert state[..|state|] == state;
        if |us| > 0 {
          Add(User("partout"));
        }
      } else {
        for i := 0 to |state|
          invariant kept == old(kept) + state[..i] && steps == old(steps)
        {
          kept := kept + [state[i]];
        }
        assert state[..|state|] == state;
      }
    }

    method AddBinary(h: Host, keepBinary: bool)
      modifies `steps, `notes
      ensures steps == old(steps) + If(h.env.binPath in h.present && !keepBinary, File(h.env.binPath))
      ensures notes == old(notes) + if h.env.binPath in h.present && keepBinary then [BinaryKept] else []
    {
      if h.env.binPath in h.present {
        if !keepBinary {
          Add(File(h.env.binPath));
        } else {
          notes := notes + [BinaryKept];
        }
      }
    }

    constructor Build(h: Host, purge: bool, keepBinary: bool)
      ensures steps == StepsOf(h, purge, keepBinary)
      ensures kept == if purge then [] else StateDirs(h)
      ensures notes == NotesOf(h, keepBinary)
      ensures needsRoot <==> exists u :: u in UNITS && Join(h.env.unitDir, u) in h.present
      ensures scope == ScopeOf(h, purge, keepBinary)
    {
      scope, steps, kept, notes, needsRoot := Nothing, [], [], [], false;
      new;
      var us := FindNames(h, h.env.unitDir, UNITS);
      SomeFound(h, us);
      scope := UnitScope(us);
      if |us| > 0 {
        AddUnits(us);
        needsRoot := true;
      }
      assert steps == Stops(us) + Disables(us);
      var state := FindState(h);
      AddRemovals(h, us, state, purge, keepBinary);
      SetScope(h, state, purge, keepBinary);
    }

    method AddRemovals(h: Host, us: seq<string>, state: seq<Path>, purge: bool, keepBinary: bool)
      requires us == Units(h) && state == StateDirs(h) && steps == Stops(us) + Disables(us) && kept == [] && notes == []
      modifies `steps, `kept, `notes
      ensures steps == StepsOf(h, purge, keepBinary)
      ensures kept == if purge then [] else state
      ensures notes == NotesOf(h, keepBinary)
    {
      AddUnitFiles(h, us);
      AddConfig(h);
      AddState(h, state, us, purge);
      AddBinary(h, keepBinary);
    }

    method SetScope(h: Host, state: seq<Path>, purge: bool, keepBinary: bool)
      requires state == StateDirs(h) && scope == UnitScope(Units(h))
      requires steps == StepsOf(h, purge, keepBinary) && notes == NotesOf(h, keepBinary)
      requires kept == if purge then [] else state
      modifies `scope
      ensures scope == ScopeOf(h, purge, keepBinary)
    {
      if scope == Nothing && (|steps| > 0 || |state| > 0 || |kept| > 0 || |notes| > 0) {
        scope := Files;
      }
    }

    /** done is what took effect on the host, in order; ok is false when a step failed hard. */
    method Execute(systemd: bool, missing: bool, o: nat -> Outcome) returns (done: seq<Step>, ok: bool)
      modifies `notes
      ensures (done, !ok) == Run(steps, systemd, missing, o, |steps|)
      ensures notes == if !systemd && (exists i :: 0 <= i < |steps| && (steps[i].Stop? || steps[i].Disable?))
                       then old(notes) + [NoSystemd] else old(notes)
    {
      if !systemd {
        for i := 0 to |steps|
          invariant notes == old(notes)
          invariant forall k :: 0 <= k < i ==> !(steps[k].Stop? || steps[k].Disable?)
        {
          if steps[i].Stop? || steps[i].Disable? {
            notes := notes + [NoSystemd];
            break;
          }
        }
      }
      done := [];
      for i := 0 to |steps|
        invariant (done, false) == Run(steps, systemd, missing, o, i)
      {
        var s := steps[i];
        if (s.Stop? || s.Disable? || s.Reload?) && !systemd {
          continue;
        }
        if s.User? && missing {
          continue;
        }
        match o(i) {
          case Ok => done := done + [s];
          case NotExist =>
          case Hard =>
            StaysFailed(steps, systemd, missing, o, i + 1, |steps|);
            return done, false;
        }
      }
      ok := true;
    }
  }

  lemma SomeFound(h: Host, us: seq<string>)
    requires forall u :: u in us <==> u in UNITS && Join(h.env.unitDir, u) in h.present
    ensures us != [] <==> exists u :: u in UNITS && Join(h.env.unitDir, u) in h.present
  {
    if us != [] { assert us[0] in us; }
  }

  method FindNames(h: Host, dir: Path, names: seq<string>) returns (found: seq<string>)
    ensures found == Found(h, dir, names)
    ensures forall x :: x in found <==> x in names && Join(dir, x) in h.present
  {
    found := [];
    for i := 0 to |names|
      invariant found == Found(h, dir, names[..i])
      invariant forall x :: x in found <==> x in names[..i] && Join(dir, x) in h.present
    {
      assert names[..i + 1][..i] == names[..i];
      if Join(dir, names[i]) in h.present {
        found := found + [names[i]];
      }
    }
    assert names[..|names|] == names;
  }

  method FindState(h: Host) returns (state: seq<Path>)
    ensures state == StateDirs(h)
  {
    var v := h.env.varDir;
    state := Only(v in h.present, v);
    if h.env.fileRoot in h.present {
      state := state + [h.env.fileRoot];
    }
    ghost var two := Only(v in h.present, v) + Only(h.env.fileRoot in h.present, h.env.fileRoot);
    assert state == two;
    if h.dbDir.Some? {
      var d := h.dbDir.value;
      if d != v && d in h.present {
        state := state + [d];
      }
    }
    ghost var db := if Custom(h, h.dbDir) then [h.dbDir.value] else [];
    assert state == two + db;
    ghost var data := if Custom(h, h.agentData) && !Under(h.agentData.value, v) then [h.agentData.value] else [];
    if h.agentData.Some? && h.agentData.value != v && h.agentData.value in h.present {
      if !Under(h.agentData.value, v) {
        state := state + [h.agentData.value];
      }
    }
    assert state == two + db + data;
    var home := Join(h.env.homeDir, ".partout");
    if home in h.present && !Under(home, v) {
      state := state + [home];
    }
    assert state == two + db + data + Only(home in h.present && !Under(home, v), home);
    state := DedupeNested(state);
  }

  lemma {:induction false} StaysFailed(steps: seq<Step>, systemd: bool, missing: bool, o: nat -> Outcome, m: nat, n: nat)
    requires m <= n <= |steps| && Run(steps, systemd, missing, o, m).1
    ensures Run(steps, systemd, missing, o, n) == Run(steps, systemd, missing, o, m)
    decreases n
  {
    if m < n { StaysFailed(steps, systemd, missing, o, m, n - 1); }
  }

  /** The plan finds something exactly when it has a step, a location, or a note to show. */
  ghost function ScopeOf(h: Host, purge: bool, keepBinary: bool): Scope {
    var s := UnitScope(Units(h));
    if s == Nothing && (StepsOf(h, purge, keepBinary) != [] || StateDirs(h) != [] || NotesOf(h, keepBinary) != [])
    then Files else s
  }
}
