/** The agent's self-update, with a crash possible between any two steps: the
    update itself, the boot guard that runs before the agent starts, the agent's own
    boot check, and the first healthy connect. */
module SelfUpdate {
  import opened Options

  /** A binary on disk.  `Torn` and `Empty` are what a crash in the middle, or right at
      the beginning, of a plain file write leaves. */
  datatype Binary = Binary(version: string, build: nat) | Torn | Empty

  /** The three paths that matter: the installed binary, the retained N-1 copy, the marker. */
  datatype Disk = Disk(bin: Binary, prev: Option<Binary>, marker: Option<string>)

  /** The artifact of a directive, and whether signature, hash and version check pass. */
  datatype Offer = Offer(artifact: Binary, version: string, signed: bool, hashMatches: bool)

  datatype Phase =
    | Booting                    // PostBootCheck still to come
    | Restored                   // PostBootCheck has put N-1 back, the marker is still there
    | Idle                       // no update in flight
    | Ready(offer: Offer)        // verified, downloaded, hashed, validated
    | Marked(offer: Offer)       // marker written
    | Retained(offer: Offer)     // N-1 copy is the current binary
    | Swapped(offer: Offer)      // renamed into place, about to exit

  datatype Process =
    | Off
    | Guarding                   // the guard has moved N-1 back, the marker is still there
    | Agent(running: Binary, phase: Phase, connected: bool)

  datatype State = State(
    disk: Disk,
    process: Process,
    validated: set<Binary>,      // history: artifacts that passed signature, hash and version check
    accepted: set<Binary>,       // history: the first binary and all that connected as an update's target
    attempts: nat                // history: updates that reached the disk
  )

  datatype Event =
    // the update, step by step
    | Directive(offer: Offer) | WriteMarker
    | RetainCopy | TearCopy(left: Binary) | RetainFails(left: Binary) | ReadFails
    | Rename | RenameFails | Exit | Refuse
    // life around it
    | Crash
    | Guard(stale: bool) | GuardClears | StartUnguarded
    | BootCheck | BootClears
    | Connect | ConnectKeepsMarker

  predicate Valid(o: Offer) {
    o.signed && o.hashMatches && o.artifact.Binary? && o.artifact.version == o.version
  }

  predicate Runs(b: Binary) { b.Binary? }

  predicate Damaged(b: Binary) { !b.Binary? }

  predicate HasVersion(b: Binary, v: string) { b.Binary? && b.version == v }

  /** Impossible events leave the state as it is, so every event sequence is a run. */
  function Next(s: State, e: Event): State {
    var d := s.disk;
    match e
    case Directive(o) =>
      // an update in flight makes the agent ignore it; a bad offer or one for the
      // running version ends without touching the disk
      if s.process.Agent? && s.process.phase == Idle && s.process.connected &&
         Valid(o) && !HasVersion(s.process.running, o.version)
      then s.(process := s.process.(phase := Ready(o)), validated := s.validated + {o.artifact})
      else s
    case WriteMarker =>
      if s.process.Agent? && s.process.phase.Ready?
      then s.(disk := d.(marker := Some(s.process.phase.offer.version)),
              process := s.process.(phase := Marked(s.process.phase.offer)),
              attempts := s.attempts + 1)
      else s
    case RetainCopy =>
      if s.process.Agent? && s.process.phase.Marked?
      then s.(disk := d.(prev := Some(d.bin)), process := s.process.(phase := Retained(s.process.phase.offer)))
      else s
    case TearCopy(left) =>
      // the copy is written only when it differs from the current binary
      if s.process.Agent? && s.process.phase.Marked? && d.prev != Some(d.bin) && Damaged(left)
      then s.(disk := d.(prev := Some(left)), process := Off)
      else s
    case RetainFails(left) =>
      // a failed write may leave a partial copy; the marker is removed
      if s.process.Agent? && s.process.phase.Marked? && d.prev != Some(d.bin) && Damaged(left)
      then s.(disk := d.(prev := Some(left), marker := None), process := s.process.(phase := Idle))
      else s
    case ReadFails =>
      if s.process.Agent? && s.process.phase.Marked?
      then s.(disk := d.(marker := None), process := s.process.(phase := Idle))
      else s
    case Rename =>
      if s.process.Agent? && s.process.phase.Retained?
      then s.(disk := d.(bin := s.process.phase.offer.artifact),
              process := s.process.(phase := Swapped(s.process.phase.offer)))
      else s
    case RenameFails =>
      if s.process.Agent? && s.process.phase.Retained?
      then s.(disk := d.(marker := None), process := s.process.(phase := Idle))
      else s
    case Exit =>
      if s.process.Agent? && s.process.phase.Swapped? && d.prev != Some(Empty) then s.(process := Off) else s
    case Refuse =>
      // an empty N-1 copy: the update fails after the swap, and nothing is undone
      if s.process.Agent? && s.process.phase.Swapped? && d.prev == Some(Empty)
      then s.(process := s.process.(phase := Idle))
      else s
    case Crash => s.(process := Off)
    case Guard(stale) =>
      if !s.process.Off? then s
      else if d.marker == None || (HasVersion(d.bin, d.marker.value) && !stale) then
        if Runs(d.bin) then s.(process := Agent(d.bin, Booting, false)) else s
      else s.(disk := Restore(d), process := Guarding)
    case GuardClears =>
      if !s.process.Guarding? then s
      else s.(disk := d.(marker := None), process := if Runs(d.bin) then Agent(d.bin, Booting, false) else Off)
    case StartUnguarded =>
      if s.process.Off? && Runs(d.bin) then s.(process := Agent(d.bin, Booting, false)) else s
    case BootCheck =>
      if !(s.process.Agent? && s.process.phase == Booting) then s
      else if d.marker == None || HasVersion(s.process.running, d.marker.value)
      then s.(process := s.process.(phase := Idle))
      else s.(disk := Restore(d), process := s.process.(phase := Restored))
    case BootClears =>
      if s.process.Agent? && s.process.phase == Restored
      then s.(disk := d.(marker := None), process := s.process.(phase := Idle))
      else s
    case Connect => Connected(s, true)
    case ConnectKeepsMarker => Connected(s, false)
  }

  /** The N-1 copy, if there is one, is moved over the installed binary. */
  function Restore(d: Disk): Disk {
    if d.prev.Some? then d.(bin := d.prev.value, prev := None) else d
  }

  /** A healthy stream connect; as the target of the marker it confirms the update
      and removes the marker (`removed` is false when that removal fails). */
  function Connected(s: State, removed: bool): State {
    if !(s.process.Agent? && !s.process.phase.Booting? && !s.process.phase.Restored?) then s
    else
      var t := s.(process := s.process.(connected := true));
      if s.disk.marker.Some? && HasVersion(s.process.running, s.disk.marker.value)
      then t.(disk := if removed then s.disk.(marker := None) else s.disk,
              accepted := s.accepted + {s.process.running})
      else t
  }

  function After(s: State, es: seq<Event>): State {
    if es == [] then s else Next(After(s, es[..|es| - 1]), es[|es| - 1])
  }

  lemma Extend(s: State, es: seq<Event>, e: Event)
    ensures After(s, es + [e]) == Next(After(s, es), e)
  {
    assert (es + [e])[..|es|] == es;
  }

  // ---- crash safety over any number of updates ----

  /** The N-1 copy is never written halfway. */
  predicate Whole(es: seq<Event>) {
    forall e <- es :: !e.TearCopy? && !e.RetainFails?
  }

  /** The installed binary is one that has proven itself, or a validated artifact under
      supervision: the marker names it and an accepted N-1 copy is there to go back to. */
  predicate Supervised(s: State) {
    var d := s.disk;
    || d.bin in s.accepted
    || (d.bin in s.validated && d.marker.Some? && HasVersion(d.bin, d.marker.value) &&
        d.prev.Some? && d.prev.value in s.accepted)
  }

  predicate OfferInv(s: State, running: Binary, o: Offer) {
    Valid(o) && o.artifact in s.validated && !HasVersion(running, o.version)
  }

  predicate ProcessInv(s: State) {
    var d := s.disk;
    match s.process
    case Off => true
    case Guarding => d.bin in s.accepted
    case Agent(running, phase, connected) =>
      match phase
      case Booting => running == d.bin && !connected
      case Restored => d.bin in s.accepted && !connected
      case Idle => d.bin in s.accepted || (running == d.bin && !connected)
      case Ready(o) => connected && d.bin in s.accepted && OfferInv(s, running, o)
      case Marked(o) => connected && d.bin in s.accepted && OfferInv(s, running, o) && d.marker == Some(o.version)
      case Retained(o) =>
        connected && d.bin in s.accepted && OfferInv(s, running, o) && d.marker == Some(o.version) && d.prev == Some(d.bin)
      case Swapped(o) => connected && OfferInv(s, running, o) && d.bin == o.artifact && d.marker == Some(o.version)
  }

  predicate Inv(s: State) {
    && Supervised(s) && ProcessInv(s)
    && (s.disk.prev.Some? ==> s.disk.prev.value in s.accepted)
    && (forall b :: b in s.accepted ==> Runs(b))
  }

  lemma InvNext(s: State, e: Event)
    requires Inv(s) && !e.TearCopy? && !e.RetainFails?
    ensures Inv(Next(s, e))
  {
  }

  /** Crash safety: from a supervised start, with whole copies, after any number of
      updates, crashes, guarded and unguarded boots, in any order, the installed binary
      has proven itself or is validated and supervised. */
  lemma {:induction false} CrashSafe(s: State, es: seq<Event>)
    requires Inv(s) && Whole(es)
    ensures Inv(After(s, es)) && Supervised(After(s, es))
  {
    if es != [] {
      assert es[|es| - 1] in es;
      CrashSafe(s, es[..|es| - 1]);
      InvNext(After(s, es[..|es| - 1]), es[|es| - 1]);
    }
  }

  /** The process that performs an update never removes that update's marker: as long as
      it has swapped and not exited, the marker names the artifact, whatever connects
      happen, and no second update starts. */
  lemma OldProcessKeepsMarker(s: State, e: Event)
    requires Inv(s) && s.process.Agent? && s.process.phase.Swapped?
    ensures var t := Next(s, e);
            t.disk == s.disk && t.attempts == s.attempts && t.disk.marker == Some(s.process.phase.offer.version) &&
            (t.process.Off? || t.process.(connected := true) == s.process)
  {
  }

  // ---- what holds of every history, torn copies included ----

  /** A proven binary, a validated artifact, or what a damaged write left. */
  predicate Accountable(s: State, b: Binary) {
    b in s.accepted || b in s.validated || Damaged(b)
  }

  predicate KnownInv(s: State) {
    && Accountable(s, s.disk.bin) && (s.disk.prev.Some? ==> Accountable(s, s.disk.prev.value))
    && (s.process.Agent? && (s.process.phase.Ready? || s.process.phase.Marked? || s.process.phase.Retained?) ==>
         s.process.phase.offer.artifact in s.validated)
  }

  lemma KnownNext(s: State, e: Event)
    requires KnownInv(s)
    ensures KnownInv(Next(s, e))
  {
  }

  /** After any history whatever, with copies torn, emptied and refused: what is installed,
      and what is kept to go back to, is a binary that has proven itself, an artifact that
      passed signature, hash and version check, or a damaged copy; never any other artifact. */
  lemma {:induction false} NothingUnvalidated(s: State, es: seq<Event>)
    requires KnownInv(s)
    ensures KnownInv(After(s, es))
  {
    if es != [] {
      NothingUnvalidated(s, es[..|es| - 1]);
      KnownNext(After(s, es[..|es| - 1]), es[|es| - 1]);
    }
  }

  // ---- one update from a given disk ----

  /** A connected agent that runs the installed binary `orig`, with N-1 copy `prev` and no marker. */
  function Start(orig: Binary, prev: Option<Binary>): State {
    State(Disk(orig, prev, None), Agent(orig, Idle, true), {}, {orig}, 0)
  }

  /** After at most one update attempt the installed binary is the original or a
      validated artifact; `torn` says whether a copy may be written halfway. */
  ghost predicate UpdateIsSafe(orig: Binary, prev: Option<Binary>, torn: bool) {
    forall es :: (torn || Whole(es)) && After(Start(orig, prev), es).attempts <= 1 ==>
      BinaryKnown(After(Start(orig, prev), es), orig)
  }

  predicate BinaryKnown(s: State, orig: Binary) {
    s.disk.bin == orig || s.disk.bin in s.validated
  }

  /** While the one attempt lasts, the N-1 copy is `orig` or absent. */
  predicate OneInv(s: State, orig: Binary, prev: Option<Binary>) {
    && BinaryKnown(s, orig)
    && s.disk.prev in {None, Some(orig)}
    && (s.attempts == 0 ==>
         s.disk == Disk(orig, prev, None) && !s.process.Guarding? &&
         (s.process.Agent? ==> s.process.phase.Booting? || s.process.phase.Idle? || s.process.phase.Ready?))
    && (s.process.Agent? && s.process.phase.Marked? ==> s.disk.bin == orig && s.disk.prev == prev && s.attempts == 1)
    && (s.process.Agent? && (s.process.phase.Ready? || s.process.phase.Marked? || s.process.phase.Retained?) ==>
         s.process.phase.offer.artifact in s.validated)
  }

  lemma OneNext(s: State, e: Event, orig: Binary, prev: Option<Binary>)
    requires OneInv(s, orig, prev) && Next(s, e).attempts <= 1 && Runs(orig)
    requires prev == Some(orig) || (prev == None && !e.TearCopy? && !e.RetainFails?)
    ensures OneInv(Next(s, e), orig, prev)
  {
  }

  lemma AttemptsGrow(s: State, e: Event)
    ensures s.attempts <= Next(s, e).attempts
  {
  }

  lemma {:induction false} OneAttempt(orig: Binary, prev: Option<Binary>, es: seq<Event>)
    requires After(Start(orig, prev), es).attempts <= 1 && Runs(orig)
    requires prev == Some(orig) || (prev == None && Whole(es))
    ensures OneInv(After(Start(orig, prev), es), orig, prev)
  {
    if es != [] {
      var s := After(Start(orig, prev), es[..|es| - 1]);
      AttemptsGrow(s, es[|es| - 1]);
      assert es[|es| - 1] in es;
      OneAttempt(orig, prev, es[..|es| - 1]);
      OneNext(s, es[|es| - 1], orig, prev);
    }
  }

  lemma Then(s: State, es: seq<Event>, e: Event) returns (fs: seq<Event>)
    ensures fs == es + [e] && After(s, fs) == Next(After(s, es), e)
  {
    fs := es + [e];
    Extend(s, es, e);
  }

  /** A good offer for `orig`, with an artifact other than `x`. */
  function OfferBeside(orig: Binary, x: Binary): (o: Offer)
    requires orig.Binary?
    ensures Valid(o) && !HasVersion(orig, o.version) && o.artifact != x
  {
    var v := orig.version + "'";
    assert |v| != |orig.version|;
    var b := if x == Binary(v, 0) then Binary(v, 1) else Binary(v, 0);
    Offer(b, v, true, true)
  }

  /** A crash right after the marker was written: the guard puts the copy over the
      untouched original. */
  lemma StaleCopyInstalled(orig: Binary, x: Binary) returns (es: seq<Event>)
    requires orig.Binary?
    ensures Whole(es)
    ensures var s := After(Start(orig, Some(x)), es); s.disk.bin == x && s.attempts == 1 && x !in s.validated
  {
    var s0, o := Start(orig, Some(x)), OfferBeside(orig, x);
    es := Then(s0, [], Directive(o));
    es := Then(s0, es, WriteMarker);
    es := Then(s0, es, Crash);
    es := Then(s0, es, Guard(false));
  }

  /** A crash in the middle of writing the copy: the guard puts the torn copy over the original. */
  lemma TornCopyInstalled(orig: Binary, prev: Option<Binary>) returns (es: seq<Event>)
    requires orig.Binary? && prev != Some(orig)
    ensures var s := After(Start(orig, prev), es); s.disk.bin == Torn && s.attempts == 1 && Torn !in s.validated
  {
    var s0, o := Start(orig, prev), OfferBeside(orig, Torn);
    es := Then(s0, [], Directive(o));
    es := Then(s0, es, WriteMarker);
    es := Then(s0, es, TearCopy(Torn));
    es := Then(s0, es, Guard(false));
  }

  /** Exactly when an update is safe against a crash at any point.  If copies can be
      torn: when the N-1 copy already equals the installed binary.  If copies are
      written whole: also when there is no N-1 copy yet. */
  lemma WhenUpdateIsSafe(orig: Binary, prev: Option<Binary>, torn: bool)
    requires orig.Binary?
    ensures UpdateIsSafe(orig, prev, torn) <==> prev == Some(orig) || (prev == None && !torn)
  {
    if prev == Some(orig) || (prev == None && !torn) {
      forall es | (torn || Whole(es)) && After(Start(orig, prev), es).attempts <= 1
        ensures BinaryKnown(After(Start(orig, prev), es), orig)
      {
        OneAttempt(orig, prev, es);
      }
    } else if torn {
      var es := TornCopyInstalled(orig, prev);
      assert !BinaryKnown(After(Start(orig, prev), es), orig);
    } else {
      var es := StaleCopyInstalled(orig, prev.value);
      assert !BinaryKnown(After(Start(orig, prev), es), orig);
    }
  }

  lemma SwappedAndGone(orig: Binary, prev: Option<Binary>, o: Offer) returns (es: seq<Event>)
    requires orig.Binary? && Valid(o) && !HasVersion(orig, o.version)
    ensures After(Start(orig, prev), es) ==
            State(Disk(o.artifact, Some(orig), Some(o.version)), Off, {o.artifact}, {orig}, 1)
  {
    var s0 := Start(orig, prev);
    es := Then(s0, [], Directive(o));
    es := Then(s0, es, WriteMarker);
    es := Then(s0, es, RetainCopy);
    es := Then(s0, es, Rename);
    es := Then(s0, es, Exit);
  }

  /** After every completed update the N-1 copy is the binary before it, so the next
      update starts from a disk on which it is not safe: an early crash goes back two
      versions. */
  lemma NextUpdateIsUnsafe(orig: Binary, prev: Option<Binary>, o: Offer) returns (es: seq<Event>)
    requires orig.Binary? && Valid(o) && !HasVersion(orig, o.version)
    ensures var s := After(Start(orig, prev), es);
            s.disk == Disk(o.artifact, Some(orig), None) && s.process == Agent(o.artifact, Idle, true) &&
            o.artifact in s.accepted && !UpdateIsSafe(o.artifact, s.disk.prev, false)
  {
    var s0 := Start(orig, prev);
    es := SwappedAndGone(orig, prev, o);
    es := Then(s0, es, Guard(false));
    es := Then(s0, es, BootCheck);
    es := Then(s0, es, Connect);
    WhenUpdateIsSafe(o.artifact, Some(orig), false);
  }
}
