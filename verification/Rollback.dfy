/** What the boot guard, the boot check and the first connect do, with their conditions
    written out, and that an update which never becomes healthy is rolled back. */
module Rollback {
  import opened Options
  import opened SelfUpdate

  // ---- the update's own steps ----

  /** A directive starts an update exactly on a connected agent with none in flight, for an
      artifact that is signed, has the signed hash and reports the offered version, which is
      not the running one.  Nothing is written yet. */
  lemma DirectiveExactly(s: State, o: Offer)
    ensures var t := Next(s, Directive(o));
            if s.process.Agent? && s.process.phase == Idle && s.process.connected &&
               o.signed && o.hashMatches && (exists b :: o.artifact == Binary(o.version, b)) &&
               !(exists b :: s.process.running == Binary(o.version, b))
            then t == s.(process := s.process.(phase := Ready(o)), validated := s.validated + {o.artifact})
            else t == s
  {
    if o.artifact.Binary? { assert o.artifact == Binary(o.artifact.version, o.artifact.build); }
    if s.process.Agent? && s.process.running.Binary? {
      assert s.process.running == Binary(s.process.running.version, s.process.running.build);
    }
  }

  /** The marker names the offered version before anything else is touched; the copy is the
      installed binary; the artifact is installed only then. */
  lemma SwapExactly(s: State, o: Offer)
    requires s.process.Agent? && s.process.phase == Ready(o)
    ensures var s1 := Next(s, WriteMarker);
            var s2 := Next(s1, RetainCopy);
            var s3 := Next(s2, Rename);
            && s1 == s.(disk := s.disk.(marker := Some(o.version)), process := s.process.(phase := Marked(o)),
                        attempts := s.attempts + 1)
            && s2 == s1.(disk := s1.disk.(prev := Some(s.disk.bin)), process := s.process.(phase := Retained(o)))
            && s3 == s2.(disk := Disk(o.artifact, Some(s.disk.bin), Some(o.version)), process := s.process.(phase := Swapped(o)))
  {
  }

  /** The copy is written only over one that differs from the installed binary: a write that
      is cut off ends the process with the marker in place, one that fails, and a binary that
      cannot be read, remove the marker. */
  lemma CopyFailsExactly(s: State, o: Offer, left: Binary)
    requires s.process.Agent? && s.process.phase == Marked(o)
    ensures var differs := s.disk.prev.None? || s.disk.prev.value != s.disk.bin;
            var idle := s.process.(phase := Idle);
            && Next(s, TearCopy(left)) == (if differs && !left.Binary?
                 then s.(disk := Disk(s.disk.bin, Some(left), s.disk.marker), process := Off) else s)
            && Next(s, RetainFails(left)) == (if differs && !left.Binary?
                 then s.(disk := Disk(s.disk.bin, Some(left), None), process := idle) else s)
            && Next(s, ReadFails) == s.(disk := Disk(s.disk.bin, s.disk.prev, None), process := idle)
  {
  }

  /** A failed rename removes the marker and keeps the copy.  After the rename the process
      exits, unless the copy is empty: then it stays, idle, and nothing is undone. */
  lemma RenameFailsExactly(s: State, o: Offer)
    ensures s.process.Agent? && s.process.phase == Retained(o) ==>
            Next(s, RenameFails) ==
              s.(disk := Disk(s.disk.bin, s.disk.prev, None), process := s.process.(phase := Idle))
    ensures s.process.Agent? && s.process.phase == Swapped(o) ==>
            && Next(s, Exit) == (if s.disk.prev == Some(Empty) then s else s.(process := Off))
            && Next(s, Refuse) == (if s.disk.prev == Some(Empty) then s.(process := s.process.(phase := Idle)) else s)
  {
  }

  /** Outside its own phase, a step of an update, of the guard or of a boot does nothing. */
  lemma OutOfPhase(s: State, left: Binary)
    ensures !(s.process.Agent? && s.process.phase.Ready?) ==> Next(s, WriteMarker) == s
    ensures !(s.process.Agent? && s.process.phase.Marked?) ==>
            forall e <- [RetainCopy, TearCopy(left), RetainFails(left), ReadFails] :: Next(s, e) == s
    ensures !(s.process.Agent? && s.process.phase.Retained?) ==> forall e <- [Rename, RenameFails] :: Next(s, e) == s
    ensures !(s.process.Agent? && s.process.phase.Swapped?) ==> forall e <- [Exit, Refuse] :: Next(s, e) == s
    ensures !s.process.Off? ==> forall e <- [Guard(true), Guard(false), StartUnguarded] :: Next(s, e) == s
    ensures !s.process.Guarding? ==> Next(s, GuardClears) == s
    ensures !(s.process.Agent? && s.process.phase.Booting?) ==> Next(s, BootCheck) == s
    ensures !(s.process.Agent? && s.process.phase.Restored?) ==> Next(s, BootClears) == s
  {
  }

  // ---- booting ----

  /** A crash loses the process and keeps the disk; without the guard, an installed binary
      that runs is started whatever the marker says. */
  lemma CrashExactly(s: State)
    ensures Next(s, Crash) == s.(process := Off)
    ensures Next(s, StartUnguarded) ==
            if s.process.Off? && s.disk.bin.Binary? then s.(process := Agent(s.disk.bin, Booting, false)) else s
  {
  }

  /** The installed binary has this version. */
  predicate Reports(b: Binary, version: string) {
    match b
    case Binary(v, _) => v == version
    case _ => false
  }

  /** With a marker, the guard starts the installed binary, and leaves the disk alone,
      exactly when that binary reports the marker's version and the marker is fresh.  Without
      one it starts whatever binary runs. */
  lemma GuardStartsExactly(s: State, stale: bool)
    requires s.process.Off?
    ensures var t := Next(s, Guard(stale));
            && (t.process == Agent(s.disk.bin, Booting, false) <==>
                 s.disk.bin.Binary? && (s.disk.marker.Some? ==> Reports(s.disk.bin, s.disk.marker.value) && !stale))
            && (t.process == Agent(s.disk.bin, Booting, false) ==> t.disk == s.disk)
  {
  }

  /** In every other case with a marker, the retained copy, if there is one, is moved over
      the installed binary and the marker removed; what is then installed is started if it runs. */
  lemma GuardRollsBack(s: State, stale: bool)
    requires s.process.Off? && s.disk.marker.Some? && !(Reports(s.disk.bin, s.disk.marker.value) && !stale)
    ensures var t := Next(Next(s, Guard(stale)), GuardClears);
            && t.disk == (match s.disk.prev case Some(p) => Disk(p, None, None) case None => Disk(s.disk.bin, None, None))
            && t.process == (if t.disk.bin.Binary? then Agent(t.disk.bin, Booting, false) else Off)
            && t.validated == s.validated && t.accepted == s.accepted && t.attempts == s.attempts
  {
  }

  /** The boot check keeps a running binary that reports the marker's version, or finds no
      marker; otherwise it goes back in the same way, while the process keeps running. */
  lemma BootCheckExactly(s: State)
    requires s.process.Agent? && s.process.phase == Booting
    ensures var t := Next(s, BootCheck);
            var u := Next(t, BootClears);
            if s.disk.marker.None? || Reports(s.process.running, s.disk.marker.value)
            then t == u == s.(process := s.process.(phase := Idle))
            else u == s.(disk := (match s.disk.prev case Some(p) => Disk(p, None, None) case None => Disk(s.disk.bin, None, None)),
                         process := s.process.(phase := Idle))
  {
  }

  /** A healthy connect past the boot check confirms exactly the update that the marker names
      the running binary as the target of: it is proven, and the marker goes. */
  lemma ConnectExactly(s: State)
    ensures var t := Next(s, Connect);
            Next(s, ConnectKeepsMarker) == t.(disk := s.disk) &&
            if !s.process.Agent? || s.process.phase in {Booting, Restored} then t == s
            else if s.disk.marker.Some? && Reports(s.process.running, s.disk.marker.value)
            then t == s.(process := s.process.(connected := true), disk := s.disk.(marker := None),
                         accepted := s.accepted + {s.process.running})
            else t == s.(process := s.process.(connected := true))
  {
  }

  // ---- an update that never becomes healthy ----

  /** Everything that can happen to a swapped binary that never connects, while its marker is fresh. */
  predicate NeverHealthy(e: Event) {
    e.Crash? || (e.Guard? && !e.stale) || e.GuardClears? || e.StartUnguarded? || e.BootCheck? || e.BootClears?
  }

  /** Swapped and not yet confirmed: no process, or the new binary, not connected. */
  predicate Unconfirmed(s: State, art: Binary, orig: Binary) {
    && art.Binary? && s.disk == Disk(art, Some(orig), Some(art.version))
    && (s.process.Off? || (s.process.Agent? && s.process.running == art && !s.process.connected &&
                           s.process.phase in {Booting, Idle}))
  }

  lemma {:induction false} StaysUnconfirmed(s: State, es: seq<Event>, art: Binary, orig: Binary)
    requires Unconfirmed(s, art, orig) && forall e <- es :: NeverHealthy(e)
    ensures Unconfirmed(After(s, es), art, orig)
  {
    if es != [] {
      assert es[|es| - 1] in es;
      StaysUnconfirmed(s, es[..|es| - 1], art, orig);
    }
  }

  /** A swapped artifact that never connects, however often it boots and crashes, is replaced
      by the retained N-1 binary at the first guard run that finds the marker stale. */
  lemma UnhealthyIsRolledBack(s: State, es: seq<Event>, art: Binary, orig: Binary)
    requires Unconfirmed(s, art, orig) && forall e <- es :: NeverHealthy(e)
    ensures var t := Next(After(s, es), Crash);
            var u := Next(Next(t, Guard(true)), GuardClears);
            && u.disk == Disk(orig, None, None)
            && u.process == (if orig.Binary? then Agent(orig, Booting, false) else Off)
  {
    StaysUnconfirmed(s, es, art, orig);
    var t := Next(After(s, es), Crash);
    GuardRollsBack(t, true);
  }

  /** A completed swap is such a state once the old process is gone. */
  lemma SwappedIsUnconfirmed(s: State, o: Offer)
    requires s.process.Agent? && s.process.phase == Ready(o) && Valid(o) && s.disk.bin.Binary?
    ensures Unconfirmed(Next(Next(Next(Next(s, WriteMarker), RetainCopy), Rename), Exit), o.artifact, s.disk.bin)
  {
    SwapExactly(s, o);
  }
}
