/** execUpdate as a method on the three paths and the busy flag.  Run without a
    crash it is a stretch of steps of the update protocol. */
module UpdateMethod {
  import opened Options
  import opened SelfUpdate

  /** What fails while the swap runs. */
  datatype Swap = Works | CannotRead | CannotCopy(left: Binary) | CannotRename

  function UpdateSteps(o: Offer, swap: Swap): seq<Event> {
    match swap
    case Works => [Directive(o), WriteMarker, RetainCopy, Rename, Refuse]
    case CannotRead => [Directive(o), WriteMarker, ReadFails]
    case CannotCopy(left) => [Directive(o), WriteMarker, RetainFails(left)]
    case CannotRename => [Directive(o), WriteMarker, RetainCopy, RenameFails]
  }

  datatype Report = Verified | Failed | SwappedIn

  /** A connected agent with the given files and no update in flight. */
  function Steady(disk: Disk, running: Binary): State {
    State(disk, Agent(running, Idle, true), {}, {running}, 0)
  }

  /** Signed, with the signed hash and the offered version, and not the running one. */
  predicate Accepted(o: Offer, running: Binary) {
    && o.signed && o.hashMatches && o.artifact.Binary? && o.artifact.version == o.version
    && !(running.Binary? && running.version == o.version)
  }

  /** The disk after an uninterrupted update. */
  lemma UpdateEffect(disk: Disk, running: Binary, o: Offer, swap: Swap)
    requires swap.CannotCopy? ==> disk.prev != Some(disk.bin) && Damaged(swap.left)
    ensures After(Steady(disk, running), UpdateSteps(o, swap)).disk ==
            if !Accepted(o, running) then disk
            else match swap
              case Works => Disk(o.artifact, Some(disk.bin), Some(o.version))
              case CannotRead => disk.(marker := None)
              case CannotCopy(left) => Disk(disk.bin, Some(left), None)
              case CannotRename => Disk(disk.bin, Some(disk.bin), None)
  {
    var s := Steady(disk, running);
    var es := TwoSteps(disk, running, o);
    var t := After(s, es);
    match swap {
      case Works => es := Then(s, es, RetainCopy); es := Then(s, es, Rename); es := Then(s, es, Refuse);
      case CannotRead => es := Then(s, es, ReadFails);
      case CannotCopy(left) => es := Then(s, es, RetainFails(left));
      case CannotRename => es := Then(s, es, RetainCopy); es := Then(s, es, RenameFails);
    }
    assert es == UpdateSteps(o, swap);
  }

  lemma TwoSteps(disk: Disk, running: Binary, o: Offer) returns (es: seq<Event>)
    ensures es == [Directive(o), WriteMarker]
    ensures After(Steady(disk, running), es) ==
            if !Accepted(o, running) then Steady(disk, running)
            else State(disk.(marker := Some(o.version)), Agent(running, Marked(o), true), {o.artifact}, {running}, 1)
  {
    var s := Steady(disk, running);
    es := Then(s, [], Directive(o));
    es := Then(s, es, WriteMarker);
  }

  class Updater {
    const running: Binary
    var bin: Binary
    var prev: Option<Binary>
    var marker: Option<string>
    var busy: bool

    constructor (running: Binary, prev: Option<Binary>)
      ensures this.running == bin == running && this.prev == prev && marker == None && !busy
    {
      this.running, this.bin, this.prev, this.marker, this.busy := running, running, prev, None, false;
    }

    /** The busy flag's compare-and-swap: a directive that arrives while an update is in
        flight is ignored. */
    method BeginUpdate() returns (claimed: bool)
      modifies this`busy
      ensures claimed <==> !old(busy)
      ensures busy
    {
      claimed := !busy;
      busy := true;
    }

    /** execUpdate up to the restart.  Every failure frees the slot, and leaves the
        installed binary alone but for one: when the installed file was empty, the retained
        copy is, and the update is refused after the swap with its marker in place.  A
        completed swap keeps the slot, for the process exits. */
    method ExecUpdate(o: Offer, swap: Swap) returns (report: Report)
      requires busy && (swap.CannotCopy? ==> prev != Some(bin) && Damaged(swap.left))
      modifies this
      ensures Disk(bin, prev, marker) ==
              After(Steady(old(Disk(bin, prev, marker)), running), UpdateSteps(o, swap)).disk
      ensures report == SwappedIn <==> Accepted(o, running) && swap == Works && old(bin) != Empty
      ensures busy <==> report == SwappedIn
      ensures report != SwappedIn ==> bin == old(bin) || (Accepted(o, running) && swap == Works && old(bin) == Empty)
      ensures report == Verified <==> o.signed && running.Binary? && running.version == o.version
    {
      UpdateEffect(Disk(bin, prev, marker), running, o, swap);
      if !o.signed {
        busy := false;
        return Failed;
      }
      if running.Binary? && running.version == o.version {
        busy := false;
        return Verified;
      }
      if !o.hashMatches || !(o.artifact.Binary? && o.artifact.version == o.version) {
        busy := false;
        return Failed;
      }
      marker := Some(o.version);
      match swap {
        case Works =>
          if prev != Some(bin) {
            prev := Some(bin);
          }
          bin := o.artifact;
          if prev == Some(Empty) {
            busy := false;
            return Failed;
          }
          return SwappedIn;
        case CannotRead =>
        case CannotCopy(left) => prev := Some(left);
        case CannotRename => prev := Some(bin);
      }
      marker := None;
      busy := false;
      return Failed;
    }
  }
}
