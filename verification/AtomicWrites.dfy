/** Writing a file as a whole: into a temporary file, which is synced and renamed over the target, after
    which the directory is synced.  The process can end, and power can fail, between any two steps. */
module AtomicWrites {
  import opened Wrappers
  import opened JsonValues
  import opened Chunking

  /** What is found at a path; a link or a directory is `NotAFile`. */
  datatype Node = Missing | File(content: Bytes) | NotAFile

  /** A file's content as processes see it, and whether it is sure to be on disk. */
  datatype Inode = Inode(content: Bytes, synced: bool)

  datatype Slot = Vacant | Regular(inode: Inode) | Other

  /** The target's directory entry, the one that may still be on disk instead of it, and the temporary
      file. */
  datatype Place = Place(target: Slot, earlier: Option<Slot>, temporary: Option<Inode>)

  function Seen(slot: Slot): Node {
    match slot
    case Vacant => Missing
    case Regular(inode) => File(inode.content)
    case Other => NotAFile
  }

  // ---------- Loss of power ----------

  /** What can be found behind an entry afterwards: anything, if the file was not synced. */
  predicate Survives(slot: Slot, node: Node) {
    match slot
    case Vacant => node.Missing?
    case Regular(inode) => node.File? && (inode.synced ==> node.content == inode.content)
    case Other => node.NotAFile?
  }

  /** What can be found at the target afterwards. */
  predicate AfterPowerLoss(place: Place, node: Node) {
    Survives(place.target, node) || (place.earlier.Some? && Survives(place.earlier.value, node))
  }

  /** Everything about the target is on disk. */
  predicate Settled(place: Place) {
    place.earlier.None? && (place.target.Regular? ==> place.target.inode.synced)
  }

  // ---------- The steps ----------

  datatype WriteStep = CreateTemporary | Append(piece: Bytes) | SetMode | SyncFile | Rename | SyncDirectory

  function Do(place: Place, step: WriteStep): Place {
    match step
    case CreateTemporary => place.(temporary := Some(Inode([], false)))
    case Append(piece) =>
      (match place.temporary
       case Some(inode) => place.(temporary := Some(Inode(inode.content + piece, false)))
       case None => place)
    case SetMode => place
    case SyncFile =>
      (match place.temporary
       case Some(inode) => place.(temporary := Some(inode.(synced := true)))
       case None => place)
    case Rename =>
      (match place.temporary
       case Some(inode) => Place(Regular(inode), Some(place.target), None)
       case None => place)
    case SyncDirectory => place.(earlier := None)
  }

  function DoAll(place: Place, steps: seq<WriteStep>): Place {
    if steps == [] then place else Do(DoAll(place, steps[..|steps| - 1]), steps[|steps| - 1])
  }

  function Appends(pieces: seq<Bytes>): seq<WriteStep> {
    seq(|pieces|, i requires 0 <= i < |pieces| => Append(pieces[i]))
  }

  /** All the steps, for content that is written in these pieces. */
  function WriteSteps(pieces: seq<Bytes>): (steps: seq<WriteStep>)
    ensures |steps| == |pieces| + 5
  {
    [CreateTemporary] + Appends(pieces) + [SetMode, SyncFile, Rename, SyncDirectory]
  }

  function AfterSteps(place: Place, pieces: seq<Bytes>, count: nat): Place
    requires count <= |pieces| + 5
  {
    DoAll(place, WriteSteps(pieces)[..count])
  }

  lemma OneMoreStep(place: Place, pieces: seq<Bytes>, count: nat)
    requires count < |pieces| + 5
    ensures AfterSteps(place, pieces, count + 1) == Do(AfterSteps(place, pieces, count), WriteSteps(pieces)[count])
  {
    hide Do;
    var steps := WriteSteps(pieces);
    assert steps[..count + 1][..count] == steps[..count];
  }

  class Entry {
    var place: Place

    constructor (place: Place)
      ensures this.place == place
    {
      this.place := place;
    }

    /** Write the pieces, going no further than `stop` steps. */
    method AtomicWrite(pieces: seq<Bytes>, stop: nat) returns (done: bool)
      modifies this
      ensures place == AfterSteps(old(place), pieces, if stop < |pieces| + 5 then stop else |pieces| + 5)
      ensures done <==> stop >= |pieces| + 5
    {
      hide Do, AfterSteps;
      ghost var start := place;
      assert AfterSteps(start, pieces, 0) == start by { NoSteps(start, pieces); }
      if stop == 0 {
        return false;
      }
      Perform(CreateTemporary, start, pieces, 0);
      for i := 0 to |pieces|
        invariant place == AfterSteps(start, pieces, i + 1) && i < stop
      {
        if stop == i + 1 {
          return false;
        }
        Perform(Append(pieces[i]), start, pieces, i + 1);
      }
      if stop == |pieces| + 1 {
        return false;
      }
      Perform(SetMode, start, pieces, |pieces| + 1);
      if stop == |pieces| + 2 {
        return false;
      }
      Perform(SyncFile, start, pieces, |pieces| + 2);
      if stop == |pieces| + 3 {
        return false;
      }
      Perform(Rename, start, pieces, |pieces| + 3);
      if stop == |pieces| + 4 {
        return false;
      }
      Perform(SyncDirectory, start, pieces, |pieces| + 4);
      return true;
    }

    method Perform(step: WriteStep, ghost start: Place, ghost pieces: seq<Bytes>, ghost count: nat)
      requires count < |pieces| + 5 && step == WriteSteps(pieces)[count]
      requires place == AfterSteps(start, pieces, count)
      modifies this
      ensures place == AfterSteps(start, pieces, count + 1)
    {
      OneMoreStep(start, pieces, count);
      place := Do(place, step);
    }
  }

  lemma NoSteps(place: Place, pieces: seq<Bytes>)
    ensures AfterSteps(place, pieces, 0) == place
  {
  }

  // ---------- What each step leaves ----------

  lemma {:induction false} FlattenMore(pieces: seq<Bytes>, k: nat)
    requires k < |pieces|
    ensures Flatten(pieces[..k + 1]) == Flatten(pieces[..k]) + pieces[k]
  {
    if k == 0 {
      assert pieces[..1][1..] == [];
    } else {
      FlattenMore(pieces[1..], k - 1);
      assert pieces[1..][..k] == pieces[..k + 1][1..] && pieces[1..][..k - 1] == pieces[..k][1..];
    }
  }

  /** Until the file is synced the temporary file holds what has been written of it. */
  lemma {:induction false} WhileWriting(place: Place, pieces: seq<Bytes>, count: nat)
    requires 1 <= count <= |pieces| + 1
    ensures AfterSteps(place, pieces, count)
            == place.(temporary := Some(Inode(Flatten(pieces[..count - 1]), false)))
  {
    OneMoreStep(place, pieces, count - 1);
    if count == 1 {
      NoSteps(place, pieces);
    } else {
      WhileWriting(place, pieces, count - 1);
      FlattenMore(pieces, count - 2);
    }
  }

  lemma FromSyncOn(place: Place, pieces: seq<Bytes>)
    ensures var content, n := Flatten(pieces), |pieces|;
            && AfterSteps(place, pieces, n + 2) == place.(temporary := Some(Inode(content, false)))
            && AfterSteps(place, pieces, n + 3) == place.(temporary := Some(Inode(content, true)))
            && AfterSteps(place, pieces, n + 4) == Place(Regular(Inode(content, true)), Some(place.target), None)
            && AfterSteps(place, pieces, n + 5) == Place(Regular(Inode(content, true)), None, None)
  {
    hide AfterSteps, Flatten;
    var n := |pieces|;
    WhileWriting(place, pieces, n + 1);
    assert pieces[..n] == pieces;
    OneMoreStep(place, pieces, n + 1);
    OneMoreStep(place, pieces, n + 2);
    OneMoreStep(place, pieces, n + 3);
    OneMoreStep(place, pieces, n + 4);
  }

  /** The target changes at the rename and at no other step. */
  lemma TargetAfter(place: Place, pieces: seq<Bytes>, count: nat)
    requires count <= |pieces| + 5
    ensures var p := AfterSteps(place, pieces, count);
            if count <= |pieces| + 3 then p.target == place.target && p.earlier == place.earlier
            else p.target == Regular(Inode(Flatten(pieces), true))
                 && p.earlier == if count == |pieces| + 4 then Some(place.target) else None
  {
    hide AfterSteps, Flatten;
    FromSyncOn(place, pieces);
    if count == 0 {
      NoSteps(place, pieces);
    } else if count <= |pieces| + 1 {
      WhileWriting(place, pieces, count);
    }
  }

  /** Atomicity: however many steps were made, processes find the old target or the whole new content,
      and so does everybody after a loss of power; before the rename it is surely the old one, and after
      the last step surely the new one. */
  lemma WriteIsAtomic(place: Place, pieces: seq<Bytes>, count: nat, node: Node)
    requires Settled(place) && count <= |pieces| + 5
    requires AfterPowerLoss(AfterSteps(place, pieces, count), node)
             || node == Seen(AfterSteps(place, pieces, count).target)
    ensures node == Seen(place.target) || node == File(Flatten(pieces))
    ensures count <= |pieces| + 3 ==> node == Seen(place.target)
    ensures count == |pieces| + 5 ==> node == File(Flatten(pieces))
  {
    hide AfterSteps, Flatten;
    TargetAfter(place, pieces, count);
  }

  /** When all steps were made, nothing is left to lose. */
  lemma WriteSettles(place: Place, pieces: seq<Bytes>)
    ensures Settled(AfterSteps(place, pieces, |pieces| + 5))
    ensures Seen(AfterSteps(place, pieces, |pieces| + 5).target) == File(Flatten(pieces))
  {
    hide AfterSteps, Flatten;
    TargetAfter(place, pieces, |pieces| + 5);
  }

  /** The sync before the rename is what atomicity rests on: without it any content can be found. */
  lemma UnsyncedRenameTears(place: Place, pieces: seq<Bytes>, torn: Bytes)
    ensures var written := AfterSteps(place, pieces, |pieces| + 2);
            AfterPowerLoss(Do(written, Rename), File(torn))
  {
    hide AfterSteps;
    FromSyncOn(place, pieces);
  }

  // ---------- A write as a single event ----------

  /** Where a write is cut short, by an error or by the end of the process. */
  datatype Fault = NoFault | BeforeRename | AfterRename

  function Written(node: Node, content: Bytes, fault: Fault): (Node, bool) {
    match fault
    case NoFault => (File(content), true)
    case BeforeRename => (node, false)
    case AfterRename => (File(content), false)
  }

  function FaultAfter(pieces: seq<Bytes>, count: nat): Fault {
    if count <= |pieces| + 3 then BeforeRename else if count == |pieces| + 4 then AfterRename else NoFault
  }

  /** To other processes a write of any number of steps is such an event. */
  lemma WrittenIsItsSteps(place: Place, pieces: seq<Bytes>, count: nat)
    requires count <= |pieces| + 5
    ensures Written(Seen(place.target), Flatten(pieces), FaultAfter(pieces, count))
            == (Seen(AfterSteps(place, pieces, count).target), count == |pieces| + 5)
  {
    hide AfterSteps, Flatten;
    TargetAfter(place, pieces, count);
  }
}
