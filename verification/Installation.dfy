/** Replacing and rolling back the executable on disk. */
module Installation {
  import opened Wrappers
  import opened JsonValues
  import opened AtomicWrites
  import opened Chunking

  datatype Asset = Asset(name: string, target: string, sha256: string, size: nat)

  datatype InstallError = NotExclusive | BadBinary | NoRegularFile | WriteFailed

  predicate Verified(content: Bytes, asset: Asset, digest: Bytes -> string) {
    |content| == asset.size && digest(content) == asset.sha256
  }

  datatype Files = Files(executable: Node, backup: Node)

  function ReplaceStep(files: Files, exclusive: bool, content: Bytes, asset: Asset, digest: Bytes -> string,
                       backupFault: Fault, executableFault: Fault): (Files, Result<(), InstallError>)
  {
    if !exclusive then (files, Err(NotExclusive))
    else if !Verified(content, asset, digest) then (files, Err(BadBinary))
    else if !files.executable.File? || files.backup.NotAFile? then (files, Err(NoRegularFile))
    else
      var (backup, saved) := Written(files.backup, files.executable.content, backupFault);
      if !saved then (Files(files.executable, backup), Err(WriteFailed))
      else
        var (executable, installed) := Written(files.executable, content, executableFault);
        (Files(executable, backup), if installed then Ok(()) else Err(WriteFailed))
  }

  function RollbackStep(files: Files, exclusive: bool, fault: Fault): (Files, Result<(), InstallError>) {
    if !exclusive then (files, Err(NotExclusive))
    else if !files.backup.File? || !files.executable.File? then (files, Err(NoRegularFile))
    else
      var (executable, restored) := Written(files.executable, files.backup.content, fault);
      (Files(executable, files.backup), if restored then Ok(()) else Err(WriteFailed))
  }

  class Disk {
    var executable: Node
    var backup: Node

    constructor (executable: Node, backup: Node)
      ensures this.executable == executable && this.backup == backup
    {
      this.executable := executable;
      this.backup := backup;
    }
  }

  /** A held installation lock, shared by a session or exclusive to a change. */
  class Installation {
    const disk: Disk
    const exclusive: bool

    constructor (disk: Disk, exclusive: bool)
      ensures this.disk == disk && this.exclusive == exclusive
    {
      this.disk := disk;
      this.exclusive := exclusive;
    }

    ghost function State(): Files
      reads disk
    {
      Files(disk.executable, disk.backup)
    }

    method Replace(content: Bytes, asset: Asset, digest: Bytes -> string, backupFault: Fault, executableFault: Fault)
      returns (r: Result<(), InstallError>)
      modifies disk
      ensures (State(), r) == ReplaceStep(old(State()), exclusive, content, asset, digest, backupFault, executableFault)
    {
      if !exclusive {
        return Err(NotExclusive);
      }
      if |content| != asset.size || digest(content) != asset.sha256 {
        return Err(BadBinary);
      }
      if !disk.executable.File? || disk.backup.NotAFile? {
        return Err(NoRegularFile);
      }
      var (backup, saved) := Written(disk.backup, disk.executable.content, backupFault);
      disk.backup := backup;
      if !saved {
        return Err(WriteFailed);
      }
      var (executable, installed) := Written(disk.executable, content, executableFault);
      disk.executable := executable;
      return if installed then Ok(()) else Err(WriteFailed);
    }

    method Rollback(fault: Fault) returns (r: Result<(), InstallError>)
      modifies disk
      ensures (State(), r) == RollbackStep(old(State()), exclusive, fault)
    {
      if !exclusive {
        return Err(NotExclusive);
      }
      if !disk.backup.File? || !disk.executable.File? {
        return Err(NoRegularFile);
      }
      var (executable, restored) := Written(disk.executable, disk.backup.content, fault);
      disk.executable := executable;
      return if restored then Ok(()) else Err(WriteFailed);
    }
  }

  /** At every point at which a replacement can end, the executable is wholly old or wholly new, it is
      new only if it was verified and the old one is safe in the backup, and success means new. */
  lemma ReplacementIsAtomic(files: Files, exclusive: bool, content: Bytes, asset: Asset, digest: Bytes -> string,
                            backupFault: Fault, executableFault: Fault)
    ensures var (after, r) := ReplaceStep(files, exclusive, content, asset, digest, backupFault, executableFault);
            && (after.executable == files.executable || after.executable == File(content))
            && (after.executable != files.executable ==>
                  exclusive && Verified(content, asset, digest) && after.backup == files.executable)
            && (r.Ok? ==> after == Files(File(content), files.executable))
            && (!exclusive || !Verified(content, asset, digest) ==> after == files && r.Err?)
  {
  }

  /** However far a replacement got, a rollback that succeeds gives back the old executable if the
      replacement succeeded or had changed it. */
  lemma RollbackUndoesReplacement(files: Files, content: Bytes, asset: Asset, digest: Bytes -> string,
                                  backupFault: Fault, executableFault: Fault, fault: Fault)
    requires files.executable.File?
    ensures var (replaced, r) := ReplaceStep(files, true, content, asset, digest, backupFault, executableFault);
            var (restored, u) := RollbackStep(replaced, true, fault);
            && (r.Ok? || replaced.executable != files.executable ==>
                  && (u.Ok? || fault == AfterRename ==> restored.executable == files.executable)
                  && (fault == NoFault ==> u.Ok?))
            && restored.backup == replaced.backup
  {
  }

  /** What a replacement and a rollback ask for, and what they do if they get it and no write is cut
      short; asked in vain they change nothing. */
  lemma OutcomesAreExact(files: Files, exclusive: bool, content: Bytes, asset: Asset, digest: Bytes -> string,
                         backupFault: Fault, executableFault: Fault)
    ensures var (after, r) := ReplaceStep(files, exclusive, content, asset, digest, backupFault, executableFault);
            var asked := && exclusive && |content| == asset.size && digest(content) == asset.sha256
                         && files.executable.File? && files.backup != NotAFile;
            && (r.Ok? <==> asked && backupFault == NoFault && executableFault == NoFault)
            && (r.Ok? ==> after.executable == File(content) && after.backup == files.executable)
            && (!asked ==> after == files)
            && (after.executable != files.executable ==> asked)
    ensures var (after, r) := RollbackStep(files, exclusive, executableFault);
            var asked := exclusive && files.backup.File? && files.executable.File?;
            && (r.Ok? <==> asked && executableFault == NoFault)
            && (r.Ok? ==> after.executable == files.backup)
            && (!asked ==> after == files)
            && after.backup == files.backup
  {
  }

  // ---------- Every point of a replacement ----------

  /** The executable and the backup after a number of steps of the two writes, the backup's first. */
  function ReplacementAfter(executable: Place, backup: Place, saved: seq<Bytes>, pieces: seq<Bytes>, count: nat)
    : (Place, Place)
    requires count <= |saved| + 5 + |pieces| + 5
  {
    if count <= |saved| + 5 then (executable, AfterSteps(backup, saved, count))
    else (AfterSteps(executable, pieces, count - (|saved| + 5)), AfterSteps(backup, saved, |saved| + 5))
  }

  /** At every step of a replacement, for other processes and after a loss of power alike, the executable
      is wholly old or wholly new, the backup is as it was or the old executable, and if the executable
      has changed then the backup is the old one.  Carried through, both are the new contents for sure. */
  lemma ReplacementSurvivesPowerLoss(executable: Place, backup: Place, saved: seq<Bytes>, pieces: seq<Bytes>,
                                     count: nat, e: Node, b: Node)
    requires Settled(executable) && Settled(backup) && Seen(executable.target) == File(Flatten(saved))
    requires count <= |saved| + 5 + |pieces| + 5
    requires var (x, y) := ReplacementAfter(executable, backup, saved, pieces, count);
             && (AfterPowerLoss(x, e) || e == Seen(x.target))
             && (AfterPowerLoss(y, b) || b == Seen(y.target))
    ensures e == File(Flatten(saved)) || e == File(Flatten(pieces))
    ensures b == Seen(backup.target) || b == File(Flatten(saved))
    ensures e != File(Flatten(saved)) ==> b == File(Flatten(saved))
    ensures count == |saved| + 5 + |pieces| + 5 ==> e == File(Flatten(pieces)) && b == File(Flatten(saved))
  {
    hide AfterSteps, Flatten, AfterPowerLoss;
    if count <= |saved| + 5 {
      SettledIsKept(executable, e);
      WriteIsAtomic(backup, saved, count, b);
    } else {
      WriteIsAtomic(executable, pieces, count - (|saved| + 5), e);
      WriteIsAtomic(backup, saved, |saved| + 5, b);
    }
  }

  lemma SettledIsKept(place: Place, node: Node)
    requires Settled(place) && (AfterPowerLoss(place, node) || node == Seen(place.target))
    ensures node == Seen(place.target)
  {
  }

  /** Wherever a replacement was cut short, if the executable was changed then a rollback that is carried
      through puts the old one back, and no loss of power takes it away again. */
  lemma RollbackAfterPowerLoss(executable: Place, backup: Place, saved: seq<Bytes>, pieces: seq<Bytes>, count: nat,
                               e: Node, b: Node, found: Place, restored: seq<Bytes>, node: Node)
    requires Settled(executable) && Settled(backup) && Seen(executable.target) == File(Flatten(saved))
    requires count <= |saved| + 5 + |pieces| + 5
    requires var (x, y) := ReplacementAfter(executable, backup, saved, pieces, count);
             AfterPowerLoss(x, e) && AfterPowerLoss(y, b)
    requires e != File(Flatten(saved))
    requires Settled(found) && Seen(found.target) == e && b == File(Flatten(restored))
    requires AfterPowerLoss(AfterSteps(found, restored, |restored| + 5), node)
    ensures node == File(Flatten(saved))
  {
    hide AfterSteps, Flatten, AfterPowerLoss, ReplacementAfter, Settled;
    ReplacementSurvivesPowerLoss(executable, backup, saved, pieces, count, e, b);
    WriteIsAtomic(found, restored, |restored| + 5, node);
  }

  /** Seen by other processes, those steps are the replacement operation with its two writes cut short
      where they were. */
  lemma ReplacementIsItsSteps(executable: Place, backup: Place, saved: seq<Bytes>, pieces: seq<Bytes>, count: nat,
                              asset: Asset, digest: Bytes -> string)
    requires Seen(executable.target) == File(Flatten(saved)) && !backup.target.Other?
    requires count <= |saved| + 5 + |pieces| + 5 && Verified(Flatten(pieces), asset, digest)
    ensures var (x, y) := ReplacementAfter(executable, backup, saved, pieces, count);
            var later := if count <= |saved| + 5 then 0 else count - (|saved| + 5);
            ReplaceStep(Files(Seen(executable.target), Seen(backup.target)), true, Flatten(pieces), asset, digest,
                        FaultAfter(saved, if count <= |saved| + 5 then count else |saved| + 5),
                        FaultAfter(pieces, later)).0
            == Files(Seen(x.target), Seen(y.target))
  {
    hide AfterSteps, Flatten, FaultAfter;
    var later := if count <= |saved| + 5 then 0 else count - (|saved| + 5);
    NoSteps(executable, pieces);
    WrittenIsItsSteps(backup, saved, if count <= |saved| + 5 then count else |saved| + 5);
    WrittenIsItsSteps(executable, pieces, later);
  }
}
