/** The update protocol's steps against the operations they stand for, and what a process that nobody
    disturbs gets done. */
module UpdateProgress {
  import opened Wrappers
  import opened JsonValues
  import opened AtomicWrites
  import opened Installation
  import opened UpdateProtocol

  // ---------- Interleaved steps are the installation's operations, cut at their writes ----------

  function FilesOf(w: World): Files {
    Files(File(w.executable), match w.backup case Some(content) => File(content) case None => Missing)
  }

  function WriteWith(fault: Fault): Write {
    match fault
    case NoFault => Write(true, true)
    case BeforeRename => Write(false, false)
    case AfterRename => Write(true, false)
  }

  /** A replacement, whatever happens to each of its writes, leaves the files as its two steps do. */
  lemma StepsAreReplacement(w: World, p: nat, image: Bytes, asset: Asset, digest: Bytes -> string,
                            backupFault: Fault, executableFault: Fault)
    requires At(w, p).AutoSaved? || At(w, p).InstallLocked?
    requires Verified(image, asset, digest)
    ensures var saved := Step(w, Backup(p, image, WriteWith(backupFault)));
            var (files, r) := ReplaceStep(FilesOf(w), true, image, asset, digest, backupFault, executableFault);
            && FilesOf(Step(saved, Install(p, WriteWith(executableFault)))) == files
            && (r.Ok? <==> backupFault == NoFault && executableFault == NoFault)
  {
    var saved := Step(w, Backup(p, image, WriteWith(backupFault)));
    if backupFault == NoFault {
      assert At(saved, p) == if At(w, p).AutoSaved? then AutoBackedUp(image) else InstallBackedUp(image);
    } else {
      assert At(saved, p) == GiveUp(At(w, p));
    }
  }

  lemma StepIsRollback(w: World, p: nat, fault: Fault)
    requires At(w, p) == EditSaved(Rollback)
    ensures FilesOf(Step(w, Restore(p, WriteWith(fault)))) == RollbackStep(FilesOf(w), true, fault).0
  {
    assert p in w.procs;
  }

  // ---------- Undisturbed processes get their work done ----------

  const DONE: Write := Write(true, true)

  lemma MoveAgain(w: World, p: nat, first: Pc, second: Pc)
    ensures Move(Move(w, p, first), p, second) == Move(w, p, second)
  {
    assert w.procs[p := first][p := second] == w.procs[p := second];
  }

  /** From the start of an automatic update to the decision that it is due. */
  lemma DueUpdateIsTaken(w: World, p: nat)
    requires At(w, p) == AutoStart && NobodyHolds(w)
    requires Load(w.settings).Some? && Due(Load(w.settings).value, w.now)
    ensures Step(Step(Step(w, FirstCheck(p)), TryLock(p)), Reread(p)) == Move(w, p, AutoDue(Load(w.settings).value))
  {
    hide Due;
    var wanting := Step(w, FirstCheck(p));
    assert NobodyHolds(wanting);
    MoveAgain(w, p, AutoWantLock, AutoLocked);
    MoveAgain(w, p, AutoLocked, AutoDue(Load(w.settings).value));
  }

  /** From there to the stamped settings on disk. */
  lemma StampIsSaved(w: World, p: nat, settings: Settings)
    ensures Step(Step(Move(w, p, AutoDue(settings)), Stamp(p)), Save(p, DONE))
            == Move(w, p, AutoSaved).(settings := Stored(settings.(lastChecked := Some(w.now))),
                                      checks := w.checks + [w.now])
  {
    var stamped := settings.(lastChecked := Some(w.now));
    MoveAgain(w, p, AutoDue(settings), AutoStamped(stamped));
    MoveAgain(w, p, AutoStamped(stamped), AutoSaved);
  }

  /** From there to the new executable and the restart. */
  lemma ImageIsInstalled(w: World, p: nat, image: Bytes)
    ensures Step(Step(Step(Move(w, p, AutoSaved), Backup(p, image, DONE)), Install(p, DONE)), Restart(p))
            == Move(w, p, AutoStart).(executable := image, backup := Some(w.executable), autoInstalls := w.autoInstalls + 1)
  {
    MoveAgain(w, p, AutoSaved, AutoBackedUp(image));
    MoveAgain(w, p, AutoBackedUp(image), AutoReplaced);
    MoveAgain(w, p, AutoReplaced, AutoStart);
  }

  /** An update that is due and that nobody disturbs stamps the settings, backs the executable up,
      replaces it and starts over, and changes nothing else; starting over, it is no longer due. */
  lemma UndisturbedUpdateCompletes(w: World, p: nat, image: Bytes)
    requires At(w, p) == AutoStart && NobodyHolds(w)
    requires Load(w.settings).Some? && Due(Load(w.settings).value, w.now)
    ensures var due := Step(Step(Step(w, FirstCheck(p)), TryLock(p)), Reread(p));
            var saved := Step(Step(due, Stamp(p)), Save(p, DONE));
            var end := Step(Step(Step(saved, Backup(p, image, DONE)), Install(p, DONE)), Restart(p));
            && end == Move(w, p, AutoStart).(
                 executable := image,
                 backup := Some(w.executable),
                 settings := Stored(Settings(true, Some(w.now))),
                 checks := w.checks + [w.now],
                 autoInstalls := w.autoInstalls + 1)
            && At(Step(end, FirstCheck(p)), p) == SessionStart
  {
    hide Step;
    var settings := Load(w.settings).value;
    DueUpdateIsTaken(w, p);
    StampIsSaved(w, p, settings);
    var saved := w.(settings := Stored(settings.(lastChecked := Some(w.now))), checks := w.checks + [w.now]);
    assert Move(saved, p, AutoSaved)
        == Move(w, p, AutoSaved).(settings := saved.settings, checks := saved.checks);
    ImageIsInstalled(saved, p, image);
    var end := Move(saved, p, AutoStart).(executable := image, backup := Some(w.executable),
                                          autoInstalls := w.autoInstalls + 1);
    JustChecked(end, p, w.now);
  }

  lemma JustChecked(w: World, p: nat, time: nat)
    requires At(w, p) == AutoStart && w.settings.Stored?
    requires w.settings.settings.lastChecked == Some(time) && w.now < time + CHECK_INTERVAL
    ensures At(Step(w, FirstCheck(p)), p) == SessionStart
  {
  }

  lemma RollbackIsLoaded(w: World, p: nat)
    requires At(w, p) == EditStart(Rollback) && NobodyHolds(w) && Load(w.settings).Some?
    ensures Step(Step(w, TryLock(p)), Reread(p)) == Move(w, p, EditLoaded(Rollback, Load(w.settings).value))
  {
    MoveAgain(w, p, EditLocked(Rollback), EditLoaded(Rollback, Load(w.settings).value));
  }

  lemma RollbackIsDone(w: World, p: nat, settings: Settings)
    requires w.backup.Some?
    ensures Step(Step(Move(w, p, EditLoaded(Rollback, settings)), Save(p, DONE)), Restore(p, DONE))
            == Move(w, p, Finished).(executable := w.backup.value,
                                     settings := Stored(Settings(false, settings.lastChecked)))
  {
    hide Load, Due, NobodyHolds, NobodyExcludes;
    MoveAgain(w, p, EditLoaded(Rollback, settings), EditSaved(Rollback));
    MoveAgain(w, p, EditSaved(Rollback), Finished);
  }

  /** A rollback that nobody disturbs disables the updates, restores the backup and ends. */
  lemma UndisturbedRollbackCompletes(w: World, p: nat)
    requires At(w, p) == EditStart(Rollback) && NobodyHolds(w) && Load(w.settings).Some? && w.backup.Some?
    ensures var loaded := Step(Step(w, TryLock(p)), Reread(p));
            Step(Step(loaded, Save(p, DONE)), Restore(p, DONE))
            == Move(w, p, Finished).(
                 executable := w.backup.value,
                 settings := Stored(Settings(false, Load(w.settings).value.lastChecked)))
  {
    hide Step;
    RollbackIsLoaded(w, p);
    RollbackIsDone(w, p, Load(w.settings).value);
  }

  /** Beside a running session a due update gives way to a session of its own, and a command ends. */
  lemma BusyInstallationIsLeftAlone(w: World, p: nat, q: nat)
    requires p != q && Holds(w, q, Shared) && NobodyExcludes(w)
    requires At(w, p) in {AutoWantLock, EditStart(Enable), EditStart(Disable), EditStart(Rollback), InstallStart}
    ensures Step(w, TryLock(p)) == Move(w, p, GiveUp(At(w, p)))
    ensures At(w, p) == AutoWantLock ==> Holds(Step(Step(w, TryLock(p)), TryLock(p)), p, Shared)
  {
    assert !NobodyHolds(w);
    if At(w, p) == AutoWantLock {
      assert NobodyExcludes(Move(w, p, SessionStart));
    }
  }
}
