/** The update commands as they are written, one after another statement on the machine they run on,
    against the steps by which the interleavings are built. */
module UpdateCommands {
  import opened Wrappers
  import opened JsonValues
  import opened UpdateProtocol
  import opened UpdateProgress
  import opened UpdateSafety

  /** What an automatic update does once it holds the lock; its check finds `image`, if anything. */
  function LockedSteps(w: World, p: nat, image: Option<Bytes>, save: Write, backup: Write, install: Write): World {
    var due := Step(w, Reread(p));
    if !At(due, p).AutoDue? then due
    else
      var saved := Step(Step(due, Stamp(p)), Save(p, save));
      if At(saved, p) != AutoSaved then saved
      else if image.None? then Step(saved, Abandon(p))
      else Step(Step(saved, Backup(p, image.value, backup)), Install(p, install))
  }

  /** The steps of a whole automatic update. */
  function AutomaticUpdateSteps(w: World, p: nat, image: Option<Bytes>, save: Write, backup: Write, install: Write): World {
    var checked := Step(w, FirstCheck(p));
    if At(checked, p) != AutoWantLock then checked
    else
      var locked := Step(checked, TryLock(p));
      if At(locked, p) != AutoLocked then locked else LockedSteps(locked, p, image, save, backup, install)
  }

  /** The steps of an enable, disable or rollback command; enabling may find its tools missing. */
  function EditSteps(w: World, p: nat, edit: Edit, ready: bool, save: Write, restore: Write): World {
    var locked := Step(w, TryLock(p));
    if !At(locked, p).EditLocked? then locked
    else
      var loaded := Step(locked, Reread(p));
      if !At(loaded, p).EditLoaded? then loaded
      else if edit.Enable? && !ready then Step(loaded, End(p))
      else
        var saved := Step(loaded, Save(p, save));
        if At(saved, p) == EditSaved(Rollback) then Step(saved, Restore(p, restore)) else saved
  }

  class Machine {
    var executable: Bytes
    var backup: Option<Bytes>
    var settings: SettingsFile
    var now: nat
    var procs: map<nat, Pc>
    ghost var checks: seq<nat>
    ghost var autoInstalls: nat

    ghost function State(): World
      reads this
    {
      World(executable, backup, settings, now, procs, checks, autoInstalls)
    }

    method Move(p: nat, pc: Pc)
      modifies this`procs
      ensures State() == UpdateProtocol.Move(old(State()), p, pc)
    {
      procs := procs[p := pc];
    }

    /** Take the exclusive lock if nobody holds any. */
    method Lock(p: nat) returns (locked: bool)
      modifies this`procs
      ensures locked == NobodyHolds(old(State()))
      ensures State() == old(State())
    {
      locked := forall q | q in procs :: LockAt(procs[q]) == Unlocked;
    }

    method SaveSettings(copy: Settings, write: Write)
      modifies this`settings
      ensures State() == if write.reached || write.ok then old(State()).(settings := Stored(copy)) else old(State())
    {
      if write.reached || write.ok {
        settings := Stored(copy);
      }
    }

    method AutomaticUpdate(p: nat, image: Option<Bytes>, save: Write, backupWrite: Write, install: Write)
      returns (updated: bool)
      requires At(State(), p) == AutoStart
      modifies this
      ensures State() == AutomaticUpdateSteps(old(State()), p, image, save, backupWrite, install)
      ensures updated <==> At(State(), p) == AutoReplaced
    {
      hide Step, LockedSteps;
      var due := FirstCheck(p);
      if !due {
        return false;
      }
      var locked := LockForUpdate(p);
      if !locked {
        return false;
      }
      updated := UpdateLocked(p, image, save, backupWrite, install);
    }

    method FirstCheck(p: nat) returns (due: bool)
      requires At(State(), p) == AutoStart
      modifies this`procs
      ensures State() == Step(old(State()), UpdateProtocol.FirstCheck(p))
      ensures At(State(), p) == if due then AutoWantLock else SessionStart
    {
      hide Due;
      var loaded := Load(settings);
      due := loaded.Some? && Due(loaded.value, now);
      Move(p, if due then AutoWantLock else SessionStart);
    }

    method LockForUpdate(p: nat) returns (locked: bool)
      requires At(State(), p) == AutoWantLock
      modifies this`procs
      ensures State() == Step(old(State()), TryLock(p))
      ensures At(State(), p) == if locked then AutoLocked else SessionStart
    {
      hide NobodyHolds;
      locked := Lock(p);
      Move(p, if locked then AutoLocked else SessionStart);
    }

    /** The rest of it, under the lock: read the settings again, stamp them, and install. */
    method UpdateLocked(p: nat, image: Option<Bytes>, save: Write, backupWrite: Write, install: Write)
      returns (updated: bool)
      requires At(State(), p) == AutoLocked
      modifies this
      ensures State() == LockedSteps(old(State()), p, image, save, backupWrite, install)
      ensures updated <==> At(State(), p) == AutoReplaced
    {
      hide Step;
      var copy := RereadSettings(p);
      if copy.None? {
        return false;
      }
      var saved := StampSettings(p, copy.value, save);
      if !saved {
        return false;
      }
      if image.None? {
        NothingFound(p);
        return false;
      }
      updated := InstallImage(p, image.value, backupWrite, install);
    }

    method RereadSettings(p: nat) returns (copy: Option<Settings>)
      requires At(State(), p) == AutoLocked
      modifies this`procs
      ensures State() == Step(old(State()), Reread(p))
      ensures At(State(), p) == if copy.Some? then AutoDue(copy.value) else SessionStart
    {
      hide Due;
      copy := Load(settings);
      if copy.None? || !Due(copy.value, now) {
        Move(p, SessionStart);
        return None;
      }
      Move(p, AutoDue(copy.value));
    }

    method StampSettings(p: nat, copy: Settings, save: Write) returns (saved: bool)
      requires At(State(), p) == AutoDue(copy)
      modifies this
      ensures State() == Step(Step(old(State()), Stamp(p)), Save(p, save))
      ensures At(State(), p) == if saved then AutoSaved else SessionStart
    {
      var stamped := copy.(lastChecked := Some(now));
      Move(p, AutoStamped(stamped));
      assert State() == Step(old(State()), Stamp(p));
      SaveSettings(stamped, save);
      if save.reached || save.ok {
        checks := checks + [now];
      }
      Move(p, if save.ok then AutoSaved else SessionStart);
      return save.ok;
    }

    method NothingFound(p: nat)
      requires At(State(), p) == AutoSaved
      modifies this`procs
      ensures State() == Step(old(State()), Abandon(p))
      ensures At(State(), p) == SessionStart
    {
      Move(p, SessionStart);
    }

    method InstallImage(p: nat, image: Bytes, backupWrite: Write, install: Write) returns (updated: bool)
      requires At(State(), p) == AutoSaved
      modifies this
      ensures State() == Step(Step(old(State()), Backup(p, image, backupWrite)), Install(p, install))
      ensures updated <==> At(State(), p) == AutoReplaced
    {
      hide StepBackup, StepInstall;
      var saved := BackUp(p, image, backupWrite);
      if !saved {
        NothingToInstall(State(), p, install);
        return false;
      }
      updated := ReplaceExecutable(p, image, install);
    }

    method BackUp(p: nat, image: Bytes, write: Write) returns (saved: bool)
      requires At(State(), p) == AutoSaved
      modifies this
      ensures State() == Step(old(State()), Backup(p, image, write))
      ensures At(State(), p) == if saved then AutoBackedUp(image) else SessionStart
    {
      if write.reached || write.ok {
        backup := Some(executable);
      }
      Move(p, if write.ok then AutoBackedUp(image) else SessionStart);
      return write.ok;
    }

    method ReplaceExecutable(p: nat, image: Bytes, write: Write) returns (replaced: bool)
      requires At(State(), p) == AutoBackedUp(image)
      modifies this
      ensures State() == Step(old(State()), Install(p, write))
      ensures At(State(), p) == if replaced then AutoReplaced else SessionStart
    {
      if write.reached || write.ok {
        executable := image;
        autoInstalls := autoInstalls + 1;
      }
      Move(p, if write.ok then AutoReplaced else SessionStart);
      return write.ok;
    }

    method RunUpdate(p: nat, edit: Edit, ready: bool, save: Write, restore: Write)
      requires At(State(), p) == EditStart(edit)
      modifies this
      ensures State() == EditSteps(old(State()), p, edit, ready, save, restore)
    {
      hide Step;
      var locked := LockForEdit(p, edit);
      if !locked {
        return;
      }
      var copy := LoadForEdit(p, edit);
      if copy.None? {
        return;
      }
      if edit.Enable? && !ready {
        Leave(p);
        return;
      }
      var saved := EditSettings(p, edit, copy.value, save);
      if saved && edit.Rollback? {
        RestoreBackup(p, restore);
      }
    }

    method LockForEdit(p: nat, edit: Edit) returns (locked: bool)
      requires At(State(), p) == EditStart(edit)
      modifies this`procs
      ensures State() == Step(old(State()), TryLock(p))
      ensures At(State(), p) == if locked then EditLocked(edit) else Finished
    {
      hide NobodyHolds;
      locked := Lock(p);
      Move(p, if locked then EditLocked(edit) else Finished);
    }

    method LoadForEdit(p: nat, edit: Edit) returns (copy: Option<Settings>)
      requires At(State(), p) == EditLocked(edit)
      modifies this`procs
      ensures State() == Step(old(State()), Reread(p))
      ensures At(State(), p) == if copy.Some? then EditLoaded(edit, copy.value) else Finished
    {
      copy := Load(settings);
      Move(p, if copy.Some? then EditLoaded(edit, copy.value) else Finished);
    }

    method Leave(p: nat)
      modifies this`procs
      ensures State() == Step(old(State()), End(p))
    {
      procs := procs - {p};
    }

    method EditSettings(p: nat, edit: Edit, copy: Settings, save: Write) returns (saved: bool)
      requires At(State(), p) == EditLoaded(edit, copy)
      modifies this
      ensures State() == Step(old(State()), Save(p, save))
      ensures At(State(), p) == if saved then EditSaved(edit) else Finished
    {
      var edited := copy;
      match edit {
        case Enable => edited := Settings(true, None);
        case Disable => edited := edited.(enabled := false);
        case Rollback => edited := edited.(enabled := false);
      }
      SaveSettings(edited, save);
      if (save.reached || save.ok) && edit.Enable? {
        checks := [];
      }
      Move(p, if save.ok then EditSaved(edit) else Finished);
      return save.ok;
    }

    method RestoreBackup(p: nat, restore: Write)
      requires At(State(), p) == EditSaved(Rollback)
      modifies this
      ensures State() == Step(old(State()), Restore(p, restore))
    {
      if backup.Some? && (restore.reached || restore.ok) {
        executable := backup.value;
      }
      Move(p, Finished);
    }
  }

  lemma NothingToInstall(w: World, p: nat, write: Write)
    requires At(w, p) == SessionStart
    ensures Step(w, Install(p, write)) == w
  {
  }

  /** Run without interruption, each command is one of the interleavings, so it keeps what they keep. */
  lemma CommandsAreSound(w: World, p: nat, image: Option<Bytes>, edit: Edit, ready: bool,
                         first: Write, second: Write, third: Write)
    requires Sound(w)
    ensures Sound(AutomaticUpdateSteps(w, p, image, first, second, third))
    ensures Sound(EditSteps(w, p, edit, ready, first, second))
  {
    hide Sound, Step;
    StepIsSound(w, FirstCheck(p));
    var checked := Step(w, FirstCheck(p));
    StepIsSound(checked, TryLock(p));
    var due := Step(Step(checked, TryLock(p)), Reread(p));
    StepIsSound(Step(checked, TryLock(p)), Reread(p));
    StepIsSound(due, Stamp(p));
    StepIsSound(Step(due, Stamp(p)), Save(p, first));
    var saved := Step(Step(due, Stamp(p)), Save(p, first));
    StepIsSound(saved, Abandon(p));
    if image.Some? {
      StepIsSound(saved, Backup(p, image.value, second));
      StepIsSound(Step(saved, Backup(p, image.value, second)), Install(p, third));
    }
    StepIsSound(w, TryLock(p));
    var loaded := Step(Step(w, TryLock(p)), Reread(p));
    StepIsSound(Step(w, TryLock(p)), Reread(p));
    StepIsSound(loaded, End(p));
    StepIsSound(loaded, Save(p, first));
    StepIsSound(Step(loaded, Save(p, first)), Restore(p, second));
  }

  // ---------- When an update is due, and what the commands then do ----------

  /** Enabled, and never checked or last checked at least 86,400 seconds ago. */
  predicate ADayHasPassed(file: SettingsFile, now: nat) {
    && file.Stored? && file.settings.enabled
    && (file.settings.lastChecked.None? || file.settings.lastChecked.value + 86_400 <= now)
  }

  lemma DueIsADay(file: SettingsFile, now: nat)
    ensures ADayHasPassed(file, now) <==> Load(file).Some? && Due(Load(file).value, now)
  {
  }

  /** On its day an undisturbed update whose writes succeed stamps the time, backs the executable up and
      replaces it; if its check finds nothing it only stamps the time. */
  lemma UpdateOnItsDay(w: World, p: nat, image: Option<Bytes>)
    requires At(w, p) == AutoStart && forall q | q in w.procs :: LockAt(w.procs[q]) == Unlocked
    requires w.settings.Stored? && w.settings.settings.enabled
    requires w.settings.settings.lastChecked.None? || w.settings.settings.lastChecked.value + 86_400 <= w.now
    ensures var stamped := w.(settings := Stored(Settings(true, Some(w.now))), checks := w.checks + [w.now]);
            AutomaticUpdateSteps(w, p, image, DONE, DONE, DONE)
            == match image
               case None => Move(stamped, p, SessionStart)
               case Some(content) =>
                 Move(stamped, p, AutoReplaced).(executable := content, backup := Some(w.executable),
                                                 autoInstalls := w.autoInstalls + 1)
  {
    hide Step;
    var settings := w.settings.settings;
    DueIsADay(w.settings, w.now);
    DueUpdateIsTaken(w, p);
    FirstStepsAre(w, p);
    StampIsSaved(w, p, settings);
    var stamped := w.(settings := Stored(settings.(lastChecked := Some(w.now))), checks := w.checks + [w.now]);
    assert Move(w, p, AutoSaved).(settings := stamped.settings, checks := stamped.checks) == Move(stamped, p, AutoSaved);
    match image
    case None => NothingIsFound(stamped, p);
    case Some(content) => ContentIsInstalled(stamped, p, content);
  }

  lemma FirstStepsAre(w: World, p: nat)
    requires At(w, p) == AutoStart && NobodyHolds(w) && Load(w.settings).Some? && Due(Load(w.settings).value, w.now)
    ensures Step(w, FirstCheck(p)) == Move(w, p, AutoWantLock)
    ensures Step(Step(w, FirstCheck(p)), TryLock(p)) == Move(w, p, AutoLocked)
  {
    hide Due;
    assert NobodyHolds(Move(w, p, AutoWantLock));
    MoveAgain(w, p, AutoWantLock, AutoLocked);
  }

  lemma NothingIsFound(w: World, p: nat)
    ensures Step(Move(w, p, AutoSaved), Abandon(p)) == Move(w, p, SessionStart)
  {
    MoveAgain(w, p, AutoSaved, SessionStart);
  }

  lemma ContentIsInstalled(w: World, p: nat, image: Bytes)
    ensures Step(Step(Move(w, p, AutoSaved), Backup(p, image, DONE)), Install(p, DONE))
            == Move(w, p, AutoReplaced).(executable := image, backup := Some(w.executable), autoInstalls := w.autoInstalls + 1)
  {
    MoveAgain(w, p, AutoSaved, AutoBackedUp(image));
    MoveAgain(w, p, AutoBackedUp(image), AutoReplaced);
  }

  /** On any other day, disabled, without settings or with unreadable ones, it goes on to its session and
      changes nothing, whatever its writes would have done. */
  lemma UpdateOnAnotherDay(w: World, p: nat, image: Option<Bytes>, save: Write, backup: Write, install: Write)
    requires At(w, p) == AutoStart
    requires w.settings.Stored? && w.settings.settings.enabled ==>
               w.settings.settings.lastChecked.Some? && w.now < w.settings.settings.lastChecked.value + 86_400
    ensures AutomaticUpdateSteps(w, p, image, save, backup, install) == Move(w, p, SessionStart)
  {
    hide LockedSteps;
    DueIsADay(w.settings, w.now);
  }

  /** With the installation locked by anybody it likewise only goes on to its session. */
  lemma UpdateWhileLocked(w: World, p: nat, q: nat, image: Option<Bytes>, save: Write, backup: Write, install: Write)
    requires At(w, p) == AutoStart && p != q && q in w.procs && LockAt(w.procs[q]) != Unlocked
    ensures AutomaticUpdateSteps(w, p, image, save, backup, install) == Move(w, p, SessionStart)
  {
    hide LockedSteps, Due;
    var wanting := Move(w, p, AutoWantLock);
    assert q in wanting.procs && wanting.procs[q] == w.procs[q];
    assert !NobodyHolds(wanting);
    MoveAgain(w, p, AutoWantLock, SessionStart);
  }

  /** The edit commands: enabling forgets the last check, disabling keeps it, rolling back also restores
      the backup. */
  function SettingsAfter(edit: Edit, lastChecked: Option<nat>): Settings {
    match edit
    case Enable => Settings(true, None)
    case Disable => Settings(false, lastChecked)
    case Rollback => Settings(false, lastChecked)
  }

  lemma UndisturbedEditCompletes(w: World, p: nat, edit: Edit)
    requires At(w, p) == EditStart(edit) && forall q | q in w.procs :: LockAt(w.procs[q]) == Unlocked
    requires w.settings.Absent? || w.settings.Stored?
    requires edit.Rollback? ==> w.backup.Some?
    ensures var lastChecked := if w.settings.Stored? then w.settings.settings.lastChecked else None;
            EditSteps(w, p, edit, true, DONE, DONE)
            == Move(w, p, if edit.Rollback? then Finished else EditSaved(edit)).(
                 settings := Stored(SettingsAfter(edit, lastChecked)),
                 checks := if edit.Enable? then [] else w.checks,
                 executable := if edit.Rollback? then w.backup.value else w.executable)
  {
    hide Step;
    var settings := if w.settings.Stored? then w.settings.settings else Settings(false, None);
    EditIsLoaded(w, p, edit, settings);
    EditIsSaved(w, p, edit, settings);
    if edit.Rollback? {
      var saved := w.(settings := Stored(SettingsAfter(edit, settings.lastChecked)));
      assert Move(w, p, EditSaved(edit)).(settings := saved.settings) == Move(saved, p, EditSaved(edit));
      BackupIsRestored(saved, p);
    }
  }

  lemma EditIsLoaded(w: World, p: nat, edit: Edit, settings: Settings)
    requires At(w, p) == EditStart(edit) && NobodyHolds(w)
    requires w.settings == Stored(settings) || (w.settings.Absent? && settings == Settings(false, None))
    ensures Step(w, TryLock(p)) == Move(w, p, EditLocked(edit))
    ensures Step(Step(w, TryLock(p)), Reread(p)) == Move(w, p, EditLoaded(edit, settings))
  {
    MoveAgain(w, p, EditLocked(edit), EditLoaded(edit, settings));
  }

  lemma EditIsSaved(w: World, p: nat, edit: Edit, settings: Settings)
    ensures Step(Move(w, p, EditLoaded(edit, settings)), Save(p, DONE))
            == Move(w, p, EditSaved(edit)).(settings := Stored(SettingsAfter(edit, settings.lastChecked)),
                                            checks := if edit.Enable? then [] else w.checks)
  {
    MoveAgain(w, p, EditLoaded(edit, settings), EditSaved(edit));
  }

  lemma BackupIsRestored(w: World, p: nat)
    requires w.backup.Some?
    ensures Step(Move(w, p, EditSaved(Rollback)), Restore(p, DONE)) == Move(w, p, Finished).(executable := w.backup.value)
  {
    MoveAgain(w, p, EditSaved(Rollback), Finished);
  }

  /** With unreadable settings, or a lock in the way, an edit command ends and changes nothing. */
  lemma EditGivesUp(w: World, p: nat, edit: Edit, ready: bool, save: Write, restore: Write)
    requires At(w, p) == EditStart(edit)
    requires w.settings.Unreadable? || exists q :: q in w.procs && LockAt(w.procs[q]) != Unlocked
    ensures EditSteps(w, p, edit, ready, save, restore) == Move(w, p, Finished)
  {
    MoveAgain(w, p, EditLocked(edit), Finished);
  }

  /** Right after a completed enable an update is due, whenever the last check was. */
  lemma EnabledIsDue(w: World, p: nat, q: nat, image: Bytes)
    requires p != q && At(w, q) == AutoStart
    requires At(w, p) == EditStart(Enable) && forall r | r in w.procs :: LockAt(w.procs[r]) == Unlocked
    requires w.settings.Absent? || w.settings.Stored?
    ensures var enabled := Step(EditSteps(w, p, Enable, true, DONE, DONE), End(p));
            var updated := AutomaticUpdateSteps(enabled, q, Some(image), DONE, DONE, DONE);
            && updated.executable == image
            && updated.backup == Some(w.executable)
            && updated.settings == Stored(Settings(true, Some(w.now)))
            && updated.checks == [w.now]
  {
    hide AutomaticUpdateSteps, EditSteps;
    UndisturbedEditCompletes(w, p, Enable);
    var enabled := Step(EditSteps(w, p, Enable, true, DONE, DONE), End(p));
    assert enabled.procs == w.procs - {p};
    UpdateOnItsDay(enabled, q, Some(image));
  }

  // ---------- The install command ----------

  /** An undisturbed install backs the executable up and replaces it, whatever the settings say, and
      leaves them as they are. */
  lemma UndisturbedInstallCompletes(w: World, p: nat, image: Bytes)
    requires At(w, p) == InstallStart && forall q | q in w.procs :: LockAt(w.procs[q]) == Unlocked
    ensures Step(Step(Step(w, TryLock(p)), Backup(p, image, DONE)), Install(p, DONE))
            == Move(w, p, Finished).(executable := image, backup := Some(w.executable))
  {
    assert NobodyHolds(w);
    InstallIsDone(w, p, image);
  }

  lemma InstallIsDone(w: World, p: nat, image: Bytes)
    ensures Step(Step(Move(w, p, InstallLocked), Backup(p, image, DONE)), Install(p, DONE))
            == Move(w, p, Finished).(executable := image, backup := Some(w.executable))
  {
    MoveAgain(w, p, InstallLocked, InstallBackedUp(image));
    MoveAgain(w, p, InstallBackedUp(image), Finished);
  }
}
