/** Many processes share one installation: sessions run under a shared lock; updates, settings changes
    and rollbacks run under an exclusive one.  Processes interleave step by step and may end anywhere. */
module UpdateProtocol {
  import opened Wrappers
  import opened JsonValues

  const CHECK_INTERVAL: nat := 86_400

  datatype Settings = Settings(enabled: bool, lastChecked: Option<nat>)

  /** The settings file; a missing one reads as the default, an unreadable one is an error. */
  datatype SettingsFile = Absent | Stored(settings: Settings) | Unreadable

  function Load(file: SettingsFile): Option<Settings> {
    match file
    case Absent => Some(Settings(false, None))
    case Stored(settings) => Some(settings)
    case Unreadable => None
  }

  predicate Due(settings: Settings, now: nat) {
    settings.enabled && (settings.lastChecked.None? || SaturatingSub(now, settings.lastChecked.value) >= CHECK_INTERVAL)
  }

  datatype Edit = Enable | Disable | Rollback

  /** Where a process is.  `Auto...` is the update attempt before a terminal session, `Edit...` the
      enable, disable and rollback commands, `Install...` the install command. */
  datatype Pc =
    | AutoStart
    | AutoWantLock
    | AutoLocked
    | AutoDue(copy: Settings)
    | AutoStamped(copy: Settings)
    | AutoSaved
    | AutoBackedUp(image: Bytes)
    | AutoReplaced
    | SessionStart
    | Running
    | EditStart(edit: Edit)
    | EditLocked(edit: Edit)
    | EditLoaded(edit: Edit, copy: Settings)
    | EditSaved(edit: Edit)
    | InstallStart
    | InstallLocked
    | InstallBackedUp(image: Bytes)
    | Finished

  datatype Lock = Unlocked | Shared | Exclusive

  function LockAt(pc: Pc): Lock {
    match pc
    case Running => Shared
    case AutoLocked | AutoDue(_) | AutoStamped(_) | AutoSaved | AutoBackedUp(_) | AutoReplaced => Exclusive
    case EditLocked(_) | EditLoaded(_, _) | EditSaved(_) => Exclusive
    case InstallLocked | InstallBackedUp(_) => Exclusive
    case _ => Unlocked
  }

  /** Files, clock and processes; `checks` records the times of the automatic checks since the last
      enable, `autoInstalls` how often an automatic update has written the executable. */
  datatype World = World(
    executable: Bytes,
    backup: Option<Bytes>,
    settings: SettingsFile,
    now: nat,
    procs: map<nat, Pc>,
    checks: seq<nat>,
    autoInstalls: nat)

  // ---------- Locks ----------

  ghost predicate Holds(w: World, p: nat, lock: Lock) {
    p in w.procs && LockAt(w.procs[p]) == lock
  }

  predicate NobodyHolds(w: World) {
    forall p | p in w.procs :: LockAt(w.procs[p]) == Unlocked
  }

  predicate NobodyExcludes(w: World) {
    forall p | p in w.procs :: LockAt(w.procs[p]) != Exclusive
  }

  // ---------- Steps ----------

  /** A write reaches its target, or not; an error after the rename is `reached` with `ok` false. */
  datatype Write = Write(reached: bool, ok: bool)

  datatype Action =
    | Tick(seconds: nat)
    | Spawn(p: nat, start: Pc)
    | End(p: nat)
    | Abandon(p: nat)
    | Restart(p: nat)
    | FirstCheck(p: nat)
    | TryLock(p: nat)
    | Reread(p: nat)
    | Stamp(p: nat)
    | Save(p: nat, write: Write)
    | Backup(p: nat, image: Bytes, write: Write)
    | Install(p: nat, write: Write)
    | Restore(p: nat, write: Write)

  function At(w: World, p: nat): Pc {
    if p in w.procs then w.procs[p] else Finished
  }

  function Move(w: World, p: nat, pc: Pc): World {
    w.(procs := w.procs[p := pc])
  }

  /** Programs start unlocked. */
  predicate IsStart(pc: Pc) {
    pc.AutoStart? || pc.SessionStart? || pc.EditStart? || pc.InstallStart?
  }

  predicate IsAuto(pc: Pc) {
    pc.AutoStart? || pc.AutoWantLock? || pc.AutoLocked? || pc.AutoDue? || pc.AutoStamped? || pc.AutoSaved?
    || pc.AutoBackedUp? || pc.AutoReplaced?
  }

  /** Where an automatic update goes on when it gives up, and where any other command does. */
  function GiveUp(pc: Pc): Pc {
    if IsAuto(pc) then SessionStart else Finished
  }

  function Edited(edit: Edit, settings: Settings): Settings {
    match edit
    case Enable => Settings(true, None)
    case Disable | Rollback => settings.(enabled := false)
  }

  /** One step of one process; an action that does not apply changes nothing. */
  function Step(w: World, a: Action): World {
    match a
    case Tick(seconds) => w.(now := w.now + seconds)
    case Spawn(p, start) => if p !in w.procs && IsStart(start) then Move(w, p, start) else w
    case End(p) => w.(procs := w.procs - {p})
    case Abandon(p) =>
      if IsAuto(At(w, p)) && !At(w, p).AutoReplaced? then Move(w, p, SessionStart) else w
    case Restart(p) => if At(w, p).AutoReplaced? then Move(w, p, AutoStart) else w
    case FirstCheck(p) => StepFirstCheck(w, p)
    case TryLock(p) => StepTryLock(w, p)
    case Reread(p) => StepReread(w, p)
    case Stamp(p) =>
      (match At(w, p)
       case AutoDue(copy) => Move(w, p, AutoStamped(copy.(lastChecked := Some(w.now))))
       case _ => w)
    case Save(p, write) => StepSave(w, p, write)
    case Backup(p, image, write) => StepBackup(w, p, image, write)
    case Install(p, write) => StepInstall(w, p, write)
    case Restore(p, write) => StepRestore(w, p, write)
  }

  function StepFirstCheck(w: World, p: nat): World {
    match At(w, p)
    case AutoStart =>
      var loaded := Load(w.settings);
      if loaded.Some? && Due(loaded.value, w.now) then Move(w, p, AutoWantLock) else Move(w, p, SessionStart)
    case _ => w
  }

  /** Locks are never waited for: a busy installation sends the process on or ends it. */
  function StepTryLock(w: World, p: nat): World {
    match At(w, p)
    case AutoWantLock => Move(w, p, if NobodyHolds(w) then AutoLocked else SessionStart)
    case EditStart(edit) => Move(w, p, if NobodyHolds(w) then EditLocked(edit) else Finished)
    case InstallStart => Move(w, p, if NobodyHolds(w) then InstallLocked else Finished)
    case SessionStart => Move(w, p, if NobodyExcludes(w) then Running else Finished)
    case _ => w
  }

  function StepReread(w: World, p: nat): World {
    match At(w, p)
    case AutoLocked =>
      var loaded := Load(w.settings);
      if loaded.Some? && Due(loaded.value, w.now) then Move(w, p, AutoDue(loaded.value)) else Move(w, p, SessionStart)
    case EditLocked(edit) =>
      (match Load(w.settings)
       case Some(settings) => Move(w, p, EditLoaded(edit, settings))
       case None => Move(w, p, Finished))
    case _ => w
  }

  function StepSave(w: World, p: nat, write: Write): World {
    match At(w, p)
    case AutoStamped(copy) =>
      var next := Move(w, p, if write.ok then AutoSaved else SessionStart);
      if write.reached || write.ok then
        next.(settings := Stored(copy), checks := w.checks + [copy.lastChecked.GetOr(0)])
      else next
    case EditLoaded(edit, copy) =>
      var next := Move(w, p, if !write.ok then Finished else EditSaved(edit));
      if write.reached || write.ok then
        next.(settings := Stored(Edited(edit, copy)), checks := if edit.Enable? then [] else w.checks)
      else next
    case _ => w
  }

  function StepBackup(w: World, p: nat, image: Bytes, write: Write): World {
    match At(w, p)
    case AutoSaved | InstallLocked =>
      var pc := if !write.ok then GiveUp(w.procs[p])
                else if w.procs[p].AutoSaved? then AutoBackedUp(image) else InstallBackedUp(image);
      var next := Move(w, p, pc);
      if write.reached || write.ok then next.(backup := Some(w.executable)) else next
    case _ => w
  }

  function StepInstall(w: World, p: nat, write: Write): World {
    match At(w, p)
    case AutoBackedUp(image) =>
      var next := Move(w, p, if write.ok then AutoReplaced else SessionStart);
      if write.reached || write.ok then next.(executable := image, autoInstalls := w.autoInstalls + 1) else next
    case InstallBackedUp(image) =>
      var next := Move(w, p, Finished);
      if write.reached || write.ok then next.(executable := image) else next
    case _ => w
  }

  function StepRestore(w: World, p: nat, write: Write): World {
    match At(w, p)
    case EditSaved(Rollback) =>
      var next := Move(w, p, Finished);
      if w.backup.Some? && (write.reached || write.ok) then next.(executable := w.backup.value) else next
    case _ => w
  }

  function Run(w: World, actions: seq<Action>): World
    decreases |actions|
  {
    if actions == [] then w else Run(Step(w, actions[0]), actions[1..])
  }
}
