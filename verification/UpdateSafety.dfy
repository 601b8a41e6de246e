/** What every interleaving of the update protocol keeps. */
module UpdateSafety {
  import opened Wrappers
  import opened JsonValues
  import opened UpdateProtocol

  ghost predicate LocksExclude(w: World) {
    forall p, q | p in w.procs && q in w.procs && p != q && LockAt(w.procs[p]) == Exclusive ::
      LockAt(w.procs[q]) == Unlocked
  }

  predicate IsEnabled(file: SettingsFile) {
    file.Stored? && file.settings.enabled
  }

  /** A check at `time` is at least one interval after the last one. */
  predicate Elapsed(last: Option<nat>, time: nat) {
    last.None? || last.value + CHECK_INTERVAL <= time
  }

  /** What a process may rely on where it is. */
  ghost predicate Backed(w: World, pc: Pc) {
    match pc
    case AutoDue(copy) => w.settings == Stored(copy) && copy.enabled && Elapsed(copy.lastChecked, w.now)
    case AutoStamped(copy) =>
      && IsEnabled(w.settings) && copy.enabled
      && copy.lastChecked.Some? && copy.lastChecked.value <= w.now
      && Elapsed(w.settings.settings.lastChecked, copy.lastChecked.value)
    case AutoSaved => IsEnabled(w.settings)
    case AutoBackedUp(_) => IsEnabled(w.settings) && w.backup == Some(w.executable)
    case InstallBackedUp(_) => w.backup == Some(w.executable)
    case EditLoaded(_, copy) => Load(w.settings) == Some(copy)
    case EditSaved(edit) => w.settings.Stored? && (IsEnabled(w.settings) <==> edit.Enable?)
    case _ => true
  }

  /** The recorded checks are an interval apart, and the last one is what the settings file says. */
  ghost predicate Throttled(w: World) {
    && (forall i | 0 <= i < |w.checks| - 1 :: w.checks[i] + CHECK_INTERVAL <= w.checks[i + 1])
    && (w.checks != [] ==> w.settings.Stored? && w.settings.settings.lastChecked == Some(w.checks[|w.checks| - 1]))
  }

  ghost predicate Sound(w: World) {
    && LocksExclude(w)
    && (forall p | p in w.procs :: Backed(w, w.procs[p]))
    && Throttled(w)
  }

  /** No process yet, no check recorded: any contents of the files will do. */
  ghost predicate Initial(w: World) {
    w.procs == map[] && w.checks == []
  }

  lemma UnlockedIsBacked(w: World, pc: Pc)
    requires LockAt(pc) != Exclusive
    ensures Backed(w, pc)
  {
  }

  /** A process that holds the exclusive lock may change the files, and nobody else notices. */
  lemma ExclusiveChange(w: World, p: nat, next: World, pc: Pc)
    requires Sound(w) && p in w.procs && LockAt(w.procs[p]) == Exclusive
    requires next.procs == w.procs[p := pc]
    requires Backed(next, pc) && Throttled(next)
    ensures Sound(next)
  {
    hide Backed, Throttled;
    forall q | q in next.procs ensures Backed(next, next.procs[q]) {
      if q != p {
        UnlockedIsBacked(next, next.procs[q]);
      }
    }
  }

  /** A process may move on without touching the files, if its lock goes with the others' locks. */
  lemma QuietMove(w: World, p: nat, pc: Pc)
    requires Sound(w) && Backed(w, pc)
    requires LockAt(pc) == Exclusive ==> (p in w.procs && LockAt(w.procs[p]) == Exclusive) || NobodyHolds(w)
    requires LockAt(pc) == Shared ==> NobodyExcludes(w)
    ensures Sound(Move(w, p, pc))
  {
    var next := Move(w, p, pc);
    forall q | q in next.procs ensures Backed(next, next.procs[q]) {
      assert Backed(w, next.procs[q]);
    }
  }

  lemma SaveIsSound(w: World, p: nat, write: Write)
    requires Sound(w)
    ensures Sound(StepSave(w, p, write))
  {
    hide LocksExclude;
    var next := StepSave(w, p, write);
    if p in w.procs && (w.procs[p].AutoStamped? || w.procs[p].EditLoaded?) {
      assert Backed(w, w.procs[p]);
      ExclusiveChange(w, p, next, next.procs[p]);
    }
  }

  lemma BackupIsSound(w: World, p: nat, image: Bytes, write: Write)
    requires Sound(w)
    ensures Sound(StepBackup(w, p, image, write))
  {
    hide LocksExclude;
    var next := StepBackup(w, p, image, write);
    if p in w.procs && (w.procs[p].AutoSaved? || w.procs[p].InstallLocked?) {
      assert Backed(w, w.procs[p]);
      ExclusiveChange(w, p, next, next.procs[p]);
    }
  }

  lemma InstallIsSound(w: World, p: nat, write: Write)
    requires Sound(w)
    ensures Sound(StepInstall(w, p, write))
  {
    hide LocksExclude;
    var next := StepInstall(w, p, write);
    if p in w.procs && (w.procs[p].AutoBackedUp? || w.procs[p].InstallBackedUp?) {
      ExclusiveChange(w, p, next, next.procs[p]);
    }
  }

  lemma RestoreIsSound(w: World, p: nat, write: Write)
    requires Sound(w)
    ensures Sound(StepRestore(w, p, write))
  {
    hide LocksExclude;
    var next := StepRestore(w, p, write);
    if p in w.procs && w.procs[p].EditSaved? && w.procs[p].edit.Rollback? {
      ExclusiveChange(w, p, next, next.procs[p]);
    }
  }

  lemma TryLockIsSound(w: World, p: nat)
    requires Sound(w)
    ensures Sound(StepTryLock(w, p))
  {
    hide Sound, NobodyHolds, NobodyExcludes, Throttled;
    var next := StepTryLock(w, p);
    if next != w {
      QuietMove(w, p, next.procs[p]);
    }
  }

  lemma RereadIsSound(w: World, p: nat)
    requires Sound(w)
    ensures Sound(StepReread(w, p)) && Sound(StepFirstCheck(w, p))
  {
    hide Sound;
    var next := StepReread(w, p);
    if next != w {
      QuietMove(w, p, next.procs[p]);
    }
    var checked := StepFirstCheck(w, p);
    if checked != w {
      QuietMove(w, p, checked.procs[p]);
    }
  }

  lemma TickIsSound(w: World, seconds: nat)
    requires Sound(w)
    ensures Sound(w.(now := w.now + seconds))
  {
    var next := w.(now := w.now + seconds);
    forall p | p in next.procs ensures Backed(next, next.procs[p]) {
      assert Backed(w, w.procs[p]);
    }
  }

  lemma EndIsSound(w: World, p: nat)
    requires Sound(w)
    ensures Sound(w.(procs := w.procs - {p}))
  {
    var next := w.(procs := w.procs - {p});
    forall q | q in next.procs ensures Backed(next, next.procs[q]) {
      assert Backed(w, w.procs[q]);
    }
  }

  lemma StampIsSound(w: World, p: nat)
    requires Sound(w)
    ensures Sound(Step(w, Stamp(p)))
  {
    if p in w.procs && w.procs[p].AutoDue? {
      assert Backed(w, w.procs[p]);
      QuietMove(w, p, AutoStamped(w.procs[p].copy.(lastChecked := Some(w.now))));
    }
  }

  lemma StepIsSound(w: World, a: Action)
    requires Sound(w)
    ensures Sound(Step(w, a))
  {
    hide Sound, StepSave, StepBackup, StepInstall, StepRestore, StepTryLock, StepReread, StepFirstCheck;
    match a
    case Tick(seconds) => TickIsSound(w, seconds);
    case Spawn(p, start) => if p !in w.procs && IsStart(start) { QuietMove(w, p, start); }
    case End(p) => EndIsSound(w, p);
    case Abandon(p) => QuietMove(w, p, SessionStart);
    case Restart(p) => QuietMove(w, p, AutoStart);
    case FirstCheck(p) => RereadIsSound(w, p);
    case TryLock(p) => TryLockIsSound(w, p);
    case Reread(p) => RereadIsSound(w, p);
    case Stamp(p) => StampIsSound(w, p);
    case Save(p, write) => SaveIsSound(w, p, write);
    case Backup(p, image, write) => BackupIsSound(w, p, image, write);
    case Install(p, write) => InstallIsSound(w, p, write);
    case Restore(p, write) => RestoreIsSound(w, p, write);
  }

  lemma {:induction false} EveryRunIsSound(w: World, actions: seq<Action>)
    requires Sound(w)
    ensures Sound(Run(w, actions))
    decreases |actions|
  {
    hide Sound, Step;
    if actions != [] {
      StepIsSound(w, actions[0]);
      EveryRunIsSound(Step(w, actions[0]), actions[1..]);
    }
  }

  lemma InitialIsSound(w: World)
    requires Initial(w)
    ensures Sound(w)
  {
  }

  // ---------- Sessions and replacement exclude each other ----------

  /** The executable only changes in the hands of a process that shares it with nobody, and an update
      changes it only once the old one is in the backup. */
  lemma ChangeIsExclusive(w: World, a: Action)
    requires Sound(w) && Step(w, a).executable != w.executable
    ensures forall p | p in w.procs :: LockAt(w.procs[p]) != Shared
    ensures a.Install? || a.Restore?
    ensures a.Install? ==> Step(w, a).backup == Some(w.executable)
    ensures a.Restore? ==> w.backup == Some(Step(w, a).executable)
  {
    hide Throttled;
    var p := match a case Install(p, _) => p case Restore(p, _) => p case _ => 0;
    assert LockAt(w.procs[p]) == Exclusive;
    assert Backed(w, w.procs[p]);
  }

  /** Process `p` is in its session before every step and at the end. */
  ghost predicate SessionLasts(w: World, actions: seq<Action>, p: nat)
    decreases |actions|
  {
    && Holds(w, p, Shared)
    && (actions == [] || SessionLasts(Step(w, actions[0]), actions[1..], p))
  }

  /** While a session lasts, whatever all the others do, the executable does not change. */
  lemma {:induction false} SessionPinsExecutable(w: World, actions: seq<Action>, p: nat)
    requires Sound(w) && SessionLasts(w, actions, p)
    ensures Run(w, actions).executable == w.executable
    decreases |actions|
  {
    hide Sound, Step;
    if actions != [] {
      var next := Step(w, actions[0]);
      StepIsSound(w, actions[0]);
      if next.executable != w.executable {
        ChangeIsExclusive(w, actions[0]);
      }
      SessionPinsExecutable(next, actions[1..], p);
    }
  }

  /** An update followed, after anything that leaves the backup alone, by a rollback that takes effect
      brings back the executable from before the update. */
  lemma RollbackBringsBack(w: World, a: Action, between: seq<Action>, p: nat, write: Write)
    requires Sound(w) && a.Install? && Step(w, a).executable != w.executable
    requires Run(Step(w, a), between).backup == Step(w, a).backup
    requires At(Run(Step(w, a), between), p) == EditSaved(Rollback) && (write.reached || write.ok)
    ensures Step(Run(Step(w, a), between), Restore(p, write)).executable == w.executable
  {
    hide Sound, Run;
    ChangeIsExclusive(w, a);
  }

  // ---------- Throttle ----------

  lemma {:induction false} SpacedApart(checks: seq<nat>, i: nat, j: nat)
    requires forall k | 0 <= k < |checks| - 1 :: checks[k] + CHECK_INTERVAL <= checks[k + 1]
    requires i < j < |checks|
    ensures checks[i] + (j - i) * CHECK_INTERVAL <= checks[j]
    decreases j - i
  {
    if i + 1 < j {
      SpacedApart(checks, i + 1, j);
    }
  }

  /** Over every interleaving, the automatic checks since the last enable are at least a day apart. */
  lemma ChecksAreADayApart(w: World, actions: seq<Action>, i: nat, j: nat)
    requires Initial(w)
    requires i < j < |Run(w, actions).checks|
    ensures Run(w, actions).checks[i] + (j - i) * CHECK_INTERVAL <= Run(w, actions).checks[j]
  {
    hide Run;
    InitialIsSound(w);
    EveryRunIsSound(w, actions);
    SpacedApart(Run(w, actions).checks, i, j);
  }

  // ---------- A disable or a rollback stays in force ----------

  /** The step is the write of an enable command. */
  predicate Enables(w: World, a: Action) {
    a.Save? && At(w, a.p).EditLoaded? && At(w, a.p).edit.Enable?
  }

  predicate NeverEnables(w: World, actions: seq<Action>)
    decreases |actions|
  {
    actions == [] || (!Enables(w, actions[0]) && NeverEnables(Step(w, actions[0]), actions[1..]))
  }

  lemma DisabledStep(w: World, a: Action)
    requires Sound(w) && !IsEnabled(w.settings) && !Enables(w, a)
    ensures var next := Step(w, a);
            !IsEnabled(next.settings) && next.autoInstalls == w.autoInstalls && next.checks == w.checks
  {
    hide LocksExclude, Throttled;
    if a.Save? && a.p in w.procs {
      assert Backed(w, w.procs[a.p]);
    } else if a.Install? && a.p in w.procs {
      assert Backed(w, w.procs[a.p]);
    }
  }

  /** Once the settings are disabled, and until an enable command writes them, no interleaving makes
      them enabled, records an automatic check, or lets an automatic update touch the executable. */
  lemma {:induction false} DisabledStaysDisabled(w: World, actions: seq<Action>)
    requires Sound(w) && !IsEnabled(w.settings) && NeverEnables(w, actions)
    ensures var end := Run(w, actions);
            !IsEnabled(end.settings) && end.autoInstalls == w.autoInstalls && end.checks == w.checks
    decreases |actions|
  {
    hide Sound, Step, Enables;
    if actions != [] {
      StepIsSound(w, actions[0]);
      DisabledStep(w, actions[0]);
      DisabledStaysDisabled(Step(w, actions[0]), actions[1..]);
    }
  }

  /** The write of a disable or rollback command that reaches the file puts the settings there. */
  lemma DisableTakesEffect(w: World, p: nat, write: Write)
    requires Sound(w) && At(w, p).EditLoaded? && !At(w, p).edit.Enable? && (write.reached || write.ok)
    ensures var next := Step(w, Save(p, write));
            Sound(next) && next.settings.Stored? && !IsEnabled(next.settings)
    ensures Load(w.settings).Some?
    ensures Step(w, Save(p, write)).settings.settings.lastChecked == Load(w.settings).value.lastChecked
  {
    StepIsSound(w, Save(p, write));
    assert Backed(w, w.procs[p]);
  }
}
