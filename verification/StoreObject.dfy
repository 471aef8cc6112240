/** The app store's object: its operations as they run when nobody else holds the lock. */
module StoreObject {
  import opened ByteCodec
  import opened Wrappers
  import opened Text
  import opened Sorting
  import opened FileSystem
  import opened AppId
  import opened AppStore
  import Threads = AppStoreThreads

  // --- one installer on its own ---------------------------------------------------

  /** How the call made in this phase goes. */
  function LuckIn(phase: Threads.Phase, faults: Faults): Threads.Luck {
    Threads.Luck(
      match phase
      case Extracting => faults.extract.Some?
      case Recording => faults.record.Some?
      case SettingAside => faults.setAside
      case Activating(_) => faults.activate
      case RollingBack => faults.rollBack
      case _ => false,
      if faults.extract.Some? then faults.extract.value else None,
      if faults.record.Some? then faults.record.value else map[],
      if phase.Finishing? then faults.cleanBackup else faults.cleanStaging)
  }

  function Rank(phase: Threads.Phase): nat {
    match phase
    case Extracting => 8
    case Recording => 7
    case Checking => 6
    case SettingAside => 5
    case Activating(_) => 4
    case RollingBack => 3
    case Cleaning => 2
    case Finishing => 2
    case _ => 0
  }

  /** An installer inside the lock. */
  predicate Installing(thread: Threads.Thread) {
    Threads.Proper(thread) && thread.op.Install? && thread.number.Some? && thread.Inside()
  }

  function NextAlone(pid: nat, thread: Threads.Thread, d: Disk, faults: Faults): (o: Threads.Outcome)
    requires Installing(thread) && !thread.phase.Leaving?
    ensures Installing(thread.(phase := o.phase)) && Rank(o.phase) < Rank(thread.phase)
  {
    hide Accepted;
    hide Rename;
    hide RemoveAll;
    Threads.Call(pid, 0, thread, d, LuckIn(thread.phase, faults))
  }

  /**
   * The calls an installer makes from here on when nobody interferes: the directory after
   * each one, and whether the installation succeeds. Looking whether the app is there
   * changes nothing and is no call of its own here.
   */
  function Alone(pid: nat, thread: Threads.Thread, d: Disk, faults: Faults): (seq<Disk>, bool)
    requires Installing(thread)
    decreases Rank(thread.phase)
  {
    if thread.phase.Leaving? then ([], thread.phase.ok)
    else
      var o := NextAlone(pid, thread, d, faults);
      var rest := Alone(pid, thread.(phase := o.phase), o.disk, faults);
      ((if thread.phase.Checking? then [] else [o.disk]) + rest.0, rest.1)
  }

  /** The steps of the concurrent model that an installation on its own takes. */
  function Installer(q: Request, formats: Formats, n: nat): Threads.Thread
    requires q.reading.Verified?
  {
    Threads.Thread(
      Threads.Install(q.reading.package.manifest.id, q.reading.package.files, formats.printMeta(MetaOf(q))),
      Some(n), Threads.Extracting)
  }

  /** What was recorded is what the installer's calls leave, one after another. */
  ghost predicate Follows(
    pid: nat, thread: Threads.Thread, d: Disk, faults: Faults, from: seq<Disk>, history: seq<Disk>, ok: bool)
  {
    Installing(thread) && history == from + Alone(pid, thread, d, faults).0 && ok == Alone(pid, thread, d, faults).1
  }

  /** What is recorded so far and the calls still to come make up `goal`. */
  ghost predicate GoesOn(
    pid: nat, thread: Threads.Thread, d: Disk, faults: Faults, history: seq<Disk>, goal: seq<Disk>, good: bool)
  {
    Installing(thread) && goal == history + Alone(pid, thread, d, faults).0 && good == Alone(pid, thread, d, faults).1
  }

  function Extracted(d: Disk, files: Tree, staging: string, stopped: Option<Option<Node>>): Disk {
    match stopped
    case None => d[staging := Folder(files)]
    case Some(Some(node)) => d[staging := node]
    case Some(None) => d - {staging}
  }

  /** The thread installs what `q` asks for, as the job `j`. */
  predicate Alike(pid: nat, thread: Threads.Thread, q: Request, formats: Formats, j: Job) {
    && q.reading.Verified? && thread.number.Some? && Accepted(q.reading.package.manifest.id)
    && thread.op == Threads.Install(q.reading.package.manifest.id, q.reading.package.files,
       formats.printMeta(MetaOf(q)))
    && j == thread.JobIn(pid) && j.Distinct()
  }

  lemma OneCall(pid: nat, thread: Threads.Thread, d: Disk, faults: Faults, h: seq<Disk>, goal: seq<Disk>, good: bool)
    requires GoesOn(pid, thread, d, faults, h, goal, good) && !thread.phase.Leaving?
    ensures Installing(thread)
    ensures var o := NextAlone(pid, thread, d, faults);
            GoesOn(pid, thread.(phase := o.phase), o.disk, faults,
                   if thread.phase.Checking? then h else h + [o.disk], goal, good)
  {
    hide NextAlone;
    hide Installing;
    var o := NextAlone(pid, thread, d, faults);
    var rest := Alone(pid, thread.(phase := o.phase), o.disk, faults).0;
    assert h + ([o.disk] + rest) == h + [o.disk] + rest;
    assert h + ([] + rest) == h + rest;
  }

  lemma LeavingEnds(pid: nat, thread: Threads.Thread, ok: bool, d: Disk, faults: Faults,
                    h: seq<Disk>, goal: seq<Disk>, good: bool)
    requires GoesOn(pid, thread.(phase := Threads.Leaving(ok)), d, faults, h, goal, good)
    ensures h == goal && good == ok
  {
    assert h + [] == h;
  }

  lemma ExtractingAlone(pid: nat, thread: Threads.Thread, q: Request, formats: Formats, j: Job, d: Disk, faults: Faults,
    h: seq<Disk>, goal: seq<Disk>, good: bool)
    requires Alike(pid, thread, q, formats, j)
             && GoesOn(pid, thread.(phase := Threads.Extracting), d, faults, h, goal, good)
    ensures var e := Extracted(d, q.reading.package.files, j.staging, faults.extract);
            GoesOn(pid, thread.(phase := if faults.extract.None? then Threads.Recording else Threads.Leaving(false)), e,
              faults, h + [e], goal, good)
  {
    OneCall(pid, thread.(phase := Threads.Extracting), d, faults, h, goal, good);
    hide Accepted;
    hide Alone;
    hide Rename;
    hide RemoveAll;
  }

  lemma RecordingAlone(pid: nat, thread: Threads.Thread, q: Request, formats: Formats, j: Job, d: Disk, faults: Faults,
    h: seq<Disk>, goal: seq<Disk>, good: bool)
    requires Alike(pid, thread, q, formats, j)
             && GoesOn(pid, thread.(phase := Threads.Recording), d, faults, h, goal, good)
    ensures var e := d[j.staging := Folder(if faults.record.None? then j.tree else faults.record.value)];
            GoesOn(pid, thread.(phase := if faults.record.None? then Threads.Checking else Threads.Cleaning), e, faults,
              h + [e], goal, good)
  {
    OneCall(pid, thread.(phase := Threads.Recording), d, faults, h, goal, good);
    hide Accepted;
    hide Alone;
    hide Rename;
    hide RemoveAll;
  }

  lemma CheckingAlone(pid: nat, thread: Threads.Thread, q: Request, formats: Formats, j: Job, d: Disk, faults: Faults,
    h: seq<Disk>, goal: seq<Disk>, good: bool)
    requires Alike(pid, thread, q, formats, j)
             && GoesOn(pid, thread.(phase := Threads.Checking), d, faults, h, goal, good)
    ensures GoesOn(pid, thread.(phase := if j.id in d then Threads.SettingAside else Threads.Activating(false)), d,
            faults, h, goal, good)
  {
    OneCall(pid, thread.(phase := Threads.Checking), d, faults, h, goal, good);
    hide Accepted;
    hide Alone;
    hide Rename;
    hide RemoveAll;
  }

  lemma SettingAsideAlone(pid: nat, thread: Threads.Thread, q: Request, formats: Formats, j: Job, d: Disk,
    faults: Faults, h: seq<Disk>, goal: seq<Disk>, good: bool)
    requires Alike(pid, thread, q, formats, j)
             && GoesOn(pid, thread.(phase := Threads.SettingAside), d, faults, h, goal, good)
    ensures var moved := Rename(d, j.id, j.backup, faults.setAside);
            if moved.Some? then GoesOn(pid, thread.(phase := Threads.Activating(true)), moved.value, faults,
              h + [moved.value], goal, good)
            else GoesOn(pid, thread.(phase := Threads.Cleaning), d, faults, h + [d], goal, good)
  {
    OneCall(pid, thread.(phase := Threads.SettingAside), d, faults, h, goal, good);
    hide Accepted;
    hide Alone;
    hide Rename;
    hide RemoveAll;
  }

  lemma ActivatingAlone(pid: nat, thread: Threads.Thread, q: Request, formats: Formats, j: Job, d: Disk, had: bool,
    faults: Faults, h: seq<Disk>, goal: seq<Disk>, good: bool)
    requires Alike(pid, thread, q, formats, j)
             && GoesOn(pid, thread.(phase := Threads.Activating(had)), d, faults, h, goal, good)
    ensures var moved := Rename(d, j.staging, j.id, faults.activate);
            if moved.Some? then
              GoesOn(pid, thread.(phase := if had then Threads.Finishing else Threads.Leaving(true)), moved.value,
                faults, h + [moved.value], goal, good)
            else
              GoesOn(pid, thread.(phase := if had then Threads.RollingBack else Threads.Cleaning), d, faults, h + [d],
                goal, good)
  {
    OneCall(pid, thread.(phase := Threads.Activating(had)), d, faults, h, goal, good);
    hide Accepted;
    hide Alone;
    hide Rename;
    hide RemoveAll;
  }

  lemma RollingBackAlone(pid: nat, thread: Threads.Thread, q: Request, formats: Formats, j: Job, d: Disk,
    faults: Faults, h: seq<Disk>, goal: seq<Disk>, good: bool)
    requires Alike(pid, thread, q, formats, j)
             && GoesOn(pid, thread.(phase := Threads.RollingBack), d, faults, h, goal, good)
    ensures var moved := Rename(d, j.backup, j.id, faults.rollBack);
            var e := if moved.Some? then moved.value else d;
            GoesOn(pid, thread.(phase := Threads.Cleaning), e, faults, h + [e], goal, good)
  {
    OneCall(pid, thread.(phase := Threads.RollingBack), d, faults, h, goal, good);
    hide Accepted;
    hide Alone;
    hide Rename;
    hide RemoveAll;
  }

  lemma CleaningEnds(pid: nat, thread: Threads.Thread, q: Request, formats: Formats, j: Job, d: Disk, faults: Faults,
    h: seq<Disk>, goal: seq<Disk>, good: bool)
    requires Alike(pid, thread, q, formats, j)
             && GoesOn(pid, thread.(phase := Threads.Cleaning), d, faults, h, goal, good)
    ensures h + [RemoveAll(d, j.staging, faults.cleanStaging)] == goal && !good
  {
    OneCall(pid, thread.(phase := Threads.Cleaning), d, faults, h, goal, good);
    hide Accepted;
    hide Alone;
    hide Rename;
    hide RemoveAll;
    var e := RemoveAll(d, j.staging, faults.cleanStaging);
    LeavingEnds(pid, thread, false, e, faults, h + [e], goal, good);
  }

  lemma FinishingEnds(pid: nat, thread: Threads.Thread, q: Request, formats: Formats, j: Job, d: Disk, faults: Faults,
    h: seq<Disk>, goal: seq<Disk>, good: bool)
    requires Alike(pid, thread, q, formats, j)
             && GoesOn(pid, thread.(phase := Threads.Finishing), d, faults, h, goal, good)
    ensures h + [RemoveAll(d, j.backup, faults.cleanBackup)] == goal && good
  {
    OneCall(pid, thread.(phase := Threads.Finishing), d, faults, h, goal, good);
    hide Accepted;
    hide Alone;
    hide Rename;
    hide RemoveAll;
    var e := RemoveAll(d, j.backup, faults.cleanBackup);
    LeavingEnds(pid, thread, true, e, faults, h + [e], goal, good);
  }

  class Store {
    /** What is in the apps directory. */
    var apps: Disk
    var nextStagingId: nat
    const pid: nat
    const formats: Formats
    /** What the apps directory held after every call so far, finished or cut short. */
    ghost var history: seq<Disk>

    constructor (apps: Disk, pid: nat, formats: Formats)
      ensures this.apps == apps && this.pid == pid && this.formats == formats && nextStagingId == 1 && history == []
    {
      this.apps, this.pid, this.formats, nextStagingId, history := apps, pid, formats, 1, [];
    }

    // --- file system calls

    method Move(from: string, to: string, fault: bool) returns (ok: bool)
      modifies this`apps, this`history
      ensures ok == Rename(old(apps), from, to, fault).Some?
      ensures apps == if ok then Rename(old(apps), from, to, fault).value else old(apps)
      ensures history == old(history) + [apps]
    {
      var moved := Rename(apps, from, to, fault);
      ok := moved.Some?;
      apps := if ok then moved.value else apps;
      history := history + [apps];
    }

    method RemoveDirAll(name: string, how: Removal) returns (ok: bool)
      modifies this`apps, this`history
      ensures ok == (name in old(apps) && old(apps)[name].Folder? && how.Finished?)
      ensures apps == RemoveAll(old(apps), name, how) && history == old(history) + [apps]
    {
      ok := name in apps && apps[name].Folder? && how.Finished?;
      apps := RemoveAll(apps, name, how);
      history := history + [apps];
    }

    /** Replace whatever is at `staging` by the package; a failure may leave anything there. */
    method ExtractTo(files: Tree, staging: string, stopped: Option<Option<Node>>) returns (ok: bool)
      modifies this`apps, this`history
      ensures ok == stopped.None?
      ensures apps == Extracted(old(apps), files, staging, stopped)
      ensures SameExcept(old(apps), apps, {staging}) && history == old(history) + [apps]
    {
      ok := stopped.None?;
      if ok {
        apps := apps[staging := Folder(files)];
      } else if stopped.value.Some? {
        apps := apps[staging := stopped.value.value];
      } else {
        apps := apps - {staging};
      }
      history := history + [apps];
    }

    method WriteFile(dir: string, file: string, content: Bytes, stopped: Option<Tree>) returns (ok: bool)
      requires dir in apps && apps[dir].Folder?
      modifies this`apps, this`history
      ensures ok == stopped.None?
      ensures apps == old(apps)[dir := Folder(if ok then old(apps)[dir].files[file := content] else stopped.value)]
      ensures history == old(history) + [apps]
    {
      ok := stopped.None?;
      apps := apps[dir := Folder(if ok then apps[dir].files[file := content] else stopped.value)];
      history := history + [apps];
    }

    // --- the store's operations

    function JobOf(q: Request, n: nat): Job
      requires q.reading.Verified?
    {
      Job(q.reading.package.manifest.id, Staging(pid, n), Backup(pid, n), InstalledTree(formats, q))
    }

    /**
     * On success the app is exactly the package and its record. On failure it is what it
     * was, or, when putting the old version back failed too, the complete old version is in
     * the backup directory. At every moment in between it is whole, old or new or set
     * aside. Nothing else changes.
     */
    method InstallBytes(q: Request, faults: Faults) returns (r: Result<AppRecord>)
      requires q.reading.Verified? ==> q.reading.package.Sound(formats)
      modifies this
      ensures nextStagingId == if Admissible(q) then old(nextStagingId) + 1 else old(nextStagingId)
      ensures !Admissible(q) ==> r.Err? && apps == old(apps) && history == old(history)
      ensures Admissible(q) ==>
                var j := JobOf(q, old(nextStagingId));
                && Intact(old(apps), apps, j)
                && AllIntact(old(apps), old(history), history, j)
                && (if faults.poisoned then history == old(history) && r == Err(LockPoisoned)
                    else Follows(pid, Installer(q, formats, old(nextStagingId)), old(apps), faults, old(history),
                      history, r.Ok?))
                && match r
                   case Ok(record) =>
                     && j.id in apps && apps[j.id] == Folder(j.tree) && j.staging !in apps
                     && record == RecordFor(q.reading.package.manifest, Some(MetaOf(q)))
                   case Err(_) =>
                     SameAt(old(apps), apps, j.id)
                       || (faults.activate && faults.rollBack && SetAside(old(apps), apps, j))
    {
      if q.expectedDigest.Some? {
        if !DigestWellFormed(q.expectedDigest.value) {
          return Err(MalformedDigest);
        }
        if !SameIgnoringCase(q.expectedDigest.value, q.digest) {
          return Err(DigestMismatch);
        }
      }
      if !q.reading.Verified? {
        return Err(PackageError);
      }
      var package, publisher := q.reading.package, q.reading.publisher;
      if !q.allowUnsigned && publisher.None? {
        return Err(UnsignedPackage);
      }
      if q.expectedPublisher.Some? {
        if publisher.None? {
          return Err(NoPublisher);
        } else if publisher != q.expectedPublisher {
          return Err(OtherPublisher);
        }
      }
      var target := package.manifest.id;
      if !Accepted(target) {
        return Err(InvalidId);
      }
      ghost var j := JobOf(q, nextStagingId);
      var staging, backup := Staging(pid, nextStagingId), Backup(pid, nextStagingId);
      PrivateNames(pid, nextStagingId, nextStagingId);
      nextStagingId := nextStagingId + 1;
      NothingDone(apps, history, j);
      if faults.poisoned {
        return Err(LockPoisoned);
      }
      r := Replace(q, target, nextStagingId - 1, staging, backup, faults);
    }

    /** What happens under the lock. */
    method Replace(q: Request, target: string, ghost n: nat, staging: string, backup: string, faults: Faults)
      returns (r: Result<AppRecord>)
      requires q.reading.Verified? && Accepted(target) && target == q.reading.package.manifest.id
      requires staging == Staging(pid, n) && backup == Backup(pid, n)
      modifies this`apps, this`history
      ensures var j := Job(target, staging, backup, InstalledTree(formats, q));
              && Intact(old(apps), apps, j)
              && AllIntact(old(apps), old(history), history, j)
              && match r
                 case Ok(record) =>
                   && target in apps && apps[target] == Folder(j.tree) && staging !in apps
                   && record == RecordFor(q.reading.package.manifest, Some(MetaOf(q)))
                 case Err(_) =>
                   SameAt(old(apps), apps, target)
                     || (faults.activate && faults.rollBack && SetAside(old(apps), apps, j))
      ensures Follows(pid, Installer(q, formats, n), old(apps), faults, old(history), history, r.Ok?)
    {
      ghost var j, thread := Job(target, staging, backup, InstalledTree(formats, q)), Installer(q, formats, n);
      PrivateNames(pid, n, n);
      ghost var before, h := apps, history;
      NothingDone(before, h, j);
      ghost var all := Alone(pid, thread, before, faults);
      hide Alone;
      hide Intact;
      hide AllIntact;
      var staged := Stage(q, staging, faults, j, thread, h + all.0, all.1);
      if staged.Err? {
        return Err(staged.error);
      }
      r := Activate(q, target, staging, backup, faults, before, h, thread, h + all.0, all.1);
    }

    /** Extract the package and record where it came from. */
    method Stage(q: Request, staging: string, faults: Faults, ghost j: Job, ghost thread: Threads.Thread,
                 ghost goal: seq<Disk>, ghost good: bool)
      returns (r: Result<()>)
      requires q.reading.Verified? && j.Distinct() && staging == j.staging && j.tree == InstalledTree(formats, q)
      requires Alike(pid, thread, q, formats, j)
      requires GoesOn(pid, thread.(phase := Threads.Extracting), apps, faults, history, goal, good)
      modifies this`apps, this`history
      ensures Intact(old(apps), apps, j) && SameAt(old(apps), apps, j.id)
      ensures AllIntact(old(apps), old(history), history, j)
      ensures r.Ok? ==> staging in apps && apps[staging] == Folder(j.tree)
      ensures r.Ok? ==> GoesOn(pid, thread.(phase := Threads.Checking), apps, faults, history, goal, good)
      ensures r.Err? ==> history == goal && !good
    {
      ghost var before, h, p := apps, history, apps;
      NothingDone(before, h, j);
      hide Intact;
      hide AllIntact;
      hide GoesOn;
      hide Alike;
      hide RemoveAll;
      var ok := ExtractTo(q.reading.package.files, staging, faults.extract);
      StagingTouched(before, p, apps, j);
      OneMoreIntact(before, h, h, apps, j);
      ExtractingAlone(pid, thread, q, formats, j, p, faults, h, goal, good);
      if !ok {
        LeavingEnds(pid, thread, false, apps, faults, history, goal, good);
        return Err(CannotExtract);
      }
      p := apps;
      ok := WriteFile(staging, INSTALL_META, formats.printMeta(MetaOf(q)), faults.record);
      StagingTouched(before, p, apps, j);
      OneMoreIntact(before, h, h + [p], apps, j);
      RecordingAlone(pid, thread, q, formats, j, p, faults, h + [p], goal, good);
      if !ok {
        ghost var w := apps;
        var _ := RemoveDirAll(staging, faults.cleanStaging);
        StagingTouched(before, w, apps, j);
        OneMoreIntact(before, h, h + [p] + [w], apps, j);
        CleaningEnds(pid, thread, q, formats, j, w, faults, h + [p] + [w], goal, good);
        return Err(CannotRecord);
      }
      r := Ok(());
    }

    /** Swap the staged version in, or undo. */
    method Activate(q: Request, target: string, staging: string, backup: string, faults: Faults,
                    ghost before: Disk, ghost from: seq<Disk>, ghost thread: Threads.Thread,
                    ghost goal: seq<Disk>, ghost good: bool)
      returns (r: Result<AppRecord>)
      requires q.reading.Verified?
      requires var j := Job(target, staging, backup, InstalledTree(formats, q));
               && j.Distinct() && Intact(before, apps, j) && SameAt(before, apps, target)
               && AllIntact(before, from, history, j) && staging in apps && apps[staging] == Folder(j.tree)
               && Alike(pid, thread, q, formats, j)
      requires GoesOn(pid, thread.(phase := Threads.Checking), apps, faults, history, goal, good)
      modifies this`apps, this`history
      ensures var j := Job(target, staging, backup, InstalledTree(formats, q));
              && Intact(before, apps, j)
              && AllIntact(before, from, history, j)
              && match r
                 case Ok(record) =>
                   && target in apps && apps[target] == Folder(j.tree) && staging !in apps
                   && record == RecordFor(q.reading.package.manifest, Some(MetaOf(q)))
                 case Err(_) =>
                   SameAt(before, apps, target) || (faults.activate && faults.rollBack && SetAside(before, apps, j))
      ensures history == goal && r.Ok? == good
    {
      hide Intact;
      hide AllIntact;
      hide Rename;
      hide RemoveAll;
      hide SetAside;
      hide GoesOn;
      hide Alike;
      ghost var j := Job(target, staging, backup, InstalledTree(formats, q));
      ghost var p, h := apps, history;
      var hadPrevious := target in apps;
      CheckingAlone(pid, thread, q, formats, j, p, faults, h, goal, good);
      if hadPrevious {
        var ok := Move(target, backup, faults.setAside);
        SettingAsideAlone(pid, thread, q, formats, j, p, faults, h, goal, good);
        if !ok {
          OneMoreIntact(before, from, h, p, j);
          var _ := RemoveDirAll(staging, faults.cleanStaging);
          StagingTouched(before, p, apps, j);
          OneMoreIntact(before, from, h + [p], apps, j);
          CleaningEnds(pid, thread, q, formats, j, p, faults, h + [p], goal, good);
          return Err(CannotPrepare);
        }
        OldSetAside(before, p, j, faults.setAside);
        OneMoreIntact(before, from, h, apps, j);
      }
      p, h := apps, history;
      var ok := Move(staging, target, faults.activate);
      ActivatingAlone(pid, thread, q, formats, j, p, hadPrevious, faults, h, goal, good);
      if !ok {
        OneMoreIntact(before, from, h, p, j);
        if hadPrevious {
          var _ := Move(backup, target, faults.rollBack);
          RollingBackAlone(pid, thread, q, formats, j, p, faults, h + [p], goal, good);
          OldPutBack(before, p, j, faults.rollBack);
          OneMoreIntact(before, from, h + [p], apps, j);
        }
        p, h := apps, history;
        var _ := RemoveDirAll(staging, faults.cleanStaging);
        StagingTouched(before, p, apps, j);
        OneMoreIntact(before, from, h, apps, j);
        CleaningEnds(pid, thread, q, formats, j, p, faults, h, goal, good);
        return Err(CannotActivate);
      }
      NewActivated(before, p, j, faults.activate);
      OneMoreIntact(before, from, h, apps, j);
      p, h := apps, history;
      if hadPrevious {
        var _ := RemoveDirAll(backup, faults.cleanBackup);
        BackupTouched(before, p, apps, j);
        OneMoreIntact(before, from, h, apps, j);
        FinishingEnds(pid, thread, q, formats, j, p, faults, h, goal, good);
      } else {
        LeavingEnds(pid, thread, true, p, faults, h, goal, good);
      }
      r := Ok(RecordFor(q.reading.package.manifest, Some(MetaOf(q))));
    }

    /** A failed removal may leave part of the app behind; nothing else changes either way. */
    method Uninstall(id: string, poisoned: bool, how: Removal) returns (r: Result<()>)
      modifies this`apps, this`history
      ensures r.Ok? <==> !poisoned && Accepted(id) && id in old(apps) && old(apps)[id].Folder? && how.Finished?
      ensures r.Ok? ==> apps == old(apps) - {id}
      ensures r.Err? ==> apps == old(apps) || (r.error == CannotRemove && apps == RemoveAll(old(apps), id, how))
      ensures SameExcept(old(apps), apps, {id})
      ensures RecordOf(formats, old(apps), id).Some? ==>
                && (RecordOf(formats, apps, id).Some? <==> poisoned || (how.Stopped? && MANIFEST_FILE in how.left))
                && (id !in apps || SameAt(old(apps), apps, id) <==>
                      poisoned || how.Finished? || old(apps)[id].files.Keys <= how.left)
    {
      if RecordOf(formats, apps, id).Some? {
        RemovalShows(formats, apps, id, how);
      }
      hide RecordOf;
      hide RemoveAll;
      if poisoned {
        return Err(LockPoisoned);
      }
      if !Accepted(id) {
        return Err(InvalidId);
      }
      if id !in apps || apps[id].Plain? {
        return Err(NotInstalled);
      }
      var ok := RemoveDirAll(id, how);
      r := if ok then Ok(()) else Err(CannotRemove);
    }

    /**
     * The records of the directory's apps, each shown once, by id. `entries` is the order
     * in which the file system names them.
     */
    method List(entries: seq<string>) returns (records: seq<AppRecord>)
      requires forall name :: name in entries <==> name in apps
      requires forall i, k :: 0 <= i < k < |entries| ==> entries[i] != entries[k]
      ensures forall r: AppRecord :: r in records <==> RecordOf(formats, apps, r.manifest.id) == Some(r)
      ensures forall i, k :: 0 <= i < k < |records| ==> RustBefore(records[i].manifest.id, records[k].manifest.id)
    {
      records := [];
      for i := 0 to |entries|
        invariant Listed(formats, apps, entries[..i], records)
      {
        var record := RecordOf(formats, apps, entries[i]);
        OneMoreListed(formats, apps, entries, i, records);
        if record.Some? {
          records := records + [record.value];
        }
      }
      assert entries[..|entries|] == entries;
      ghost var unsorted := records;
      records := Sort(ById, records);
      SortedById(unsorted);
      AllListed(formats, apps, entries, unsorted);
      SameElements(records, unsorted);
    }
  }
}
