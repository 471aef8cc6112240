/**
 * Any number of installers and uninstallers at work in one process. A step is one atomic
 * operation: taking a number, taking or leaving the lock, or one file system call.
 */
module AppStoreThreads {
  import opened ByteCodec
  import opened Wrappers
  import opened FileSystem
  import opened AppId
  import opened AppStore

  datatype Operation =
    | Install(id: string, files: Tree, meta: Bytes)
    | Uninstall(id: string)

  datatype Phase =
    | Outside
    | Extracting | Recording | Checking | SettingAside | Activating(hadPrevious: bool) | RollingBack
    | Cleaning | Finishing
    | Removing
    /** `remove_dir_all` unlinks one file after another. */
    | Unlinking
    | Leaving(ok: bool)
    | Done(ok: bool)

  datatype Thread = Thread(op: Operation, number: Option<nat>, phase: Phase) {
    function JobIn(pid: nat): Job
      requires op.Install? && number.Some?
    {
      Job(op.id, Staging(pid, number.value), Backup(pid, number.value), op.files[INSTALL_META := op.meta])
    }

    /** Holding the lock. */
    predicate Inside() {
      !phase.Outside? && !phase.Done?
    }

    predicate Succeeded() {
      phase.Finishing? || phase == Leaving(true) || phase == Done(true)
    }

    /** The app is between what was installed and what will be. */
    predicate Unsettled() {
      InGap() || phase.Unlinking?
    }

    /** Between setting the old version aside and what follows. */
    predicate InGap() {
      phase == Activating(true) || phase.RollingBack?
    }
  }

  /** The one moment at which an operation changes what is installed. */
  datatype Effect =
    | Put(thread: nat, id: string, tree: Tree)
    | Deleted(thread: nat, id: string)
    | Damaged(thread: nat, id: string, left: Node)
    | Stranded(thread: nat, id: string)

  function After(d: Disk, e: Effect): Disk {
    match e
    case Put(_, id, tree) => d[id := Folder(tree)]
    case Deleted(_, id) => d - {id}
    case Damaged(_, id, left) => d[id := left]
    case Stranded(_, id) => d - {id}
  }

  /** What is installed after these effects, one after another. */
  function Replay(start: Disk, log: seq<Effect>): Disk {
    if log == [] then start else After(Replay(start, log[..|log| - 1]), log[|log| - 1])
  }

  datatype System = System(
    pid: nat, next: nat, holder: Option<nat>, threads: map<nat, Thread>, disk: Disk, log: seq<Effect>)

  /** How one file system call goes; a removal that neither fails nor finishes goes on with the files it has left. */
  datatype Luck = Luck(fails: bool, left: Option<Node>, partial: Tree, how: Removal)

  datatype Step = TakeNumber(t: nat) | Enter(t: nat) | Work(t: nat, luck: Luck) | Leave(t: nat)

  datatype Outcome = Outcome(phase: Phase, disk: Disk, effects: seq<Effect>)

  /** One file system call of the installer or uninstaller that holds the lock. */
  function Call(pid: nat, t: nat, thread: Thread, d: Disk, luck: Luck): Outcome
    requires thread.Inside() && !thread.phase.Leaving?
    requires if thread.phase.Removing? || thread.phase.Unlinking? then thread.op.Uninstall?
             else thread.op.Install? && thread.number.Some?
  {
    if thread.phase.Removing? then
      var there := Accepted(thread.op.id) && thread.op.id in d && d[thread.op.id].Folder?;
      Outcome(if there then Unlinking else Leaving(false), d, [])
    else if thread.phase.Unlinking? then UnlinkCall(t, thread.op.id, d, luck)
    else
      var j := thread.JobIn(pid);
      match thread.phase
      case Extracting =>
        if luck.fails then
          Outcome(Leaving(false), if luck.left.Some? then d[j.staging := luck.left.value] else d - {j.staging}, [])
        else Outcome(Recording, d[j.staging := Folder(thread.op.files)], [])
      case Recording =>
        if luck.fails then Outcome(Cleaning, d[j.staging := Folder(luck.partial)], [])
        else Outcome(Checking, d[j.staging := Folder(j.tree)], [])
      case Checking => Outcome(if j.id in d then SettingAside else Activating(false), d, [])
      case SettingAside =>
        (match Rename(d, j.id, j.backup, luck.fails)
         case Some(moved) => Outcome(Activating(true), moved, [])
         case None => Outcome(Cleaning, d, []))
      case Activating(had) =>
        (match Rename(d, j.staging, j.id, luck.fails)
         case Some(moved) => Outcome(if had then Finishing else Leaving(true), moved, [Put(t, j.id, j.tree)])
         case None => Outcome(if had then RollingBack else Cleaning, d, []))
      case RollingBack =>
        (match Rename(d, j.backup, j.id, luck.fails)
         case Some(moved) => Outcome(Cleaning, moved, [])
         case None => Outcome(Cleaning, d, [Stranded(t, j.id)]))
      case Cleaning => Outcome(Leaving(false), RemoveAll(d, j.staging, luck.how), [])
      case Finishing => Outcome(Leaving(true), RemoveAll(d, j.backup, luck.how), [])
  }

  function UnlinkCall(t: nat, id: string, d: Disk, luck: Luck): Outcome {
    var left := RemoveAll(d, id, luck.how);
    if id !in left then Outcome(Leaving(true), left, [Deleted(t, id)])
    else if luck.fails then Outcome(Leaving(false), left, [Damaged(t, id, left[id])])
    else Outcome(Unlinking, left, [])
  }

  predicate Proper(thread: Thread) {
    && (thread.op.Install? ==>
          Accepted(thread.op.id) && !thread.phase.Removing? && !thread.phase.Unlinking?
          && (thread.number.None? ==> thread.phase.Outside?))
    && (thread.op.Uninstall? ==>
          && thread.number.None? && (thread.phase.Unlinking? ==> Accepted(thread.op.id))
          && (thread.phase.Outside? || thread.phase.Removing? || thread.phase.Unlinking?
              || thread.phase.Leaving? || thread.phase.Done?))
  }

  predicate Enabled(s: System, step: Step) {
    && step.t in s.threads
    && var thread := s.threads[step.t];
       && Proper(thread)
       && match step
          case TakeNumber(_) => thread.op.Install? && thread.number.None?
          case Enter(_) => thread.phase.Outside? && s.holder.None? && (thread.op.Install? ==> thread.number.Some?)
          case Work(_, _) => s.holder == Some(step.t) && thread.Inside() && !thread.phase.Leaving?
          case Leave(_) => s.holder == Some(step.t) && thread.phase.Leaving?
  }

  function Apply(s: System, step: Step): System
    requires Enabled(s, step)
  {
    var t := step.t;
    var thread := s.threads[t];
    match step
    case TakeNumber(_) => s.(threads := s.threads[t := thread.(number := Some(s.next))], next := s.next + 1)
    case Enter(_) =>
      var first := if thread.op.Install? then Extracting else Removing;
      s.(threads := s.threads[t := thread.(phase := first)], holder := Some(t))
    case Work(_, luck) =>
      var r := Call(s.pid, t, thread, s.disk, luck);
      s.(threads := s.threads[t := thread.(phase := r.phase)], disk := r.disk, log := s.log + r.effects)
    case Leave(_) => s.(threads := s.threads[t := thread.(phase := Done(thread.phase.ok))], holder := None)
  }

  /** Nobody has begun. */
  predicate Initial(s: System, start: Disk) {
    && s.holder.None? && s.log == [] && s.disk == start
    && forall t :: t in s.threads ==> Proper(s.threads[t]) && s.threads[t].number.None? && s.threads[t].phase.Outside?
  }

  // --- the invariant -------------------------------------------------------------

  predicate Numbered(s: System) {
    && (forall t :: t in s.threads ==> Proper(s.threads[t]))
    && (forall t :: t in s.threads && s.threads[t].number.Some? ==> s.threads[t].number.value < s.next)
    && (forall t, u :: t in s.threads && u in s.threads && t != u && s.threads[t].number.Some?
          ==> s.threads[t].number != s.threads[u].number)
  }

  predicate Locked(s: System) {
    && (forall t :: t in s.threads ==> (s.threads[t].Inside() <==> s.holder == Some(t)))
    && (s.holder.Some? ==> s.holder.value in s.threads)
  }

  /** What the thread at work knows about its own directories; `store` is what is installed. */
  predicate Local(pid: nat, thread: Thread, d: Disk, store: Disk) {
    && (thread.phase.Unlinking? ==> PartOf(store, d, thread.op.id))
    && (thread.op.Install? && thread.number.Some? ==> LocalInstall(pid, thread, d, store))
  }

  predicate LocalInstall(pid: nat, thread: Thread, d: Disk, store: Disk)
    requires thread.op.Install? && thread.number.Some?
  {
      var j := thread.JobIn(pid);
      var staged := j.staging in d && d[j.staging] == Folder(j.tree);
      match thread.phase
      case Recording => j.staging in d && d[j.staging] == Folder(thread.op.files)
      case Checking => staged
      case SettingAside => staged && j.id in d
      case Activating(had) => staged && if had then AppStore.SetAside(store, d, j) else j.id !in d
      case RollingBack => AppStore.SetAside(store, d, j)
      case _ => true
  }

  /** Apart from an unsettled app, the directory is what the effects so far make it. */
  ghost predicate Current(d: Disk, store: Disk, unsettled: Option<string>) {
    forall id :: Accepted(id) && unsettled != Some(id) ==> SameAt(store, d, id)
  }

  /** The app the thread inside is about to change. */
  function Unsettled(s: System): Option<string> {
    if s.holder.Some? && s.holder.value in s.threads && s.threads[s.holder.value].Unsettled()
    then Some(s.threads[s.holder.value].op.id) else None
  }

  /** The app whose old version is set aside. */
  function Gap(s: System): Option<string> {
    if s.holder.Some? && s.holder.value in s.threads && s.threads[s.holder.value].InGap()
    then Some(s.threads[s.holder.value].op.id) else None
  }

  /** The app whose files are being removed. */
  function BeingRemoved(s: System): Option<string> {
    if s.holder.Some? && s.holder.value in s.threads && s.threads[s.holder.value].phase.Unlinking?
    then Some(s.threads[s.holder.value].op.id) else None
  }

  /** An old version that could not be put back stays, complete, in its backup directory. */
  ghost predicate Kept(s: System, start: Disk) {
    forall i :: 0 <= i < |s.log| && s.log[i].Stranded? ==> KeptAt(s, start, i)
  }

  predicate KeptAt(s: System, start: Disk, i: nat)
    requires i < |s.log| && s.log[i].Stranded?
  {
    var t, id := s.log[i].thread, s.log[i].id;
    && t in s.threads && s.threads[t].number.Some?
    && (s.threads[t].phase.Cleaning? || s.threads[t].phase == Leaving(false) || s.threads[t].phase == Done(false))
    && var backup, previous := Backup(s.pid, s.threads[t].number.value), Replay(start, s.log[..i]);
       backup in s.disk && id in previous && s.disk[backup] == previous[id]
  }

  predicate EffectOf(e: Effect, t: nat, thread: Thread) {
    && e.thread == t && e.id == thread.op.id
    && match e
       case Put(_, _, tree) => thread.op.Install? && thread.Succeeded()
         && tree == thread.op.files[INSTALL_META := thread.op.meta]
       case Deleted(_, _) => thread.op.Uninstall? && thread.Succeeded()
       case Damaged(_, _, _) => thread.op.Uninstall? && (thread.phase == Leaving(false) || thread.phase == Done(false))
       case Stranded(_, _) =>
         thread.op.Install? && (thread.phase.Cleaning? || thread.phase == Leaving(false) || thread.phase == Done(false))
  }

  /** Every effect is its thread's only one, and what succeeded has had its effect. */
  ghost predicate OneEffectEach(s: System) {
    && (forall i :: 0 <= i < |s.log| ==>
          s.log[i].thread in s.threads && EffectOf(s.log[i], s.log[i].thread, s.threads[s.log[i].thread]))
    && (forall i, k :: 0 <= i < k < |s.log| ==> s.log[i].thread != s.log[k].thread)
    && (forall t :: t in s.threads && s.threads[t].Succeeded() ==> exists i :: 0 <= i < |s.log| && s.log[i].thread == t)
  }

  ghost predicate Invariant(s: System, start: Disk) {
    && Numbered(s) && Locked(s) && OneEffectEach(s)
    && Current(s.disk, Replay(start, s.log), Unsettled(s))
    && (s.holder.Some? ==> Local(s.pid, s.threads[s.holder.value], s.disk, Replay(start, s.log)))
    && Kept(s, start)
  }

  // --- every step keeps it ----------------------------------------------------------

  lemma ThreadsByStep(s: System, step: Step)
    requires Enabled(s, step)
    ensures var s', t := Apply(s, step), step.t;
            && s'.threads.Keys == s.threads.Keys
               && (forall u :: u in s.threads && u != t ==> s'.threads[u] == s.threads[u])
            && Proper(s'.threads[t])
            && s'.threads[t].number == (if step.TakeNumber? then Some(s.next) else s.threads[t].number)
            && s'.next == (if step.TakeNumber? then s.next + 1 else s.next)
  {
    hide Rename;
    hide RemoveAll;
    hide Accepted;
  }

  lemma NumbersKept(s: System, step: Step)
    requires Numbered(s) && Enabled(s, step)
    ensures Numbered(Apply(s, step))
  {
    ThreadsByStep(s, step);
    assert step.TakeNumber? ==> s.threads[step.t].number.None?;
    hide Apply;
    hide Enabled;
    hide Proper;
  }

  lemma LockKept(s: System, step: Step)
    requires Locked(s) && Enabled(s, step)
    ensures Locked(Apply(s, step))
  {
    hide Rename;
    hide RemoveAll;
    hide Accepted;
    var s' := Apply(s, step);
    assert forall u :: u in s.threads && u != step.t ==> s'.threads[u] == s.threads[u];
  }

  /** The names a call may touch. */
  function Touches(pid: nat, thread: Thread): set<string> {
    if thread.op.Install? && thread.number.Some? then thread.JobIn(pid).Names()
    else if Accepted(thread.op.id) then {thread.op.id}
    else {}
  }

  lemma NamesApart(pid: nat, thread: Thread)
    requires Proper(thread) && thread.op.Install? && thread.number.Some?
    ensures thread.JobIn(pid).Distinct()
  {
    PrivateNames(pid, thread.number.value, thread.number.value);
  }

  lemma CallTouches(pid: nat, t: nat, thread: Thread, d: Disk, luck: Luck)
    requires Proper(thread) && thread.Inside() && !thread.phase.Leaving?
    ensures SameExcept(d, Call(pid, t, thread, d, luck).disk, Touches(pid, thread))
  {
    if thread.op.Install? {
      NamesApart(pid, thread);
      hide Accepted;
      hide Rename;
      hide RemoveAll;
    } else {
      hide Accepted;
      hide RemoveAll;
    }
  }

  function AfterAll(d: Disk, effects: seq<Effect>): Disk {
    if effects == [] then d else After(d, effects[0])
  }

  lemma ReplayOneMore(start: Disk, log: seq<Effect>, effects: seq<Effect>)
    requires |effects| <= 1
    ensures Replay(start, log + effects) == AfterAll(Replay(start, log), effects)
  {
    if effects == [] {
      assert log + effects == log;
    } else {
      assert (log + effects)[..|log|] == log && (log + effects)[|log|] == effects[0];
    }
  }

  /** The thread's own app is as installed, unless it is unsettled. */
  predicate OwnCurrent(thread: Thread, d: Disk, store: Disk) {
    Accepted(thread.op.id) && !thread.Unsettled() ==> SameAt(store, d, thread.op.id)
  }

  predicate Ready(pid: nat, thread: Thread, d: Disk, store: Disk) {
    && Proper(thread) && thread.Inside() && !thread.phase.Leaving?
    && Local(pid, thread, d, store) && OwnCurrent(thread, d, store)
  }

  predicate KeepsUp(pid: nat, thread: Thread, r: Outcome, store: Disk) {
    && |r.effects| <= 1
    && Local(pid, thread.(phase := r.phase), r.disk, AfterAll(store, r.effects))
    && OwnCurrent(thread.(phase := r.phase), r.disk, AfterAll(store, r.effects))
  }

  lemma StagingCalls(pid: nat, t: nat, thread: Thread, d: Disk, store: Disk, luck: Luck)
    requires Ready(pid, thread, d, store)
    requires thread.phase.Extracting? || thread.phase.Recording? || thread.phase.Checking?
    ensures KeepsUp(pid, thread, Call(pid, t, thread, d, luck), store)
  {
    NamesApart(pid, thread);
    hide Accepted;
  }

  lemma RenamingCalls(pid: nat, t: nat, thread: Thread, d: Disk, store: Disk, luck: Luck)
    requires Ready(pid, thread, d, store)
    requires thread.phase.SettingAside? || thread.phase.Activating? || thread.phase.RollingBack?
    ensures KeepsUp(pid, thread, Call(pid, t, thread, d, luck), store)
  {
    NamesApart(pid, thread);
    hide Accepted;
  }

  lemma CleaningCalls(pid: nat, t: nat, thread: Thread, d: Disk, store: Disk, luck: Luck)
    requires Ready(pid, thread, d, store)
    requires thread.phase.Cleaning? || thread.phase.Finishing?
    ensures KeepsUp(pid, thread, Call(pid, t, thread, d, luck), store)
  {
    NamesApart(pid, thread);
    hide Accepted;
    var j := thread.JobIn(pid);
    assert SameAt(d, RemoveAll(d, j.staging, luck.how), j.id);
    assert SameAt(d, RemoveAll(d, j.backup, luck.how), j.id);
    hide RemoveAll;
  }

  lemma RemovingCall(pid: nat, t: nat, thread: Thread, d: Disk, store: Disk, luck: Luck)
    requires Ready(pid, thread, d, store) && (thread.phase.Removing? || thread.phase.Unlinking?)
    ensures KeepsUp(pid, thread, Call(pid, t, thread, d, luck), store)
  {
    hide Accepted;
  }

  lemma CallKeepsUp(pid: nat, t: nat, thread: Thread, d: Disk, store: Disk, luck: Luck)
    requires Ready(pid, thread, d, store)
    ensures KeepsUp(pid, thread, Call(pid, t, thread, d, luck), store)
  {
    if thread.phase.Removing? || thread.phase.Unlinking? {
      RemovingCall(pid, t, thread, d, store, luck);
    } else if thread.phase.Cleaning? || thread.phase.Finishing? {
      CleaningCalls(pid, t, thread, d, store, luck);
    } else if thread.phase.Extracting? || thread.phase.Recording? || thread.phase.Checking? {
      StagingCalls(pid, t, thread, d, store, luck);
    } else {
      RenamingCalls(pid, t, thread, d, store, luck);
    }
  }

  /** The calls with which an operation takes effect, and none before. */
  lemma CallEffects(pid: nat, t: nat, thread: Thread, d: Disk, luck: Luck)
    requires Proper(thread) && thread.Inside() && !thread.phase.Leaving?
    ensures var r := Call(pid, t, thread, d, luck);
            var next := thread.(phase := r.phase);
            && |r.effects| <= 1
            && (r.effects != [] ==> EffectOf(r.effects[0], t, next) && forall e :: !EffectOf(e, t, thread))
            && (next.Succeeded() ==> thread.Succeeded() || r.effects != [])
            && (forall e :: EffectOf(e, t, thread) ==> EffectOf(e, t, next))
  {
    hide Accepted;
    hide Rename;
    hide RemoveAll;
  }

  lemma EffectsKept(s: System, step: Step)
    requires Numbered(s) && Locked(s) && OneEffectEach(s) && Enabled(s, step)
    ensures OneEffectEach(Apply(s, step))
  {
    hide Accepted;
    hide Call;
    var s' := Apply(s, step);
    if step.Work? {
      CallEffects(s.pid, step.t, s.threads[step.t], s.disk, step.luck);
      WorkEffectsKept(s, step, Call(s.pid, step.t, s.threads[step.t], s.disk, step.luck));
    } else {
      assert s'.log == s.log;
      QuietEffectsKept(s, s', step.t);
    }
  }

  lemma QuietEffectsKept(s: System, s': System, t: nat)
    requires OneEffectEach(s) && s'.log == s.log && t in s.threads && s'.threads.Keys == s.threads.Keys
    requires forall u :: u in s.threads && u != t ==> s'.threads[u] == s.threads[u]
    requires forall e :: EffectOf(e, t, s.threads[t]) ==> EffectOf(e, t, s'.threads[t])
    requires s'.threads[t].Succeeded() ==> s.threads[t].Succeeded()
    ensures OneEffectEach(s')
  {
    hide EffectOf;
    forall i | 0 <= i < |s'.log|
      ensures s'.log[i].thread in s'.threads && EffectOf(s'.log[i], s'.log[i].thread, s'.threads[s'.log[i].thread])
    {
      assert EffectOf(s.log[i], s.log[i].thread, s.threads[s.log[i].thread]);
    }
  }

  lemma WorkEffectsKept(s: System, step: Step, r: Outcome)
    requires OneEffectEach(s) && step.t in s.threads && |r.effects| <= 1
    requires var thread := s.threads[step.t];
             var next := thread.(phase := r.phase);
             && (r.effects != [] ==> EffectOf(r.effects[0], step.t, next) && forall e :: !EffectOf(e, step.t, thread))
             && (next.Succeeded() ==> thread.Succeeded() || r.effects != [])
             && (forall e :: EffectOf(e, step.t, thread) ==> EffectOf(e, step.t, next))
    ensures OneEffectEach(
              s.(threads := s.threads[step.t := s.threads[step.t].(phase := r.phase)],
                 disk := r.disk, log := s.log + r.effects))
  {
    var threads := s.threads[step.t := s.threads[step.t].(phase := r.phase)];
    var quiet := s.(threads := threads, disk := r.disk);
    if r.effects == [] {
      QuietEffectsKept(s, quiet, step.t);
      assert s.log + r.effects == s.log;
    } else {
      LoudEffectsKept(s, step.t, threads, r.effects[0], r.disk);
      assert s.log + r.effects == s.log + [r.effects[0]];
    }
  }

  lemma LoudEffectsKept(s: System, t: nat, threads: map<nat, Thread>, e: Effect, disk: Disk)
    requires OneEffectEach(s) && t in s.threads && threads.Keys == s.threads.Keys && e.thread == t
    requires forall u :: u in s.threads && u != t ==> threads[u] == s.threads[u]
    requires EffectOf(e, t, threads[t]) && forall f :: !EffectOf(f, t, s.threads[t])
    ensures OneEffectEach(s.(threads := threads, disk := disk, log := s.log + [e]))
  {
    hide EffectOf;
    var s' := s.(threads := threads, disk := disk, log := s.log + [e]);
    forall i | 0 <= i < |s.log|
      ensures s.log[i].thread != t
      ensures s'.log[i].thread in threads && EffectOf(s'.log[i], s'.log[i].thread, threads[s'.log[i].thread])
    {
      assert EffectOf(s.log[i], s.log[i].thread, s.threads[s.log[i].thread]);
    }
    forall u | u in threads && threads[u].Succeeded()
      ensures exists i :: 0 <= i < |s'.log| && s'.log[i].thread == u
    {
      if u == t {
        assert s'.log[|s.log|].thread == t;
      } else {
        var i :| 0 <= i < |s.log| && s.log[i].thread == u;
        assert s'.log[i].thread == u;
      }
    }
  }

  lemma OthersCurrent(d: Disk, d': Disk, store: Disk, store': Disk, pid: nat, thread: Thread, next: Thread)
    requires Proper(thread) && next.op == thread.op && (thread.op.Install? ==> thread.number.Some?)
    requires Current(d, store, if thread.Unsettled() then Some(thread.op.id) else None)
    requires SameExcept(d, d', Touches(pid, thread)) && SameExcept(store, store', {thread.op.id})
    requires OwnCurrent(next, d', store')
    ensures Current(d', store', if next.Unsettled() then Some(next.op.id) else None)
  {
    var gap := if next.Unsettled() then Some(next.op.id) else None;
    forall id | Accepted(id) && gap != Some(id)
      ensures SameAt(store', d', id)
    {
      if id != thread.op.id {
        if thread.op.Install? {
          PrivateNames(pid, thread.number.value, thread.number.value);
        }
        assert id !in Touches(pid, thread);
        assert SameAt(store, d, id) && SameAt(d, d', id) && SameAt(store, store', id);
      }
    }
  }

  lemma EffectOnOwn(store: Disk, effects: seq<Effect>, id: string)
    requires |effects| <= 1 && forall e :: e in effects ==> e.id == id
    ensures SameExcept(store, AfterAll(store, effects), {id})
  {
  }

  lemma CurrentKept(s: System, step: Step, start: Disk)
    requires Invariant(s, start) && Enabled(s, step)
    ensures var s' := Apply(s, step);
            && Current(s'.disk, Replay(start, s'.log), Unsettled(s'))
            && (s'.holder.Some? ==> Local(s'.pid, s'.threads[s'.holder.value], s'.disk, Replay(start, s'.log)))
  {
    hide Accepted;
    var t, thread := step.t, s.threads[step.t];
    match step
    case TakeNumber(_) =>
      hide Replay;
    case Enter(_) =>
      hide Replay;
    case Leave(_) =>
      hide Replay;
    case Work(_, luck) =>
      var store := Replay(start, s.log);
      CallKeepsUp(s.pid, t, thread, s.disk, store, luck);
      CallEffects(s.pid, t, thread, s.disk, luck);
      CallTouches(s.pid, t, thread, s.disk, luck);
      var r := Call(s.pid, t, thread, s.disk, luck);
      ReplayOneMore(start, s.log, r.effects);
      EffectOnOwn(store, r.effects, thread.op.id);
      var next := thread.(phase := r.phase);
      OthersCurrent(s.disk, r.disk, store, AfterAll(store, r.effects), s.pid, thread, next);
      hide Current;
      hide Call;
      hide Local;
      LockKept(s, step);
  }

  lemma OthersBackupUntouched(s: System, t: nat, u: nat, d: Disk)
    requires Numbered(s) && t in s.threads && u in s.threads && t != u && s.threads[u].number.Some?
    requires SameExcept(s.disk, d, Touches(s.pid, s.threads[t]))
    ensures SameAt(s.disk, d, Backup(s.pid, s.threads[u].number.value))
  {
    var n, thread := s.threads[u].number.value, s.threads[t];
    PrivateNames(s.pid, n, n);
    if thread.op.Install? && thread.number.Some? {
      PrivateNames(s.pid, thread.number.value, n);
    }
    assert Backup(s.pid, n) !in Touches(s.pid, thread);
  }

  lemma EarlierStaysKept(s: System, step: Step, start: Disk, i: nat)
    requires Invariant(s, start) && Enabled(s, step) && step.Work?
    requires i < |s.log| && s.log[i].Stranded? && KeptAt(s, start, i)
    ensures i < |Apply(s, step).log| && Apply(s, step).log[i] == s.log[i] && KeptAt(Apply(s, step), start, i)
  {
    hide Accepted;
    hide Replay;
    var s', t, u := Apply(s, step), step.t, s.log[i].thread;
    assert s'.log[..i] == s.log[..i];
    if u == t {
      var j := s.threads[t].JobIn(s.pid);
      assert s'.disk == RemoveAll(s.disk, j.staging, step.luck.how);
      NamesApart(s.pid, s.threads[t]);
      assert SameAt(s.disk, s'.disk, j.backup);
      hide RemoveAll;
    } else {
      CallTouches(s.pid, t, s.threads[t], s.disk, step.luck);
      OthersBackupUntouched(s, t, u, s'.disk);
      hide Call;
    }
  }

  lemma NewlyStrandedIsKept(s: System, step: Step, start: Disk)
    requires Invariant(s, start) && Enabled(s, step) && step.Work?
    requires var r := Call(s.pid, step.t, s.threads[step.t], s.disk, step.luck);
             r.effects != [] && r.effects[0].Stranded?
    ensures KeptAt(Apply(s, step), start, |s.log|)
  {
    hide Accepted;
    hide Replay;
    hide Rename;
    hide RemoveAll;
    var s' := Apply(s, step);
    assert s'.log[..|s.log|] == s.log;
    assert s.threads[step.t].phase.RollingBack?;
  }

  lemma KeptKept(s: System, step: Step, start: Disk)
    requires Invariant(s, start) && Enabled(s, step)
    ensures Kept(Apply(s, step), start)
  {
    hide *;
    var s' := Apply(s, step);
    forall i | 0 <= i < |s'.log| && s'.log[i].Stranded?
      ensures KeptAt(s', start, i)
    {
      OneKept(s, step, start, i);
    }
    AllKept(s', start);
  }

  lemma AllKept(s: System, start: Disk)
    requires forall i :: 0 <= i < |s.log| && s.log[i].Stranded? ==> KeptAt(s, start, i)
    ensures Kept(s, start)
  {
    hide KeptAt;
  }

  lemma OneKept(s: System, step: Step, start: Disk, i: nat)
    requires Invariant(s, start) && Enabled(s, step) && i < |Apply(s, step).log| && Apply(s, step).log[i].Stranded?
    ensures KeptAt(Apply(s, step), start, i)
  {
    hide *;
    LogByStep(s, step);
    StrandedSoFar(s, start);
    if i < |s.log| {
      if step.Work? {
        EarlierStaysKept(s, step, start, i);
      } else {
        QuietStaysKept(s, step, start, i);
      }
    } else {
      Counted(s, step);
      NewlyStrandedIsKept(s, step, start);
    }
  }

  lemma Counted(s: System, step: Step)
    requires Enabled(s, step) && step.Work?
    ensures step.t in s.threads
  {
  }

  lemma StrandedSoFar(s: System, start: Disk)
    requires Invariant(s, start)
    ensures forall i :: 0 <= i < |s.log| && s.log[i].Stranded? ==> KeptAt(s, start, i)
  {
  }

  lemma LogByStep(s: System, step: Step)
    requires Enabled(s, step)
    ensures var log := Apply(s, step).log;
            && s.log <= log
            && (!step.Work? ==> log == s.log)
            && (step.Work? ==>
                  var effects := Call(s.pid, step.t, s.threads[step.t], s.disk, step.luck).effects;
                  log == s.log + effects && |effects| <= 1)
  {
    hide Accepted;
    hide Rename;
    hide RemoveAll;
  }

  lemma QuietStaysKept(s: System, step: Step, start: Disk, i: nat)
    requires Enabled(s, step) && !step.Work? && i < |s.log| && s.log[i].Stranded? && KeptAt(s, start, i)
    ensures KeptAt(Apply(s, step), start, i)
  {
    hide Accepted;
    hide Replay;
  }

  /** Every step keeps the invariant. */
  lemma InvariantKept(s: System, step: Step, start: Disk)
    requires Invariant(s, start) && Enabled(s, step)
    ensures Invariant(Apply(s, step), start)
  {
    NumbersKept(s, step);
    LockKept(s, step);
    EffectsKept(s, step);
    CurrentKept(s, step, start);
    KeptKept(s, step, start);
    hide *;
    Assembled(Apply(s, step), start);
  }

  lemma Assembled(s: System, start: Disk)
    requires Numbered(s) && Locked(s) && OneEffectEach(s) && Kept(s, start)
    requires Current(s.disk, Replay(start, s.log), Unsettled(s))
    requires s.holder.Some? && s.holder.value in s.threads ==>
               Local(s.pid, s.threads[s.holder.value], s.disk, Replay(start, s.log))
    ensures Invariant(s, start)
  {
  }

  // --- what follows for every run ------------------------------------------------------

  ghost predicate RunsTo(s: System, steps: seq<Step>, end: System)
    decreases |steps|
  {
    if steps == [] then end == s
    else Enabled(s, steps[0]) && RunsTo(Apply(s, steps[0]), steps[1..], end)
  }

  lemma InvariantAtFirst(s: System, start: Disk)
    requires Initial(s, start)
    ensures Invariant(s, start)
  {
  }

  lemma {:induction false} InvariantAlong(s: System, start: Disk, steps: seq<Step>, end: System)
    requires Invariant(s, start) && RunsTo(s, steps, end)
    ensures Invariant(end, start)
    decreases |steps|
  {
    if steps != [] {
      InvariantKept(s, steps[0], start);
      hide Invariant;
      hide Enabled;
      hide Apply;
      InvariantAlong(Apply(s, steps[0]), start, steps[1..], end);
    }
  }

  /** However the steps interleave, at most one thread is inside, and no two share a staging or backup directory. */
  lemma OneAtATime(s: System, start: Disk, steps: seq<Step>, end: System, t: nat, u: nat)
    requires Initial(s, start) && RunsTo(s, steps, end) && t in end.threads && u in end.threads && t != u
    ensures !(end.threads[t].Inside() && end.threads[u].Inside())
    ensures end.threads[t].number.Some? && end.threads[u].number.Some? ==>
              var a, b := end.threads[t].number.value, end.threads[u].number.value;
              Staging(end.pid, a) != Staging(end.pid, b) && Backup(end.pid, a) != Backup(end.pid, b)
  {
    InvariantAtFirst(s, start);
    InvariantAlong(s, start, steps, end);
    if end.threads[t].number.Some? && end.threads[u].number.Some? {
      PrivateNames(end.pid, end.threads[t].number.value, end.threads[u].number.value);
    }
    hide RunsTo;
    hide Current;
    hide OneEffectEach;
    hide Kept;
    hide Staging;
    hide Backup;
  }

  /** What `list` shows for a name at this moment, given what is installed. */
  ghost predicate Shows(s: System, store: Disk, formats: Formats, name: string) {
    if Gap(s) == Some(name) then RecordOf(formats, s.disk, name) == None
    else if BeingRemoved(s) == Some(name) then
      && PartOf(store, s.disk, name)
      && RecordOf(formats, s.disk, name) ==
           if MANIFEST_FILE !in s.disk[name].files then None
           else if INSTALL_META in s.disk[name].files then RecordOf(formats, store, name)
           else Bare(RecordOf(formats, store, name))
    else RecordOf(formats, s.disk, name) == RecordOf(formats, store, name)
  }

  /**
   * At every moment of every run, a crash included, what `list` shows for a name is what
   * the effects so far installed there, with two exceptions. An app whose old version is set
   * aside is not shown. An app whose files are being removed is shown until its manifest is
   * gone, and without its installation's part once `install.json` is. No staging or backup
   * directory is ever shown.
   */
  lemma ListedIsInstalled(s: System, start: Disk, steps: seq<Step>, end: System, formats: Formats, name: string)
    requires Initial(s, start) && RunsTo(s, steps, end)
    ensures Shows(end, Replay(start, end.log), formats, name)
    ensures RecordOf(formats, end.disk, name).Some? ==>
              RecordOf(formats, end.disk, name).value.manifest.id == name
              && forall n :: name != Staging(end.pid, n) && name != Backup(end.pid, n)
  {
    InvariantAtFirst(s, start);
    InvariantAlong(s, start, steps, end);
    hide RunsTo;
    forall n
      ensures !Accepted(Staging(end.pid, n)) && !Accepted(Backup(end.pid, n))
    {
      PrivateNames(end.pid, n, n);
    }
    ShownFromStore(end, start, formats, name);
    hide *;
  }

  lemma ShownFromStore(s: System, start: Disk, formats: Formats, name: string)
    requires Invariant(s, start)
    ensures Shows(s, Replay(start, s.log), formats, name)
    ensures RecordOf(formats, s.disk, name).Some? ==>
            Accepted(name) && RecordOf(formats, s.disk, name).value.manifest.id == name
  {
    hide Kept;
    hide OneEffectEach;
    hide Replay;
    hide Accepted;
    if Gap(s) == Some(name) {
      assert name !in s.disk;
    } else if BeingRemoved(s) == Some(name) {
      PartShown(formats, Replay(start, s.log), s.disk, name);
    } else if Accepted(name) {
      assert SameAt(Replay(start, s.log), s.disk, name);
      RecordDependsOn(formats, Replay(start, s.log), s.disk, name);
    }
  }

  predicate TookEffect(e: Effect) {
    e.Put? || e.Deleted?
  }

  /**
   * When everyone is done, the apps are what the effects, taken one at a time, make them.
   * An operation that reported success has exactly one effect, its own; one that reported
   * failure has neither installed nor removed anything.
   */
  lemma RunsAreSerial(s: System, start: Disk, steps: seq<Step>, end: System)
    requires Initial(s, start) && RunsTo(s, steps, end)
    requires forall t :: t in end.threads ==> end.threads[t].phase.Done?
    ensures forall id :: Accepted(id) ==> SameAt(Replay(start, end.log), end.disk, id)
    ensures forall t :: t in end.threads ==>
              (end.threads[t].phase.ok <==>
                exists i :: 0 <= i < |end.log| && end.log[i].thread == t && TookEffect(end.log[i]))
    ensures forall i, k :: 0 <= i < k < |end.log| ==> end.log[i].thread != end.log[k].thread
    ensures forall i :: 0 <= i < |end.log| ==>
              end.log[i].thread in end.threads
                && EffectOf(end.log[i], end.log[i].thread, end.threads[end.log[i].thread])
  {
    InvariantAtFirst(s, start);
    InvariantAlong(s, start, steps, end);
    hide RunsTo;
    hide Replay;
    hide Accepted;
    hide Kept;
    hide EffectOf;
    forall t | t in end.threads
      ensures end.threads[t].phase.ok <==>
              exists i :: 0 <= i < |end.log| && end.log[i].thread == t && TookEffect(end.log[i])
    {
      SuccessTookEffect(end, t);
    }
  }

  lemma SuccessTookEffect(s: System, t: nat)
    requires OneEffectEach(s) && t in s.threads && s.threads[t].phase.Done?
    ensures s.threads[t].phase.ok <==> exists i :: 0 <= i < |s.log| && s.log[i].thread == t && TookEffect(s.log[i])
  {
    if s.threads[t].phase.ok {
      assert s.threads[t].Succeeded();
      var i :| 0 <= i < |s.log| && s.log[i].thread == t;
      assert EffectOf(s.log[i], t, s.threads[t]);
      assert TookEffect(s.log[i]);
    }
  }

  /** An old version that could not be put back is complete in a backup directory for the rest of the run. */
  lemma NothingIsLost(s: System, start: Disk, steps: seq<Step>, end: System, i: nat)
    requires Initial(s, start) && RunsTo(s, steps, end) && i < |end.log| && end.log[i].Stranded?
    ensures var before := Replay(start, end.log[..i]);
            end.log[i].id in before
            && exists n :: Backup(end.pid, n) in end.disk && end.disk[Backup(end.pid, n)] == before[end.log[i].id]
  {
    InvariantAtFirst(s, start);
    InvariantAlong(s, start, steps, end);
    assert KeptAt(end, start, i);
    hide RunsTo;
    hide Current;
    hide OneEffectEach;
    hide Replay;
  }
}
