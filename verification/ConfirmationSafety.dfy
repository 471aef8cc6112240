/** What holds of the confirmation protocol in every interleaving. */
module ConfirmationSafety {
  import opened Wrappers
  import opened Access
  import opened Confirmation

  // --- the invariant -----------------------------------------------------------------

  predicate Prompted(w: World, task: Task, pushed: seq<Push>) {
    task.number.Some? && Prompt(w, task) in pushed
  }

  /** While the receiver is there: no answer until the sender has been used, and one from then on. */
  predicate Open(task: Task) {
    task.receiving && (task.sender.InTable? || task.sender.Held? || task.sender.Used?)
      && (task.sender.Used? <==> task.value.Some?)
  }

  predicate Approved(task: Task) {
    task.sender.Used? && task.value == Some(true)
  }

  /** What each point of a request's life says about its channel and its prompt. */
  predicate Shape(w: World, task: Task, pushed: seq<Push>) {
    match task.phase
    case Checking => task.number.None? && task.receiving && task.value.None? && task.sender.Unmade?
    case Numbering => task.number.None? && task.receiving && task.value.None? && task.sender.Unmade?
    case Enlisting => task.number.Some? && task.receiving && task.value.None? && task.sender.Made?
    case Prompting => task.number.Some? && Open(task)
    case Waiting => Prompted(w, task, pushed) && Open(task)
    case Expiring => Prompted(w, task, pushed) && Open(task)
    case CleaningUp(Answered(approved)) =>
      Prompted(w, task, pushed) && !task.receiving && task.sender.Used? && task.value == Some(approved)
    case CleaningUp(TimedOut) =>
      Prompted(w, task, pushed) && !task.receiving && (task.sender.InTable? || task.sender.Held? || task.sender.Used?)
    case CleaningUp(SenderLost) => false
    case Cancelling => Prompted(w, task, pushed) && Finished(task)
    case Signing => Prompted(w, task, pushed) && Finished(task) && Approved(task)
    case Done(Signed) => Prompted(w, task, pushed) && Finished(task) && Approved(task)
    case Done(Locked) => Prompted(w, task, pushed) && Finished(task) && Approved(task)
    case Done(Rejected) => Prompted(w, task, pushed) && Finished(task)
    case Done(ShellUnavailable) => task.number.None? && task.value.None? && task.sender.Unmade?
  }

  predicate Finished(task: Task) {
    !task.receiving && (task.sender.Dropped? || task.sender.Held? || task.sender.Used?)
  }

  /** A caller that is an app asks for itself. */
  predicate Honest(task: Task) {
    task.caller.App? ==> task.caller.id == task.app
  }

  /** The sender is where it is said to be, and the answer came from whoever used it. */
  predicate Linked(s: System, t: nat)
    requires t in s.tasks
  {
    var task := s.tasks[t];
    && (task.sender.InTable? <==>
          task.number.Some? && RequestId(task.number.value) in s.shared.pending
          && s.shared.pending[RequestId(task.number.value)] == t)
    && (task.sender.Held? ==>
          && task.number.Some? && task.sender.r in s.answers
          && s.answers[task.sender.r].phase == Sending(t)
             && s.answers[task.sender.r].requestId == RequestId(task.number.value))
    && (task.sender.Used? ==> task.number.Some? && task.sender.r in s.answers && UsedBy(task, s.answers[task.sender.r]))
    && (task.value.Some? ==> task.sender.Used?)
  }

  predicate UsedBy(task: Task, answer: Answer)
    requires task.number.Some?
  {
    && answer.phase.Replied? && answer.requestId == RequestId(task.number.value)
    && (task.value.Some? <==> answer.phase.delivered)
    && (task.value.Some? ==> task.value.value == answer.approved)
  }

  predicate FromShell(answer: Answer) {
    answer.caller.Shell? && answer.bound.None?
  }

  /** A sender in someone's hands, or delivered on, is that of a request it is the sender of. */
  ghost predicate Traced(s: System, r: nat)
    requires r in s.answers
  {
    && (s.answers[r].phase.Sending? ==>
       s.answers[r].phase.task in s.tasks && s.tasks[s.answers[r].phase.task].sender == Held(r))
    && (s.answers[r].phase == Replied(true) ==> exists t :: t in s.tasks && s.tasks[t].sender == Used(r))
  }

  predicate NumbersDiffer(s: System) {
    && (forall t :: t in s.tasks && s.tasks[t].number.Some? ==> s.tasks[t].number.value < s.shared.next)
    && (forall t, u :: t in s.tasks && u in s.tasks && t != u && s.tasks[t].number.Some? ==>
          s.tasks[t].number != s.tasks[u].number)
  }

  predicate TableSound(s: System) {
    forall id :: id in s.shared.pending ==>
      var t := s.shared.pending[id];
      t in s.tasks && s.tasks[t].number.Some? && id == RequestId(s.tasks[t].number.value)
  }

  ghost predicate PromptsTrue(w: World, s: System) {
    forall e :: e in s.pushed && e.ConfirmRequest? ==>
      exists t :: t in s.tasks && s.tasks[t].number.Some? && e == Prompt(w, s.tasks[t])
  }

  predicate SignedBy(s: System, i: nat)
    requires i < |s.signatures|
  {
    var g := s.signatures[i];
    g.task in s.tasks && s.tasks[g.task].phase == Done(Signed) && g.app == s.tasks[g.task].app
      && g.message == s.tasks[g.task].message
  }

  ghost predicate SignaturesSound(s: System) {
    && (forall i :: 0 <= i < |s.signatures| ==> SignedBy(s, i))
    && (forall i, k :: 0 <= i < k < |s.signatures| ==> s.signatures[i].task != s.signatures[k].task)
  }

  ghost predicate Shapes(w: World, s: System) {
    forall t :: t in s.tasks ==> Shape(w, s.tasks[t], s.pushed) && Honest(s.tasks[t])
  }

  ghost predicate AllLinked(s: System) {
    forall t :: t in s.tasks ==> Linked(s, t)
  }

  ghost predicate AllTraced(s: System) {
    forall r :: r in s.answers ==> FromShell(s.answers[r]) && Traced(s, r)
  }

  ghost predicate Invariant(w: World, s: System) {
    && Shapes(w, s) && AllLinked(s) && AllTraced(s) && NumbersDiffer(s) && TableSound(s) && PromptsTrue(w, s)
       && SignaturesSound(s)
  }

  // --- every step keeps it --------------------------------------------------------------

  /** The task a step changes. */
  function TaskOf(s: System, step: Step): Option<nat> {
    match step
    case BeginSign(t, _, _, _, _, _) => Some(t)
    case Check(t) => Some(t)
    case Number(t) => Some(t)
    case Enlist(t) => Some(t)
    case Show(t) => Some(t)
    case Receive(t) => Some(t)
    case FindLost(t) => Some(t)
    case Expire(t) => Some(t)
    case StopReceiving(t) => Some(t)
    case CleanUp(t) => Some(t)
    case Cancel(t) => Some(t)
    case Sign(t) => Some(t)
    case TakeSender(r) =>
      if r in s.answers && s.answers[r].requestId in s.shared.pending
        then Some(s.shared.pending[s.answers[r].requestId]) else None
    case SendAnswer(r) => if r in s.answers && s.answers[r].phase.Sending? then Some(s.answers[r].phase.task) else None
    case _ => None
  }

  lemma OnlyThatTask(w: World, s: System, step: Step)
    requires Enabled(w, s, step) && TableSound(s)
    ensures var s' := Apply(w, s, step);
            && s'.tasks.Keys == s.tasks.Keys + (if step.BeginSign? then {step.t} else {})
            && (forall u :: u in s.tasks && TaskOf(s, step) != Some(u) ==> s'.tasks[u] == s.tasks[u])
            && s.pushed <= s'.pushed && s.shared.next <= s'.shared.next
  {
    hide Deliver;
    hide OpenLinks;
    hide RequestId;
    hide Admits;
  }

  lemma ShapeGrows(w: World, task: Task, pushed: seq<Push>, pushed': seq<Push>)
    requires Shape(w, task, pushed) && pushed <= pushed'
    ensures Shape(w, task, pushed')
  {
    hide Prompt;
    assert forall e :: e in pushed ==> e in pushed';
  }

  lemma EarlyShapeKept(w: World, s: System, step: Step)
    requires Enabled(w, s, step) && (step.BeginSign? || step.Check? || step.Number? || step.Enlist?)
    requires !step.BeginSign? ==> Shape(w, s.tasks[step.t], s.pushed) && Honest(s.tasks[step.t])
    ensures var s' := Apply(w, s, step); Shape(w, s'.tasks[step.t], s'.pushed) && Honest(s'.tasks[step.t])
  {
    hide Deliver;
    hide OpenLinks;
    hide RequestId;
    hide Admits;
    hide Taken;
    hide Sent;
  }

  lemma ShowShapeKept(w: World, s: System, step: Step)
    requires Enabled(w, s, step) && (step.Show?)
    requires !step.BeginSign? ==> Shape(w, s.tasks[step.t], s.pushed) && Honest(s.tasks[step.t])
    ensures var s' := Apply(w, s, step); Shape(w, s'.tasks[step.t], s'.pushed) && Honest(s'.tasks[step.t])
  {
    hide Deliver;
    hide OpenLinks;
    hide RequestId;
    hide Admits;
    hide Taken;
    hide Sent;
    var s' := Apply(w, s, step);
    assert s'.pushed[|s.pushed|] == Prompt(w, s.tasks[step.t]) == Prompt(w, s'.tasks[step.t]);
  }

  lemma WaitShapeKept(w: World, s: System, step: Step)
    requires Enabled(w, s, step) && (step.Receive? || step.FindLost? || step.Expire? || step.StopReceiving?)
    requires !step.BeginSign? ==> Shape(w, s.tasks[step.t], s.pushed) && Honest(s.tasks[step.t])
    ensures var s' := Apply(w, s, step); Shape(w, s'.tasks[step.t], s'.pushed) && Honest(s'.tasks[step.t])
  {
    hide Deliver;
    hide OpenLinks;
    hide RequestId;
    hide Admits;
    hide Taken;
    hide Sent;
  }

  lemma LateShapeKept(w: World, s: System, step: Step)
    requires Enabled(w, s, step) && (step.CleanUp? || step.Sign?)
    requires !step.BeginSign? ==> Shape(w, s.tasks[step.t], s.pushed) && Honest(s.tasks[step.t])
    ensures var s' := Apply(w, s, step); Shape(w, s'.tasks[step.t], s'.pushed) && Honest(s'.tasks[step.t])
  {
    hide Deliver;
    hide OpenLinks;
    hide RequestId;
    hide Admits;
    hide Taken;
    hide Sent;
  }

  lemma CancelShapeKept(w: World, s: System, step: Step)
    requires Enabled(w, s, step) && (step.Cancel?)
    requires !step.BeginSign? ==> Shape(w, s.tasks[step.t], s.pushed) && Honest(s.tasks[step.t])
    ensures var s' := Apply(w, s, step); Shape(w, s'.tasks[step.t], s'.pushed) && Honest(s'.tasks[step.t])
  {
    hide Deliver;
    hide OpenLinks;
    hide RequestId;
    hide Admits;
    hide Taken;
    hide Sent;
    var s' := Apply(w, s, step);
    ShapeGrows(w, s.tasks[step.t], s.pushed, s'.pushed);
    assert Prompt(w, s.tasks[step.t]) == Prompt(w, s'.tasks[step.t]);
    hide Prompt;
  }

  lemma TakenShapeKept(w: World, s: System, r: nat, t: nat)
    requires r in s.answers && TaskOf(s, TakeSender(r)) == Some(t) && t in s.tasks
    requires Shape(w, s.tasks[t], s.pushed) && Honest(s.tasks[t]) && s.tasks[t].sender.InTable?
    ensures var s' := Taken(s, r); t in s'.tasks && Shape(w, s'.tasks[t], s'.pushed) && Honest(s'.tasks[t])
  {
    var s' := Taken(s, r);
    assert s.tasks[t].number.Some? ==> Prompt(w, s.tasks[t]) == Prompt(w, s'.tasks[t]);
    hide Prompt;
  }

  lemma SentShapeKept(w: World, s: System, r: nat, t: nat)
    requires r in s.answers && s.answers[r].phase == Sending(t) && t in s.tasks
    requires Shape(w, s.tasks[t], s.pushed) && Honest(s.tasks[t]) && s.tasks[t].sender == Held(r)
    ensures var s' := Sent(s, r); t in s'.tasks && Shape(w, s'.tasks[t], s'.pushed) && Honest(s'.tasks[t])
  {
    var s' := Sent(s, r);
    assert s.tasks[t].number.Some? ==> Prompt(w, s.tasks[t]) == Prompt(w, s'.tasks[t]);
    hide Prompt;
  }

  lemma OwnShapeKept(w: World, s: System, step: Step)
    requires Invariant(w, s) && Enabled(w, s, step) && TaskOf(s, step).Some?
    ensures var s' := Apply(w, s, step);
            var t := TaskOf(s, step).value;
            t in s'.tasks && Shape(w, s'.tasks[t], s'.pushed) && Honest(s'.tasks[t])
  {
    hide Deliver;
    hide OpenLinks;
    hide RequestId;
    hide Prompt;
    hide Shape;
    hide Admits;
    match step
    case TakeSender(r) =>
      var t := TaskOf(s, step).value;
      assert Linked(s, t);
      TakenShapeKept(w, s, r, t);
    case SendAnswer(r) =>
      assert Traced(s, r);
      SentShapeKept(w, s, r, s.answers[r].phase.task);
    case _ =>
      OwnStepShape(w, s, step);
  }

  lemma OwnStepShape(w: World, s: System, step: Step)
    requires Enabled(w, s, step) && TaskOf(s, step).Some? && !step.TakeSender? && !step.SendAnswer? && Shapes(w, s)
    ensures var s' := Apply(w, s, step); Shape(w, s'.tasks[step.t], s'.pushed) && Honest(s'.tasks[step.t])
  {
    if step.BeginSign? || step.Check? || step.Number? || step.Enlist? {
      EarlyShapeKept(w, s, step);
    } else if step.Show? {
      ShowShapeKept(w, s, step);
    } else if step.CleanUp? || step.Sign? {
      LateShapeKept(w, s, step);
    } else if step.Cancel? {
      CancelShapeKept(w, s, step);
    } else {
      WaitShapeKept(w, s, step);
    }
    hide Apply;
    hide Shape;
  }

  lemma ShapesKept(w: World, s: System, step: Step)
    requires Invariant(w, s) && Enabled(w, s, step)
    ensures Shapes(w, Apply(w, s, step))
  {
    var s' := Apply(w, s, step);
    OnlyThatTask(w, s, step);
    if TaskOf(s, step).Some? {
      OwnShapeKept(w, s, step);
    }
    hide Apply;
    hide Enabled;
    hide Shape;
    forall u | u in s'.tasks
      ensures Shape(w, s'.tasks[u], s'.pushed) && Honest(s'.tasks[u])
    {
      if TaskOf(s, step) != Some(u) {
        ShapeGrows(w, s.tasks[u], s.pushed, s'.pushed);
      }
    }
  }

  lemma IdsDiffer(s: System, t: nat, u: nat)
    requires NumbersDiffer(s) && t in s.tasks && u in s.tasks && t != u && s.tasks[t].number.Some?
             && s.tasks[u].number.Some?
    ensures RequestId(s.tasks[t].number.value) != RequestId(s.tasks[u].number.value)
  {
    RequestIdInjective(s.tasks[t].number.value, s.tasks[u].number.value);
  }

  /** A request whose own state a step leaves alone stays linked. */
  lemma OthersLinked(w: World, s: System, step: Step, u: nat)
    requires Enabled(w, s, step) && NumbersDiffer(s) && TableSound(s)
    requires u in s.tasks && Linked(s, u) && TaskOf(s, step) != Some(u)
    requires u in Apply(w, s, step).tasks && Apply(w, s, step).tasks[u] == s.tasks[u]
    ensures Linked(Apply(w, s, step), u)
  {
    hide Deliver;
    hide OpenLinks;
    hide RequestId;
    hide Admits;
    hide Prompt;
    hide Shape;
    match step
    case Enlist(t) =>
      if s.tasks[u].number.Some? {
        IdsDiffer(s, t, u);
      }
    case CleanUp(t) =>
      if s.tasks[u].number.Some? {
        IdsDiffer(s, t, u);
      }
    case TakeSender(r) =>
      OthersLinkedTaken(s, r, u);
    case SendAnswer(r) =>
      OthersLinkedSent(s, r, u);
    case _ =>
      hide NumbersDiffer;
      hide TableSound;
  }

  lemma OthersLinkedSent(s: System, r: nat, u: nat)
    requires r in s.answers && s.answers[r].phase.Sending? && s.answers[r].phase.task in s.tasks
    requires u in s.tasks && Linked(s, u) && s.answers[r].phase.task != u
    ensures u in Sent(s, r).tasks && Linked(Sent(s, r), u)
  {
    hide RequestId;
  }

  lemma OthersLinkedTaken(s: System, r: nat, u: nat)
    requires NumbersDiffer(s) && TableSound(s) && r in s.answers && s.answers[r].phase.Removing?
    requires u in s.tasks && Linked(s, u)
    requires s.answers[r].requestId in s.shared.pending ==> s.shared.pending[s.answers[r].requestId] != u
    ensures u in Taken(s, r).tasks && Linked(Taken(s, r), u)
  {
    hide RequestId;
    var id := s.answers[r].requestId;
    if id in s.shared.pending {
      var t := s.shared.pending[id];
      if s.tasks[u].number.Some? {
        IdsDiffer(s, t, u);
      }
    }
  }

  lemma OwnLinked(w: World, s: System, step: Step)
    requires Enabled(w, s, step) && TaskOf(s, step).Some? && !step.TakeSender? && !step.SendAnswer?
    requires TableSound(s) && AllLinked(s) && Shapes(w, s) && NumbersDiffer(s)
    ensures step.t in Apply(w, s, step).tasks && Linked(Apply(w, s, step), step.t)
  {
    hide Deliver;
    hide OpenLinks;
    hide RequestId;
    hide Admits;
    hide Prompt;
    hide Prompted;
    hide NumbersDiffer;
    hide Finished;
    if step.BeginSign? {
    } else {
      assert Linked(s, step.t);
      if step.Number? {
        NotYetListed(s, step.t);
      }
    }
  }

  /** No table entry leads to a request that has no number yet. */
  lemma NotYetListed(s: System, t: nat)
    requires TableSound(s) && t in s.tasks && s.tasks[t].number.None?
    ensures forall id :: id in s.shared.pending ==> s.shared.pending[id] != t
  {
  }

  lemma TakenLinked(s: System, r: nat, t: nat)
    requires r in s.answers && s.answers[r].phase.Removing? && TaskOf(s, TakeSender(r)) == Some(t)
    requires TableSound(s) && t in s.tasks && Linked(s, t)
    ensures t in Taken(s, r).tasks && Linked(Taken(s, r), t)
  {
    hide RequestId;
  }

  lemma SentLinked(s: System, r: nat, t: nat)
    requires r in s.answers && s.answers[r].phase == Sending(t) && t in s.tasks && s.tasks[t].sender == Held(r)
    requires Linked(s, t)
    ensures t in Sent(s, r).tasks && Linked(Sent(s, r), t)
  {
    hide RequestId;
  }

  lemma LinksKept(w: World, s: System, step: Step)
    requires Invariant(w, s) && Enabled(w, s, step)
    ensures AllLinked(Apply(w, s, step))
  {
    var s' := Apply(w, s, step);
    OnlyThatTask(w, s, step);
    forall u | u in s'.tasks
      ensures Linked(s', u)
    {
      if TaskOf(s, step) != Some(u) {
        assert Linked(s, u);
        OthersLinked(w, s, step, u);
      } else {
        ItsOwnLinked(w, s, step, u);
      }
    }
  }

  lemma ItsOwnLinked(w: World, s: System, step: Step, t: nat)
    requires Invariant(w, s) && Enabled(w, s, step) && TaskOf(s, step) == Some(t)
    ensures t in Apply(w, s, step).tasks && Linked(Apply(w, s, step), t)
  {
    hide Shapes;
    hide PromptsTrue;
    hide SignaturesSound;
    hide NumbersDiffer;
    match step
    case TakeSender(r) =>
      assert Linked(s, t);
      TakenLinked(s, r, t);
    case SendAnswer(r) =>
      assert Traced(s, r) && Linked(s, t);
      SentLinked(s, r, t);
    case _ =>
      OwnLinked(w, s, step);
      hide Linked;
  }

  /** A request gets its number in one step and keeps it. */
  lemma NumberFixed(w: World, s: System, step: Step, u: nat)
    requires Enabled(w, s, step) && u in Apply(w, s, step).tasks
    ensures var s' := Apply(w, s, step);
            s'.tasks[u].number ==
              if step.BeginSign? && u == step.t then None
              else if step.Number? && u == step.t then Some(s.shared.next)
              else if u in s.tasks then s.tasks[u].number
              else s'.tasks[u].number
  {
    hide Deliver;
    hide OpenLinks;
    hide RequestId;
    hide Prompt;
    hide Admits;
  }

  lemma NextByStep(w: World, s: System, step: Step)
    requires Enabled(w, s, step)
    ensures var s' := Apply(w, s, step);
            s'.shared.next == if step.Number? || step.TakeOtherNumber? then s.shared.next + 1 else s.shared.next
  {
    hide Deliver;
    hide OpenLinks;
    hide RequestId;
    hide Prompt;
    hide Admits;
  }

  lemma NumbersKept(w: World, s: System, step: Step)
    requires NumbersDiffer(s) && TableSound(s) && Enabled(w, s, step)
    ensures NumbersDiffer(Apply(w, s, step))
  {
    var s' := Apply(w, s, step);
    OnlyThatTask(w, s, step);
    NextByStep(w, s, step);
    hide *;
    forall u | u in s'.tasks
      ensures s'.tasks[u].number ==
                if step.BeginSign? && u == step.t then None
                else if step.Number? && u == step.t then Some(s.shared.next)
                else s.tasks[u].number
    {
      NumberFixed(w, s, step, u);
    }
    StillDiffer(s, s', if step.Number? then Some(step.t) else None);
  }

  lemma StillDiffer(s: System, s': System, t: Option<nat>)
    requires NumbersDiffer(s) && s.shared.next <= s'.shared.next
    requires forall u :: u in s'.tasks && t != Some(u) ==>
               s'.tasks[u].number.None? || (u in s.tasks && s'.tasks[u].number == s.tasks[u].number)
    requires t.Some? && t.value in s'.tasks ==>
               s'.tasks[t.value].number == Some(s.shared.next) && s'.shared.next == s.shared.next + 1
    ensures NumbersDiffer(s')
  {
  }

  lemma TableKept(w: World, s: System, step: Step)
    requires TableSound(s) && Shapes(w, s) && Enabled(w, s, step)
    ensures TableSound(Apply(w, s, step))
  {
    var s' := Apply(w, s, step);
    PendingByStep(w, s, step);
    forall id | id in s'.shared.pending
      ensures var t := s'.shared.pending[id];
              t in s'.tasks && s'.tasks[t].number.Some? && id == RequestId(s'.tasks[t].number.value)
    {
      var t := s'.shared.pending[id];
      NoNumberYet(w, s, step, t);
      PromptFixed(w, s, step, t);
      hide Apply;
      hide Shape;
    }
  }

  lemma PendingByStep(w: World, s: System, step: Step)
    requires Enabled(w, s, step)
    ensures var s' := Apply(w, s, step);
            forall id :: id in s'.shared.pending ==>
              if id in s.shared.pending && s.shared.pending[id] == s'.shared.pending[id] then true
              else && step.Enlist? && s'.shared.pending[id] == step.t && step.t in s.tasks
                   && s.tasks[step.t].number.Some? && id == RequestId(s.tasks[step.t].number.value)
  {
    hide Deliver;
    hide OpenLinks;
    hide RequestId;
    hide Prompt;
    hide Admits;
  }

  /** A numbered request keeps what its prompt says. */
  predicate SamePrompt(task: Task, task': Task) {
    task.number.Some? ==> task'.number == task.number && task'.app == task.app && task'.message == task.message
  }

  lemma NoNumberYet(w: World, s: System, step: Step, t: nat)
    requires Shapes(w, s) && Enabled(w, s, step) && t in s.tasks
    ensures step == Number(t) ==> s.tasks[t].number.None?
  {
    hide Prompt;
    assert Shape(w, s.tasks[t], s.pushed);
  }

  lemma PromptFixed(w: World, s: System, step: Step, t: nat)
    requires Enabled(w, s, step) && t in s.tasks && (step == Number(t) ==> s.tasks[t].number.None?)
    ensures t in Apply(w, s, step).tasks && SamePrompt(s.tasks[t], Apply(w, s, step).tasks[t])
  {
    hide Deliver;
    hide OpenLinks;
    hide RequestId;
    hide Prompt;
    hide Admits;
  }

  /** A step pushes at most one notification, and only the prompt of a request asks for confirmation. */
  lemma PushedByStep(w: World, s: System, step: Step)
    requires Enabled(w, s, step)
    ensures var s' := Apply(w, s, step);
            || s'.pushed == s.pushed
            || (step.Cancel? && exists id :: s'.pushed == s.pushed + [ConfirmCancelled(id)])
            || (step.Show? && step.t in s.tasks && s.tasks[step.t].number.Some?
               && s'.pushed == s.pushed + [Prompt(w, s.tasks[step.t])])
  {
    hide Deliver;
    hide OpenLinks;
    hide RequestId;
    hide Prompt;
    hide Admits;
  }

  /** Prompts stay true: what they say of a request never changes once it has its number. */
  lemma PromptsKept(w: World, s: System, step: Step)
    requires PromptsTrue(w, s) && Shapes(w, s) && Enabled(w, s, step)
    ensures PromptsTrue(w, Apply(w, s, step))
  {
    var s' := Apply(w, s, step);
    PushedByStep(w, s, step);
    forall e | e in s'.pushed && e.ConfirmRequest?
      ensures exists t :: t in s'.tasks && s'.tasks[t].number.Some? && e == Prompt(w, s'.tasks[t])
    {
      var t: nat :| t in s.tasks && s.tasks[t].number.Some? && e == Prompt(w, s.tasks[t]);
      NoNumberYet(w, s, step, t);
      PromptFixed(w, s, step, t);
      hide Apply;
    }
  }

  lemma SignaturesKept(w: World, s: System, step: Step)
    requires SignaturesSound(s) && Enabled(w, s, step)
    ensures SignaturesSound(Apply(w, s, step))
  {
    var s' := Apply(w, s, step);
    SignedByStep(w, s, step);
    forall i | 0 <= i < |s.signatures|
      ensures SignedBy(s', i) && s'.signatures[i] == s.signatures[i]
    {
      assert SignedBy(s, i);
      SignedStays(w, s, step, s.signatures[i].task);
      hide Apply;
      hide Enabled;
    }
    hide Apply;
    hide Enabled;
    if s'.signatures != s.signatures {
      assert SignedBy(s', |s.signatures|);
      forall i | 0 <= i < |s.signatures|
        ensures s.signatures[i].task != step.t
      {
        assert SignedBy(s, i);
      }
    }
  }

  lemma SignedStays(w: World, s: System, step: Step, t: nat)
    requires Enabled(w, s, step) && At(s, t, Done(Signed))
    ensures var s' := Apply(w, s, step);
            At(s', t, Done(Signed)) && s'.tasks[t].app == s.tasks[t].app && s'.tasks[t].message == s.tasks[t].message
  {
    hide Deliver;
    hide OpenLinks;
    hide RequestId;
    hide Prompt;
    hide Admits;
  }

  /** The only new signature is over the message of the request that was about to sign. */
  lemma SignedByStep(w: World, s: System, step: Step)
    requires Enabled(w, s, step)
    ensures var s' := Apply(w, s, step);
            || s'.signatures == s.signatures
            || (&& step.Sign? && At(s, step.t, Signing) && At(s', step.t, Done(Signed))
                && s'.tasks[step.t].app == s.tasks[step.t].app && s'.tasks[step.t].message == s.tasks[step.t].message
                && s'.signatures == s.signatures + [Signature(step.t, s.tasks[step.t].app, s.tasks[step.t].message)])
  {
    hide Deliver;
    hide OpenLinks;
    hide RequestId;
    hide Prompt;
    hide Admits;
  }

  lemma TracesKept(w: World, s: System, step: Step)
    requires Invariant(w, s) && Enabled(w, s, step)
    ensures AllTraced(Apply(w, s, step))
  {
    var s' := Apply(w, s, step);
    hide *;
    forall r | r in s'.answers
      ensures FromShell(s'.answers[r]) && Traced(s', r)
    {
      TraceKept(w, s, step, r);
    }
    AllTracedIf(s');
  }

  lemma AllTracedIf(s: System)
    requires forall r :: r in s.answers ==> FromShell(s.answers[r]) && Traced(s, r)
    ensures AllTraced(s)
  {
  }

  lemma TraceKept(w: World, s: System, step: Step, r: nat)
    requires Invariant(w, s) && Enabled(w, s, step) && r in Apply(w, s, step).answers
    ensures FromShell(Apply(w, s, step).answers[r]) && Traced(Apply(w, s, step), r)
  {
    hide Shapes;
    hide PromptsTrue;
    hide SignaturesSound;
    hide NumbersDiffer;
    match step
    case BeginAnswer(_, bound, stamped, caller, _, _) =>
      ShellNamespaceIsPrivate(w.capabilities, bound, stamped, caller, ANSWER_METHOD);
      BegunTraced(w, s, step, r);
    case TakeSender(who) =>
      TakenTraced(s, who, r);
    case SendAnswer(who) =>
      SentTraced(s, who, r);
    case _ =>
      TaskStepTraced(w, s, step, r);
  }

  lemma BegunTraced(w: World, s: System, step: Step, r: nat)
    requires step.BeginAnswer? && AllTraced(s) && Enabled(w, s, step) && r in Apply(w, s, step).answers
    requires step.caller.Shell? && step.bound.None?
    ensures FromShell(Apply(w, s, step).answers[r]) && Traced(Apply(w, s, step), r)
  {
    hide Admits;
    if r != step.r {
      assert Traced(s, r);
    }
  }

  lemma TakenTraced(s: System, who: nat, r: nat)
    requires AllTraced(s) && AllLinked(s) && TableSound(s) && who in s.answers && s.answers[who].phase.Removing?
             && r in s.answers
    ensures FromShell(Taken(s, who).answers[r]) && Traced(Taken(s, who), r)
  {
    hide RequestId;
    assert Traced(s, r);
    var id := s.answers[who].requestId;
    if id in s.shared.pending {
      var t := s.shared.pending[id];
      assert Linked(s, t);
      if s.answers[r].phase == Replied(true) {
        var u :| u in s.tasks && s.tasks[u].sender == Used(r);
        assert u in Taken(s, who).tasks && Taken(s, who).tasks[u].sender == Used(r);
      }
    }
  }

  lemma SentTraced(s: System, who: nat, r: nat)
    requires AllTraced(s) && who in s.answers && s.answers[who].phase.Sending? && s.answers[who].phase.task in s.tasks
             && r in s.answers
    ensures FromShell(Sent(s, who).answers[r]) && Traced(Sent(s, who), r)
  {
    assert Traced(s, r) && Traced(s, who);
    var t := s.answers[who].phase.task;
    assert t in Sent(s, who).tasks && Sent(s, who).tasks[t].sender == Used(who);
    if s.answers[r].phase == Replied(true) {
      var u :| u in s.tasks && s.tasks[u].sender == Used(r);
      assert u in Sent(s, who).tasks && Sent(s, who).tasks[u].sender == Used(r);
    }
  }

  /** The steps of requests and of the surroundings neither take nor use a sender. */
  lemma SendersFixed(w: World, s: System, step: Step, t: nat)
    requires Enabled(w, s, step) && !step.TakeSender? && !step.SendAnswer? && t in s.tasks
    requires s.tasks[t].sender.Held? || s.tasks[t].sender.Used?
    requires Shape(w, s.tasks[t], s.pushed)
    ensures t in Apply(w, s, step).tasks && Apply(w, s, step).tasks[t].sender == s.tasks[t].sender
  {
    hide Deliver;
    hide OpenLinks;
    hide RequestId;
    hide Prompt;
    hide Admits;
  }

  lemma TaskStepTraced(w: World, s: System, step: Step, r: nat)
    requires Enabled(w, s, step) && !step.TakeSender? && !step.SendAnswer? && !step.BeginAnswer?
    requires Shapes(w, s) && AllTraced(s) && r in s.answers && Apply(w, s, step).answers == s.answers
    ensures FromShell(Apply(w, s, step).answers[r]) && Traced(Apply(w, s, step), r)
  {
    assert Traced(s, r);
    if s.answers[r].phase.Sending? {
      SendersFixed(w, s, step, s.answers[r].phase.task);
    }
    if s.answers[r].phase == Replied(true) {
      var u :| u in s.tasks && s.tasks[u].sender == Used(r);
      SendersFixed(w, s, step, u);
    }
    hide Apply;
    hide Enabled;
    hide Shapes;
  }
}
