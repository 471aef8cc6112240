/** Consequences for every run of the confirmation protocol. */
module ConfirmationTheorems {
  import opened ByteCodec
  import opened Wrappers
  import opened Access
  import opened Confirmation
  import opened ConfirmationSafety

  lemma InvariantKept(w: World, s: System, step: Step)
    requires Invariant(w, s) && Enabled(w, s, step)
    ensures Invariant(w, Apply(w, s, step))
  {
    Parts(w, s);
    hide *;
    ShapesKept(w, s, step);
    LinksKept(w, s, step);
    TracesKept(w, s, step);
    NumbersKept(w, s, step);
    TableKept(w, s, step);
    PromptsKept(w, s, step);
    SignaturesKept(w, s, step);
    Whole(w, Apply(w, s, step));
  }

  lemma Parts(w: World, s: System)
    requires Invariant(w, s)
    ensures Shapes(w, s) && AllLinked(s) && AllTraced(s) && NumbersDiffer(s) && TableSound(s)
    ensures PromptsTrue(w, s) && SignaturesSound(s)
  {
  }

  lemma Whole(w: World, s: System)
    requires Shapes(w, s) && AllLinked(s) && AllTraced(s) && NumbersDiffer(s) && TableSound(s)
    requires PromptsTrue(w, s) && SignaturesSound(s)
    ensures Invariant(w, s)
  {
  }

  ghost predicate RunsTo(w: World, s: System, steps: seq<Step>, end: System)
    decreases |steps|
  {
    if steps == [] then end == s
    else Enabled(w, s, steps[0]) && RunsTo(w, Apply(w, s, steps[0]), steps[1..], end)
  }

  /** A state that some interleaving leads to from the daemon's start. */
  ghost predicate Reachable(w: World, s: System) {
    exists start, steps :: Initial(start) && RunsTo(w, start, steps, s)
  }

  lemma {:induction false} InvariantAlong(w: World, s: System, steps: seq<Step>, end: System)
    requires Invariant(w, s) && RunsTo(w, s, steps, end)
    ensures Invariant(w, end)
    decreases |steps|
  {
    if steps != [] {
      InvariantKept(w, s, steps[0]);
      hide Invariant;
      hide Enabled;
      hide Apply;
      InvariantAlong(w, Apply(w, s, steps[0]), steps[1..], end);
    }
  }

  lemma AlwaysInvariant(w: World, s: System)
    requires Reachable(w, s)
    ensures Invariant(w, s)
  {
    var start, steps :| Initial(start) && RunsTo(w, start, steps, s);
    assert Invariant(w, start);
    hide Invariant;
    InvariantAlong(w, start, steps, s);
  }

  /** The answers a shell was told were delivered for a request. */
  predicate DeliveredTo(s: System, r: nat, requestId: string) {
    r in s.answers && s.answers[r].phase == Replied(true) && s.answers[r].requestId == requestId
  }

  /**
   * Every signature belongs to one request, made by that app or by the shell, whose only
   * prompt carried the digest of exactly the signed bytes, and whose only delivered answer
   * was an approval from a shell's own connection.
   */
  lemma EverySignatureWasApproved(w: World, s: System, i: nat)
    requires Reachable(w, s) && i < |s.signatures|
    ensures var g := s.signatures[i];
            && g.task in s.tasks
            && var task := s.tasks[g.task];
               && task.message == g.message && task.app == g.app && task.number.Some?
               && (task.caller.App? ==> task.caller.id == g.app)
               && var id := RequestId(task.number.value);
                  && ConfirmRequest(id, g.app, w.digest(g.message), |g.message|) in s.pushed
                  && (forall e :: e in s.pushed && e.ConfirmRequest? && e.requestId == id ==>
                        e == ConfirmRequest(id, g.app, w.digest(g.message), |g.message|))
                  && exists r :: DeliveredTo(s, r, id) && s.answers[r].approved && FromShell(s.answers[r])
  {
    AlwaysInvariant(w, s);
    Parts(w, s);
    hide Reachable;
    assert SignedBy(s, i);
    var t := s.signatures[i].task;
    ApprovedByShell(w, s, t);
    OnePrompt(w, s, t);
    hide RequestId;
    hide Shapes;
  }

  lemma ApprovedByShell(w: World, s: System, t: nat)
    requires Shapes(w, s) && AllLinked(s) && AllTraced(s) && At(s, t, Done(Signed))
    ensures var task := s.tasks[t];
            && Honest(task) && Prompted(w, task, s.pushed)
            && exists r ::
                 DeliveredTo(s, r, RequestId(task.number.value)) && s.answers[r].approved && FromShell(s.answers[r])
  {
    var task := s.tasks[t];
    assert Shape(w, task, s.pushed) && Linked(s, t);
    hide RequestId;
    var r := task.sender.r;
    assert DeliveredTo(s, r, RequestId(task.number.value)) && s.answers[r].approved;
  }

  lemma OnePrompt(w: World, s: System, t: nat)
    requires PromptsTrue(w, s) && NumbersDiffer(s) && t in s.tasks && s.tasks[t].number.Some?
    ensures forall e :: e in s.pushed && e.ConfirmRequest? && e.requestId == RequestId(s.tasks[t].number.value) ==>
              e == Prompt(w, s.tasks[t])
  {
    forall e | e in s.pushed && e.ConfirmRequest? && e.requestId == RequestId(s.tasks[t].number.value)
      ensures e == Prompt(w, s.tasks[t])
    {
      var u :| u in s.tasks && s.tasks[u].number.Some? && e == Prompt(w, s.tasks[u]);
      RequestIdInjective(s.tasks[t].number.value, s.tasks[u].number.value);
    }
  }

  /** No request is answered twice: for each request id, at most one answer is ever delivered. */
  lemma AnsweredAtMostOnce(w: World, s: System, r: nat, r': nat, requestId: string)
    requires Reachable(w, s) && DeliveredTo(s, r, requestId) && DeliveredTo(s, r', requestId)
    ensures r == r'
  {
    AlwaysInvariant(w, s);
    Parts(w, s);
    hide Reachable;
    hide Shapes;
    hide PromptsTrue;
    hide SignaturesSound;
    assert Traced(s, r) && Traced(s, r');
    var t :| t in s.tasks && s.tasks[t].sender == Used(r);
    var t' :| t' in s.tasks && s.tasks[t'].sender == Used(r');
    assert Linked(s, t) && Linked(s, t');
    RequestIdInjective(s.tasks[t].number.value, s.tasks[t'].number.value);
    hide RequestId;
  }

  /** One signature for each request, and none for one that was refused, timed out, or found no shell. */
  lemma SignaturesMatchRequests(w: World, s: System)
    requires Reachable(w, s)
    ensures forall i, k :: 0 <= i < k < |s.signatures| ==> s.signatures[i].task != s.signatures[k].task
    ensures forall i :: 0 <= i < |s.signatures| ==> At(s, s.signatures[i].task, Done(Signed))
    ensures forall t, u ::
              t in s.tasks && u in s.tasks && t != u && s.tasks[t].number.Some? && s.tasks[u].number.Some? ==>
                RequestId(s.tasks[t].number.value) != RequestId(s.tasks[u].number.value)
  {
    AlwaysInvariant(w, s);
    Parts(w, s);
    hide Reachable;
    hide Shapes;
    forall t, u | t in s.tasks && u in s.tasks && t != u && s.tasks[t].number.Some? && s.tasks[u].number.Some?
      ensures RequestId(s.tasks[t].number.value) != RequestId(s.tasks[u].number.value)
    {
      IdsDiffer(s, t, u);
    }
    hide RequestId;
    forall i | 0 <= i < |s.signatures|
      ensures At(s, s.signatures[i].task, Done(Signed))
    {
      assert SignedBy(s, i);
    }
  }

  /** A delivered refusal is final. */
  lemma RefusedNeverSigns(w: World, s: System, r: nat, i: nat)
    requires Reachable(w, s) && r in s.answers && s.answers[r].phase == Replied(true) && !s.answers[r].approved
    requires i < |s.signatures| && s.signatures[i].task in s.tasks && s.tasks[s.signatures[i].task].number.Some?
    ensures s.answers[r].requestId != RequestId(s.tasks[s.signatures[i].task].number.value)
  {
    EverySignatureWasApproved(w, s, i);
    var id := RequestId(s.tasks[s.signatures[i].task].number.value);
    var approval :| DeliveredTo(s, approval, id) && s.answers[approval].approved;
    if s.answers[r].requestId == id {
      AnsweredAtMostOnce(w, s, r, approval, id);
    }
    hide *;
  }

  // --- the table ---------------------------------------------------------------------

  /** Between being listed and cleaning up. */
  predicate InFlight(phase: Phase) {
    phase.Prompting? || phase.Waiting? || phase.Expiring? || phase == CleaningUp(TimedOut)
  }

  /** Every entry of the table is the request id of a request that waits, or is about to remove it. */
  lemma TableNeverLeaks(w: World, s: System, id: string)
    requires Reachable(w, s) && id in s.shared.pending
    ensures var t := s.shared.pending[id];
            t in s.tasks && s.tasks[t].number.Some? && id == RequestId(s.tasks[t].number.value)
              && InFlight(s.tasks[t].phase)
  {
    AlwaysInvariant(w, s);
    Parts(w, s);
    var t := s.shared.pending[id];
    ListedInFlight(w, s, id);
    hide *;
  }

  lemma ListedInFlight(w: World, s: System, id: string)
    requires Shapes(w, s) && AllLinked(s) && TableSound(s) && id in s.shared.pending
    ensures var t := s.shared.pending[id];
            t in s.tasks && s.tasks[t].number.Some? && id == RequestId(s.tasks[t].number.value)
              && InFlight(s.tasks[t].phase)
  {
    hide RequestId;
    hide Prompt;
    var t := s.shared.pending[id];
    assert Linked(s, t) && Shape(w, s.tasks[t], s.pushed);
  }

  /** While a request waits unanswered, its sender is in the table or in the hands of someone about to send. */
  lemma NoWaiterIsLost(w: World, s: System, t: nat)
    requires Reachable(w, s) && At(s, t, Waiting)
    ensures s.tasks[t].value.Some? || Listed(s, t) || exists r :: r in s.answers && s.answers[r].phase == Sending(t)
    ensures !Enabled(w, s, FindLost(t))
  {
    AlwaysInvariant(w, s);
    Parts(w, s);
    WaiterIsHeld(w, s, t);
    hide *;
  }

  predicate Listed(s: System, t: nat)
    requires t in s.tasks
  {
    && s.tasks[t].number.Some?
    && var id := RequestId(s.tasks[t].number.value);
       id in s.shared.pending && s.shared.pending[id] == t
  }

  lemma WaiterIsHeld(w: World, s: System, t: nat)
    requires Shapes(w, s) && AllLinked(s) && At(s, t, Waiting)
    ensures s.tasks[t].value.Some? || Listed(s, t) || exists r :: r in s.answers && s.answers[r].phase == Sending(t)
    ensures !Enabled(w, s, FindLost(t))
  {
    hide RequestId;
    hide Prompt;
    assert Linked(s, t) && Shape(w, s.tasks[t], s.pushed);
  }

  // --- every wait ends ------------------------------------------------------------------

  /** How many more steps of its own a request can take. */
  function Rank(phase: Phase): nat {
    match phase
    case Checking => 8
    case Numbering => 7
    case Enlisting => 6
    case Prompting => 5
    case Waiting => 4
    case Expiring => 3
    case CleaningUp(_) => 2
    case Cancelling => 1
    case Signing => 1
    case Done(_) => 0
  }

  predicate OwnStep(step: Step, t: nat) {
    match step
    case Check(u) => u == t
    case Number(u) => u == t
    case Enlist(u) => u == t
    case Show(u) => u == t
    case Receive(u) => u == t
    case FindLost(u) => u == t
    case Expire(u) => u == t
    case StopReceiving(u) => u == t
    case CleanUp(u) => u == t
    case Cancel(u) => u == t
    case Sign(u) => u == t
    case _ => false
  }

  /** The step an unfinished request can take now; a waiting one receives its answer or times out. */
  function NextStep(s: System, t: nat): Step
    requires t in s.tasks && !s.tasks[t].phase.Done?
  {
    match s.tasks[t].phase
    case Checking => Check(t)
    case Numbering => Number(t)
    case Enlisting => Enlist(t)
    case Prompting => Show(t)
    case Waiting => if s.tasks[t].value.Some? then Receive(t) else Expire(t)
    case Expiring => StopReceiving(t)
    case CleaningUp(_) => CleanUp(t)
    case Cancelling => Cancel(t)
    case Signing => Sign(t)
  }

  /**
   * Nothing others do holds a request back: it can always take a step of its own, and each brings it nearer
   * its end.
   */
  lemma EveryRequestEnds(w: World, s: System, t: nat, step: Step)
    requires Reachable(w, s) && t in s.tasks && Enabled(w, s, step)
    ensures !s.tasks[t].phase.Done? ==> Enabled(w, s, NextStep(s, t)) && OwnStep(NextStep(s, t), t)
    ensures t in Apply(w, s, step).tasks
    ensures OwnStep(step, t) ==> Rank(Apply(w, s, step).tasks[t].phase) < Rank(s.tasks[t].phase)
    ensures !OwnStep(step, t) ==> Apply(w, s, step).tasks[t].phase == s.tasks[t].phase
  {
    AlwaysInvariant(w, s);
    Parts(w, s);
    if !s.tasks[t].phase.Done? {
      StepIsEnabled(w, s, t);
    }
    if OwnStep(step, t) {
      OwnStepsAdvance(w, s, step, t);
    } else {
      OthersLeavePhase(w, s, step, t);
    }
    hide *;
  }

  lemma StepIsEnabled(w: World, s: System, t: nat)
    requires Shapes(w, s) && t in s.tasks && !s.tasks[t].phase.Done?
    ensures Enabled(w, s, NextStep(s, t)) && OwnStep(NextStep(s, t), t)
  {
    hide Prompt;
    assert Shape(w, s.tasks[t], s.pushed);
  }

  lemma OwnStepsAdvance(w: World, s: System, step: Step, t: nat)
    requires Enabled(w, s, step) && t in s.tasks && OwnStep(step, t)
    ensures t in Apply(w, s, step).tasks && Rank(Apply(w, s, step).tasks[t].phase) < Rank(s.tasks[t].phase)
  {
    hide Deliver;
    hide OpenLinks;
    hide RequestId;
    hide Prompt;
  }

  lemma OthersLeavePhase(w: World, s: System, step: Step, t: nat)
    requires Enabled(w, s, step) && t in s.tasks && !OwnStep(step, t)
    ensures t in Apply(w, s, step).tasks && Apply(w, s, step).tasks[t].phase == s.tasks[t].phase
  {
    hide Deliver;
    hide OpenLinks;
    hide RequestId;
    hide Prompt;
    hide Admits;
  }

  // --- approvals in time and approvals too late --------------------------------------------

  /** Not yet timed out when the answer is sent. */
  predicate InTime(phase: Phase) {
    phase.Prompting? || phase.Waiting?
  }

  /** An approval has reached the request's channel in time, and the request has not signed yet. */
  predicate ApprovalReceived(s: System, t: nat) {
    && t in s.tasks && s.tasks[t].value == Some(true) && s.tasks[t].sender.Used?
    && (InTime(s.tasks[t].phase) || s.tasks[t].phase == CleaningUp(Answered(true)) || s.tasks[t].phase.Signing?)
  }

  /** The request has timed out, whatever its channel holds. */
  predicate GivenUp(s: System, t: nat) {
    && t in s.tasks
    && (s.tasks[t].phase.Expiring? || s.tasks[t].phase == CleaningUp(TimedOut) || s.tasks[t].phase.Cancelling?
        || s.tasks[t].phase == Done(Rejected))
  }

  /** While an answer is on its way, the request is in time or has given up. */
  lemma OnItsWay(w: World, s: System, r: nat)
    requires Shapes(w, s) && AllTraced(s) && r in s.answers && s.answers[r].phase.Sending?
    ensures var t := s.answers[r].phase.task;
            && t in s.tasks && s.tasks[t].sender == Held(r)
            && (InTime(s.tasks[t].phase) || GivenUp(s, t))
            && (s.tasks[t].receiving <==> InTime(s.tasks[t].phase) || s.tasks[t].phase.Expiring?)
  {
    hide Prompt;
    assert Traced(s, r);
    assert Shape(w, s.tasks[s.answers[r].phase.task], s.pushed);
  }

  lemma SentArrives(w: World, s: System, r: nat)
    requires Shapes(w, s) && AllTraced(s) && r in s.answers && s.answers[r].phase.Sending? && s.answers[r].approved
    ensures Enabled(w, s, SendAnswer(r))
    ensures var t, e := s.answers[r].phase.task, Apply(w, s, SendAnswer(r));
            && t in s.tasks && r in e.answers
            && (if InTime(s.tasks[t].phase) then ApprovalReceived(e, t) else GivenUp(e, t))
            && (e.answers[r].phase == Replied(true) <==> InTime(s.tasks[t].phase) || s.tasks[t].phase.Expiring?)
            && SameRequest(s, e, t)
  {
    OnItsWay(w, s, r);
    hide Shapes;
    hide AllTraced;
  }

  /** Nobody but the request's own signing step ends the wait for the signature. */
  lemma ReceivedStays(w: World, s: System, t: nat, step: Step)
    requires AllTraced(s) && AllLinked(s) && TableSound(s) && Enabled(w, s, step) && ApprovalReceived(s, t)
             && step != Sign(t)
    ensures ApprovalReceived(Apply(w, s, step), t)
    ensures SameMessage(s, Apply(w, s, step), t)
  {
    if step.TakeSender? {
      TakenElsewhere(s, t, step.r);
    } else if step.SendAnswer? {
      assert Traced(s, step.r);
      SentElsewhere(s, t, step.r);
    } else {
      ReceivedStaysOwn(w, s, t, step);
    }
    hide *;
    Unfolded(w, s, step);
    if step.TakeSender? || step.SendAnswer? {
      SameTaskSame(s, Apply(w, s, step), t);
    }
  }

  lemma Unfolded(w: World, s: System, step: Step)
    requires Enabled(w, s, step)
    ensures step.TakeSender? ==> step.r in s.answers && Apply(w, s, step) == Taken(s, step.r)
    ensures step.SendAnswer? ==>
              && step.r in s.answers && s.answers[step.r].phase.Sending? && s.answers[step.r].phase.task in s.tasks
              && Apply(w, s, step) == Sent(s, step.r)
  {
    hide Taken;
    hide Sent;
  }

  lemma SameTaskSame(s: System, e: System, t: nat)
    requires ApprovalReceived(s, t) && t in e.tasks && e.tasks[t] == s.tasks[t]
    ensures ApprovalReceived(e, t) && SameMessage(s, e, t)
  {
  }

  lemma ReceivedStaysOwn(w: World, s: System, t: nat, step: Step)
    requires Enabled(w, s, step) && ApprovalReceived(s, t) && step != Sign(t) && !step.TakeSender? && !step.SendAnswer?
    ensures ApprovalReceived(Apply(w, s, step), t) && SameMessage(s, Apply(w, s, step), t)
  {
    hide Deliver;
    hide OpenLinks;
    hide RequestId;
    hide Prompt;
    hide Admits;
  }

  /** An answerer cannot take a sender that has been used. */
  lemma TakenElsewhere(s: System, t: nat, r: nat)
    requires AllLinked(s) && TableSound(s) && t in s.tasks && s.tasks[t].sender.Used? && r in s.answers
    ensures t in Taken(s, r).tasks && Taken(s, r).tasks[t] == s.tasks[t]
  {
    hide RequestId;
    assert Linked(s, t);
  }

  /** Nor send on it. */
  lemma SentElsewhere(s: System, t: nat, r: nat)
    requires t in s.tasks && s.tasks[t].sender.Used? && r in s.answers && Traced(s, r)
    requires s.answers[r].phase.Sending? && s.answers[r].phase.task in s.tasks
    ensures t in Sent(s, r).tasks && Sent(s, r).tasks[t] == s.tasks[t]
  {
  }

  lemma GivenUpStays(w: World, s: System, t: nat, step: Step)
    requires Enabled(w, s, step) && GivenUp(s, t)
    ensures GivenUp(Apply(w, s, step), t)
  {
    hide Deliver;
    hide OpenLinks;
    hide RequestId;
    hide Prompt;
    hide Admits;
  }

  lemma SignatureStays(w: World, s: System, step: Step)
    requires Enabled(w, s, step)
    ensures s.signatures <= Apply(w, s, step).signatures
  {
    SignedByStep(w, s, step);
    hide Apply;
  }

  lemma {:induction false} SignaturesStay(w: World, s: System, steps: seq<Step>, end: System)
    requires RunsTo(w, s, steps, end)
    ensures s.signatures <= end.signatures
    decreases |steps|
  {
    hide Apply;
    hide Enabled;
    if steps != [] {
      SignatureStays(w, s, steps[0]);
      SignaturesStay(w, Apply(w, s, steps[0]), steps[1..], end);
    }
  }

  lemma DoneStays(w: World, s: System, t: nat, step: Step)
    requires Enabled(w, s, step) && t in s.tasks && s.tasks[t].phase.Done?
    ensures t in Apply(w, s, step).tasks && Apply(w, s, step).tasks[t].phase == s.tasks[t].phase
  {
    if OwnStep(step, t) {
      OwnStepsAdvance(w, s, step, t);
    } else {
      OthersLeavePhase(w, s, step, t);
    }
    hide Apply;
    hide Enabled;
  }

  lemma {:induction false} DoneForGood(w: World, s: System, t: nat, steps: seq<Step>, end: System)
    requires RunsTo(w, s, steps, end) && t in s.tasks && s.tasks[t].phase.Done?
    ensures t in end.tasks && end.tasks[t].phase == s.tasks[t].phase
    decreases |steps|
  {
    hide Apply;
    hide Enabled;
    if steps != [] {
      DoneStays(w, s, t, steps[0]);
      DoneForGood(w, Apply(w, s, steps[0]), t, steps[1..], end);
    }
  }

  lemma {:induction false} GivenUpForGood(w: World, s: System, t: nat, steps: seq<Step>, end: System)
    requires RunsTo(w, s, steps, end) && GivenUp(s, t)
    ensures GivenUp(end, t)
    decreases |steps|
  {
    hide Apply;
    hide Enabled;
    hide GivenUp;
    if steps != [] {
      GivenUpStays(w, s, t, steps[0]);
      GivenUpForGood(w, Apply(w, s, steps[0]), t, steps[1..], end);
    }
  }

  /** What the request's signing step leaves depends on the lock at that moment alone. */
  lemma SigningDecides(w: World, s: System, t: nat)
    requires Enabled(w, s, Sign(t))
    ensures t in s.tasks
    ensures var e := Apply(w, s, Sign(t));
            && At(e, t, Done(if s.locked then Locked else Signed))
            && (!s.locked ==> e.signatures == s.signatures + [Signature(t, s.tasks[t].app, s.tasks[t].message)])
  {
  }

  /** The run up to its `k`th step ends in `mid`, where the request takes its signing step. */
  ghost predicate SignsAt(w: World, s: System, t: nat, steps: seq<Step>, k: nat, mid: System) {
    k < |steps| && steps[k] == Sign(t) && RunsTo(w, s, steps[..k], mid)
  }

  lemma SignsLater(w: World, s: System, t: nat, steps: seq<Step>, k: nat, mid: System)
    requires steps != [] && Enabled(w, s, steps[0]) && SignsAt(w, Apply(w, s, steps[0]), t, steps[1..], k, mid)
    ensures SignsAt(w, s, t, steps, k + 1, mid)
  {
    hide Apply;
    hide Enabled;
    assert steps[..k + 1][1..] == steps[1..][..k] && steps[..k + 1][0] == steps[0];
  }

  /**
   * A request that has received its approval is signed, or found locked, at its own signing step, in every
   * run that finishes it.
   */
  lemma {:induction false} ReceivedMeansSigning(w: World, s: System, t: nat, steps: seq<Step>, end: System)
    returns (k: nat, mid: System)
    requires Invariant(w, s) && RunsTo(w, s, steps, end) && ApprovalReceived(s, t)
    requires t in end.tasks && end.tasks[t].phase.Done?
    ensures SignsAt(w, s, t, steps, k, mid)
    ensures At(end, t, Done(if mid.locked then Locked else Signed))
    ensures !mid.locked ==>
              exists i :: 0 <= i < |end.signatures| && end.signatures[i] == Signature(t, s.tasks[t].app, s.tasks[t].message)
    decreases |steps|
  {
    NotDoneYet(s, t);
    hide *;
    if steps == [] {
      NowhereLeft(w, s, end);
    } else {
      var e := NextOf(w, s, steps, end);
      if steps[0] == Sign(t) {
        k, mid := 0, s;
        SigningDecides(w, s, t);
        AtIs(e, t);
        DoneForGood(w, e, t, steps[1..], end);
        SignaturesStay(w, e, steps[1..], end);
        AtMeans(end, t, Done(if s.locked then Locked else Signed));
        StartsHere(w, s, t, steps);
        if !s.locked {
          assert end.signatures[|s.signatures|] == Signature(t, s.tasks[t].app, s.tasks[t].message);
        }
      } else {
        Parts(w, s);
        ReceivedStays(w, s, t, steps[0]);
        InvariantKept(w, s, steps[0]);
        SameMessageMeans(s, e, t);
        k, mid := ReceivedMeansSigning(w, e, t, steps[1..], end);
        SignsLater(w, s, t, steps, k, mid);
        k := k + 1;
      }
    }
  }

  lemma NotDoneYet(s: System, t: nat)
    requires ApprovalReceived(s, t)
    ensures t in s.tasks && !s.tasks[t].phase.Done?
  {
  }

  lemma NowhereLeft(w: World, s: System, end: System)
    requires RunsTo(w, s, [], end)
    ensures end == s
  {
  }

  lemma NextOf(w: World, s: System, steps: seq<Step>, end: System) returns (e: System)
    requires steps != [] && RunsTo(w, s, steps, end)
    ensures Enabled(w, s, steps[0]) && e == Apply(w, s, steps[0]) && RunsTo(w, e, steps[1..], end)
  {
    hide Apply;
    hide Enabled;
    e := Apply(w, s, steps[0]);
  }

  lemma AtIs(s: System, t: nat)
    requires exists verdict :: At(s, t, Done(verdict))
    ensures t in s.tasks && s.tasks[t].phase.Done? && At(s, t, s.tasks[t].phase)
  {
  }

  lemma AtMeans(s: System, t: nat, phase: Phase)
    requires t in s.tasks
    ensures At(s, t, phase) <==> s.tasks[t].phase == phase
  {
  }

  lemma SameMessageMeans(s: System, e: System, t: nat)
    requires t in s.tasks && SameMessage(s, e, t)
    ensures t in e.tasks && e.tasks[t].app == s.tasks[t].app && e.tasks[t].message == s.tasks[t].message
  {
  }

  lemma StartsHere(w: World, s: System, t: nat, steps: seq<Step>)
    requires steps != [] && steps[0] == Sign(t)
    ensures SignsAt(w, s, t, steps, 0, s)
  {
    assert steps[..0] == [];
  }

  /** An approval about to be sent: the request it answers, and the state just after. */
  ghost predicate ApprovalSent(w: World, s: System, r: nat, t: nat, e: System) {
    && Reachable(w, s) && r in s.answers && s.answers[r].phase == Sending(t) && s.answers[r].approved
    && t in s.tasks && Enabled(w, s, SendAnswer(r)) && e == Apply(w, s, SendAnswer(r))
  }

  /**
   * An approval sent in time decides: in every run that finishes the request, it reaches its
   * signing step, and there only the lock matters. Unlocked, its message is signed.
   */
  lemma TimelyApprovalSigns(w: World, s: System, r: nat, t: nat, e: System, steps: seq<Step>, end: System)
    requires ApprovalSent(w, s, r, t, e) && InTime(s.tasks[t].phase)
    requires RunsTo(w, e, steps, end) && t in end.tasks && end.tasks[t].phase.Done?
    ensures r in e.answers && e.answers[r].phase == Replied(true)
    ensures exists k, mid ::
              && SignsAt(w, e, t, steps, k, mid)
              && At(end, t, Done(if mid.locked then Locked else Signed))
              && (!mid.locked ==>
                    exists i :: 0 <= i < |end.signatures|
                                && end.signatures[i] == Signature(t, s.tasks[t].app, s.tasks[t].message))
  {
    AlwaysInvariant(w, s);
    Parts(w, s);
    SentArrives(w, s, r);
    hide RunsTo;
    hide Apply;
    hide Enabled;
    hide Reachable;
    hide Invariant;
    InvariantKept(w, s, SendAnswer(r));
    var k, mid := ReceivedMeansSigning(w, e, t, steps, end);
    hide SignsAt;
    hide ApprovalReceived;
  }

  /**
   * An approval sent any later never does: every run that finishes the request ends it as
   * rejected, without a signature. It is reported as delivered, all the same, exactly while
   * the receiver is still there.
   */
  lemma LateApprovalIsIgnored(w: World, s: System, r: nat, t: nat, e: System, steps: seq<Step>, end: System)
    requires ApprovalSent(w, s, r, t, e) && !InTime(s.tasks[t].phase)
    requires RunsTo(w, e, steps, end) && t in end.tasks && end.tasks[t].phase.Done?
    ensures r in e.answers && (e.answers[r].phase == Replied(true) <==> s.tasks[t].phase.Expiring?)
    ensures At(end, t, Done(Rejected)) && forall i :: 0 <= i < |end.signatures| ==> end.signatures[i].task != t
  {
    AlwaysInvariant(w, s);
    Parts(w, s);
    SentArrives(w, s, r);
    InvariantKept(w, s, SendAnswer(r));
    hide RunsTo;
    hide Apply;
    hide Enabled;
    hide Reachable;
    hide Invariant;
    GivenUpForGood(w, e, t, steps, end);
    InvariantAlong(w, e, steps, end);
    Parts(w, end);
    OnlySignedSign(end, t);
  }

  lemma OnlySignedSign(s: System, t: nat)
    requires SignaturesSound(s) && t in s.tasks && s.tasks[t].phase != Done(Signed)
    ensures forall i :: 0 <= i < |s.signatures| ==> s.signatures[i].task != t
  {
    forall i | 0 <= i < |s.signatures|
      ensures s.signatures[i].task != t
    {
      assert SignedBy(s, i);
    }
  }

  /** So an approval is acted on exactly when it was sent before the timer fired. */
  lemma ApprovalCountsExactly(w: World, s: System, r: nat, t: nat, e: System, steps: seq<Step>, end: System)
    requires ApprovalSent(w, s, r, t, e)
    requires RunsTo(w, e, steps, end) && t in end.tasks && end.tasks[t].phase.Done?
    ensures At(end, t, Done(Signed)) || At(end, t, Done(Locked)) <==> InTime(s.tasks[t].phase)
  {
    if InTime(s.tasks[t].phase) {
      TimelyApprovalSigns(w, s, r, t, e, steps, end);
    } else {
      LateApprovalIsIgnored(w, s, r, t, e, steps, end);
    }
    hide ApprovalSent;
    hide RunsTo;
    hide SignsAt;
  }

  /**
   * There is such a run: an approval sent while the request waits, with the wallet unlocked, can lead to its
   * signature at once.
   */
  lemma SomeApprovalSigns(w: World, s: System, t: nat, r: nat)
    requires Reachable(w, s) && At(s, t, Waiting) && !s.locked
    requires r in s.answers && s.answers[r].phase == Sending(t) && s.answers[r].approved
    ensures exists end ::
              && RunsTo(w, s, [SendAnswer(r), Receive(t), CleanUp(t), Sign(t)], end)
              && end.signatures == s.signatures + [Signature(t, s.tasks[t].app, s.tasks[t].message)]
  {
    AlwaysInvariant(w, s);
    Parts(w, s);
    WaitingIsOpen(w, s, t);
    TimelySend(w, s, t, r);
    var a := Apply(w, s, SendAnswer(r));
    TimelyReceive(w, a, t);
    var b := Apply(w, a, Receive(t));
    TimelyCleanUp(w, b, t);
    var c := Apply(w, b, CleanUp(t));
    TimelySign(w, c, t);
    hide *;
    FourSteps(w, s, SendAnswer(r), Receive(t), CleanUp(t), Sign(t));
  }

  lemma WaitingIsOpen(w: World, s: System, t: nat)
    requires Shapes(w, s) && At(s, t, Waiting)
    ensures s.tasks[t].receiving && s.tasks[t].number.Some?
  {
    hide Prompt;
    assert Shape(w, s.tasks[t], s.pushed);
  }

  predicate SameMessage(s: System, e: System, t: nat)
    requires t in s.tasks
  {
    t in e.tasks && e.tasks[t].app == s.tasks[t].app && e.tasks[t].message == s.tasks[t].message
  }

  /** Nothing but the phase and the channel of the request has changed. */
  predicate SameRequest(s: System, e: System, t: nat)
    requires t in s.tasks
  {
    && t in e.tasks && e.tasks[t].app == s.tasks[t].app && e.tasks[t].message == s.tasks[t].message
    && e.tasks[t].number == s.tasks[t].number && e.signatures == s.signatures && e.locked == s.locked
  }

  lemma TimelySend(w: World, s: System, t: nat, r: nat)
    requires At(s, t, Waiting) && s.tasks[t].receiving && r in s.answers && s.answers[r].phase == Sending(t)
             && s.answers[r].approved
    ensures Enabled(w, s, SendAnswer(r))
    ensures var e := Apply(w, s, SendAnswer(r));
            At(e, t, Waiting) && e.tasks[t].value == Some(true) && SameRequest(s, e, t)
  {
  }

  lemma TimelyReceive(w: World, s: System, t: nat)
    requires At(s, t, Waiting) && s.tasks[t].value == Some(true)
    ensures Enabled(w, s, Receive(t))
    ensures var e := Apply(w, s, Receive(t)); At(e, t, CleaningUp(Answered(true))) && SameRequest(s, e, t)
  {
  }

  lemma TimelyCleanUp(w: World, s: System, t: nat)
    requires At(s, t, CleaningUp(Answered(true))) && s.tasks[t].number.Some?
    ensures Enabled(w, s, CleanUp(t))
    ensures var e := Apply(w, s, CleanUp(t)); At(e, t, Signing) && SameRequest(s, e, t)
  {
    hide RequestId;
  }

  lemma TimelySign(w: World, s: System, t: nat)
    requires At(s, t, Signing) && !s.locked
    ensures Enabled(w, s, Sign(t))
    ensures Apply(w, s, Sign(t)).signatures == s.signatures + [Signature(t, s.tasks[t].app, s.tasks[t].message)]
  {
  }

  /**
   * And there is such a run: an approval sent after the timer has fired can be reported as delivered and then
   * ignored.
   */
  lemma SomeApprovalIsIgnored(w: World, s: System, t: nat, r: nat)
    requires Reachable(w, s) && At(s, t, Expiring) && r in s.answers && s.answers[r].phase == Sending(t)
             && s.answers[r].approved
    ensures exists end ::
              && RunsTo(w, s, [SendAnswer(r), StopReceiving(t), CleanUp(t), Cancel(t)], end)
              && r in end.answers && end.answers[r].phase == Replied(true) && At(end, t, Done(Rejected))
              && end.signatures == s.signatures
  {
    AlwaysInvariant(w, s);
    Parts(w, s);
    ExpiringIsOpen(w, s, t);
    LateSend(w, s, t, r);
    var a := Apply(w, s, SendAnswer(r));
    LateStop(w, a, t, r);
    var b := Apply(w, a, StopReceiving(t));
    LateCleanUp(w, b, t, r);
    var c := Apply(w, b, CleanUp(t));
    LateCancel(w, c, t, r);
    hide *;
    FourSteps(w, s, SendAnswer(r), StopReceiving(t), CleanUp(t), Cancel(t));
  }

  lemma ExpiringIsOpen(w: World, s: System, t: nat)
    requires Shapes(w, s) && At(s, t, Expiring)
    ensures s.tasks[t].receiving && s.tasks[t].number.Some?
  {
    hide Prompt;
    assert Shape(w, s.tasks[t], s.pushed);
  }

  lemma LateSend(w: World, s: System, t: nat, r: nat)
    requires At(s, t, Expiring) && s.tasks[t].receiving && s.tasks[t].number.Some? && r in s.answers
             && s.answers[r].phase == Sending(t)
    ensures Enabled(w, s, SendAnswer(r))
    ensures var e := Apply(w, s, SendAnswer(r));
            && At(e, t, Expiring) && e.tasks[t].number.Some? && r in e.answers && e.answers[r].phase == Replied(true)
            && e.signatures == s.signatures
  {
  }

  lemma LateStop(w: World, s: System, t: nat, r: nat)
    requires At(s, t, Expiring) && s.tasks[t].number.Some? && r in s.answers
    ensures Enabled(w, s, StopReceiving(t))
    ensures var e := Apply(w, s, StopReceiving(t));
            && At(e, t, CleaningUp(TimedOut)) && e.tasks[t].number.Some? && r in e.answers
               && e.answers[r] == s.answers[r]
            && e.signatures == s.signatures
  {
  }

  lemma LateCleanUp(w: World, s: System, t: nat, r: nat)
    requires At(s, t, CleaningUp(TimedOut)) && s.tasks[t].number.Some? && r in s.answers
    ensures Enabled(w, s, CleanUp(t))
    ensures var e := Apply(w, s, CleanUp(t));
            && At(e, t, Cancelling) && e.tasks[t].number.Some? && r in e.answers && e.answers[r] == s.answers[r]
            && e.signatures == s.signatures
  {
    hide RequestId;
  }

  lemma LateCancel(w: World, s: System, t: nat, r: nat)
    requires At(s, t, Cancelling) && s.tasks[t].number.Some? && r in s.answers
    ensures Enabled(w, s, Cancel(t))
    ensures var e := Apply(w, s, Cancel(t));
            At(e, t, Done(Rejected)) && r in e.answers && e.answers[r] == s.answers[r] && e.signatures == s.signatures
  {
    hide RequestId;
    hide Deliver;
  }

  lemma FourSteps(w: World, s: System, p: Step, q: Step, x: Step, y: Step)
    requires Enabled(w, s, p)
    requires var a := Apply(w, s, p);
             && Enabled(w, a, q)
             && var b := Apply(w, a, q);
                && Enabled(w, b, x)
                && Enabled(w, Apply(w, b, x), y)
    ensures RunsTo(w, s, [p, q, x, y], Apply(w, Apply(w, Apply(w, Apply(w, s, p), q), x), y))
  {
    hide Apply;
    hide Enabled;
    var a := Apply(w, s, p);
    var b := Apply(w, a, q);
    var c := Apply(w, b, x);
    var d := Apply(w, c, y);
    assert [p, q, x, y][1..] == [q, x, y] && [q, x, y][1..] == [x, y] && [x, y][1..] == [y] && [y][1..] == [];
    assert RunsTo(w, d, [], d);
    assert RunsTo(w, c, [y], d);
    assert RunsTo(w, b, [x, y], d);
    assert RunsTo(w, a, [q, x, y], d);
  }

  // --- the daemon's own methods are runs -----------------------------------------------------

  lemma CheckStep(w: World, s: System, t: nat)
    requires At(s, t, Checking) && ClosedDropped(s.shared).shells != []
    ensures Enabled(w, s, Check(t))
    ensures Apply(w, s, Check(t)) == WithTask(s, t, s.tasks[t].(phase := Numbering)).(shared := ClosedDropped(s.shared))
  {
    hide ClosedDropped;
  }

  lemma NumberStep(w: World, s: System, t: nat)
    requires At(s, t, Numbering)
    ensures Enabled(w, s, Number(t))
    ensures Apply(w, s, Number(t)) ==
              WithTask(s, t, s.tasks[t].(phase := Enlisting, number := Some(s.shared.next), sender := Made))
              .(shared := NumberTaken(s.shared))
  {
  }

  lemma EnlistStep(w: World, s: System, t: nat)
    requires At(s, t, Enlisting) && s.tasks[t].number.Some?
    ensures Enabled(w, s, Enlist(t))
    ensures Apply(w, s, Enlist(t)) ==
              WithTask(s, t, s.tasks[t].(phase := Prompting, sender := InTable))
              .(shared := SenderListed(s.shared, RequestId(s.tasks[t].number.value), t))
  {
    hide RequestId;
  }

  lemma ShowStep(w: World, s: System, t: nat)
    requires At(s, t, Prompting) && s.tasks[t].number.Some?
    ensures Enabled(w, s, Show(t))
    ensures Apply(w, s, Show(t)).shared == EventPushed(s.shared, Prompt(w, s.tasks[t]))
    ensures At(Apply(w, s, Show(t)), t, Waiting)
  {
    hide Prompt;
    hide EventPushed;
  }

  /** Without interleaving, a request's steps up to its wait change the shared state as `DaemonState.Ask` does. */
  lemma AskIsARun(w: World, s: System, t: nat)
    requires At(s, t, Checking)
    ensures ClosedDropped(s.shared).shells == [] ==>
              exists end ::
                RunsTo(w, s, [Check(t)], end) && At(end, t, Done(ShellUnavailable))
                  && end.shared == ClosedDropped(s.shared)
    ensures ClosedDropped(s.shared).shells != [] ==>
              exists end ::
                && RunsTo(w, s, [Check(t), Number(t), Enlist(t), Show(t)], end) && At(end, t, Waiting)
                && var n, task := s.shared.next, s.tasks[t];
                   end.shared == EventPushed(
                     SenderListed(NumberTaken(ClosedDropped(s.shared)), RequestId(n), t),
                     ConfirmRequest(RequestId(n), task.app, w.digest(task.message), |task.message|))
  {
    if ClosedDropped(s.shared).shells == [] {
      NoShellStep(w, s, t);
      OneStep(w, s, Check(t));
    } else {
      PromptingIsARun(w, s, t);
    }
    hide *;
  }

  lemma NoShellStep(w: World, s: System, t: nat)
    requires At(s, t, Checking) && ClosedDropped(s.shared).shells == []
    ensures Enabled(w, s, Check(t))
    ensures var e := Apply(w, s, Check(t)); At(e, t, Done(ShellUnavailable)) && e.shared == ClosedDropped(s.shared)
  {
    hide ClosedDropped;
  }

  lemma PromptingIsARun(w: World, s: System, t: nat)
    requires At(s, t, Checking) && ClosedDropped(s.shared).shells != []
    ensures exists end ::
              && RunsTo(w, s, [Check(t), Number(t), Enlist(t), Show(t)], end) && At(end, t, Waiting)
              && var n, task := s.shared.next, s.tasks[t];
                 end.shared == EventPushed(
                   SenderListed(NumberTaken(ClosedDropped(s.shared)), RequestId(n), t),
                   ConfirmRequest(RequestId(n), task.app, w.digest(task.message), |task.message|))
  {
    CheckStep(w, s, t);
    var a := Apply(w, s, Check(t));
    NumberStep(w, a, t);
    var b := Apply(w, a, Number(t));
    EnlistStep(w, b, t);
    var c := Apply(w, b, Enlist(t));
    ShowStep(w, c, t);
    hide Apply;
    hide Enabled;
    hide RequestId;
    hide Deliver;
    hide OpenLinks;
    FourSteps(w, s, Check(t), Number(t), Enlist(t), Show(t));
  }

  /**
   * What an answer leaves behind: the sender out of the table, its report made, and the value sent if there
   * was a receiver.
   */
  ghost predicate Resolved(s: System, r: nat, end: System)
    requires r in s.answers
  {
    var answer := s.answers[r];
    var sender := SenderOf(s.shared, answer.requestId);
    && end.shared == SenderRemoved(s.shared, answer.requestId)
    && (sender.Some? ==> sender.value in s.tasks)
    && end.answers == s.answers[r := answer.(phase := Replied(sender.Some? && s.tasks[sender.value].receiving))]
    && end.tasks ==
         if sender.None? then s.tasks
         else
           var task := s.tasks[sender.value];
           var value := if task.receiving then Some(answer.approved) else task.value;
           s.tasks[sender.value := task.(sender := Used(r), value := value)]
  }

  /** The answer's steps change the shared state, the channels and the report as `DaemonState.Resolve` does. */
  lemma ResolveIsARun(w: World, s: System, r: nat)
    requires Reachable(w, s) && r in s.answers && s.answers[r].phase.Removing?
    ensures exists end ::
              && RunsTo(w, s, if s.answers[r].requestId in s.shared.pending then [TakeSender(r), SendAnswer(r)]
                 else [TakeSender(r)], end)
              && Resolved(s, r, end)
  {
    AlwaysInvariant(w, s);
    Parts(w, s);
    hide Reachable;
    hide Shapes;
    hide Apply;
    hide Enabled;
    hide RequestId;
    hide RunsTo;
    TakeEnabled(w, s, r);
    if s.answers[r].requestId in s.shared.pending {
      var t := s.shared.pending[s.answers[r].requestId];
      assert Linked(s, t);
      SendAfterTake(w, s, r, t);
      TwoSteps(w, s, TakeSender(r), SendAnswer(r));
    } else {
      NothingToTake(w, s, r);
      OneStep(w, s, TakeSender(r));
    }
  }

  lemma TakeEnabled(w: World, s: System, r: nat)
    requires r in s.answers && s.answers[r].phase.Removing?
    ensures Enabled(w, s, TakeSender(r))
  {
  }

  lemma NothingToTake(w: World, s: System, r: nat)
    requires Enabled(w, s, TakeSender(r)) && s.answers[r].requestId !in s.shared.pending
    ensures Resolved(s, r, Apply(w, s, TakeSender(r)))
  {
    assert s.shared.pending - {s.answers[r].requestId} == s.shared.pending;
  }

  lemma SendAfterTake(w: World, s: System, r: nat, t: nat)
    requires Enabled(w, s, TakeSender(r)) && t in s.tasks && SenderOf(s.shared, s.answers[r].requestId) == Some(t)
    requires s.tasks[t].value.None?
    ensures var a := Apply(w, s, TakeSender(r));
            Enabled(w, a, SendAnswer(r)) && Resolved(s, r, Apply(w, a, SendAnswer(r)))
  {
    var answer := s.answers[r];
    var e := Apply(w, Apply(w, s, TakeSender(r)), SendAnswer(r));
    assert e.answers == s.answers[r := answer.(phase := Replied(s.tasks[t].receiving))];
    assert e.tasks == s.tasks[t := e.tasks[t]];
  }

  lemma OneStep(w: World, s: System, p: Step)
    requires Enabled(w, s, p)
    ensures RunsTo(w, s, [p], Apply(w, s, p))
  {
    hide Apply;
    hide Enabled;
    assert [p][1..] == [];
    assert RunsTo(w, Apply(w, s, p), [], Apply(w, s, p));
  }

  lemma TwoSteps(w: World, s: System, p: Step, q: Step)
    requires Enabled(w, s, p) && Enabled(w, Apply(w, s, p), q)
    ensures RunsTo(w, s, [p, q], Apply(w, Apply(w, s, p), q))
  {
    OneStep(w, Apply(w, s, p), q);
    hide Apply;
    hide Enabled;
    assert [p, q][1..] == [q];
  }

  // --- such runs exist -------------------------------------------------------------------

  lemma {:induction false} OneMoreStep(w: World, s: System, steps: seq<Step>, mid: System, step: Step)
    requires RunsTo(w, s, steps, mid) && Enabled(w, mid, step)
    ensures RunsTo(w, s, steps + [step], Apply(w, mid, step))
    decreases |steps|
  {
    hide Apply;
    hide Enabled;
    if steps == [] {
      assert [step][1..] == [];
      assert RunsTo(w, Apply(w, s, step), [], Apply(w, s, step));
    } else {
      OneMoreStep(w, Apply(w, s, steps[0]), steps[1..], mid, step);
      assert (steps + [step])[1..] == steps[1..] + [step];
    }
  }

  lemma StillReachable(w: World, s: System, step: Step)
    requires Reachable(w, s) && Enabled(w, s, step)
    ensures Reachable(w, Apply(w, s, step))
  {
    var start, steps :| Initial(start) && RunsTo(w, start, steps, s);
    hide Apply;
    hide Enabled;
    hide RunsTo;
    OneMoreStep(w, start, steps, s, step);
  }

  const FIRST := System(Shared(1, map[], []), map[], map[], false, [], [])

  /** One shell, and its own request for a signature over `message`, waiting for the answer. */
  lemma RequestWaits(w: World, app: string, message: Bytes) returns (s: System)
    requires message != []
    ensures Reachable(w, s) && !s.locked && s.answers == map[] && At(s, 0, Waiting)
    ensures s.tasks[0].number == Some(1) && s.shared.pending == map[RequestId(1) := 0]
  {
    hide *;
    s := RequestBegins(w, app, message);
    s := NumberedWaits(w, s);
  }

  lemma ShellThere(w: World) returns (s: System)
    ensures Reachable(w, s) && s == FIRST.(shared := Shared(1, map[], [Link(true, [])]))
  {
    s := FIRST;
    assert RunsTo(w, s, [], s) && Initial(s);
    StillReachable(w, s, ShellOpens);
    s := Apply(w, s, ShellOpens);
  }

  lemma RequestBegins(w: World, app: string, message: Bytes) returns (s: System)
    requires message != []
    ensures Reachable(w, s) && At(s, 0, Numbering) && s.answers == map[] && !s.locked
    ensures s.shared.next == 1 && s.shared.pending == map[]
  {
    SigningAdmitted(w);
    hide Reachable;
    hide Admits;
    s := ShellThere(w);
    var begin := BeginSign(0, None, None, Shell, app, message);
    StillReachable(w, s, begin);
    s := Apply(w, s, begin);
    StillReachable(w, s, Check(0));
    s := Apply(w, s, Check(0));
  }

  lemma NumberedWaits(w: World, s: System) returns (e: System)
    requires Reachable(w, s) && At(s, 0, Numbering) && s.answers == map[] && !s.locked
    requires s.shared.next == 1 && s.shared.pending == map[]
    ensures Reachable(w, e) && !e.locked && e.answers == map[] && At(e, 0, Waiting)
    ensures e.tasks[0].number == Some(1) && e.shared.pending == map[RequestId(1) := 0]
  {
    hide Reachable;
    hide RequestId;
    hide Deliver;
    hide Prompt;
    StillReachable(w, s, Number(0));
    e := Apply(w, s, Number(0));
    StillReachable(w, e, Enlist(0));
    e := Apply(w, e, Enlist(0));
    StillReachable(w, e, Show(0));
    e := Apply(w, e, Show(0));
  }

  lemma SigningAdmitted(w: World)
    ensures Admits(w.capabilities, None, None, Shell, SIGN_METHOD)
            && Admits(w.capabilities, None, None, Shell, ANSWER_METHOD)
  {
    SigningNamespace();
    AnswerNamespace();
    hide RequiredCapability;
  }

  lemma SigningNamespace()
    ensures RequiredCapability(SIGN_METHOD) == Some("wallet")
  {
    assert SIGN_METHOD == "wallet" + "." + "signTransaction";
    FirstDotIs(SIGN_METHOD, "wallet");
    hide RequiredCapability;
  }

  lemma AnswerNamespace()
    ensures RequiredCapability(ANSWER_METHOD) == Some("shell")
  {
    assert ANSWER_METHOD == "shell" + "." + "confirmResponse";
    FirstDotIs(ANSWER_METHOD, "shell");
    hide RequiredCapability;
  }

  lemma FirstDotIs(name: string, prefix: string)
    requires prefix + "." <= name && '.' !in prefix
    ensures RequiredCapability(name) == Some(prefix)
  {
    CapabilityIsNamespace(name);
    DotAfter(name, prefix);
    FirstDot(name, prefix, RequiredCapability(name).value);
  }

  /**
   * A request waits while its approval is on the way: the situation of the two theorems above, before and
   * after the timer.
   */
  lemma ApprovalOnItsWay(w: World, app: string, message: Bytes) returns (s: System, late: System)
    requires message != []
    ensures Reachable(w, s) && !s.locked && At(s, 0, Waiting)
    ensures 0 in s.answers && s.answers[0].phase == Sending(0) && s.answers[0].approved
    ensures Reachable(w, late) && At(late, 0, Expiring) && late.answers == s.answers
  {
    SigningAdmitted(w);
    hide Reachable;
    hide RequestId;
    hide Admits;
    hide Invariant;
    s := RequestWaits(w, app, message);
    s := AnswerBegins(w, s);
    AnswerTaken(w, s);
    StillReachable(w, s, TakeSender(0));
    s := Apply(w, s, TakeSender(0));
    AlwaysInvariant(w, s);
    Parts(w, s);
    HeldHasNoValue(w, s, 0);
    hide Shapes;
    StillReachable(w, s, Expire(0));
    late := Apply(w, s, Expire(0));
  }

  lemma AnswerBegins(w: World, s: System) returns (e: System)
    requires Reachable(w, s) && s.answers == map[] && Admits(w.capabilities, None, None, Shell, ANSWER_METHOD)
    ensures Reachable(w, e) && e == s.(answers := map[0 := Answer(Shell, None, RequestId(1), true, Removing)])
  {
    hide Reachable;
    hide RequestId;
    hide Admits;
    var begin := BeginAnswer(0, None, None, Shell, RequestId(1), true);
    StillReachable(w, s, begin);
    e := Apply(w, s, begin);
  }

  lemma AnswerTaken(w: World, s: System)
    requires At(s, 0, Waiting) && s.shared.pending == map[RequestId(1) := 0]
    requires 0 in s.answers && s.answers[0].phase.Removing? && s.answers[0].requestId == RequestId(1)
    ensures Enabled(w, s, TakeSender(0))
    ensures var e := Apply(w, s, TakeSender(0));
            && At(e, 0, Waiting) && e.tasks[0].sender == Held(0) && e.locked == s.locked
            && 0 in e.answers && e.answers[0] == s.answers[0].(phase := Sending(0))
  {
    hide RequestId;
  }

  lemma HeldHasNoValue(w: World, s: System, t: nat)
    requires Shapes(w, s) && At(s, t, Waiting) && s.tasks[t].sender.Held?
    ensures s.tasks[t].value.None?
  {
    hide Prompt;
    assert Shape(w, s.tasks[t], s.pushed);
  }
}
