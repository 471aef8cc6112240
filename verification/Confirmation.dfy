/**
 * Sign requests and the shell's answers, any number at once. A step is one atomic
 * operation: a locked block, a counter increment, a channel send or receive, a timer.
 */
module Confirmation {
  import opened ByteCodec
  import opened Wrappers
  import opened Text
  import opened Access

  const SIGN_METHOD := "wallet.signTransaction"
  const ANSWER_METHOD := "shell.confirmResponse"

  /** A notification pushed to the shells. */
  datatype Push =
    | ConfirmRequest(requestId: string, app: string, digest: string, byteLength: nat)
    | ConfirmCancelled(requestId: string)

  /** A shell's queue of pushed notifications; `open` until its connection is gone. */
  datatype Link = Link(open: bool, inbox: seq<Push>)

  // --- the daemon's shared state ---------------------------------------------------

  /**
   * The counter, the confirmation table and the shell list. The table holds, for each request id, whose
   * sender it is.
   */
  datatype Shared = Shared(next: nat, pending: map<string, nat>, shells: seq<Link>)

  function OpenLinks(shells: seq<Link>): (r: seq<Link>)
    ensures forall l :: l in r <==> l in shells && l.open
    ensures r == [] <==> forall i :: 0 <= i < |shells| ==> !shells[i].open
  {
    if shells == [] then []
    else if shells[0].open then [shells[0]] + OpenLinks(shells[1..])
    else OpenLinks(shells[1..])
  }

  /** Every open link gets the notification; closed ones are dropped from the list. */
  function Deliver(shells: seq<Link>, e: Push): (r: seq<Link>)
    ensures forall l :: l in r ==> l.open && e in l.inbox
  {
    if shells == [] then []
    else if shells[0].open then [shells[0].(inbox := shells[0].inbox + [e])] + Deliver(shells[1..], e)
    else Deliver(shells[1..], e)
  }

  // The atomic blocks: each one a method of the daemon's state, and each one part of a step below.

  function NumberTaken(sh: Shared): Shared {
    sh.(next := sh.next + 1)
  }

  function ShellRegistered(sh: Shared): Shared {
    sh.(shells := sh.shells + [Link(true, [])])
  }

  function ClosedDropped(sh: Shared): Shared {
    sh.(shells := OpenLinks(sh.shells))
  }

  function EventPushed(sh: Shared, e: Push): Shared {
    sh.(shells := Deliver(sh.shells, e))
  }

  function SenderListed(sh: Shared, requestId: string, sender: nat): Shared {
    sh.(pending := sh.pending[requestId := sender])
  }

  function SenderOf(sh: Shared, requestId: string): Option<nat> {
    if requestId in sh.pending then Some(sh.pending[requestId]) else None
  }

  function SenderRemoved(sh: Shared, requestId: string): Shared {
    sh.(pending := sh.pending - {requestId})
  }

  /** A request's one-shot channel: whether the request still holds its end, and what has been sent. */
  class OneShot {
    var receiving: bool
    var value: Option<bool>

    constructor ()
      ensures receiving && value.None?
    {
      receiving, value := true, None;
    }

    /** A value sent after the other end is gone is dropped. */
    method Send(approved: bool) returns (ok: bool)
      modifies this`value
      ensures ok == receiving && value == if receiving then Some(approved) else old(value)
    {
      ok := receiving;
      if receiving {
        value := Some(approved);
      }
    }
  }

  class DaemonState {
    var nextId: nat
    var pendingConfirms: map<string, nat>
    var shells: seq<Link>

    function View(): Shared
      reads this
    {
      Shared(nextId, pendingConfirms, shells)
    }

    constructor ()
      ensures View() == Shared(1, map[], [])
    {
      nextId, pendingConfirms, shells := 1, map[], [];
    }

    /** `fetch_add(1)` */
    method NextSequence() returns (n: nat)
      modifies this`nextId
      ensures n == old(View()).next && View() == NumberTaken(old(View()))
    {
      n := nextId;
      nextId := nextId + 1;
    }

    method RegisterShell()
      modifies this`shells
      ensures View() == ShellRegistered(old(View()))
    {
      shells := shells + [Link(true, [])];
    }

    method ShellConnected() returns (connected: bool)
      modifies this`shells
      ensures View() == ClosedDropped(old(View()))
      ensures connected <==> exists i :: 0 <= i < |old(shells)| && old(shells)[i].open
    {
      shells := OpenLinks(shells);
      connected := |shells| > 0;
    }

    method PushEvent(e: Push)
      modifies this`shells
      ensures View() == EventPushed(old(View()), e)
    {
      var kept: seq<Link> := [];
      for i := 0 to |shells|
        invariant shells == old(shells)
        invariant kept + Deliver(shells[i..], e) == Deliver(shells, e)
      {
        if shells[i].open {
          kept := kept + [shells[i].(inbox := shells[i].inbox + [e])];
        }
      }
      shells := kept;
    }

    method InsertPending(requestId: string, sender: nat)
      modifies this`pendingConfirms
      ensures View() == SenderListed(old(View()), requestId, sender)
    {
      pendingConfirms := pendingConfirms[requestId := sender];
    }

    method RemovePending(requestId: string) returns (sender: Option<nat>)
      modifies this`pendingConfirms
      ensures sender == SenderOf(old(View()), requestId) && View() == SenderRemoved(old(View()), requestId)
    {
      sender := if requestId in pendingConfirms then Some(pendingConfirms[requestId]) else None;
      pendingConfirms := pendingConfirms - {requestId};
    }

    /** `request_confirmation` up to the wait, when nothing else runs in between. */
    method Ask(app: string, digest: string, byteLength: nat, sender: nat) returns (number: Option<nat>)
      modifies this
      ensures number.Some? <==> exists i :: 0 <= i < |old(shells)| && old(shells)[i].open
      ensures number.None? ==> View() == ClosedDropped(old(View()))
      ensures number.Some? ==>
                var n := old(View()).next;
                && number == Some(n)
                && View() == EventPushed(SenderListed(NumberTaken(ClosedDropped(old(View()))), RequestId(n), sender),
                                         ConfirmRequest(RequestId(n), app, digest, byteLength))
    {
      var connected := ShellConnected();
      if !connected {
        return None;
      }
      var n := NextSequence();
      InsertPending(RequestId(n), sender);
      PushEvent(ConfirmRequest(RequestId(n), app, digest, byteLength));
      number := Some(n);
    }

    /** `resolve_confirmation`, when nothing else runs in between; the table's senders belong to these channels. */
    method Resolve(requestId: string, approved: bool, channels: map<nat, OneShot>) returns (delivered: bool)
      requires forall id :: id in pendingConfirms ==> pendingConfirms[id] in channels
      modifies this`pendingConfirms, channels.Values`value
      ensures View() == SenderRemoved(old(View()), requestId)
      ensures var sender := SenderOf(old(View()), requestId);
              && (delivered <==> sender.Some? && channels[sender.value].receiving)
              && (delivered ==> channels[sender.value].value == Some(approved))
              && forall t :: t in channels && !(delivered && channels[t] == channels[sender.value]) ==>
                   channels[t].value == old(channels[t].value)
    {
      var sender := RemovePending(requestId);
      match sender
      case Some(t) =>
        delivered := channels[t].Send(approved);
      case None =>
        delivered := false;
    }
  }

  function RequestId(n: nat): string {
    "c" + Decimal(n)
  }

  // --- one sign request and one answer -----------------------------------------------

  datatype Outcome = Answered(approved: bool) | SenderLost | TimedOut

  datatype Verdict = Signed | Locked | Rejected | ShellUnavailable

  datatype Phase =
    | Checking | Numbering | Enlisting | Prompting
    | Waiting
    /** The timer has fired on an empty channel; the receiver is still there. */
    | Expiring
    | CleaningUp(outcome: Outcome)
    | Cancelling | Signing
    | Done(verdict: Verdict)

  /** Where the sending half of a request's channel is. */
  datatype Sender = Unmade | Made | InTable | Held(r: nat) | Used(r: nat) | Dropped

  datatype Task = Task(
    caller: Caller, app: string, message: Bytes, phase: Phase, number: Option<nat>,
    receiving: bool, value: Option<bool>, sender: Sender)

  datatype AnswerPhase = Removing | Sending(task: nat) | Replied(delivered: bool)

  datatype Answer = Answer(
    caller: Caller, bound: Option<string>, requestId: string, approved: bool, phase: AnswerPhase)

  datatype Signature = Signature(task: nat, app: string, message: Bytes)

  datatype System = System(
    shared: Shared, tasks: map<nat, Task>, answers: map<nat, Answer>, locked: bool,
    pushed: seq<Push>, signatures: seq<Signature>)

  /** What the daemon takes from its surroundings. */
  datatype World = World(digest: Bytes -> string, capabilities: string -> Option<seq<string>>)

  lemma RequestIdInjective(m: nat, n: nat)
    ensures RequestId(m) == RequestId(n) ==> m == n
  {
    if RequestId(m) == RequestId(n) {
      assert RequestId(m)[1..] == Decimal(m) && RequestId(n)[1..] == Decimal(n);
      DecimalInjective(m, n);
    }
  }

  function Prompt(w: World, task: Task): Push
    requires task.number.Some?
  {
    ConfirmRequest(RequestId(task.number.value), task.app, w.digest(task.message), |task.message|)
  }

  datatype Step =
    | BeginSign(t: nat, bound: Option<string>, stamped: Option<string>, caller: Caller, app: string, message: Bytes)
    | BeginAnswer(r: nat, bound: Option<string>, stamped: Option<string>, caller: Caller, requestId: string,
        approved: bool)
    | Check(t: nat) | Number(t: nat) | Enlist(t: nat) | Show(t: nat)
    | Receive(t: nat) | FindLost(t: nat) | Expire(t: nat) | StopReceiving(t: nat)
    | CleanUp(t: nat) | Cancel(t: nat) | Sign(t: nat)
    | TakeSender(r: nat) | SendAnswer(r: nat)
    | ShellOpens | ShellCloses(i: nat) | TakeOtherNumber | SetLock(locked: bool)

  /** The task a step belongs to is there and in the phase the step starts from. */
  predicate At(s: System, t: nat, phase: Phase) {
    t in s.tasks && s.tasks[t].phase == phase
  }

  predicate Enabled(w: World, s: System, step: Step) {
    match step
    case BeginSign(t, bound, stamped, caller, app, message) =>
      && t !in s.tasks && Admits(w.capabilities, bound, stamped, caller, SIGN_METHOD)
      && (caller.App? ==> caller.id == app) && message != []
    case BeginAnswer(r, bound, stamped, caller, _, _) =>
      r !in s.answers && Admits(w.capabilities, bound, stamped, caller, ANSWER_METHOD)
    case Check(t) => At(s, t, Checking)
    case Number(t) => At(s, t, Numbering)
    case Enlist(t) => At(s, t, Enlisting) && s.tasks[t].number.Some?
    case Show(t) => At(s, t, Prompting) && s.tasks[t].number.Some?
    case Receive(t) => At(s, t, Waiting) && s.tasks[t].value.Some?
    case FindLost(t) => At(s, t, Waiting) && s.tasks[t].value.None? && !s.tasks[t].sender.InTable?
      && !s.tasks[t].sender.Held?
    case Expire(t) => At(s, t, Waiting) && s.tasks[t].value.None?
    case StopReceiving(t) => At(s, t, Expiring)
    case CleanUp(t) => t in s.tasks && s.tasks[t].phase.CleaningUp? && s.tasks[t].number.Some?
    case Cancel(t) => At(s, t, Cancelling) && s.tasks[t].number.Some?
    case Sign(t) => At(s, t, Signing)
    case TakeSender(r) => r in s.answers && s.answers[r].phase.Removing?
    case SendAnswer(r) => r in s.answers && s.answers[r].phase.Sending? && s.answers[r].phase.task in s.tasks
    case ShellCloses(i) => i < |s.shared.shells|
    case _ => true
  }

  function WithTask(s: System, t: nat, task: Task): System {
    s.(tasks := s.tasks[t := task])
  }

  function Apply(w: World, s: System, step: Step): System
    requires Enabled(w, s, step)
  {
    match step
    case BeginSign(t, _, _, caller, app, message) =>
      WithTask(s, t, Task(caller, app, message, Checking, None, true, None, Unmade))
    case BeginAnswer(r, bound, _, caller, requestId, approved) =>
      s.(answers := s.answers[r := Answer(caller, bound, requestId, approved, Removing)])
    case Check(t) =>
      var shared := ClosedDropped(s.shared);
      WithTask(s, t, s.tasks[t].(phase := if shared.shells == [] then Done(ShellUnavailable) else Numbering))
      .(shared := shared)
    case Number(t) =>
      WithTask(s, t, s.tasks[t].(phase := Enlisting, number := Some(s.shared.next), sender := Made))
      .(shared := NumberTaken(s.shared))
    case Enlist(t) =>
      WithTask(s, t, s.tasks[t].(phase := Prompting, sender := InTable))
      .(shared := SenderListed(s.shared, RequestId(s.tasks[t].number.value), t))
    case Show(t) =>
      var prompt := Prompt(w, s.tasks[t]);
      WithTask(s, t, s.tasks[t].(phase := Waiting))
      .(shared := EventPushed(s.shared, prompt), pushed := s.pushed + [prompt])
    case Receive(t) =>
      WithTask(s, t, s.tasks[t].(phase := CleaningUp(Answered(s.tasks[t].value.value)), receiving := false))
    case FindLost(t) => WithTask(s, t, s.tasks[t].(phase := CleaningUp(SenderLost), receiving := false))
    case Expire(t) => WithTask(s, t, s.tasks[t].(phase := Expiring))
    case StopReceiving(t) => WithTask(s, t, s.tasks[t].(phase := CleaningUp(TimedOut), receiving := false))
    case CleanUp(t) =>
      var task := s.tasks[t];
      var id := RequestId(task.number.value);
      var next := match task.phase.outcome
        case Answered(true) => Signing
        case Answered(false) => Done(Rejected)
        case SenderLost => Done(ShellUnavailable)
        case TimedOut => Cancelling;
      WithTask(s, t, task.(phase := next, sender := if task.sender.InTable? then Dropped else task.sender))
      .(shared := SenderRemoved(s.shared, id))
    case Cancel(t) =>
      var note := ConfirmCancelled(RequestId(s.tasks[t].number.value));
      WithTask(s, t, s.tasks[t].(phase := Done(Rejected)))
      .(shared := EventPushed(s.shared, note), pushed := s.pushed + [note])
    case Sign(t) =>
      if s.locked then WithTask(s, t, s.tasks[t].(phase := Done(Locked)))
      else
        WithTask(s, t, s.tasks[t].(phase := Done(Signed)))
        .(signatures := s.signatures + [Signature(t, s.tasks[t].app, s.tasks[t].message)])
    case TakeSender(r) => Taken(s, r)
    case SendAnswer(r) => Sent(s, r)
    case ShellOpens => s.(shared := ShellRegistered(s.shared))
    case ShellCloses(i) =>
      s.(shared := s.shared.(shells := s.shared.shells[i := s.shared.shells[i].(open := false)]))
    case TakeOtherNumber => s.(shared := NumberTaken(s.shared))
    case SetLock(locked) => s.(locked := locked)
  }

  /** The answerer removes the sender from the table, if it is there. */
  function Taken(s: System, r: nat): System
    requires r in s.answers
  {
    var answer := s.answers[r];
    var sender := SenderOf(s.shared, answer.requestId);
    if sender.Some? then
      var t := sender.value;
      s.(shared := SenderRemoved(s.shared, answer.requestId),
         answers := s.answers[r := answer.(phase := Sending(t))],
         tasks := if t in s.tasks then s.tasks[t := s.tasks[t].(sender := Held(r))] else s.tasks)
    else
      s.(answers := s.answers[r := answer.(phase := Replied(false))])
  }

  /** The answerer sends on it; that works while the other end is receiving. */
  function Sent(s: System, r: nat): System
    requires r in s.answers && s.answers[r].phase.Sending? && s.answers[r].phase.task in s.tasks
  {
    var answer := s.answers[r];
    var t := answer.phase.task;
    var task := s.tasks[t];
    s.(tasks := s.tasks[t := task.(sender := Used(r), value := if task.receiving then Some(answer.approved) else None)],
       answers := s.answers[r := answer.(phase := Replied(task.receiving))])
  }

  predicate Initial(s: System) {
    s.shared == Shared(1, map[], []) && s.tasks == map[] && s.answers == map[] && s.pushed == [] && s.signatures == []
  }
}
