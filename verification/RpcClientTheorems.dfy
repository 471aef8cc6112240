/** The client against a daemon that answers each request once, in any order, with connections lost at any time. */
module RpcClientTheorems {
  import opened Wrappers
  import opened RpcClient

  /** `served` holds what the daemon computed for the i-th request sent. */
  datatype System = System(client: Client, served: map<nat, Outcome>)

  datatype Step =
    | ConnectNow | OpenAt(k: nat) | DropAt(k: nat) | CloseNow
    | CallNow(request: Request, sendable: bool) | ExpireTimer(handle: nat) | ReconnectDue(i: nat)
    /** The daemon finishes a request. */
    | Serve(i: nat, outcome: Outcome)
    /** Its reply arrives. */
    | Hear(i: nat)
    /** A pushed event, or anything else that is no reply. */
    | HearOther(message: Message)

  predicate Enabled(s: System, step: Step) {
    match step
    case OpenAt(k) => k < |s.client.sockets| && s.client.sockets[k].Connecting?
    case DropAt(k) => k < |s.client.sockets|
    case ExpireTimer(handle) => handle in s.client.timers
    case ReconnectDue(i) => i < |s.client.reconnects|
    case Serve(i, _) => i < |s.client.sent| && i !in s.served
    case Hear(i) => i < |s.client.sent| && i in s.served
    case HearOther(message) => !(message.Reply? && message.id.Some?)
    case _ => true
  }

  function Next(s: System, step: Step): System
    requires Enabled(s, step)
  {
    var c := s.client;
    match step
    case ConnectNow => s.(client := Connect(c))
    case OpenAt(k) => s.(client := Opened(c, k))
    case DropAt(k) => s.(client := Dropped(c, k))
    case CloseNow => s.(client := Close(c))
    case CallNow(request, sendable) => s.(client := Call(c, request, sendable))
    case ExpireTimer(handle) => s.(client := Expired(c, handle))
    case ReconnectDue(i) => s.(client := Due(c, i))
    case Serve(i, outcome) => s.(served := s.served[i := outcome])
    case Hear(i) => s.(client := Receive(c, Reply(Some(c.sent[i].id), s.served[i])))
    case HearOther(message) => s.(client := Receive(c, message))
  }

  // --- the invariant -----------------------------------------------------------------

  /** Ids count up: every promise and every request has one of those given out, no two requests the same. */
  predicate IdsUnique(c: Client) {
    && (forall id :: id in c.promises ==> id < c.nextId)
    && (forall i :: 0 <= i < |c.sent| ==> c.sent[i].id in c.promises)
    && (forall i, k :: 0 <= i < k < |c.sent| ==> c.sent[i].id < c.sent[k].id)
  }

  /** Pending calls and live timers are in step. */
  predicate TimersMatch(c: Client) {
    && (forall id :: id in c.pending ==> c.pending[id] in c.timers && c.timers[c.pending[id]] == id)
    && (forall h :: h in c.timers ==> h < c.nextTimer && c.timers[h] in c.pending && c.pending[c.timers[h]] == h)
  }

  /** A call is pending exactly while its promise is unsettled, apart from one whose parameters could not be sent. */
  predicate PendingMatches(c: Client) {
    && (forall id :: id in c.promises && c.promises[id].Unsettled? ==> id in c.pending)
    && (forall id :: id in c.pending ==> id in c.promises && (c.promises[id].Unsettled? || c.promises[id].NotSendable?))
  }

  predicate BackoffBounded(c: Client) {
    && FIRST_BACKOFF <= c.backoff <= MAX_BACKOFF
    && (forall i :: 0 <= i < |c.reconnects| ==> FIRST_BACKOFF <= c.reconnects[i] <= MAX_BACKOFF)
  }

  /** Each loss scheduled one reconnect, and no socket was lost twice. */
  predicate LostOnce(c: Client) {
    && |c.reconnects| <= |c.lost|
    && (forall i, k :: 0 <= i < k < |c.lost| ==> c.lost[i] != c.lost[k])
    && (forall i :: 0 <= i < |c.lost| ==> c.lost[i] < |c.sockets|)
    && (c.socket.Some? ==> c.socket.value < |c.sockets| && c.socket.value !in c.lost)
    && (c.closed ==> c.socket.None?)
  }

  /** The promise of a settled call carries what the daemon computed for that call's own request. */
  predicate AnsweredBy(s: System, i: nat, p: Promise)
    requires i < |s.client.sent|
  {
    i in s.served && p == Answer(s.served[i])
  }

  ghost predicate AnswersTrue(s: System) {
    forall id :: id in s.client.promises && (s.client.promises[id].Resolved? || s.client.promises[id].RejectedWith?) ==>
      exists i :: 0 <= i < |s.client.sent| && s.client.sent[i].id == id && AnsweredBy(s, i, s.client.promises[id])
  }

  ghost predicate Invariant(s: System) {
    && IdsUnique(s.client) && TimersMatch(s.client) && PendingMatches(s.client)
    && BackoffBounded(s.client) && LostOnce(s.client) && AnswersTrue(s)
  }

  // --- every step keeps it -----------------------------------------------------------

  lemma IdsKept(s: System, step: Step)
    requires IdsUnique(s.client) && Enabled(s, step)
    ensures IdsUnique(Next(s, step).client)
  {
    hide Handles;
  }

  lemma TimersKept(s: System, step: Step)
    requires TimersMatch(s.client) && IdsUnique(s.client) && PendingMatches(s.client) && Enabled(s, step)
    ensures TimersMatch(Next(s, step).client)
  {
    hide SettleAll;
    if step.DropAt? && s.client.socket == Some(step.k) {
      assert Handles(s.client.pending, s.client.pending.Keys) == s.client.timers.Keys;
    }
    hide Handles;
  }

  lemma PendingKept(s: System, step: Step)
    requires PendingMatches(s.client) && IdsUnique(s.client) && TimersMatch(s.client) && Enabled(s, step)
    ensures PendingMatches(Next(s, step).client)
  {
    hide Handles;
  }

  lemma BackoffKept(s: System, step: Step)
    requires BackoffBounded(s.client) && Enabled(s, step)
    ensures BackoffBounded(Next(s, step).client)
  {
    hide Handles;
    hide SettleAll;
  }

  lemma LossesKept(s: System, step: Step)
    requires LostOnce(s.client) && Enabled(s, step)
    ensures LostOnce(Next(s, step).client)
  {
    hide Handles;
    hide SettleAll;
  }

  /** A settled promise never changes, and no id is given out twice. */
  lemma SettledForGood(s: System, step: Step, id: nat)
    requires IdsUnique(s.client) && Enabled(s, step) && id in s.client.promises
    ensures var t := Next(s, step);
            && id in t.client.promises
            && (!s.client.promises[id].Unsettled? ==> t.client.promises[id] == s.client.promises[id])
  {
    hide Handles;
  }

  /** Where a promise's answer can have come from in one step. */
  lemma AnswerArrives(s: System, step: Step, id: nat)
    requires IdsUnique(s.client) && Enabled(s, step) && id in Next(s, step).client.promises
    ensures var p := Next(s, step).client.promises[id];
            p.Resolved? || p.RejectedWith? ==>
              || (id in s.client.promises && s.client.promises[id] == p)
              || (step.Hear? && s.client.sent[step.i].id == id && p == Answer(s.served[step.i]))
  {
    hide Handles;
  }

  lemma RequestsStay(s: System, step: Step)
    requires Enabled(s, step)
    ensures s.client.sent <= Next(s, step).client.sent
    ensures forall i :: i in s.served ==> i in Next(s, step).served && Next(s, step).served[i] == s.served[i]
  {
    hide Handles;
    hide SettleAll;
  }

  lemma AnswersKept(s: System, step: Step)
    requires AnswersTrue(s) && IdsUnique(s.client) && Enabled(s, step)
    ensures AnswersTrue(Next(s, step))
  {
    var t := Next(s, step);
    RequestsStay(s, step);
    forall id | id in t.client.promises && (t.client.promises[id].Resolved? || t.client.promises[id].RejectedWith?)
      ensures exists i ::
                0 <= i < |t.client.sent| && t.client.sent[i].id == id && AnsweredBy(t, i, t.client.promises[id])
    {
      AnswerArrives(s, step, id);
      var p := t.client.promises[id];
      if id in s.client.promises && s.client.promises[id] == p {
        var i :| 0 <= i < |s.client.sent| && s.client.sent[i].id == id && AnsweredBy(s, i, p);
        assert t.client.sent[i].id == id && AnsweredBy(t, i, p);
      } else {
        assert t.client.sent[step.i].id == id && AnsweredBy(t, step.i, p);
      }
    }
  }

  lemma InvariantKept(s: System, step: Step)
    requires Invariant(s) && Enabled(s, step)
    ensures Invariant(Next(s, step))
  {
    IdsKept(s, step);
    TimersKept(s, step);
    PendingKept(s, step);
    BackoffKept(s, step);
    LossesKept(s, step);
    AnswersKept(s, step);
    hide Next;
    hide Enabled;
    hide IdsUnique;
    hide TimersMatch;
    hide PendingMatches;
    hide BackoffBounded;
    hide LostOnce;
    hide AnswersTrue;
  }

  // --- every run ------------------------------------------------------------------------

  ghost predicate RunsTo(s: System, steps: seq<Step>, end: System)
    decreases |steps|
  {
    if steps == [] then end == s
    else Enabled(s, steps[0]) && RunsTo(Next(s, steps[0]), steps[1..], end)
  }

  ghost predicate Reachable(s: System) {
    exists steps :: RunsTo(System(NEW_CLIENT, map[]), steps, s)
  }

  lemma {:induction false} InvariantAlong(s: System, steps: seq<Step>, end: System)
    requires Invariant(s) && RunsTo(s, steps, end)
    ensures Invariant(end)
    decreases |steps|
  {
    if steps != [] {
      InvariantKept(s, steps[0]);
      hide Invariant;
      hide Next;
      hide Enabled;
      InvariantAlong(Next(s, steps[0]), steps[1..], end);
    }
  }

  lemma AlwaysInvariant(s: System)
    requires Reachable(s)
    ensures Invariant(s)
  {
    var steps :| RunsTo(System(NEW_CLIENT, map[]), steps, s);
    hide RunsTo;
    InvariantAlong(System(NEW_CLIENT, map[]), steps, s);
  }

  /**
   * In every run, whatever order replies come in and whenever connections are lost, a call
   * that resolved, or was rejected by the daemon, got exactly what the daemon computed for
   * the one request that carried its id.
   */
  lemma RepliesReachTheirCalls(s: System, id: nat)
    requires Reachable(s) && id in s.client.promises
    ensures s.client.promises[id].Resolved? || s.client.promises[id].RejectedWith? ==>
              exists i ::
                0 <= i < |s.client.sent| && s.client.sent[i].id == id && AnsweredBy(s, i, s.client.promises[id])
    ensures forall i, k :: 0 <= i < |s.client.sent| && 0 <= k < |s.client.sent| && i != k ==>
            s.client.sent[i].id != s.client.sent[k].id
  {
    AlwaysInvariant(s);
    hide Reachable;
    hide TimersMatch;
    hide PendingMatches;
    hide LostOnce;
  }

  /**
   * A live timer for every pending call and for nothing else, and every unsettled promise pending: no call
   * hangs forever.
   */
  lemma PendingMeansTimed(s: System, id: nat)
    requires Reachable(s)
    ensures id in s.client.pending <==> exists h :: h in s.client.timers && s.client.timers[h] == id
    ensures id in s.client.promises && s.client.promises[id].Unsettled? ==> id in s.client.pending
    ensures id in s.client.pending ==>
            id in s.client.promises && (s.client.promises[id].Unsettled? || s.client.promises[id].NotSendable?)
    ensures forall h, g ::
              h in s.client.timers && g in s.client.timers && s.client.timers[h] == s.client.timers[g] ==> h == g
  {
    AlwaysInvariant(s);
    hide Reachable;
    hide AnswersTrue;
    hide IdsUnique;
    hide LostOnce;
    if id in s.client.pending {
      assert s.client.pending[id] in s.client.timers;
    }
  }

  /** Losing a socket schedules at most one reconnect for it, after 250 to 5000 ms, and none once closed. */
  lemma OneReconnectPerLoss(s: System, k: nat)
    requires Reachable(s) && k < |s.client.sockets|
    ensures var t := Dropped(s.client, k);
            if s.client.socket == Some(k) && !s.client.closed then
              && k !in s.client.lost && t.lost == s.client.lost + [k]
              && exists delay :: t.reconnects == s.client.reconnects + [delay] && FIRST_BACKOFF <= delay <= MAX_BACKOFF
            else t.reconnects == s.client.reconnects && t.lost == s.client.lost
    ensures forall i, j :: 0 <= i < j < |s.client.lost| ==> s.client.lost[i] != s.client.lost[j]
    ensures |s.client.reconnects| <= |s.client.lost|
  {
    AlwaysInvariant(s);
    hide Reachable;
    hide AnswersTrue;
    hide IdsUnique;
    hide TimersMatch;
    hide PendingMatches;
    hide Handles;
    hide SettleAll;
    var t := Dropped(s.client, k);
    assert s.client.socket == Some(k) && !s.client.closed ==> t.reconnects == s.client.reconnects + [s.client.backoff];
  }

  /** Losing the current socket settles every call that was waiting on it, at once; closing the client settles none. */
  lemma LossSettlesEverything(s: System, k: nat, id: nat)
    requires Reachable(s) && k < |s.client.sockets| && s.client.socket == Some(k) && id in s.client.promises
    ensures var t := Dropped(s.client, k);
            && t.pending == map[] && t.timers == map[]
            && t.promises[id] == if s.client.promises[id].Unsettled? then ConnectionLost else s.client.promises[id]
    ensures Close(s.client).pending == s.client.pending && Close(s.client).promises == s.client.promises
  {
    AlwaysInvariant(s);
    hide Reachable;
    hide AnswersTrue;
    hide LostOnce;
    assert s.client.timers.Keys <= Handles(s.client.pending, s.client.pending.Keys);
  }

  /**
   * Calls whose parameters JSON cannot express are the one exception: rejected, yet pending until their timer
   * fires.
   */
  lemma UnsendableStaysPending(s: System, request: Request)
    requires Reachable(s) && Connected(s.client)
    ensures var t := Call(s.client, request, false);
            var id := s.client.nextId;
            && id !in s.client.promises && t.promises[id] == NotSendable && id in t.pending && t.sent == s.client.sent
            && forall h :: h in t.timers && t.timers[h] == id ==>
               id !in Expired(t, h).pending && Expired(t, h).promises[id] == NotSendable
  {
    AlwaysInvariant(s);
    hide Reachable;
    hide AnswersTrue;
    hide LostOnce;
  }

  /** Only such a call, made while connected, leaves a promise in that state. */
  lemma NotSendableComesFrom(s: System, step: Step, id: nat)
    requires Invariant(s) && Enabled(s, step)
    ensures var before, after := s.client.promises, Next(s, step).client.promises;
            id in after && after[id].NotSendable? <==>
              || (id in before && before[id].NotSendable?)
              || (step.CallNow? && !step.sendable && Connected(s.client) && id == s.client.nextId)
  {
    hide AnswersTrue;
    hide Handles;
  }

  predicate NoneUnsendable(c: Client) {
    forall id :: id in c.promises ==> !c.promises[id].NotSendable?
  }

  lemma {:induction false} NoneUnsendableAlong(s: System, steps: seq<Step>, end: System)
    requires Invariant(s) && NoneUnsendable(s.client) && RunsTo(s, steps, end)
    requires forall i :: 0 <= i < |steps| && steps[i].CallNow? ==> steps[i].sendable
    ensures Invariant(end) && NoneUnsendable(end.client)
    decreases |steps|
  {
    if steps != [] {
      var t := Next(s, steps[0]);
      InvariantKept(s, steps[0]);
      forall id | id in t.client.promises
        ensures !t.client.promises[id].NotSendable?
      {
        NotSendableComesFrom(s, steps[0], id);
      }
      hide Invariant;
      hide Next;
      hide Enabled;
      NoneUnsendableAlong(t, steps[1..], end);
    }
  }

  /** In every run that makes no such call, a call is pending exactly while its promise is unsettled. */
  lemma PendingExactlyUnsettled(steps: seq<Step>, s: System, id: nat)
    requires RunsTo(System(NEW_CLIENT, map[]), steps, s)
    requires forall i :: 0 <= i < |steps| && steps[i].CallNow? ==> steps[i].sendable
    ensures id in s.client.pending <==> id in s.client.promises && s.client.promises[id].Unsettled?
  {
    hide RunsTo;
    NoneUnsendableAlong(System(NEW_CLIENT, map[]), steps, s);
    hide AnswersTrue;
  }

  /** Connect and lose the connection again, `n` times over. */
  function Loses(c: Client, n: nat): (r: Client)
    requires c.socket.None? && !c.closed
    ensures r.socket.None? && !r.closed
  {
    if n == 0 then c
    else
      var d := Connect(Loses(c, n - 1));
      Dropped(d, |d.sockets| - 1)
  }

  function Delay(n: nat): nat {
    if n == 0 then 250 else if n == 1 then 500 else if n == 2 then 1000
    else if n == 3 then 2000 else if n == 4 then 4000 else 5000
  }

  function Delays(n: nat): seq<nat> {
    if n == 0 then [] else Delays(n - 1) + [Delay(n - 1)]
  }

  /** Without a successful connection in between, the delays double up to five seconds. */
  lemma {:induction false} DelaysDouble(c: Client, n: nat)
    requires c.socket.None? && !c.closed && c.backoff == FIRST_BACKOFF
    ensures Loses(c, n).backoff == Delay(n)
    ensures Loses(c, n).reconnects == c.reconnects + Delays(n)
    ensures forall k: nat :: k < |Loses(c, n).sockets| ==> Opened(Loses(c, n), k).backoff == Delay(0)
  {
    hide SettleAll;
    hide Handles;
    if n > 0 {
      DelaysDouble(c, n - 1);
    }
  }
}
