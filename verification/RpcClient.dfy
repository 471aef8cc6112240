/** The shell's JSON-RPC client: requests over a socket that comes and goes, answered in any order. */
module RpcClient {
  import opened Wrappers

  const FIRST_BACKOFF := 250
  const MAX_BACKOFF := 5000

  /** A JSON value, as text. */
  type Json = string

  datatype Request = Request(name: string, params: Json, app: Option<string>)

  datatype Outcome = Success(value: Json) | Failure(error: Json)

  datatype Promise =
    | Unsettled | Resolved(value: Json) | RejectedWith(error: Json) | TimedOut | ConnectionLost | NotSendable

  datatype ReadyState = Connecting | Open | Closed

  /** A message as the socket delivers it; the id of a reply is a number once it has been through `Number`. */
  datatype Message = Unreadable | Event(name: string, params: Json) | Reply(id: Option<nat>, outcome: Outcome)

  /** A request as it left on a socket. */
  datatype Sent = Sent(socket: nat, id: nat, request: Request)

  /**
   * The client's fields, and what the browser keeps for it: the sockets' states, the timers
   * of pending calls by handle, the promises by call id, the scheduled reconnects with the
   * socket whose loss scheduled each, and what was sent.
   */
  datatype Client = Client(
    socket: Option<nat>, nextId: nat, pending: map<nat, nat>, backoff: nat, closed: bool,
    sockets: seq<ReadyState>, timers: map<nat, nat>, nextTimer: nat, promises: map<nat, Promise>,
    reconnects: seq<nat>, lost: seq<nat>, sent: seq<Sent>)

  const NEW_CLIENT := Client(None, 1, map[], FIRST_BACKOFF, false, [], map[], 0, map[], [], [], [])

  /** Only the first settlement of a promise counts. */
  function Settle(promises: map<nat, Promise>, id: nat, p: Promise): map<nat, Promise> {
    if id in promises && promises[id].Unsettled? then promises[id := p] else promises
  }

  function SettleAll(promises: map<nat, Promise>, ids: set<nat>, p: Promise): map<nat, Promise> {
    map id | id in promises :: if id in ids && promises[id].Unsettled? then p else promises[id]
  }

  function Doubled(backoff: nat): nat {
    if backoff * 2 < MAX_BACKOFF then backoff * 2 else MAX_BACKOFF
  }

  predicate Connected(c: Client) {
    c.socket.Some? && c.socket.value < |c.sockets| && c.sockets[c.socket.value].Open?
  }

  function Connect(c: Client): Client {
    if c.closed || c.socket.Some? then c
    else c.(socket := Some(|c.sockets|), sockets := c.sockets + [Connecting])
  }

  /** The socket's `open` event. */
  function Opened(c: Client, k: nat): Client
    requires k < |c.sockets|
  {
    c.(sockets := c.sockets[k := Open], backoff := FIRST_BACKOFF)
  }

  /** The timers of these pending calls. */
  function Handles(pending: map<nat, nat>, ids: set<nat>): set<nat>
    requires ids <= pending.Keys
  {
    set id | id in ids :: pending[id]
  }

  /** The socket's `close` or `error` event. */
  function Dropped(c: Client, k: nat): Client
    requires k < |c.sockets|
  {
    var d := c.(sockets := c.sockets[k := Closed]);
    if c.socket != Some(k) then d
    else
      var failed := d.(
        socket := None, pending := map[], timers := d.timers - Handles(d.pending, d.pending.Keys),
        promises := SettleAll(d.promises, d.pending.Keys, ConnectionLost));
      if c.closed then failed
      else failed.(reconnects := c.reconnects + [c.backoff], lost := c.lost + [k], backoff := Doubled(c.backoff))
  }

  function Close(c: Client): Client {
    c.(closed := true, socket := None,
       sockets :=
         if c.socket.Some? && c.socket.value < |c.sockets| then c.sockets[c.socket.value := Closed] else c.sockets)
  }

  /**
   * A call's id is `c.nextId` if it gets one. Parameters JSON cannot express reject the promise after it was
   * registered.
   */
  function Call(c: Client, request: Request, sendable: bool): Client {
    if !Connected(c) then c
    else
      c.(nextId := c.nextId + 1, pending := c.pending[c.nextId := c.nextTimer],
         timers := c.timers[c.nextTimer := c.nextId],
         nextTimer := c.nextTimer + 1, promises := c.promises[c.nextId := if sendable then Unsettled else NotSendable],
         sent := if sendable then c.sent + [Sent(c.socket.value, c.nextId, request)] else c.sent)
  }

  /** A pending call's timer fires. */
  function Expired(c: Client, handle: nat): Client
    requires handle in c.timers
  {
    var id := c.timers[handle];
    c.(timers := c.timers - {handle}, pending := c.pending - {id}, promises := Settle(c.promises, id, TimedOut))
  }

  function Answer(outcome: Outcome): Promise {
    match outcome
    case Success(value) => Resolved(value)
    case Failure(error) => RejectedWith(error)
  }

  function Receive(c: Client, m: Message): Client {
    match m
    case Reply(Some(id), outcome) =>
      if id !in c.pending then c
      else
        c.(pending := c.pending - {id}, timers := c.timers - {c.pending[id]},
           promises := Settle(c.promises, id, Answer(outcome)))
    case _ => c
  }

  /** A scheduled reconnect comes due. */
  function Due(c: Client, i: nat): Client
    requires i < |c.reconnects|
  {
    Connect(c.(reconnects := c.reconnects[..i] + c.reconnects[i + 1..]))
  }

  lemma OneFewer(timers: map<nat, nat>, promises: map<nat, Promise>, pending: map<nat, nat>, left: set<nat>, id: nat)
    requires left <= pending.Keys && id in left
    ensures timers - Handles(pending, pending.Keys - left) - {pending[id]}
            == timers - Handles(pending, pending.Keys - (left - {id}))
    ensures Settle(SettleAll(promises, pending.Keys - left, ConnectionLost), id, ConnectionLost)
         == SettleAll(promises, pending.Keys - (left - {id}), ConnectionLost)
  {
    assert pending.Keys - (left - {id}) == (pending.Keys - left) + {id};
    assert Handles(pending, (pending.Keys - left) + {id}) == Handles(pending, pending.Keys - left) + {pending[id]};
  }

  // --- the client object ------------------------------------------------------------

  class JsonRpcClient {
    var socket: Option<nat>
    var nextId: nat
    var pending: map<nat, nat>
    var backoff: nat
    var closed: bool
    var sockets: seq<ReadyState>
    var timers: map<nat, nat>
    var nextTimer: nat
    var promises: map<nat, Promise>
    var reconnects: seq<nat>
    var lost: seq<nat>
    var sent: seq<Sent>

    function View(): Client
      reads this
    {
      Client(socket, nextId, pending, backoff, closed, sockets, timers, nextTimer, promises, reconnects, lost, sent)
    }

    constructor ()
      ensures View() == NEW_CLIENT
    {
      socket, nextId, pending, backoff, closed := None, 1, map[], FIRST_BACKOFF, false;
      sockets, timers, nextTimer, promises, reconnects, lost, sent := [], map[], 0, map[], [], [], [];
    }

    method ConnectSocket()
      modifies this`socket, this`sockets
      ensures View() == Connect(old(View()))
    {
      if closed || socket.Some? {
        return;
      }
      socket := Some(|sockets|);
      sockets := sockets + [Connecting];
    }

    method OnDrop(k: nat)
      requires k < |sockets|
      modifies this
      ensures View() == Dropped(old(View()), k)
    {
      hide SettleAll;
      hide Handles;
      sockets := sockets[k := Closed];
      if socket != Some(k) {
        return;
      }
      socket := None;
      FailAll();
      if !closed {
        reconnects := reconnects + [backoff];
        lost := lost + [k];
        backoff := if backoff * 2 < MAX_BACKOFF then backoff * 2 else MAX_BACKOFF;
      }
    }

    /** Reject every pending call, one by one. */
    method FailAll()
      modifies this`pending, this`timers, this`promises
      ensures pending == map[]
      ensures timers == old(timers) - Handles(old(pending), old(pending.Keys))
      ensures promises == SettleAll(old(promises), old(pending.Keys), ConnectionLost)
    {
      var left := pending.Keys;
      while left != {}
        invariant left <= pending.Keys && pending == old(pending)
        invariant timers == old(timers) - Handles(pending, pending.Keys - left)
        invariant promises == SettleAll(old(promises), pending.Keys - left, ConnectionLost)
        decreases left
      {
        var id :| id in left;
        OneFewer(old(timers), old(promises), pending, left, id);
        timers := timers - {pending[id]};
        promises := Settle(promises, id, ConnectionLost);
        left := left - {id};
      }
      pending := map[];
    }

    method CallMethod(request: Request, sendable: bool) returns (id: Option<nat>)
      modifies this
      ensures View() == Call(old(View()), request, sendable)
      ensures id == if Connected(old(View())) then Some(old(nextId)) else None
    {
      if socket.None? || socket.value >= |sockets| || !sockets[socket.value].Open? {
        return None;
      }
      id := Some(nextId);
      nextId := nextId + 1;
      var timer := nextTimer;
      nextTimer := nextTimer + 1;
      timers := timers[timer := id.value];
      pending := pending[id.value := timer];
      if sendable {
        promises := promises[id.value := Unsettled];
        sent := sent + [Sent(socket.value, id.value, request)];
      } else {
        promises := promises[id.value := NotSendable];
      }
    }

    method ReceiveMessage(m: Message)
      modifies this`pending, this`timers, this`promises
      ensures View() == Receive(old(View()), m)
    {
      match m
      case Reply(Some(id), outcome) =>
        if id !in pending {
          return;
        }
        var timer := pending[id];
        pending := pending - {id};
        timers := timers - {timer};
        match outcome {
          case Success(value) => promises := Settle(promises, id, Resolved(value));
          case Failure(error) => promises := Settle(promises, id, RejectedWith(error));
        }
      case _ =>
    }

    method CloseClient()
      modifies this`closed, this`socket, this`sockets
      ensures View() == Close(old(View()))
    {
      closed := true;
      if socket.Some? && socket.value < |sockets| {
        sockets := sockets[socket.value := Closed];
      }
      socket := None;
    }
  }
}
