/**
 * The TCP tunnel multiplexer: both ends call each other over one ordered pipe per direction, handlers finish in
 * any order, and each end numbers its own requests from 1.
 */
module Tunnel {
  import opened Basics

  type Req = nat
  type Resp = nat

  datatype Envelope = Request(requestId: nat, request: Req) | Response(requestId: nat, response: Resp)

  /** What a call returns: the peer's response, or the notice that the session closed. */
  datatype Answer = Reply(response: Resp) | Closed

  /**
   * One end as a caller. `admitted` counts the calls that found the session open but have not registered yet;
   * `pending` holds the waiters, `calling` the requests that are registered but not yet queued. `issued` and
   * `answered` record what was asked and what each call returned.
   */
  datatype Caller = Caller(
    nextId: nat,
    closed: bool,
    admitted: nat,
    pending: map<nat, Req>,
    calling: map<nat, Req>,
    issued: map<nat, Req>,
    answered: map<nat, Answer>)

  /** The same end as a server: the peer's requests before, inside and after a handler. */
  datatype Server = Server(inbound: seq<(nat, Req)>, running: map<nat, Req>, handled: map<nat, (Req, Resp)>)

  datatype Endpoint = Endpoint(caller: Caller, server: Server)

  /** Two ends; `wires[e]` carries what end `e` has queued for its peer, oldest first. */
  datatype Net = Net(ends: seq<Endpoint>, wires: seq<seq<Envelope>>)

  const NOT_CALLED := Caller(1, false, 0, map[], map[], map[], map[])
  const FRESH := Endpoint(NOT_CALLED, Server([], map[], map[]))
  const INITIAL := Net([FRESH, FRESH], [[], []])

  // ---------------------------------------------------------------------------
  // One end
  // ---------------------------------------------------------------------------

  /** `call` takes an id and registers its waiter; the session may have closed since the call was admitted. */
  function Register(c: Caller, request: Req): Caller {
    c.(
      nextId := c.nextId + 1,
      pending := c.pending[c.nextId := request],
      calling := c.calling[c.nextId := request],
      issued := c.issued[c.nextId := request])
  }

  /** The waiter for `id`, if there still is one, gets its answer. */
  function Resolve(c: Caller, id: nat, answer: Answer): Caller {
    if id in c.pending then c.(pending := c.pending - {id}, answered := c.answered[id := answer]) else c
  }

  /** One turn of the reader loop. */
  function Receive(ep: Endpoint, frame: Envelope): Endpoint {
    match frame
    case Request(id, request) => ep.(server := ep.server.(inbound := ep.server.inbound + [(id, request)]))
    case Response(id, response) => ep.(caller := Resolve(ep.caller, id, Reply(response)))
  }

  /** `mark_closed` drains every waiter. */
  function MarkClosed(c: Caller): Caller {
    c.(closed := true, pending := map[], answered := c.answered + map id | id in c.pending :: Closed)
  }

  /** The session object as the source keeps it. */
  class TcpTunnelSession {
    var nextRequestId: nat
    var closed: bool
    var pending: map<nat, Req>
    var inbound: seq<(nat, Req)>
    var answers: map<nat, Answer>

    /** `ep` is the model of this end. */
    ghost predicate Models(ep: Endpoint)
      reads this
    {
      && nextRequestId == ep.caller.nextId && closed == ep.caller.closed && pending == ep.caller.pending
      && inbound == ep.server.inbound && answers == ep.caller.answered
    }

    constructor ()
      ensures Models(FRESH)
    {
      nextRequestId, closed, pending, inbound, answers := 1, false, map[], [], map[];
    }

    method RegisterCall(request: Req, ghost ep: Endpoint) returns (id: nat)
      requires Models(ep)
      modifies this
      ensures Models(ep.(caller := Register(ep.caller, request)))
      ensures id == ep.caller.nextId
    {
      id := nextRequestId;
      nextRequestId := nextRequestId + 1;
      pending := pending[id := request];
    }

    method HandleFrame(frame: Envelope, ghost ep: Endpoint)
      requires Models(ep)
      modifies this
      ensures Models(Receive(ep, frame))
    {
      match frame
      case Request(id, request) => inbound := inbound + [(id, request)];
      case Response(id, response) =>
        if id in pending {
          pending := pending - {id};
          answers := answers[id := Reply(response)];
        }
    }

    method Close(ghost ep: Endpoint)
      requires Models(ep)
      modifies this
      ensures Models(ep.(caller := MarkClosed(ep.caller)))
    {
      closed := true;
      ghost var waiting := pending.Keys;
      while pending != map[]
        invariant pending.Keys <= waiting
        invariant forall id :: id in answers <==> id in old(answers) || (id in waiting && id !in pending)
        invariant forall id :: id in answers ==>
          answers[id] == if id in waiting && id !in pending then Closed else old(answers)[id]
        invariant nextRequestId == old(nextRequestId) && closed && inbound == old(inbound)
        decreases pending.Keys
      {
        assert pending.Keys != {};
        var id :| id in pending;
        pending := pending - {id};
        answers := answers[id := Closed];
      }
      assert answers == old(answers) + map id | id in old(pending) :: Closed;
    }
  }

  // ---------------------------------------------------------------------------
  // The network
  // ---------------------------------------------------------------------------

  /** Everything that may happen at end `e`; nothing orders the ends or the running handlers. */
  datatype Event =
    | Admit(e: nat)
    | Call(e: nat, request: Req)
    | Send(e: nat, id: nat)
    | SendFails(e: nat, id: nat)
    | Deliver(e: nat)
    | StartHandler(e: nat)
    | FinishHandler(e: nat, id: nat, response: Resp)
    | Close(e: nat)
    | Lose(e: nat, kept: nat)

  predicate Shaped(net: Net) {
    |net.ends| == 2 && |net.wires| == 2
  }

  function Peer(e: nat): nat {
    if e == 0 then 1 else 0
  }

  function SetEnd(net: Net, e: nat, ep: Endpoint): (r: Net)
    requires Shaped(net) && e < 2
    ensures Shaped(r)
  {
    net.(ends := net.ends[e := ep])
  }

  function SetWire(net: Net, e: nat, wire: seq<Envelope>): (r: Net)
    requires Shaped(net) && e < 2
    ensures Shaped(r)
  {
    net.(wires := net.wires[e := wire])
  }

  function SetCaller(net: Net, e: nat, c: Caller): (r: Net)
    requires Shaped(net) && e < 2
    ensures Shaped(r)
  {
    SetEnd(net, e, net.ends[e].(caller := c))
  }

  function SetServer(net: Net, e: nat, h: Server): (r: Net)
    requires Shaped(net) && e < 2
    ensures Shaped(r)
  {
    SetEnd(net, e, net.ends[e].(server := h))
  }

  function Start(h: Server): Server
    requires h.inbound != []
  {
    h.(inbound := h.inbound[1..], running := h.running[h.inbound[0].0 := h.inbound[0].1])
  }

  function Finish(h: Server, id: nat, response: Resp): Server
    requires id in h.running
  {
    h.(running := h.running - {id}, handled := h.handled[id := (h.running[id], response)])
  }

  function Queued(c: Caller, id: nat): Caller {
    c.(calling := c.calling - {id})
  }

  /** A step that is not enabled leaves the network as it is. */
  function Step(net: Net, event: Event): (r: Net)
    requires Shaped(net)
    ensures Shaped(r)
  {
    if event.e >= 2 then net
    else
      var e, p := event.e, Peer(event.e);
      var c, h, out := net.ends[e].caller, net.ends[e].server, net.wires[e];
      match event
      case Admit(_) => if c.closed then net else SetCaller(net, e, c.(admitted := c.admitted + 1))
      case Call(_, request) =>
        if c.admitted == 0 then net else SetCaller(net, e, Register(c, request).(admitted := c.admitted - 1))
      case Send(_, id) =>
        if id !in c.calling then net
        else SetWire(SetCaller(net, e, Queued(c, id)), e, out + [Request(id, c.calling[id])])
      case SendFails(_, id) =>
        if id !in c.calling then net else SetCaller(net, e, Resolve(Queued(c, id), id, Closed))
      case Deliver(_) =>
        if net.wires[p] == [] then net
        else SetWire(SetEnd(net, e, Receive(net.ends[e], net.wires[p][0])), p, net.wires[p][1..])
      case StartHandler(_) => if h.inbound == [] then net else SetServer(net, e, Start(h))
      case FinishHandler(_, id, response) =>
        if id !in h.running then net
        else SetWire(SetServer(net, e, Finish(h, id, response)), e, out + [Response(id, response)])
      case Close(_) => SetCaller(net, e, MarkClosed(c))
      case Lose(_, kept) => if kept > |out| then net else SetWire(net, e, out[..kept])
  }

  function Steps(net: Net, events: seq<Event>): (r: Net)
    requires Shaped(net)
    ensures Shaped(r)
    decreases |events|
  {
    if events == [] then net else Steps(Step(net, events[0]), events[1..])
  }

  // ---------------------------------------------------------------------------
  // Invariant
  // ---------------------------------------------------------------------------

  /** The caller's books: every issued request is waiting or answered, never both. */
  predicate CallerOk(c: Caller) {
    && (forall id :: id in c.issued ==> id < c.nextId)
    && (forall id :: id in c.issued ==> id in c.pending || id in c.answered)
    && (forall id :: id in c.answered ==> id in c.issued)
    && (forall id :: id in c.pending ==> id in c.issued && id !in c.answered)
    && (forall id :: id in c.calling ==> id in c.issued && c.calling[id] == c.issued[id])
  }

  /** The requests of `c` on their way to and inside the handlers of `h` are the issued ones. */
  predicate RequestsOk(issued: map<nat, Req>, wire: seq<Envelope>, h: Server) {
    && (forall i :: 0 <= i < |wire| && wire[i].Request? ==>
      wire[i].requestId in issued && issued[wire[i].requestId] == wire[i].request)
    && (forall i :: 0 <= i < |h.inbound| ==>
      h.inbound[i].0 in issued && issued[h.inbound[i].0] == h.inbound[i].1)
    && (forall id :: id in h.running ==> id in issued && issued[id] == h.running[id])
    && (forall id :: id in h.handled ==> id in issued && issued[id] == h.handled[id].0)
  }

  /** Every request is at one place only: queued, on the wire, waiting, in a handler, or done. */
  predicate OnePlace(calling: map<nat, Req>, wire: seq<Envelope>, h: Server) {
    && (forall i, j :: 0 <= i < j < |wire| && wire[i].Request? && wire[j].Request? ==>
      wire[i].requestId != wire[j].requestId)
    && (forall i, j :: 0 <= i < j < |h.inbound| ==> h.inbound[i].0 != h.inbound[j].0)
    && (forall i, j :: 0 <= i < |wire| && wire[i].Request? && 0 <= j < |h.inbound| ==>
      wire[i].requestId != h.inbound[j].0)
    && (forall i :: 0 <= i < |wire| && wire[i].Request? ==>
      wire[i].requestId !in calling && wire[i].requestId !in h.running && wire[i].requestId !in h.handled)
    && (forall j :: 0 <= j < |h.inbound| ==>
      h.inbound[j].0 !in calling && h.inbound[j].0 !in h.running && h.inbound[j].0 !in h.handled)
    && (forall id :: id in calling ==> id !in h.running && id !in h.handled)
    && (forall id :: id in h.running ==> id !in h.handled)
  }

  /** Responses in flight and answers received are the handler's own, for that very request. */
  predicate ResponsesOk(answered: map<nat, Answer>, back: seq<Envelope>, handled: map<nat, (Req, Resp)>) {
    && (forall i :: 0 <= i < |back| && back[i].Response? ==>
      back[i].requestId in handled && handled[back[i].requestId].1 == back[i].response)
    && (forall id :: id in answered && answered[id].Reply? ==>
      id in handled && handled[id].1 == answered[id].response)
  }

  /** The direction in which `c` calls and `h` handles. */
  predicate DirectionOk(c: Caller, wire: seq<Envelope>, back: seq<Envelope>, h: Server) {
    && CallerOk(c) && RequestsOk(c.issued, wire, h) && OnePlace(c.calling, wire, h)
    && ResponsesOk(c.answered, back, h.handled)
  }

  predicate NetOk(net: Net) {
    && Shaped(net)
    && DirectionOk(net.ends[0].caller, net.wires[0], net.wires[1], net.ends[1].server)
    && DirectionOk(net.ends[1].caller, net.wires[1], net.wires[0], net.ends[0].server)
  }

  // --- what the caller does ---

  lemma CallKeeps(c: Caller, wire: seq<Envelope>, back: seq<Envelope>, h: Server, request: Req)
    requires DirectionOk(c, wire, back, h)
    ensures DirectionOk(Register(c, request), wire, back, h)
  {
    hide OnePlace, ResponsesOk;
    assert c.nextId !in c.issued;
    NewIdIsNowhere(c, wire, h, request);
  }

  lemma NewIdIsNowhere(c: Caller, wire: seq<Envelope>, h: Server, request: Req)
    requires c.nextId !in c.issued && RequestsOk(c.issued, wire, h) && OnePlace(c.calling, wire, h)
    ensures OnePlace(c.calling[c.nextId := request], wire, h)
  {
  }

  lemma SendKeeps(c: Caller, wire: seq<Envelope>, back: seq<Envelope>, h: Server, id: nat)
    requires DirectionOk(c, wire, back, h) && id in c.calling
    ensures DirectionOk(Queued(c, id), wire + [Request(id, c.calling[id])], back, h)
  {
    assert forall i :: 0 <= i < |wire| ==> (wire + [Request(id, c.calling[id])])[i] == wire[i];
  }

  lemma ResolveKeeps(c: Caller, wire: seq<Envelope>, back: seq<Envelope>, h: Server, id: nat, answer: Answer)
    requires DirectionOk(c, wire, back, h)
    requires answer.Reply? ==> id in h.handled && h.handled[id].1 == answer.response
    ensures DirectionOk(Resolve(c, id, answer), wire, back, h)
  {
  }

  lemma CloseKeeps(c: Caller, wire: seq<Envelope>, back: seq<Envelope>, h: Server)
    requires DirectionOk(c, wire, back, h)
    ensures DirectionOk(MarkClosed(c), wire, back, h)
  {
  }

  lemma SendFailsKeeps(c: Caller, wire: seq<Envelope>, back: seq<Envelope>, h: Server, id: nat)
    requires DirectionOk(c, wire, back, h)
    ensures DirectionOk(Resolve(Queued(c, id), id, Closed), wire, back, h)
  {
    assert DirectionOk(Queued(c, id), wire, back, h);
    ResolveKeeps(Queued(c, id), wire, back, h, id, Closed);
  }

  lemma FirstResponse(c: Caller, wire: seq<Envelope>, back: seq<Envelope>, h: Server)
    requires DirectionOk(c, wire, back, h) && back != [] && back[0].Response?
    ensures back[0].requestId in h.handled && h.handled[back[0].requestId].1 == back[0].response
  {
  }

  // --- frames that the other direction owns, or that are lost ---

  /** Fewer frames say less: the wires may shrink at either side. */
  lemma FewerFramesKeep(c: Caller, wire: seq<Envelope>, a: nat, n: nat, back: seq<Envelope>, b: nat, m: nat, h: Server)
    requires DirectionOk(c, wire, back, h) && a <= n <= |wire| && b <= m <= |back|
    ensures DirectionOk(c, wire[a..n], back[b..m], h)
  {
    assert forall i :: 0 <= i < n - a ==> wire[a..n][i] == wire[a + i];
    assert forall i :: 0 <= i < m - b ==> back[b..m][i] == back[b + i];
  }

  lemma ForeignFrameKeeps(c: Caller, wire: seq<Envelope>, back: seq<Envelope>, h: Server, frame: Envelope)
    requires DirectionOk(c, wire, back, h)
    ensures frame.Response? ==> DirectionOk(c, wire + [frame], back, h)
    ensures frame.Request? ==> DirectionOk(c, wire, back + [frame], h)
  {
    assert forall i :: 0 <= i < |wire| ==> (wire + [frame])[i] == wire[i];
    assert forall i :: 0 <= i < |back| ==> (back + [frame])[i] == back[i];
  }

  // --- what the server does ---

  lemma DeliverKeeps(c: Caller, wire: seq<Envelope>, back: seq<Envelope>, h: Server)
    requires DirectionOk(c, wire, back, h) && wire != [] && wire[0].Request?
    ensures DirectionOk(c, wire[1..], back,
              h.(inbound := h.inbound + [(wire[0].requestId, wire[0].request)]))
  {
    var inbound := h.inbound + [(wire[0].requestId, wire[0].request)];
    assert forall i :: 0 <= i < |wire| - 1 ==> wire[1..][i] == wire[i + 1];
    assert forall i :: 0 <= i < |h.inbound| ==> inbound[i] == h.inbound[i];
  }

  lemma StartHandlerKeeps(c: Caller, wire: seq<Envelope>, back: seq<Envelope>, h: Server)
    requires DirectionOk(c, wire, back, h) && h.inbound != []
    ensures DirectionOk(c, wire, back, Start(h))
  {
    assert forall i :: 0 <= i < |h.inbound| - 1 ==> h.inbound[1..][i] == h.inbound[i + 1];
  }

  lemma FinishHandlerKeeps(c: Caller, wire: seq<Envelope>, back: seq<Envelope>, h: Server, id: nat, response: Resp)
    requires DirectionOk(c, wire, back, h) && id in h.running
    ensures DirectionOk(c, wire, back + [Response(id, response)], Finish(h, id, response))
  {
    assert forall i :: 0 <= i < |back| ==> (back + [Response(id, response)])[i] == back[i];
  }

  // --- whole steps ---

  lemma StepKeeps(net: Net, event: Event)
    requires NetOk(net)
    ensures NetOk(Step(net, event))
  {
    hide DirectionOk;
    if event.e < 2 {
      StepKeepsAsCaller(net, event);
      StepKeepsAsServer(net, event);
    }
  }

  lemma StepKeepsAsCaller(net: Net, event: Event)
    requires NetOk(net) && event.e < 2
    ensures DirectionOk(Step(net, event).ends[event.e].caller, Step(net, event).wires[event.e],
              Step(net, event).wires[Peer(event.e)], Step(net, event).ends[Peer(event.e)].server)
  {
    hide CallerOk, RequestsOk, OnePlace, ResponsesOk;
    var e, p := event.e, Peer(event.e);
    var c, h, wire, back := net.ends[e].caller, net.ends[p].server, net.wires[e], net.wires[p];
    assert DirectionOk(c, wire, back, h);
    match event
    case Admit(_) => assert CallerOk(c.(admitted := c.admitted + 1)) by { AdmittedIrrelevant(c, c.admitted + 1); }
    case Call(_, request) =>
      if c.admitted > 0 {
        CallKeeps(c, wire, back, h, request);
        AdmittedIrrelevant(Register(c, request), c.admitted - 1);
      }
    case Send(_, id) => if id in c.calling { SendKeeps(c, wire, back, h, id); }
    case SendFails(_, id) => if id in c.calling { SendFailsKeeps(c, wire, back, h, id); }
    case Deliver(_) =>
      if back != [] {
        assert wire[0..|wire|] == wire && back[1..|back|] == back[1..];
        FewerFramesKeep(c, wire, 0, |wire|, back, 1, |back|, h);
        if back[0].Response? {
          FirstResponse(c, wire, back, h);
          ResolveKeeps(c, wire, back[1..], h, back[0].requestId, Reply(back[0].response));
        }
      }
    case StartHandler(_) =>
    case FinishHandler(_, id, response) => ForeignFrameKeeps(c, wire, back, h, Response(id, response));
    case Close(_) => CloseKeeps(c, wire, back, h);
    case Lose(_, kept) =>
      if kept <= |wire| {
        assert wire[0..kept] == wire[..kept] && back[0..|back|] == back;
        FewerFramesKeep(c, wire, 0, kept, back, 0, |back|, h);
      }
  }

  lemma AdmittedIrrelevant(c: Caller, admitted: nat)
    requires CallerOk(c)
    ensures CallerOk(c.(admitted := admitted))
  {
  }

  lemma StepKeepsAsServer(net: Net, event: Event)
    requires NetOk(net) && event.e < 2
    ensures DirectionOk(Step(net, event).ends[Peer(event.e)].caller, Step(net, event).wires[Peer(event.e)],
              Step(net, event).wires[event.e], Step(net, event).ends[event.e].server)
  {
    hide CallerOk, RequestsOk, OnePlace, ResponsesOk;
    var e, p := event.e, Peer(event.e);
    var h, c, wire, back := net.ends[e].server, net.ends[p].caller, net.wires[p], net.wires[e];
    assert DirectionOk(c, wire, back, h);
    match event
    case Admit(_) =>
    case Call(_, request) =>
    case Send(_, id) =>
      var calling := net.ends[e].caller.calling;
      if id in calling { ForeignFrameKeeps(c, wire, back, h, Request(id, calling[id])); }
    case SendFails(_, id) =>
    case Deliver(_) =>
      if wire != [] && wire[0].Request? {
        DeliverKeeps(c, wire, back, h);
      } else if wire != [] {
        assert back[0..|back|] == back && wire[1..|wire|] == wire[1..];
        FewerFramesKeep(c, wire, 1, |wire|, back, 0, |back|, h);
      }
    case StartHandler(_) => if h.inbound != [] { StartHandlerKeeps(c, wire, back, h); }
    case FinishHandler(_, id, response) => if id in h.running { FinishHandlerKeeps(c, wire, back, h, id, response); }
    case Close(_) =>
    case Lose(_, kept) =>
      if kept <= |back| {
        assert back[0..kept] == back[..kept] && wire[0..|wire|] == wire;
        FewerFramesKeep(c, wire, 0, |wire|, back, 0, kept, h);
      }
  }

  lemma {:induction false} StepsKeep(net: Net, events: seq<Event>)
    requires NetOk(net)
    ensures NetOk(Steps(net, events))
    decreases |events|
  {
    if events != [] {
      StepKeeps(net, events[0]);
      StepsKeep(Step(net, events[0]), events[1..]);
    }
  }

  // ---------------------------------------------------------------------------
  // Results
  // ---------------------------------------------------------------------------

  /**
   * Over every run from a new session, whatever is lost, closed or reordered among handlers: an answer that is not
   * the closing notice was produced by the peer's handler, for exactly the request that this id was issued for.
   */
  lemma AnswersAreThePeersOwn(events: seq<Event>, e: nat, id: nat)
    requires e < 2
    ensures var net := Steps(INITIAL, events);
            var c, h := net.ends[e].caller, net.ends[Peer(e)].server;
            (id in c.answered && c.answered[id].Reply? ==>
              id in c.issued && id in h.handled && h.handled[id] == (c.issued[id], c.answered[id].response))
  {
    hide Steps, OnePlace;
    StepsKeep(INITIAL, events);
    var net := Steps(INITIAL, events);
    assert DirectionOk(net.ends[e].caller, net.wires[e], net.wires[Peer(e)], net.ends[Peer(e)].server);
  }

  /** Every issued request waits or has been answered, and never both; no two calls of one end share an id. */
  lemma WaitsOrAnswered(events: seq<Event>, e: nat, id: nat)
    requires e < 2
    ensures var c := Steps(INITIAL, events).ends[e].caller;
            (id in c.issued ==> ((id in c.pending) != (id in c.answered)) && id < c.nextId)
  {
    hide Steps, OnePlace, RequestsOk, ResponsesOk;
    StepsKeep(INITIAL, events);
    var net := Steps(INITIAL, events);
    assert DirectionOk(net.ends[e].caller, net.wires[e], net.wires[Peer(e)], net.ends[Peer(e)].server);
  }

  /** What a call asked and returned for an id is never replaced. */
  predicate KeepsCalls(c: Caller, c': Caller) {
    && (forall id :: id in c.answered ==> id in c'.answered && c'.answered[id] == c.answered[id])
    && (forall id :: id in c.issued ==> id in c'.issued && c'.issued[id] == c.issued[id])
  }

  /** What a handler produced for an id is never replaced: no request is handled twice. */
  predicate KeepsHandled(h: Server, h': Server) {
    forall id :: id in h.handled ==> id in h'.handled && h'.handled[id] == h.handled[id]
  }

  predicate Keeps(before: Endpoint, after: Endpoint) {
    KeepsCalls(before.caller, after.caller) && KeepsHandled(before.server, after.server)
  }

  /** A new id is new, no waiter has an answer, and no running handler has finished. */
  predicate Unfinished(c: Caller, h: Server) {
    && c.nextId !in c.issued
    && (forall id :: id in c.pending ==> id !in c.answered)
    && (forall id :: id in h.running ==> id !in h.handled)
  }

  lemma NothingFinishedTwice(c: Caller, wire: seq<Envelope>, back: seq<Envelope>, h: Server)
    requires DirectionOk(c, wire, back, h)
    ensures Unfinished(c, h)
  {
  }

  lemma ResolveForgetsNothing(c: Caller, id: nat, answer: Answer, calling: map<nat, Req>)
    requires forall id :: id in c.pending ==> id !in c.answered
    ensures KeepsCalls(c, Resolve(c.(calling := calling), id, answer))
  {
  }

  lemma RegisterForgetsNothing(c: Caller, request: Req, admitted: nat)
    requires c.nextId !in c.issued
    ensures KeepsCalls(c, Register(c, request).(admitted := admitted))
  {
  }

  lemma CloseForgetsNothing(c: Caller)
    requires forall id :: id in c.pending ==> id !in c.answered
    ensures KeepsCalls(c, MarkClosed(c))
  {
  }

  lemma StepAnswersOnce(net: Net, event: Event, e: nat)
    requires NetOk(net) && e < 2
    ensures Keeps(net.ends[e], Step(net, event).ends[e])
  {
    hide DirectionOk;
    var c, h := net.ends[e].caller, net.ends[e].server;
    var p := Peer(e);
    NothingFinishedTwice(c, net.wires[e], net.wires[p], net.ends[p].server);
    NothingFinishedTwice(net.ends[p].caller, net.wires[p], net.wires[e], h);
    if event.e == e { OwnStepAnswersOnce(net, event); }
  }

  lemma OwnStepAnswersOnce(net: Net, event: Event)
    requires Shaped(net) && event.e < 2
    requires Unfinished(net.ends[event.e].caller, net.ends[Peer(event.e)].server)
    requires Unfinished(net.ends[Peer(event.e)].caller, net.ends[event.e].server)
    ensures Keeps(net.ends[event.e], Step(net, event).ends[event.e])
  {
    hide KeepsCalls;
    var e, p := event.e, Peer(event.e);
    var c := net.ends[e].caller;
    KeepsCallsItself(c);
    match event
    case Admit(_) =>
    case Call(_, request) => if c.admitted > 0 { RegisterForgetsNothing(c, request, c.admitted - 1); }
    case Send(_, id) =>
    case SendFails(_, id) => ResolveForgetsNothing(c, id, Closed, c.calling - {id});
    case Deliver(_) =>
      if net.wires[p] != [] && net.wires[p][0].Response? {
        ResolveForgetsNothing(c, net.wires[p][0].requestId, Reply(net.wires[p][0].response), c.calling);
      }
    case StartHandler(_) =>
    case FinishHandler(_, id, response) =>
    case Close(_) => CloseForgetsNothing(c);
    case Lose(_, kept) =>
  }

  lemma KeepsCallsItself(c: Caller)
    ensures forall calling, admitted :: KeepsCalls(c, c.(calling := calling, admitted := admitted))
  {
  }

  lemma {:induction false} AnsweredOnce(net: Net, events: seq<Event>, e: nat)
    requires NetOk(net) && e < 2
    ensures Keeps(net.ends[e], Steps(net, events).ends[e])
    decreases |events|
  {
    hide DirectionOk, Step;
    if events != [] {
      StepAnswersOnce(net, events[0], e);
      StepKeeps(net, events[0]);
      AnsweredOnce(Step(net, events[0]), events[1..], e);
    }
  }

  // ---------------------------------------------------------------------------
  // Nothing is dropped while the session stays open
  // ---------------------------------------------------------------------------

  predicate Lossless(event: Event) {
    !event.Close? && !event.Lose?
  }

  /** Every issued request is somewhere, or its call was told that it could not be sent. */
  predicate RequestsAccounted(c: Caller, wire: seq<Envelope>, h: Server) {
    forall id :: id in c.issued ==> (
      (id in c.answered && c.answered[id] == Closed)
      || id in c.calling || Request(id, c.issued[id]) in wire || (id, c.issued[id]) in h.inbound
      || id in h.running || id in h.handled)
  }

  /** What a handler produced has arrived or is under way. */
  predicate ResponsesAccounted(c: Caller, back: seq<Envelope>, h: Server) {
    forall id :: id in h.handled ==> id in c.answered || Response(id, h.handled[id].1) in back
  }

  predicate Accounted(c: Caller, wire: seq<Envelope>, back: seq<Envelope>, h: Server) {
    RequestsAccounted(c, wire, h) && ResponsesAccounted(c, back, h)
  }

  predicate AllAccounted(net: Net) {
    && Shaped(net)
    && Accounted(net.ends[0].caller, net.wires[0], net.wires[1], net.ends[1].server)
    && Accounted(net.ends[1].caller, net.wires[1], net.wires[0], net.ends[0].server)
  }

  lemma Popped<T>(s: seq<T>)
    requires s != []
    ensures forall x :: x in s ==> x == s[0] || x in s[1..]
  {
    assert s == [s[0]] + s[1..];
  }

  lemma SendAccounts(c: Caller, wire: seq<Envelope>, back: seq<Envelope>, h: Server, id: nat)
    requires CallerOk(c) && Accounted(c, wire, back, h) && id in c.calling
    ensures Accounted(Queued(c, id), wire + [Request(id, c.calling[id])], back, h)
  {
    var frame := Request(id, c.calling[id]);
    assert forall x :: x in wire ==> x in wire + [frame];
    assert frame in wire + [frame];
  }

  lemma SendFailsAccounts(c: Caller, wire: seq<Envelope>, back: seq<Envelope>, h: Server, id: nat)
    requires Accounted(c, wire, back, h) && (id in c.pending || (id in c.answered && c.answered[id] == Closed))
    ensures Accounted(Resolve(Queued(c, id), id, Closed), wire, back, h)
  {
  }

  /** A request that is not queued yet has not been handled, so its call has no reply. */
  lemma CallingHasNoReply(c: Caller, wire: seq<Envelope>, back: seq<Envelope>, h: Server, id: nat)
    requires DirectionOk(c, wire, back, h) && id in c.calling
    ensures id !in h.handled && (id in c.pending || (id in c.answered && c.answered[id] == Closed))
  {
  }

  lemma ResponseAccounts(c: Caller, wire: seq<Envelope>, back: seq<Envelope>, h: Server)
    requires DirectionOk(c, wire, back, h) && Accounted(c, wire, back, h) && back != [] && back[0].Response?
    ensures Accounted(Resolve(c, back[0].requestId, Reply(back[0].response)), wire, back[1..], h)
  {
    hide OnePlace, ResponsesOk;
    FirstResponse(c, wire, back, h);
    var id := back[0].requestId;
    assert id in c.issued;
    Popped(back);
  }

  /** Frames of the other direction may be added, and the first one taken away. */
  lemma ForeignFrameAccounts(c: Caller, wire: seq<Envelope>, back: seq<Envelope>, h: Server, frame: Envelope)
    requires Accounted(c, wire, back, h)
    ensures Accounted(c, wire + [frame], back, h) && Accounted(c, wire, back + [frame], h)
    ensures wire != [] && wire[0].Response? ==> Accounted(c, wire[1..], back, h)
    ensures back != [] && back[0].Request? ==> Accounted(c, wire, back[1..], h)
  {
    assert forall x :: x in wire ==> x in wire + [frame];
    assert forall x :: x in back ==> x in back + [frame];
    if wire != [] { Popped(wire); }
    if back != [] { Popped(back); }
  }

  lemma DeliverAccounts(c: Caller, wire: seq<Envelope>, back: seq<Envelope>, h: Server)
    requires RequestsOk(c.issued, wire, h) && Accounted(c, wire, back, h) && wire != [] && wire[0].Request?
    ensures Accounted(c, wire[1..], back, h.(inbound := h.inbound + [(wire[0].requestId, wire[0].request)]))
  {
    var entry := (wire[0].requestId, wire[0].request);
    Popped(wire);
    assert forall x :: x in h.inbound ==> x in h.inbound + [entry];
    assert entry in h.inbound + [entry];
  }

  lemma StartHandlerAccounts(c: Caller, wire: seq<Envelope>, back: seq<Envelope>, h: Server)
    requires Accounted(c, wire, back, h) && h.inbound != []
    ensures Accounted(c, wire, back, Start(h))
  {
    Popped(h.inbound);
  }

  lemma FinishHandlerAccounts(c: Caller, wire: seq<Envelope>, back: seq<Envelope>, h: Server, id: nat, response: Resp)
    requires OnePlace(c.calling, wire, h) && Accounted(c, wire, back, h) && id in h.running
    ensures Accounted(c, wire, back + [Response(id, response)], Finish(h, id, response))
  {
    var frame := Response(id, response);
    assert forall x :: x in back ==> x in back + [frame];
    assert frame in back + [frame];
  }

  lemma StepAccountsAsCaller(net: Net, event: Event)
    requires NetOk(net) && AllAccounted(net) && event.e < 2 && Lossless(event)
    ensures Accounted(Step(net, event).ends[event.e].caller, Step(net, event).wires[event.e],
              Step(net, event).wires[Peer(event.e)], Step(net, event).ends[Peer(event.e)].server)
  {
    hide RequestsOk, OnePlace, ResponsesOk, CallerOk, RequestsAccounted, ResponsesAccounted;
    var e, p := event.e, Peer(event.e);
    var c, h, wire, back := net.ends[e].caller, net.ends[p].server, net.wires[e], net.wires[p];
    assert DirectionOk(c, wire, back, h) && Accounted(c, wire, back, h);
    match event
    case Admit(_) => AdmittedAccounts(c, wire, back, h, c.admitted + 1);
    case Call(_, request) =>
      if c.admitted > 0 {
        RegisterAccounts(c, wire, back, h, request);
        AdmittedAccounts(Register(c, request), wire, back, h, c.admitted - 1);
      }
    case Send(_, id) => if id in c.calling { SendAccounts(c, wire, back, h, id); }
    case SendFails(_, id) =>
      if id in c.calling {
        CallingHasNoReply(c, wire, back, h, id);
        SendFailsAccounts(c, wire, back, h, id);
      }
    case Deliver(_) =>
      if back != [] && back[0].Response? {
        ResponseAccounts(c, wire, back, h);
      } else if back != [] {
        ForeignFrameAccounts(c, wire, back, h, back[0]);
      }
    case StartHandler(_) =>
    case FinishHandler(_, id, response) => ForeignFrameAccounts(c, wire, back, h, Response(id, response));
  }

  lemma AdmittedAccounts(c: Caller, wire: seq<Envelope>, back: seq<Envelope>, h: Server, admitted: nat)
    requires Accounted(c, wire, back, h)
    ensures Accounted(c.(admitted := admitted), wire, back, h)
  {
  }

  lemma RegisterAccounts(c: Caller, wire: seq<Envelope>, back: seq<Envelope>, h: Server, request: Req)
    requires Accounted(c, wire, back, h)
    ensures Accounted(Register(c, request), wire, back, h)
  {
  }

  lemma StepAccountsAsServer(net: Net, event: Event)
    requires NetOk(net) && AllAccounted(net) && event.e < 2 && Lossless(event)
    ensures Accounted(Step(net, event).ends[Peer(event.e)].caller, Step(net, event).wires[Peer(event.e)],
              Step(net, event).wires[event.e], Step(net, event).ends[event.e].server)
  {
    hide RequestsOk, OnePlace, ResponsesOk, CallerOk, RequestsAccounted, ResponsesAccounted;
    var e, p := event.e, Peer(event.e);
    var h, c, wire, back := net.ends[e].server, net.ends[p].caller, net.wires[p], net.wires[e];
    assert DirectionOk(c, wire, back, h) && Accounted(c, wire, back, h);
    match event
    case Admit(_) =>
    case Call(_, request) =>
    case Send(_, id) =>
      var calling := net.ends[e].caller.calling;
      if id in calling { ForeignFrameAccounts(c, wire, back, h, Request(id, calling[id])); }
    case SendFails(_, id) =>
    case Deliver(_) =>
      if wire != [] && wire[0].Request? {
        DeliverAccounts(c, wire, back, h);
      } else if wire != [] {
        ForeignFrameAccounts(c, wire, back, h, wire[0]);
      }
    case StartHandler(_) => if h.inbound != [] { StartHandlerAccounts(c, wire, back, h); }
    case FinishHandler(_, id, response) => if id in h.running { FinishHandlerAccounts(c, wire, back, h, id, response); }
  }

  lemma {:induction false} StepsAccount(net: Net, events: seq<Event>)
    requires NetOk(net) && AllAccounted(net) && forall i :: 0 <= i < |events| ==> Lossless(events[i])
    ensures AllAccounted(Steps(net, events))
    decreases |events|
  {
    hide DirectionOk, Accounted;
    if events != [] {
      StepKeeps(net, events[0]);
      if events[0].e < 2 {
        StepAccountsAsCaller(net, events[0]);
        StepAccountsAsServer(net, events[0]);
      }
      StepsAccount(Step(net, events[0]), events[1..]);
    }
  }

  /** No frame is under way and no handler runs. */
  predicate Quiet(net: Net) {
    && Shaped(net) && net.wires == [[], []] && QuietEnd(net.ends[0]) && QuietEnd(net.ends[1])
  }

  predicate QuietEnd(ep: Endpoint) {
    ep.caller.calling == map[] && ep.server.inbound == [] && ep.server.running == map[]
  }

  /** While nothing is closed, only a failed send tells a call that the session is. */
  lemma {:induction false} ClosedBySendFails(net: Net, events: seq<Event>, e: nat, id: nat)
    requires Shaped(net) && e < 2 && forall i :: 0 <= i < |events| ==> Lossless(events[i])
    requires var c := net.ends[e].caller; id !in c.answered || c.answered[id] != Closed
    requires var c := Steps(net, events).ends[e].caller; id in c.answered && c.answered[id] == Closed
    ensures SendFails(e, id) in events
    decreases |events|
  {
    hide Step;
    if events != [] {
      var c := Step(net, events[0]).ends[e].caller;
      if id in c.answered && c.answered[id] == Closed {
        ClosedByOneStep(net, events[0], e, id);
      } else {
        forall i | 0 <= i < |events[1..]| ensures Lossless(events[1..][i]) { assert events[1..][i] == events[i + 1]; }
        ClosedBySendFails(Step(net, events[0]), events[1..], e, id);
      }
    }
  }

  lemma ClosedByOneStep(net: Net, event: Event, e: nat, id: nat)
    requires Shaped(net) && e < 2 && Lossless(event)
    requires var c := net.ends[e].caller; id !in c.answered || c.answered[id] != Closed
    requires var c := Step(net, event).ends[e].caller; id in c.answered && c.answered[id] == Closed
    ensures event == SendFails(e, id)
  {
  }

  /**
   * With no close and no loss, once nothing is under way no call hangs: each has its peer's answer to its very request,
   * or was told that the session is closed because its own request could not be sent.
   */
  lemma {:induction false} NoCallHangs(events: seq<Event>, e: nat, id: nat)
    requires e < 2 && forall i :: 0 <= i < |events| ==> Lossless(events[i])
    requires Quiet(Steps(INITIAL, events)) && id in Steps(INITIAL, events).ends[e].caller.issued
    ensures var net := Steps(INITIAL, events);
            var c, h := net.ends[e].caller, net.ends[Peer(e)].server;
            && id in c.answered && id !in c.pending
            && (c.answered[id].Reply? ==>
              id in h.handled && h.handled[id].0 == c.issued[id] && c.answered[id] == Reply(h.handled[id].1))
            && (c.answered[id] == Closed ==> SendFails(e, id) in events)
  {
    hide Steps, DirectionOk;
    InitialOk();
    StepsAccount(INITIAL, events);
    var net := Steps(INITIAL, events);
    assert Accounted(net.ends[e].caller, net.wires[e], net.wires[Peer(e)], net.ends[Peer(e)].server);
    AnswersAreThePeersOwn(events, e, id);
    WaitsOrAnswered(events, e, id);
    if net.ends[e].caller.answered[id] == Closed { ClosedBySendFails(INITIAL, events, e, id); }
  }

  /** A call whose request cannot be sent is told so at once, waits no longer, and is told nothing else ever after. */
  lemma FailedSendIsAnswered(before: seq<Event>, after: seq<Event>, e: nat, id: nat)
    requires e < 2 && id in Steps(INITIAL, before).ends[e].caller.calling
    ensures var failed := Step(Steps(INITIAL, before), SendFails(e, id));
            var c, c' := failed.ends[e].caller, Steps(failed, after).ends[e].caller;
            && id in c.answered && c.answered[id] == Closed && id !in c.pending && id !in c.calling
            && id in c'.answered && c'.answered[id] == Closed && id !in c'.pending
  {
    hide Steps, DirectionOk;
    InitialOk();
    StepsKeep(INITIAL, before);
    var net := Steps(INITIAL, before);
    CallingHasNoReply(net.ends[e].caller, net.wires[e], net.wires[Peer(e)], net.ends[Peer(e)].server, id);
    StepKeeps(net, SendFails(e, id));
    var failed := Step(net, SendFails(e, id));
    AnsweredOnce(failed, after, e);
    StepsKeep(failed, after);
    var last := Steps(failed, after);
    NothingFinishedTwice(failed.ends[e].caller, failed.wires[e], failed.wires[Peer(e)], failed.ends[Peer(e)].server);
    NothingFinishedTwice(last.ends[e].caller, last.wires[e], last.wires[Peer(e)], last.ends[Peer(e)].server);
  }

  lemma InitialOk()
    ensures NetOk(INITIAL)
  {
  }

  // ---------------------------------------------------------------------------
  // Everything gets done
  // ---------------------------------------------------------------------------

  /** The step moves something on: a request or a response that is under way gets one place further. */
  predicate MovesOn(net: Net, event: Event)
    requires Shaped(net)
  {
    event.e < 2 &&
      match event
      case Send(e, id) => id in net.ends[e].caller.calling
      case Deliver(e) => net.wires[Peer(e)] != []
      case StartHandler(e) => net.ends[e].server.inbound != []
      case FinishHandler(e, id, _) => id in net.ends[e].server.running
      case _ => false
  }

  /** How many moves the frames of a wire still cause: a request is delivered, started, finished and answered. */
  function WireWork(wire: seq<Envelope>): nat {
    if wire == [] then 0 else WireWork(wire[..|wire| - 1]) + if wire[|wire| - 1].Request? then 4 else 1
  }

  function EndWork(ep: Endpoint): nat {
    5 * |ep.caller.calling| + 3 * |ep.server.inbound| + 2 * |ep.server.running|
  }

  function Work(net: Net): nat
    requires Shaped(net)
  {
    EndWork(net.ends[0]) + EndWork(net.ends[1]) + WireWork(net.wires[0]) + WireWork(net.wires[1])
  }

  lemma WireWorkSnoc(wire: seq<Envelope>, frame: Envelope)
    ensures WireWork(wire + [frame]) == WireWork(wire) + if frame.Request? then 4 else 1
  {
    assert (wire + [frame])[..|wire|] == wire;
  }

  lemma {:induction false} WireWorkTail(wire: seq<Envelope>)
    requires wire != []
    ensures WireWork(wire) == WireWork(wire[1..]) + if wire[0].Request? then 4 else 1
    decreases |wire|
  {
    if |wire| > 1 {
      var front := wire[..|wire| - 1];
      WireWorkTail(front);
      assert wire[1..][..|wire| - 2] == front[1..];
    } else {
      assert wire[..0] == [] && wire[1..] == [];
    }
  }

  /** Every move leaves less to do. */
  lemma MoveWorks(net: Net, event: Event)
    requires Shaped(net) && MovesOn(net, event)
    ensures Work(Step(net, event)) < Work(net)
  {
    var e, p := event.e, Peer(event.e);
    var c, h, out, back := net.ends[e].caller, net.ends[e].server, net.wires[e], net.wires[p];
    match event
    case Send(_, id) =>
      WireWorkSnoc(out, Request(id, c.calling[id]));
      assert |c.calling - {id}| == |c.calling| - 1 by { RemovedOne(c.calling, id); }
    case Deliver(_) => WireWorkTail(back);
    case StartHandler(_) => AddedOne(h.running, h.inbound[0].0, h.inbound[0].1);
    case FinishHandler(_, id, response) =>
      WireWorkSnoc(out, Response(id, response));
      RemovedOne(h.running, id);
  }

  lemma RemovedOne(m: map<nat, Req>, id: nat)
    requires id in m
    ensures |m - {id}| == |m| - 1
  {
    assert (m - {id}).Keys == m.Keys - {id};
    assert |m.Keys| == |m| && |(m - {id}).Keys| == |m - {id}|;
  }

  lemma AddedOne(m: map<nat, Req>, id: nat, request: Req)
    ensures |m[id := request]| <= |m| + 1
  {
    assert m[id := request].Keys == m.Keys + {id};
    assert |m.Keys| == |m| && |m[id := request].Keys| == |m[id := request]|;
    assert |m.Keys + {id}| <= |m.Keys| + 1;
  }

  /** Each event of the run moves something on. */
  predicate AllMoveOn(net: Net, events: seq<Event>)
    requires Shaped(net)
    decreases |events|
  {
    events != [] ==> MovesOn(net, events[0]) && AllMoveOn(Step(net, events[0]), events[1..])
  }

  /** Only a quiet net has nothing to move. */
  lemma QuietExactly(net: Net)
    requires Shaped(net)
    ensures Quiet(net) <==> !exists event :: MovesOn(net, event)
  {
    if !Quiet(net) {
      var e := if net.wires[1] != [] || !QuietEnd(net.ends[0]) then 0 else 1;
      if net.wires[1] != [] {
        assert MovesOn(net, Deliver(0));
      } else if net.wires[0] != [] {
        assert MovesOn(net, Deliver(1));
      } else {
        SomethingMoves(net, e);
      }
    }
  }

  lemma SomethingMoves(net: Net, e: nat)
    requires Shaped(net) && e < 2 && !QuietEnd(net.ends[e])
    ensures exists event :: MovesOn(net, event)
  {
    var c, h := net.ends[e].caller, net.ends[e].server;
    if c.calling != map[] {
      assert c.calling.Keys != {};
      var id :| id in c.calling;
      assert MovesOn(net, Send(e, id));
    } else if h.inbound != [] {
      assert MovesOn(net, StartHandler(e));
    } else {
      assert h.running.Keys != {};
      var id :| id in h.running;
      assert MovesOn(net, FinishHandler(e, id, 0));
    }
  }

  /** However the moves are ordered, there are no more of them than the work that is under way. */
  lemma {:induction false} MovesBounded(net: Net, events: seq<Event>)
    requires Shaped(net) && AllMoveOn(net, events)
    ensures |events| + Work(Steps(net, events)) <= Work(net)
    decreases |events|
  {
    hide Step, Work, MovesOn;
    if events != [] {
      MoveWorks(net, events[0]);
      MovesBounded(Step(net, events[0]), events[1..]);
    }
  }

  /**
   * Every call returns. After any run without close and loss, let what is under way move on in any order until nothing
   * moves, which takes at most `Work` moves: every call that was issued then has an answer, its peer's unless its
   * own request could not be sent.
   */
  lemma EveryCallReturns(before: seq<Event>, moves: seq<Event>, e: nat, id: nat)
    requires e < 2 && forall i :: 0 <= i < |before| ==> Lossless(before[i])
    requires AllMoveOn(Steps(INITIAL, before), moves)
    requires !exists event :: MovesOn(Steps(Steps(INITIAL, before), moves), event)
    requires id in Steps(INITIAL, before).ends[e].caller.issued
    ensures |moves| <= Work(Steps(INITIAL, before))
    ensures var net := Steps(Steps(INITIAL, before), moves);
            var c, h := net.ends[e].caller, net.ends[Peer(e)].server;
            && id in c.answered && id !in c.pending
            && id in c.issued && c.issued[id] == Steps(INITIAL, before).ends[e].caller.issued[id]
            && (if c.answered[id] == Closed then SendFails(e, id) in before
                else id in h.handled && h.handled[id] == (c.issued[id], c.answered[id].response))
  {
    hide Steps, Step, MovesOn, Work, NetOk, Quiet;
    var net := Steps(INITIAL, before);
    MovesBounded(net, moves);
    StepsConcat(INITIAL, before, moves);
    QuietExactly(Steps(net, moves));
    MovesAreLossless(net, moves);
    forall i | 0 <= i < |before + moves| ensures Lossless((before + moves)[i]) {
      if i >= |before| { assert (before + moves)[i] == moves[i - |before|]; }
    }
    InitialOk();
    StepsKeep(INITIAL, before);
    AnsweredOnce(net, moves, e);
    NoCallHangs(before + moves, e, id);
    assert SendFails(e, id) in before + moves ==> SendFails(e, id) in before;
  }

  lemma {:induction false} StepsConcat(net: Net, a: seq<Event>, b: seq<Event>)
    requires Shaped(net)
    ensures Steps(net, a + b) == Steps(Steps(net, a), b)
    decreases |a|
  {
    hide Step;
    if a == [] {
      assert a + b == b;
    } else {
      assert (a + b)[0] == a[0] && (a + b)[1..] == a[1..] + b;
      StepsConcat(Step(net, a[0]), a[1..], b);
    }
  }

  lemma {:induction false} MovesAreLossless(net: Net, events: seq<Event>)
    requires Shaped(net) && AllMoveOn(net, events)
    ensures forall i :: 0 <= i < |events| ==> Lossless(events[i]) && !events[i].SendFails?
    decreases |events|
  {
    hide Step;
    if events != [] {
      MovesAreLossless(Step(net, events[0]), events[1..]);
      forall i | 0 <= i < |events| ensures Lossless(events[i]) && !events[i].SendFails? {
        if i > 0 { assert events[i] == events[1..][i - 1]; }
      }
    }
  }

  // ---------------------------------------------------------------------------
  // Handlers start in order
  // ---------------------------------------------------------------------------

  function RequestIds(wire: seq<Envelope>): seq<nat> {
    if wire == [] then []
    else
      var last := wire[|wire| - 1];
      RequestIds(wire[..|wire| - 1]) + if last.Request? then [last.requestId] else []
  }

  function InboundIds(h: Server): (r: seq<nat>)
    ensures |r| == |h.inbound|
  {
    seq(|h.inbound|, i requires 0 <= i < |h.inbound| => h.inbound[i].0)
  }

  /** The requests of end `e` that are on their way to a handler, those that arrived before those on the wire. */
  function Underway(net: Net, e: nat): seq<nat>
    requires Shaped(net) && e < 2
  {
    InboundIds(net.ends[Peer(e)].server) + RequestIds(net.wires[e])
  }

  function SentNow(net: Net, event: Event, e: nat): seq<nat>
    requires Shaped(net) && e < 2
  {
    if event.Send? && event.e == e && event.id in net.ends[e].caller.calling then [event.id] else []
  }

  function StartedNow(net: Net, event: Event, e: nat): seq<nat>
    requires Shaped(net) && e < 2
  {
    var h := net.ends[Peer(e)].server;
    if event == StartHandler(Peer(e)) && h.inbound != [] then [h.inbound[0].0] else []
  }

  /** The ids that end `e` sends along a run, in order, and those whose handlers its peer starts. */
  function Sent(net: Net, events: seq<Event>, e: nat): seq<nat>
    requires Shaped(net) && e < 2
    decreases |events|
  {
    if events == [] then [] else SentNow(net, events[0], e) + Sent(Step(net, events[0]), events[1..], e)
  }

  function Started(net: Net, events: seq<Event>, e: nat): seq<nat>
    requires Shaped(net) && e < 2
    decreases |events|
  {
    if events == [] then [] else StartedNow(net, events[0], e) + Started(Step(net, events[0]), events[1..], e)
  }

  lemma RequestIdsSnoc(wire: seq<Envelope>, frame: Envelope)
    ensures RequestIds(wire + [frame]) == RequestIds(wire) + if frame.Request? then [frame.requestId] else []
  {
    assert (wire + [frame])[..|wire|] == wire;
  }

  lemma {:induction false} RequestIdsTail(wire: seq<Envelope>)
    requires wire != []
    ensures RequestIds(wire) == (if wire[0].Request? then [wire[0].requestId] else []) + RequestIds(wire[1..])
    decreases |wire|
  {
    if |wire| > 1 {
      var front := wire[..|wire| - 1];
      RequestIdsTail(front);
      assert wire[1..][..|wire| - 2] == front[1..];
    } else {
      assert wire[..0] == [] && wire[1..] == [];
    }
  }

  /** What is under way is first in, first out. */
  lemma StepInOrder(net: Net, event: Event, e: nat)
    requires Shaped(net) && e < 2 && !(event.Lose? && event.e == e)
    ensures StartedNow(net, event, e) + Underway(Step(net, event), e) == Underway(net, e) + SentNow(net, event, e)
  {
    hide RequestIds;
    if event.e < 2 {
      var p := Peer(e);
      var wire, h := net.wires[e], net.ends[p].server;
      match event
      case Send(x, id) =>
        if x == e && id in net.ends[e].caller.calling { RequestIdsSnoc(wire, Request(id, net.ends[e].caller.calling[id])); }
      case Deliver(x) => if x == p && wire != [] { RequestIdsTail(wire); }
      case FinishHandler(x, id, response) => if x == e { RequestIdsSnoc(wire, Response(id, response)); }
      case _ =>
    }
  }

  /**
   * Unless frames of end `e` are lost, the peer starts its handlers in exactly the order in which the requests were
   * sent: those started, then those under way, are those sent. Handlers may still finish in any order.
   */
  lemma {:induction false} StartedInOrder(net: Net, events: seq<Event>, e: nat)
    requires Shaped(net) && e < 2 && forall i :: 0 <= i < |events| ==> !(events[i].Lose? && events[i].e == e)
    ensures Started(net, events, e) + Underway(Steps(net, events), e) == Underway(net, e) + Sent(net, events, e)
    decreases |events|
  {
    hide Step, Underway, StartedNow, SentNow;
    if events == [] {
      assert [] + Underway(net, e) == Underway(net, e) + [];
    } else {
      var next := Step(net, events[0]);
      StepInOrder(net, events[0], e);
      StartedInOrder(next, events[1..], e);
      Rechained(StartedNow(net, events[0], e), Started(next, events[1..], e), Underway(Steps(net, events), e),
        Underway(next, e), Sent(next, events[1..], e), Underway(net, e), SentNow(net, events[0], e));
    }
  }

  lemma Rechained(a: seq<nat>, b: seq<nat>, c: seq<nat>, d: seq<nat>, f: seq<nat>, g: seq<nat>, h: seq<nat>)
    requires b + c == d + f && a + d == g + h
    ensures a + b + c == g + (h + f)
  {
    assert a + b + c == a + (b + c) == a + d + f == g + (h + f);
  }

  // ---------------------------------------------------------------------------
  // Calls that hang after a close
  // ---------------------------------------------------------------------------

  /** `c'` is `c` some time later: closed, and every call registered since had been admitted before. */
  predicate ClosedSince(c: Caller, c': Caller) {
    && c'.closed && c'.nextId >= c.nextId && c'.nextId + c'.admitted == c.nextId + c.admitted
    && (forall id :: id in c'.pending ==> c.nextId <= id)
  }

  lemma ClosedStep(net: Net, event: Event, e: nat, c: Caller)
    requires Shaped(net) && e < 2 && ClosedSince(c, net.ends[e].caller)
    ensures ClosedSince(c, Step(net, event).ends[e].caller)
  {
  }

  lemma {:induction false} ClosedSteps(net: Net, events: seq<Event>, e: nat, c: Caller)
    requires Shaped(net) && e < 2 && ClosedSince(c, net.ends[e].caller)
    ensures ClosedSince(c, Steps(net, events).ends[e].caller)
    decreases |events|
  {
    hide Step, ClosedSince;
    if events != [] {
      ClosedStep(net, events[0], e, c);
      ClosedSteps(Step(net, events[0]), events[1..], e, c);
    }
  }

  /**
   * Who waits after a close, over every run: of the calls that nobody has answered, those registered after the close.
   * There are no more of them than calls that were admitted before it and had not registered.
   */
  lemma WaitsAfterClose(before: seq<Event>, after: seq<Event>, e: nat, id: nat)
    requires e < 2
    ensures var closed := Step(Steps(INITIAL, before), Close(e));
            var c, c' := closed.ends[e].caller, Steps(closed, after).ends[e].caller;
            && c'.closed
            && (id in c'.pending <==> c.nextId <= id < c'.nextId && id in c'.issued && id !in c'.answered)
            && c'.nextId - c.nextId == c.admitted - c'.admitted
  {
    hide Steps, DirectionOk;
    InitialOk();
    StepsKeep(INITIAL, before);
    var net := Steps(INITIAL, before);
    StepKeeps(net, Close(e));
    var closed := Step(net, Close(e));
    StepsKeep(closed, after);
    ClosedSteps(closed, after, e, closed.ends[e].caller);
    var last := Steps(closed, after);
    assert ClosedSince(closed.ends[e].caller, last.ends[e].caller);
    CallerBooks(last.ends[e].caller, last.wires[e], last.wires[Peer(e)], last.ends[Peer(e)].server);
  }

  lemma CallerBooks(c: Caller, wire: seq<Envelope>, back: seq<Envelope>, h: Server)
    requires DirectionOk(c, wire, back, h)
    ensures CallerOk(c)
  {
  }

  /** Nobody can answer this waiter any more: its request is nowhere. */
  predicate Stranded(c: Caller, wire: seq<Envelope>, h: Server, id: nat) {
    && id in c.pending && id !in c.calling && id < c.nextId
    && (forall i :: 0 <= i < |wire| && wire[i].Request? ==> wire[i].requestId != id)
    && (forall i :: 0 <= i < |h.inbound| ==> h.inbound[i].0 != id)
    && id !in h.running && id !in h.handled
  }

  lemma StrandedAsCaller(net: Net, event: Event, id: nat)
    requires NetOk(net) && event.e < 2 && !event.Close?
    requires Stranded(net.ends[event.e].caller, net.wires[event.e], net.ends[Peer(event.e)].server, id)
    ensures Stranded(Step(net, event).ends[event.e].caller, Step(net, event).wires[event.e],
              Step(net, event).ends[Peer(event.e)].server, id)
  {
    hide CallerOk, RequestsOk, OnePlace;
    var e, p := event.e, Peer(event.e);
    assert DirectionOk(net.ends[e].caller, net.wires[e], net.wires[p], net.ends[p].server);
  }

  lemma StrandedAsServer(net: Net, event: Event, id: nat)
    requires NetOk(net) && event.e < 2
    requires Stranded(net.ends[Peer(event.e)].caller, net.wires[Peer(event.e)], net.ends[event.e].server, id)
    ensures Stranded(Step(net, event).ends[Peer(event.e)].caller, Step(net, event).wires[Peer(event.e)],
              Step(net, event).ends[event.e].server, id)
  {
    hide DirectionOk;
    var wire, inbound := net.wires[Peer(event.e)], net.ends[event.e].server.inbound;
    if wire != [] { assert forall i :: 0 <= i < |wire| - 1 ==> wire[1..][i] == wire[i + 1]; }
    if inbound != [] { assert forall i :: 0 <= i < |inbound| - 1 ==> inbound[1..][i] == inbound[i + 1]; }
  }

  /** A stranded call waits through every continuation that does not close its end again. */
  lemma {:induction false} StrandedForever(net: Net, events: seq<Event>, e: nat, id: nat)
    requires NetOk(net) && e < 2 && Stranded(net.ends[e].caller, net.wires[e], net.ends[Peer(e)].server, id)
    requires forall i :: 0 <= i < |events| ==> events[i] != Close(e)
    ensures id in Steps(net, events).ends[e].caller.pending
    decreases |events|
  {
    hide DirectionOk, Step;
    if events != [] {
      StepKeeps(net, events[0]);
      assert events[0] != Close(e);
      if events[0].e == e {
        StrandedAsCaller(net, events[0], id);
      } else if events[0].e == Peer(e) {
        StrandedAsServer(net, events[0], id);
      } else {
        NoEnd(net, events[0]);
      }
      forall i | 0 <= i < |events[1..]| ensures events[1..][i] != Close(e) { assert events[1..][i] == events[i + 1]; }
      StrandedForever(Step(net, events[0]), events[1..], e, id);
    }
  }

  lemma NoEnd(net: Net, event: Event)
    requires Shaped(net) && event.e >= 2
    ensures Step(net, event) == net
  {
  }

  /** In this continuation the call waits at end `e`. */
  predicate WaitsIn(net: Net, after: seq<Event>, e: nat, id: nat)
    requires Shaped(net) && e < 2
  {
    id in Steps(net, after).ends[e].caller.pending
  }

  /** In this continuation nobody can answer the call any more. */
  predicate StrandsIn(net: Net, after: seq<Event>, e: nat, id: nat)
    requires Shaped(net) && e < 2
  {
    var last := Steps(net, after);
    Stranded(last.ends[e].caller, last.wires[e], last.ends[Peer(e)].server, id)
  }

  /** An admitted call can be registered, sent and lost with the connection, whatever state the net is in. */
  lemma AdmittedCanStrand(net: Net, e: nat)
    requires Shaped(net) && NetOk(net) && e < 2 && net.ends[e].caller.admitted > 0
    ensures var id := net.ends[e].caller.nextId; StrandsIn(net, [Call(e, 0), Send(e, id), Lose(e, 0)], e, id)
  {
    hide Step, Stranded, NetOk;
    var id := net.ends[e].caller.nextId;
    OneByOne(net, Call(e, 0), [Send(e, id), Lose(e, 0)]);
    OneByOne(Step(net, Call(e, 0)), Send(e, id), [Lose(e, 0)]);
    OneByOne(Step(Step(net, Call(e, 0)), Send(e, id)), Lose(e, 0), []);
    LostCallStrands(net, e);
  }

  lemma LostCallStrands(net: Net, e: nat)
    requires NetOk(net) && e < 2 && net.ends[e].caller.admitted > 0
    ensures var id := net.ends[e].caller.nextId;
            var last := Step(Step(Step(net, Call(e, 0)), Send(e, id)), Lose(e, 0));
            Stranded(last.ends[e].caller, last.wires[e], last.ends[Peer(e)].server, id)
  {
    hide OnePlace, ResponsesOk;
    var c, h, id := net.ends[e].caller, net.ends[Peer(e)].server, net.ends[e].caller.nextId;
    assert DirectionOk(c, net.wires[e], net.wires[Peer(e)], h);
    assert id !in c.issued;
    assert Step(Step(net, Call(e, 0)), Send(e, id)).wires[e][..0] == [];
  }

  /**
   * Which closes leave a call waiting: after a close at end `e`, whatever happened before it, some continuation has a
   * waiter there, and some strands one for good, if and only if a call was admitted and not yet registered when the
   * session closed.
   */
  lemma CloseLeavesWaiterExactly(before: seq<Event>, e: nat)
    requires e < 2
    ensures var net := Steps(INITIAL, before);
            && ((exists after, id :: WaitsIn(Step(net, Close(e)), after, e, id)) <==> net.ends[e].caller.admitted > 0)
            && ((exists after, id :: StrandsIn(Step(net, Close(e)), after, e, id)) <==> net.ends[e].caller.admitted > 0)
  {
    hide Steps, Stranded, NetOk;
    InitialOk();
    StepsKeep(INITIAL, before);
    var net := Steps(INITIAL, before);
    var closed := Step(net, Close(e));
    StepKeeps(net, Close(e));
    if after, id :| WaitsIn(closed, after, e, id) { WaitsAfterClose(before, after, e, id); }
    if after, id :| StrandsIn(closed, after, e, id) {
      StrandedWaits(closed, after, e, id);
      WaitsAfterClose(before, after, e, id);
    }
    if net.ends[e].caller.admitted > 0 {
      var id := closed.ends[e].caller.nextId;
      var after := [Call(e, 0), Send(e, id), Lose(e, 0)];
      AdmittedCanStrand(closed, e);
      StrandedWaits(closed, after, e, id);
      assert WaitsIn(closed, after, e, id) && StrandsIn(closed, after, e, id);
    }
  }

  lemma StrandedWaits(net: Net, after: seq<Event>, e: nat, id: nat)
    requires Shaped(net) && e < 2 && StrandsIn(net, after, e, id)
    ensures WaitsIn(net, after, e, id)
  {
  }

  /**
   * Such a call exists: admitted while the session was open, registered after it closed, sent, and lost with the
   * connection. It is stranded on a closed end.
   */
  lemma LateCallIsStranded(request: Req)
    ensures var net := Steps(INITIAL, [Admit(0), Close(0), Call(0, request), Send(0, 1), Lose(0, 0)]);
            && NetOk(net) && net.ends[0].caller.closed
            && Stranded(net.ends[0].caller, net.wires[0], net.ends[1].server, 1)
  {
    hide Step, NetOk, Stranded;
    var events := [Admit(0), Close(0), Call(0, request), Send(0, 1), Lose(0, 0)];
    InitialOk();
    StepsKeep(INITIAL, events);
    LateCallSteps(request);
    OneByOne(INITIAL, Admit(0), [Close(0), Call(0, request), Send(0, 1), Lose(0, 0)]);
    var n1 := Step(INITIAL, Admit(0));
    OneByOne(n1, Close(0), [Call(0, request), Send(0, 1), Lose(0, 0)]);
    var n2 := Step(n1, Close(0));
    OneByOne(n2, Call(0, request), [Send(0, 1), Lose(0, 0)]);
    var n3 := Step(n2, Call(0, request));
    OneByOne(n3, Send(0, 1), [Lose(0, 0)]);
    OneByOne(Step(n3, Send(0, 1)), Lose(0, 0), []);
  }

  lemma OneByOne(net: Net, first: Event, rest: seq<Event>)
    requires Shaped(net)
    ensures Steps(net, [first] + rest) == Steps(Step(net, first), rest)
  {
    hide Step;
    assert ([first] + rest)[1..] == rest;
  }

  lemma LateCallSteps(request: Req)
    ensures var n2 := Step(Step(INITIAL, Admit(0)), Close(0));
            var net := Step(Step(Step(n2, Call(0, request)), Send(0, 1)), Lose(0, 0));
            net.ends[0].caller.closed && Stranded(net.ends[0].caller, net.wires[0], net.ends[1].server, 1)
  {
    var n2 := Step(Step(INITIAL, Admit(0)), Close(0));
    assert n2.ends[0].caller.admitted == 1 && n2.ends[0].caller.nextId == 1;
    var n3 := Step(n2, Call(0, request));
    assert n3.ends[0].caller.calling == map[1 := request] && n3.ends[0].caller.pending == map[1 := request];
    var n4 := Step(n3, Send(0, 1));
    assert n4.ends[0].caller.calling == map[];
    assert Step(n4, Lose(0, 0)).wires[0] == [];
  }
}
