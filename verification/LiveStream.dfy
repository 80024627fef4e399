/**
 * The live stream: a producer's upload stream, a download stream that polls the record, an ordered channel
 * and the receiver's frame automaton, interleaved with any other requests to the server.
 */
module LiveStream {
  import opened Basics
  import opened Transfer
  import opened TransferInvariant
  import opened TransferReaders

  datatype Frame =
    | BeginFrame(begin: Begin)
    | ChunkFrame(index: U32, data: Bytes, hash: Digest)
    | CommitFrame(aggregateHash: Digest)
    | AbortFrame(reason: string)

  datatype Ticket = Ticket(
    transferId: Id,
    envelope: Bytes,
    tensorHeader: Bytes,
    authorization: Bytes,
    expectedLen: U64,
    expectedHash: Digest,
    deadline: U64)

  datatype StreamError =
    | DuplicateBegin | BeginMismatch | BeforeBegin | OutOfOrder | BadChunk | HeaderMismatch
    | CommitMismatch | StreamAborted

  // ---------------------------------------------------------------------------
  // Upload stream
  // ---------------------------------------------------------------------------

  /** `handle_stream_upload_frame`: the ordered stream adds one index check in front of the requests. */
  function UploadFrame(s: Void, t: Id, expectedIndex: U32, frame: Frame, objectId: Id, now: U64): (Void, Reply, U32) {
    match frame
    case ChunkFrame(index, data, hash) =>
      if index != expectedIndex then (s, Error(IndexOutOfRange), expectedIndex)
      else
        var (s', reply) := HandleChunk(s, t, index, data, hash, objectId, now);
        (s', reply, if reply.ChunkStored? then SaturatingInc32(expectedIndex) else expectedIndex)
    case CommitFrame(aggregateHash) =>
      var (s', reply) := HandleCommit(s, t, aggregateHash, now);
      (s', reply, expectedIndex)
    case AbortFrame(reason) =>
      var (s', reply) := HandleAbort(s, t, reason, now);
      (s', reply, expectedIndex)
    case BeginFrame(_) => (s, Error(AlreadyExists), expectedIndex)
  }

  /** The request a producer's frame amounts to, if any. */
  function FrameRequests(t: Id, expectedIndex: U32, frame: Frame, objectId: Id, now: U64): seq<(Request, U64)> {
    match frame
    case ChunkFrame(index, data, hash) =>
      if index != expectedIndex then [] else [(TransferChunk(t, index, data, hash, objectId), now)]
    case CommitFrame(aggregateHash) => [(TransferCommit(t, aggregateHash), now)]
    case AbortFrame(reason) => [(TransferAbort(t, reason), now)]
    case BeginFrame(_) => []
  }

  // ---------------------------------------------------------------------------
  // Receiver
  // ---------------------------------------------------------------------------

  /** `aggregate` is what the incremental hasher has been fed. */
  datatype Receiver = Receiver(begin: Option<Begin>, nextIndex: U32, aggregate: Bytes, output: Bytes)

  const FRESH_RECEIVER := Receiver(None, 0, [], [])

  predicate BeginMatches(begin: Begin, ticket: Ticket) {
    && begin.transferId == ticket.transferId
    && begin.envelope == ticket.envelope
    && begin.tensorHeader == ticket.tensorHeader
    && begin.expectedLen == ticket.expectedLen
    && begin.expectedHash == ticket.expectedHash
    && begin.deadline == ticket.deadline
    && begin.authorizationHash == Sha256(ticket.authorization)
  }

  function Min(a: nat, b: nat): nat { if a <= b then a else b }

  /** The part of `data` that overlaps the authenticated header agrees with it. */
  predicate HeaderAgrees(output: Bytes, data: Bytes, header: Bytes) {
    var start := Min(|output|, |header|);
    var end := Min(|output| + |data|, |header|);
    start < end ==> data[..end - start] == header[start..end]
  }

  /** `apply_transfer_frame`: the receiver after the frame and whether the transfer is complete. */
  function ApplyFrame(rx: Receiver, ticket: Ticket, frame: Frame): Result<(Receiver, bool), StreamError> {
    match frame
    case BeginFrame(received) =>
      if rx.begin.Some? then Err(DuplicateBegin)
      else if !BeginMatches(received, ticket) then Err(BeginMismatch)
      else Ok((rx.(begin := Some(received)), false))
    case ChunkFrame(index, data, hash) =>
      if rx.begin.None? then Err(BeforeBegin)
      else if index != rx.nextIndex then Err(OutOfOrder)
      else if Sha256(data) != hash then Err(BadChunk)
      else if !HeaderAgrees(rx.output, data, ticket.tensorHeader) then Err(HeaderMismatch)
      else Ok((Receiver(rx.begin, SaturatingInc32(rx.nextIndex), rx.aggregate + data, rx.output + data), false))
    case CommitFrame(aggregateHash) =>
      if rx.begin.None? then Err(BeforeBegin)
      else
        var begin := rx.begin.value;
        if rx.nextIndex != begin.expectedChunks || |rx.output| != begin.expectedLen
          || aggregateHash != begin.expectedHash || Sha256(rx.aggregate) != aggregateHash then Err(CommitMismatch)
        else Ok((rx, true))
    case AbortFrame(_) => Err(StreamAborted)
  }

  /** The receiver as the source keeps it: four accumulators updated in place. */
  class FrameReceiver {
    const ticket: Ticket
    var begin: Option<Begin>
    var nextIndex: U32
    var aggregate: Bytes
    var output: Bytes

    function State(): Receiver
      reads this
    {
      Receiver(begin, nextIndex, aggregate, output)
    }

    constructor (t: Ticket)
      ensures ticket == t && State() == FRESH_RECEIVER
    {
      ticket := t;
      begin, nextIndex, aggregate, output := None, 0, [], [];
    }

    method Apply(frame: Frame) returns (result: Result<bool, StreamError>)
      modifies this
      ensures match ApplyFrame(old(State()), ticket, frame)
        case Ok((next, done)) => State() == next && result == Ok(done)
        case Err(e) => State() == old(State()) && result == Err(e)
    {
      match frame
      case BeginFrame(received) =>
        if begin.Some? { return Err(DuplicateBegin); }
        if !BeginMatches(received, ticket) { return Err(BeginMismatch); }
        begin := Some(received);
        return Ok(false);
      case ChunkFrame(index, data, hash) =>
        if begin.None? { return Err(BeforeBegin); }
        if index != nextIndex { return Err(OutOfOrder); }
        if Sha256(data) != hash { return Err(BadChunk); }
        var prefixStart := Min(|output|, |ticket.tensorHeader|);
        var prefixEnd := Min(|output| + |data|, |ticket.tensorHeader|);
        if prefixStart < prefixEnd && data[..prefixEnd - prefixStart] != ticket.tensorHeader[prefixStart..prefixEnd] {
          return Err(HeaderMismatch);
        }
        nextIndex := SaturatingInc32(nextIndex);
        aggregate := aggregate + data;
        output := output + data;
        return Ok(false);
      case CommitFrame(aggregateHash) =>
        if begin.None? { return Err(BeforeBegin); }
        if nextIndex != begin.value.expectedChunks || |output| != begin.value.expectedLen
          || aggregateHash != begin.value.expectedHash || Sha256(aggregate) != aggregateHash {
          return Err(CommitMismatch);
        }
        return Ok(true);
      case AbortFrame(_) => return Err(StreamAborted);
    }
  }

  // ---------------------------------------------------------------------------
  // The whole system
  // ---------------------------------------------------------------------------

  datatype Status = Opening | Streaming | Ended

  /** The download stream's loop variables: the snapshot being drained and the next position to send. */
  datatype Session = Session(status: Status, snapshot: Option<Record>, nextIndex: nat)

  datatype System = System(
    store: Void,
    session: Session,
    channel: seq<Frame>,
    receiver: Receiver,
    result: Option<Result<Bytes, StreamError>>)

  /** What may happen next; `Server` is any other request, including producers' frames and cleanup. */
  datatype Event =
    | Server(request: Request, now: U64)
    | Open(now: U64)
    | Poll(now: U64)
    | SendChunk
    | SendTerminal
    | Deliver

  function Start(store: Void): System {
    System(store, Session(Opening, None, 0), [], FRESH_RECEIVER, None)
  }

  function End(sys: System): System {
    sys.(session := sys.session.(status := Ended, snapshot := None))
  }

  /** `read_transfer_chunk_frame` for the chunk at the session's position. */
  function ChunkToSend(s: Void, c: Chunk): Option<Frame> {
    match Download(s, c.objectId)
    case Err(_) => None
    case Ok(data) =>
      if |data| != c.len || Sha256(data) != c.hash then None else Some(ChunkFrame(c.index, data, c.hash))
  }

  function Step(sys: System, ticket: Ticket, event: Event): System {
    match event
    case Server(request, now) => sys.(store := Handle(sys.store, request, now).0)
    case Open(now) =>
      if sys.session.status != Opening then sys
      else
        var (store, reply) := HandleInspect(sys.store, ticket.transferId, now);
        if !reply.TransferReply? || Sha256(ticket.authorization) != reply.record.begin.authorizationHash then
          End(sys.(store := store))
        else
          sys.(store := store, session := Session(Streaming, None, 0),
            channel := sys.channel + [BeginFrame(reply.record.begin)])
    case Poll(now) =>
      if sys.session.status != Streaming || sys.session.snapshot.Some? then sys
      else
        var (store, reply) := HandleInspect(sys.store, ticket.transferId, now);
        if !reply.TransferReply? then End(sys.(store := store))
        else sys.(store := store, session := sys.session.(snapshot := Some(reply.record)))
    case SendChunk =>
      if sys.session.status != Streaming || sys.session.snapshot.None?
        || sys.session.nextIndex >= |Chunks(sys.session.snapshot.value)| then sys
      else
        var frame := ChunkToSend(sys.store, Chunks(sys.session.snapshot.value)[sys.session.nextIndex]);
        if frame.None? then End(sys)
        else sys.(channel := sys.channel + [frame.value], session := sys.session.(nextIndex := sys.session.nextIndex + 1))
    case SendTerminal =>
      if sys.session.status != Streaming || sys.session.snapshot.None?
        || sys.session.nextIndex < |Chunks(sys.session.snapshot.value)| then sys
      else
        (match sys.session.snapshot.value
         case InProgress(_, _, _) => sys.(session := sys.session.(snapshot := None))
         case Committed(begin, _, _) => End(sys.(channel := sys.channel + [CommitFrame(begin.expectedHash)]))
         case Aborted(_, reason, _) => End(sys.(channel := sys.channel + [AbortFrame(reason)])))
    case Deliver =>
      if sys.channel == [] || sys.result.Some? then sys
      else
        var rest := sys.(channel := sys.channel[1..]);
        match ApplyFrame(sys.receiver, ticket, sys.channel[0])
        case Err(e) => rest.(result := Some(Err(e)))
        case Ok((next, done)) =>
          rest.(receiver := next, result := if done then Some(Ok(next.output)) else None)
  }

  predicate ProperEvent(sys: System, ticket: Ticket, event: Event) {
    match event
    case Server(request, _) => Proper(sys.store, request)
    case Open(_) => Addresses(sys.store, ticket.transferId)
    case Poll(_) => Addresses(sys.store, ticket.transferId)
    case _ => true
  }

  function Steps(sys: System, ticket: Ticket, events: seq<Event>): System
    decreases |events|
  {
    if events == [] then sys else Steps(Step(sys, ticket, events[0]), ticket, events[1..])
  }

  predicate ProperEvents(sys: System, ticket: Ticket, events: seq<Event>)
    decreases |events|
  {
    events == [] || (ProperEvent(sys, ticket, events[0]) && ProperEvents(Step(sys, ticket, events[0]), ticket, events[1..]))
  }

  // ---------------------------------------------------------------------------
  // Invariant
  // ---------------------------------------------------------------------------

  /** What a frame in flight still says about the record. */
  ghost predicate FrameOk(s: Void, t: Id, frame: Frame)
    requires HasRecord(s, t)
  {
    match frame
    case BeginFrame(begin) => begin == RecordOf(s, t).begin
    case ChunkFrame(index, data, _) => !IsAborted(s, t) ==> DataAt(s, t, index) == Some(data)
    case CommitFrame(_) => RecordOf(s, t).Committed?
    case AbortFrame(_) => true
  }

  ghost predicate ReceiverOk(s: Void, t: Id, rx: Receiver)
    requires HasRecord(s, t)
  {
    && rx.aggregate == rx.output
    && (rx.begin.Some? ==> rx.begin.value == RecordOf(s, t).begin)
    && (!IsAborted(s, t) ==> Prefix(s, t, rx.nextIndex) == Some(rx.output))
  }

  ghost predicate SystemOk(sys: System, ticket: Ticket) {
    var s, t := sys.store, ticket.transferId;
    && Inv(s)
    && (sys.session.status == Opening ==> sys == Start(s))
    && (sys.session.status == Streaming ==> HasRecord(s, t))
    && (sys.session.snapshot.Some? ==>
      && HasRecord(s, t) && RecordEvolves(sys.session.snapshot.value, RecordOf(s, t)))
    && (sys.channel != [] ==> HasRecord(s, t) && forall f :: f in sys.channel ==> FrameOk(s, t, f))
    && (sys.receiver != FRESH_RECEIVER ==> HasRecord(s, t) && ReceiverOk(s, t, sys.receiver))
    && (sys.result.Some? && sys.result.value.Ok? ==>
      && IsCommitted(s, t) && sys.result.value.value == Content(s, t))
  }

  /** Everything the system knows survives any evolution of the server. */
  lemma ServerStepOk(sys: System, ticket: Ticket, s': Void)
    requires SystemOk(sys, ticket) && Inv(s') && Evolves(sys.store, s')
    ensures SystemOk(sys.(store := s'), ticket)
  {
    var s, t := sys.store, ticket.transferId;
    if HasRecord(s, t) {
      assert HasRecord(s', t);
      forall f | f in sys.channel ensures FrameOk(s', t, f) {
        if f.ChunkFrame? && !IsAborted(s', t) { DataAtStable(s, s', t, f.index); }
      }
      if sys.receiver != FRESH_RECEIVER && !IsAborted(s', t) { PrefixStable(s, s', t, sys.receiver.nextIndex); }
      if sys.result.Some? && sys.result.value.Ok? {
        CommittedContent(s, t);
        CommittedContent(s', t);
        PrefixStable(s, s', t, RecordOf(s, t).begin.expectedChunks);
      }
    }
  }

  lemma SendChunkOk(sys: System, ticket: Ticket)
    requires SystemOk(sys, ticket)
    ensures SystemOk(Step(sys, ticket, SendChunk), ticket)
  {
    var s, t := sys.store, ticket.transferId;
    var sys' := Step(sys, ticket, SendChunk);
    if |sys'.channel| > |sys.channel| {
      var c := Chunks(sys.session.snapshot.value)[sys.session.nextIndex];
      var frame := ChunkToSend(s, c).value;
      if !IsAborted(s, t) {
        assert c in Chunks(sys.session.snapshot.value);
        DataAtChunk(s, t, c);
      }
      assert FrameOk(s, t, frame);
    }
  }

  /** The receiver's index check turns an accepted frame into the next piece of the prefix. */
  lemma ChunkAccepted(s: Void, t: Id, ticket: Ticket, rx: Receiver, frame: Frame)
    requires Inv(s) && HasRecord(s, t) && ReceiverOk(s, t, rx) && FrameOk(s, t, frame)
    requires frame.ChunkFrame? && ApplyFrame(rx, ticket, frame).Ok?
    ensures ReceiverOk(s, t, ApplyFrame(rx, ticket, frame).value.0)
  {
    if !IsAborted(s, t) {
      DataAtBound(s, t, frame.index);
      assert DataAt(s, t, rx.nextIndex) == Some(frame.data);
      assert Prefix(s, t, rx.nextIndex + 1) == Some(rx.output + frame.data);
    }
  }

  lemma CommitAccepted(s: Void, t: Id, ticket: Ticket, rx: Receiver, frame: Frame)
    requires Inv(s) && HasRecord(s, t) && ReceiverOk(s, t, rx) && FrameOk(s, t, frame)
    requires frame.CommitFrame? && ApplyFrame(rx, ticket, frame).Ok?
    ensures IsCommitted(s, t) && rx.output == Content(s, t)
  {
    CommittedContent(s, t);
  }

  lemma DeliverOk(sys: System, ticket: Ticket)
    requires SystemOk(sys, ticket)
    ensures SystemOk(Step(sys, ticket, Deliver), ticket)
  {
    var s, t := sys.store, ticket.transferId;
    if sys.channel != [] && sys.result.None? {
      var frame := sys.channel[0];
      assert frame in sys.channel && FrameOk(s, t, frame);
      assert ReceiverOk(s, t, sys.receiver);
      assert forall f :: f in sys.channel[1..] ==> f in sys.channel;
      if ApplyFrame(sys.receiver, ticket, frame).Ok? {
        match frame
        case ChunkFrame(_, _, _) => ChunkAccepted(s, t, ticket, sys.receiver, frame);
        case CommitFrame(_) => CommitAccepted(s, t, ticket, sys.receiver, frame);
        case _ =>
      }
    }
  }

  lemma StepOk(sys: System, ticket: Ticket, event: Event)
    requires LosslessCodec() && SystemOk(sys, ticket) && ProperEvent(sys, ticket, event)
    ensures SystemOk(Step(sys, ticket, event), ticket)
  {
    hide Inv, Evolves, Handle, Prefix, DataAt;
    var t := ticket.transferId;
    match event
    case Server(request, now) =>
      HandleKeeps(sys.store, request, now);
      ServerStepOk(sys, ticket, Handle(sys.store, request, now).0);
    case Open(now) =>
      InspectReturns(sys.store, t, now);
      ServerStepOk(sys, ticket, HandleInspect(sys.store, t, now).0);
    case Poll(now) =>
      InspectReturns(sys.store, t, now);
      ServerStepOk(sys, ticket, HandleInspect(sys.store, t, now).0);
    case SendChunk => SendChunkOk(sys, ticket);
    case SendTerminal =>
    case Deliver => DeliverOk(sys, ticket);
  }

  lemma {:induction false} StepsOk(sys: System, ticket: Ticket, events: seq<Event>)
    requires LosslessCodec() && SystemOk(sys, ticket) && ProperEvents(sys, ticket, events)
    ensures SystemOk(Steps(sys, ticket, events), ticket)
    decreases |events|
  {
    if events != [] {
      StepOk(sys, ticket, events[0]);
      StepsOk(Step(sys, ticket, events[0]), ticket, events[1..]);
    }
  }

  /**
   * Safety of the live stream: however producer frames, direct requests, cleanup, polls, sends and deliveries
   * interleave, a receiver that returns Ok does so only after the commit, with exactly the committed bytes.
   */
  lemma LiveReceiveIsCommitted(store: Void, ticket: Ticket, events: seq<Event>)
    requires LosslessCodec() && Inv(store) && ProperEvents(Start(store), ticket, events)
    ensures var sys := Steps(Start(store), ticket, events);
      sys.result.Some? && sys.result.value.Ok? ==>
        && IsCommitted(sys.store, ticket.transferId)
        && sys.result.value.value == Content(sys.store, ticket.transferId)
        && |sys.result.value.value| == RecordOf(sys.store, ticket.transferId).begin.expectedLen
        && Sha256(sys.result.value.value) == RecordOf(sys.store, ticket.transferId).begin.expectedHash
  {
    StepsOk(Start(store), ticket, events);
    var sys := Steps(Start(store), ticket, events);
    if sys.result.Some? && sys.result.value.Ok? {
      CommittedContent(sys.store, ticket.transferId);
    }
  }

  // ---------------------------------------------------------------------------
  // Authorization
  // ---------------------------------------------------------------------------

  /** Nothing has been sent, received or returned, and nothing is being streamed. */
  predicate Silent(sys: System) {
    sys.channel == [] && sys.receiver == FRESH_RECEIVER && sys.result == None && sys.session.status != Streaming
  }

  ghost predicate Authorized(s: Void, ticket: Ticket) {
    HasRecord(s, ticket.transferId) && RecordOf(s, ticket.transferId).begin.authorizationHash == Sha256(ticket.authorization)
  }

  /** Authorization is settled by the declaration, so a record never changes sides. */
  lemma AuthorizedStays(s: Void, s': Void, ticket: Ticket)
    requires Evolves(s, s') && HasRecord(s, ticket.transferId)
    ensures HasRecord(s', ticket.transferId) && (Authorized(s', ticket) <==> Authorized(s, ticket))
  {
  }

  /** A download stream opens exactly for records that the ticket is authorized for, with their declaration. */
  lemma OpenExactly(s: Void, ticket: Ticket, now: U64)
    requires LosslessCodec() && Inv(s) && Addresses(s, ticket.transferId)
    ensures var sys := Step(Start(s), ticket, Open(now));
      && Inv(sys.store) && Evolves(s, sys.store)
      && sys.session.status == (if Authorized(s, ticket) then Streaming else Ended)
      && sys.channel == (if Authorized(s, ticket) then [BeginFrame(RecordOf(s, ticket.transferId).begin)] else [])
  {
    hide Inv;
    InspectReturns(s, ticket.transferId, now);
    if LoadRecord(s, ticket.transferId).Ok? { LoadedIsRecord(s, ticket.transferId); }
  }

  /** One step leaves the stream silent unless the record it reads is one the ticket is authorized for. */
  lemma StepAuthorized(sys: System, ticket: Ticket, event: Event)
    requires LosslessCodec() && Inv(sys.store) && ProperEvent(sys, ticket, event)
    requires Silent(sys) || Authorized(sys.store, ticket)
    requires sys.session.status == Opening ==> sys == Start(sys.store)
    ensures var sys' := Step(sys, ticket, event);
      && Inv(sys'.store) && Evolves(sys.store, sys'.store)
      && (Silent(sys') || Authorized(sys'.store, ticket))
      && (sys'.session.status == Opening ==> sys' == Start(sys'.store))
  {
    hide Inv, Evolves, Handle, HandleInspect, ApplyFrame, ChunkToSend, Authorized;
    StepEvolves(sys, ticket, event);
    if Authorized(sys.store, ticket) { AuthorizedKept(sys.store, Step(sys, ticket, event).store, ticket); }
    if event.Open? && sys.session.status == Opening { OpenExactly(sys.store, ticket, event.now); }
  }

  lemma AuthorizedKept(s: Void, s': Void, ticket: Ticket)
    requires Evolves(s, s') && Authorized(s, ticket)
    ensures Authorized(s', ticket)
  {
    AuthorizedStays(s, s', ticket);
  }

  lemma StepEvolves(sys: System, ticket: Ticket, event: Event)
    requires LosslessCodec() && Inv(sys.store) && ProperEvent(sys, ticket, event)
    ensures Inv(Step(sys, ticket, event).store) && Evolves(sys.store, Step(sys, ticket, event).store)
  {
    hide Inv, Evolves, Handle, HandleInspect, ApplyFrame, ChunkToSend;
    EvolvesReflexive(sys.store);
    match event
    case Server(request, now) => HandleKeeps(sys.store, request, now);
    case Open(now) => InspectReturns(sys.store, ticket.transferId, now);
    case Poll(now) => InspectReturns(sys.store, ticket.transferId, now);
    case _ =>
  }

  lemma {:induction false} StepsAuthorized(sys: System, ticket: Ticket, events: seq<Event>)
    requires LosslessCodec() && Inv(sys.store) && ProperEvents(sys, ticket, events)
    requires Silent(sys) || Authorized(sys.store, ticket)
    requires sys.session.status == Opening ==> sys == Start(sys.store)
    ensures var last := Steps(sys, ticket, events);
      Evolves(sys.store, last.store) && (Silent(last) || Authorized(last.store, ticket))
    decreases |events|
  {
    hide Inv, Evolves, Step, ProperEvent, Authorized, Silent;
    if events == [] {
      EvolvesReflexive(sys.store);
    } else {
      StepAuthorized(sys, ticket, events[0]);
      var next := Step(sys, ticket, events[0]);
      StepsAuthorized(next, ticket, events[1..]);
      EvolvesTransitive(sys.store, next.store, Steps(next, ticket, events[1..]).store);
    }
  }

  /**
   * Over every run: whatever is sent, received or returned is sent, received or returned for a record whose declaration
   * names the hash of the ticket's authorization. A ticket with another authorization than its record's never sees
   * a frame, whatever happens around it.
   */
  lemma OnlyAuthorizedStream(store: Void, ticket: Ticket, events: seq<Event>)
    requires LosslessCodec() && Inv(store) && ProperEvents(Start(store), ticket, events)
    ensures var sys, t := Steps(Start(store), ticket, events), ticket.transferId;
      && (sys.channel != [] || sys.receiver != FRESH_RECEIVER || sys.result.Some? || sys.session.status == Streaming ==>
        HasRecord(sys.store, t) && RecordOf(sys.store, t).begin.authorizationHash == Sha256(ticket.authorization))
      && (HasRecord(store, t) && RecordOf(store, t).begin.authorizationHash != Sha256(ticket.authorization) ==>
        && sys.channel == [] && sys.receiver == FRESH_RECEIVER && sys.result == None
        && sys.session.status != Streaming)
  {
    hide Inv, Evolves;
    StepsAuthorized(Start(store), ticket, events);
    if HasRecord(store, ticket.transferId) {
      AuthorizedStays(store, Steps(Start(store), ticket, events).store, ticket);
    }
  }

  // ---------------------------------------------------------------------------
  // Aborted transfers
  // ---------------------------------------------------------------------------

  /** The frame that tells a receiver of an aborted transfer. */
  function AbortNotice(s: Void, t: Id): Frame
    requires IsAborted(s, t)
  {
    AbortFrame(RecordOf(s, t).reason)
  }

  lemma InspectAborted(s: Void, t: Id, now: U64)
    requires IsAborted(s, t)
    ensures HandleInspect(s, t, now) == (s, TransferReply(RecordOf(s, t)))
  {
  }

  /**
   * How a stream ends once its transfer is aborted: when all chunks of its snapshot are sent, it sends the notice with
   * the recorded reason and ends; before that it ends at the first chunk that cannot be read any more.
   */
  lemma AbortEndsStream(sys: System, ticket: Ticket, now: U64)
    requires SystemOk(sys, ticket) && sys.session.status == Streaming && IsAborted(sys.store, ticket.transferId)
    ensures var chunks := if sys.session.snapshot.Some? then Chunks(sys.session.snapshot.value) else [];
      if sys.session.nextIndex >= |chunks| then
        var last := Step(Step(Step(sys, ticket, SendTerminal), ticket, Poll(now)), ticket, SendTerminal);
        && last.session.status == Ended && last.store == sys.store
        && last.channel == sys.channel + [AbortNotice(sys.store, ticket.transferId)]
      else
        var next := Step(sys, ticket, SendChunk);
        ChunkToSend(sys.store, chunks[sys.session.nextIndex]).None? ==>
          next.session.status == Ended && next.channel == sys.channel && next.store == sys.store
  {
    hide Inv, HandleInspect, ChunkToSend, ApplyFrame, FrameOk, ReceiverOk;
    InspectAborted(sys.store, ticket.transferId, now);
  }

  /** A receiver that reads the notice before its transfer is complete returns the error, and nothing after it. */
  lemma NoticeIsDelivered(sys: System, ticket: Ticket, reason: string)
    requires sys.channel != [] && sys.channel[0] == AbortFrame(reason) && sys.result.None?
    ensures Step(sys, ticket, Deliver).result == Some(Err(StreamAborted))
    ensures Step(Step(sys, ticket, Deliver), ticket, Deliver) == Step(sys, ticket, Deliver)
  {
  }

  /** A producer's frame is at most one ordinary request, so every upload stream is part of such a run. */
  lemma UploadFrameIsRequest(s: Void, t: Id, expectedIndex: U32, frame: Frame, objectId: Id, now: U64)
    ensures UploadFrame(s, t, expectedIndex, frame, objectId, now).0
      == Run(s, FrameRequests(t, expectedIndex, frame, objectId, now))
  {
    var run := FrameRequests(t, expectedIndex, frame, objectId, now);
    if run != [] {
      assert run[1..] == [];
    }
  }
}
