/**
 * A publication, a live stream of it and anybody else's requests, in every order: what the server, the frames in flight
 * and the receiver hold after each move.
 */
module Interleaving {
  import opened Basics
  import opened Transfer
  import opened TransferInvariant
  import opened TransferReaders
  import opened TransferDurability
  import opened LiveStream
  import opened Publication

  // ---------------------------------------------------------------------------
  // Interleavings
  // ---------------------------------------------------------------------------

  /** The server's side of the upload stream: it closes at the first frame that fails. */
  datatype Producer = Producer(sent: nat, expected: U32, failed: bool)

  datatype Flow = Flow(sys: System, upload: Producer)

  /** `Produce` handles the producer's next frame; `Take` is a step of the live stream or anyone else's request. */
  datatype Move = Produce(now: U64) | Take(event: Event)

  /** The begin request was handled at `now`; the producer's ticket goes out, and the frames follow in the background. */
  function Begun(s: Void, p: Publication, now: U64): Flow {
    Flow(Start(HandleBegin(s, p.begin, now).0), Producer(0, 0, false))
  }

  function Advance(flow: Flow, p: Publication, ticket: Ticket, move: Move): Flow
    requires Declares(p)
  {
    match move
    case Produce(now) =>
      var u := flow.upload;
      if u.failed || u.sent > |p.ids| then flow
      else
        var (store, reply, expected) :=
          UploadFrame(flow.sys.store, p.begin.transferId, u.expected, FrameAt(p, u.sent), IdAt(p, u.sent), now);
        Flow(flow.sys.(store := store), Producer(u.sent + 1, expected, reply.Error?))
    case Take(event) => flow.(sys := Step(flow.sys, ticket, event))
  }

  function Moves(flow: Flow, p: Publication, ticket: Ticket, moves: seq<Move>): Flow
    requires Declares(p)
    decreases |moves|
  {
    if moves == [] then flow else Moves(Advance(flow, p, ticket, moves[0]), p, ticket, moves[1..])
  }

  /** The transfer is open and its lease has not ended, or it is committed. */
  predicate InLease(flow: Flow, p: Publication, now: U64) {
    flow.upload.sent <= |p.ids| ==> now < p.begin.deadline
  }

  /**
   * Producer and receiver act within the lease. Anybody else may do anything that touches neither the transfer nor the
   * ids drawn for its chunks.
   */
  predicate Allowed(flow: Flow, p: Publication, move: Move) {
    match move
    case Produce(now) => InLease(flow, p, now)
    case Take(Server(request, now)) =>
      Proper(flow.sys.store, request) && Touches(flow.sys.store, request, now) !! OwnIds(p)
    case Take(Open(now)) => InLease(flow, p, now)
    case Take(Poll(now)) => InLease(flow, p, now)
    case _ => true
  }

  predicate AllAllowed(flow: Flow, p: Publication, ticket: Ticket, moves: seq<Move>)
    requires Declares(p)
    decreases |moves|
  {
    moves == [] ||
    (Allowed(flow, p, moves[0]) && AllAllowed(Advance(flow, p, ticket, moves[0]), p, ticket, moves[1..]))
  }

  /** The ticket was issued for this publication, and its header leads the artifact. */
  predicate Matches(ticket: Ticket, p: Publication) {
    BeginMatches(p.begin, ticket) && ticket.tensorHeader <= p.data
  }

  lemma {:induction false} MovesAppend(flow: Flow, p: Publication, ticket: Ticket, a: seq<Move>, b: seq<Move>)
    requires Declares(p)
    ensures Moves(flow, p, ticket, a + b) == Moves(Moves(flow, p, ticket, a), p, ticket, b)
    ensures AllAllowed(flow, p, ticket, a + b)
      <==> AllAllowed(flow, p, ticket, a) && AllAllowed(Moves(flow, p, ticket, a), p, ticket, b)
    decreases |a|
  {
    hide Advance, Allowed, Declares;
    if a == [] {
      assert a + b == b;
    } else {
      assert (a + b)[1..] == a[1..] + b;
      MovesAppend(Advance(flow, p, ticket, a[0]), p, ticket, a[1..], b);
    }
  }

  // ---------------------------------------------------------------------------
  // The receiver in step with the publication
  // ---------------------------------------------------------------------------

  /** The chunk frames `i..j` of the publication. */
  function FramesBetween(p: Publication, i: nat, j: nat): seq<Frame>
    requires Declares(p) && i <= j <= |p.ids|
    decreases j - i
  {
    if i == j then [] else [FrameAt(p, i)] + FramesBetween(p, i + 1, j)
  }

  lemma {:induction false} FramesGrow(p: Publication, i: nat, j: nat)
    requires Declares(p) && i <= j < |p.ids|
    ensures FramesBetween(p, i, j + 1) == FramesBetween(p, i, j) + [FrameAt(p, j)]
    decreases j - i
  {
    hide Declares;
    if i < j { FramesGrow(p, i + 1, j); }
  }

  /** What is in the channel, given what the receiver has taken and the session has sent. */
  function InFlight(p: Publication, rx: Receiver, session: Session): seq<Frame>
    requires Declares(p) && rx.nextIndex <= session.nextIndex <= |p.ids|
  {
    (if rx.begin.None? then [BeginFrame(p.begin)] else [])
    + FramesBetween(p, rx.nextIndex, session.nextIndex)
    + (if session.status.Ended? then [CommitFrame(p.begin.expectedHash)] else [])
  }

  /** A record of the publication that the session may be draining. */
  predicate SnapshotOk(s: Void, p: Publication, snapshot: Record)
    requires HasRecord(s, p.begin.transferId)
  {
    && !snapshot.Aborted? && snapshot.begin == p.begin
    && Contiguous(snapshot.chunks) && |snapshot.chunks| <= |p.ids|
    && (snapshot.Committed? ==> |snapshot.chunks| == |p.ids| && RecordOf(s, p.begin.transferId).Committed?)
    && (forall c :: c in snapshot.chunks ==> c in Chunks(RecordOf(s, p.begin.transferId)))
  }

  /** The receiver has the first pieces and nothing else; what comes next is in flight. */
  predicate TakenOk(p: Publication, rx: Receiver, session: Session)
    requires Declares(p)
  {
    && rx.nextIndex <= session.nextIndex <= |p.ids|
    && rx.begin in {None, Some(p.begin)} && (rx.begin.None? ==> rx == FRESH_RECEIVER)
    && rx.aggregate == rx.output == Flatten(Split(p.data)[..rx.nextIndex])
  }

  predicate SessionOk(s: Void, p: Publication, session: Session, sent: nat)
    requires HasRecord(s, p.begin.transferId)
  {
    && (session.status.Ended? ==> session.nextIndex == |p.ids| && session.snapshot.None? && sent == |p.ids| + 1)
    && (session.snapshot.Some? ==> session.status.Streaming? && SnapshotOk(s, p, session.snapshot.value))
  }

  ghost predicate ReceiverInStep(sys: System, p: Publication, sent: nat)
    requires Declares(p) && HasRecord(sys.store, p.begin.transferId)
  {
    if sys.result.Some? then sys.result == Some(Ok(p.data))
    else if sys.session.status.Opening? then sys == Start(sys.store)
    else
      && SessionOk(sys.store, p, sys.session, sent) && TakenOk(p, sys.receiver, sys.session)
      && sys.channel == InFlight(p, sys.receiver, sys.session)
  }

  /** The invariant of every allowed interleaving. */
  ghost predicate FlowOk(flow: Flow, p: Publication) {
    && Underway(flow.sys.store, p, flow.upload.sent)
    && !flow.upload.failed
    && flow.upload.expected == (if flow.upload.sent <= |p.ids| then flow.upload.sent else |p.ids|)
    && ReceiverInStep(flow.sys, p, flow.upload.sent)
  }

  lemma UnderwayFacts(s: Void, p: Publication, k: nat)
    requires Underway(s, p, k)
    ensures Declares(p) && Inv(s) && HasRecord(s, p.begin.transferId) && k <= |p.ids| + 1
    ensures |p.ids| == |Split(p.data)| <= MAX_PARTS
    ensures RecordOf(s, p.begin.transferId).begin == p.begin
    ensures k == |p.ids| + 1 <==> RecordOf(s, p.begin.transferId).Committed?
    ensures SnapshotOk(s, p, RecordOf(s, p.begin.transferId))
  {
    SplitCount(p.data);
  }

  /** Piece `j` of the publication, once its record lists it. */
  lemma ListedPiece(s: Void, p: Publication, k: nat, c: Chunk)
    requires Underway(s, p, k) && c in Chunks(RecordOf(s, p.begin.transferId))
    ensures c.index < |p.ids| && ChunkToSend(s, c) == Some(FrameAt(p, c.index))
  {
    hide Split, DataAt, Inv;
    DataAtChunk(s, p.begin.transferId, c);
    SplitCount(p.data);
  }

  /** The receiver's view survives whatever keeps the chunks that the record lists. */
  lemma StoreStep(sys: System, s': Void, p: Publication, sent: nat, sent': nat)
    requires Declares(p) && HasRecord(sys.store, p.begin.transferId) && HasRecord(s', p.begin.transferId)
    requires ReceiverInStep(sys, p, sent) && (sent == |p.ids| + 1 ==> sent' == sent)
    requires RecordOf(sys.store, p.begin.transferId).Committed? ==> RecordOf(s', p.begin.transferId).Committed?
    requires forall c :: c in Chunks(RecordOf(sys.store, p.begin.transferId)) ==> c in Chunks(RecordOf(s', p.begin.transferId))
    ensures ReceiverInStep(sys.(store := s'), p, sent')
  {
    hide Declares, TakenOk, InFlight;
  }

  lemma ProduceKeeps(flow: Flow, p: Publication, ticket: Ticket, now: U64)
    requires LosslessCodec() && FlowOk(flow, p) && InLease(flow, p, now)
    ensures FlowOk(Advance(flow, p, ticket, Produce(now)), p)
    ensures Evolves(flow.sys.store, Advance(flow, p, ticket, Produce(now)).sys.store)
  {
    hide Underway, ReceiverInStep, Declares, Inv, Evolves, FrameAt, UploadFrame, RecordEvolves;
    var (s, sent, n) := (flow.sys.store, flow.upload.sent, |p.ids|);
    UnderwayFacts(s, p, sent);
    if sent <= n {
      if sent < n {
        FrameAccepted(s, p, sent, now);
      } else {
        CommitStored(s, p, now);
        CommitFrameHandled(s, p, flow.upload.expected, now);
      }
      var next := Advance(flow, p, ticket, Produce(now));
      UnderwayFacts(next.sys.store, p, sent + 1);
      GrowingRecord(s, next.sys.store, p.begin.transferId);
      StoreStep(flow.sys, next.sys.store, p, sent, sent + 1);
    } else {
      EvolvesReflexive(s);
    }
  }

  lemma CommitFrameHandled(s: Void, p: Publication, expected: U32, now: U64)
    requires Declares(p)
    ensures var (s', reply) := HandleCommit(s, p.begin.transferId, p.begin.expectedHash, now);
      UploadFrame(s, p.begin.transferId, expected, FrameAt(p, |p.ids|), IdAt(p, |p.ids|), now) == (s', reply, expected)
  {
  }

  lemma GrowingRecord(s: Void, s': Void, t: Id)
    requires Evolves(s, s') && HasRecord(s, t) && HasRecord(s', t) && !RecordOf(s', t).Aborted?
    ensures forall c :: c in Chunks(RecordOf(s, t)) ==> c in Chunks(RecordOf(s', t))
  {
  }

  lemma ServerKeeps(flow: Flow, p: Publication, ticket: Ticket, request: Request, now: U64)
    requires LosslessCodec() && FlowOk(flow, p) && Allowed(flow, p, Take(Server(request, now)))
    ensures FlowOk(Advance(flow, p, ticket, Take(Server(request, now))), p)
    ensures Evolves(flow.sys.store, Advance(flow, p, ticket, Take(Server(request, now))).sys.store)
  {
    hide Underway, ReceiverInStep, Declares, Inv, Evolves, Handle, Touches, Proper, OwnIds;
    var (s, sent) := (flow.sys.store, flow.upload.sent);
    UnderwayFacts(s, p, sent);
    OthersKeep(s, p, sent, request, now);
    var s' := Handle(s, request, now).0;
    UnderwayFacts(s', p, sent);
    StoreStep(flow.sys, s', p, sent, sent);
  }

  /** Opening and polling leave the server alone; one starts the session, the other hands it the record. */
  lemma Inspected(sys: System, p: Publication, ticket: Ticket, sent: nat, event: Event)
    requires Underway(sys.store, p, sent) && Matches(ticket, p) && (event.Open? || event.Poll?)
    requires sent <= |p.ids| ==> event.now < p.begin.deadline
    ensures var r := RecordOf(sys.store, p.begin.transferId);
      Step(sys, ticket, event) ==
      if event.Open? && sys.session.status.Opening? then
        sys.(session := Session(Streaming, None, 0), channel := sys.channel + [BeginFrame(p.begin)])
      else if event.Poll? && sys.session.status.Streaming? && sys.session.snapshot.None? then
        sys.(session := sys.session.(snapshot := Some(r)))
      else sys
  {
    hide HandleInspect, Inv, DataAt, Contiguous, Declares;
    InspectSame(sys.store, p, sent, event.now);
  }

  /** Before the first frame the receiver holds no piece, and only the begin frame is in flight. */
  lemma NothingTaken(p: Publication)
    requires Declares(p)
    ensures TakenOk(p, FRESH_RECEIVER, Session(Streaming, None, 0))
    ensures InFlight(p, FRESH_RECEIVER, Session(Streaming, None, 0)) == [BeginFrame(p.begin)]
  {
    assert Split(p.data)[..0] == [];
  }

  lemma InspectionKeeps(flow: Flow, p: Publication, ticket: Ticket, event: Event)
    requires FlowOk(flow, p) && Matches(ticket, p) && (event.Open? || event.Poll?) && InLease(flow, p, event.now)
    ensures FlowOk(Advance(flow, p, ticket, Take(event)), p) && Step(flow.sys, ticket, event).store == flow.sys.store
  {
    hide Underway, Declares, Step, ReceiverInStep, Matches, SnapshotOk, Inv;
    var (sys, sent) := (flow.sys, flow.upload.sent);
    UnderwayFacts(sys.store, p, sent);
    Inspected(sys, p, ticket, sent, event);
    if event.Open? && sys.session.status.Opening? {
      OpenedInStep(sys, p, sent);
    } else if event.Poll? && sys.session.status.Streaming? && sys.session.snapshot.None? {
      PolledInStep(sys, p, sent, RecordOf(sys.store, p.begin.transferId));
    }
  }

  lemma OpenedInStep(sys: System, p: Publication, sent: nat)
    requires Declares(p) && HasRecord(sys.store, p.begin.transferId) && ReceiverInStep(sys, p, sent)
    requires sys.session.status.Opening?
    ensures ReceiverInStep(
      sys.(session := Session(Streaming, None, 0), channel := sys.channel + [BeginFrame(p.begin)]), p, sent)
  {
    hide Declares, TakenOk, InFlight;
    NothingTaken(p);
  }

  lemma PolledInStep(sys: System, p: Publication, sent: nat, r: Record)
    requires Declares(p) && HasRecord(sys.store, p.begin.transferId) && ReceiverInStep(sys, p, sent)
    requires sys.session.status.Streaming? && SnapshotOk(sys.store, p, r)
    ensures ReceiverInStep(sys.(session := sys.session.(snapshot := Some(r))), p, sent)
  {
    hide Declares, TakenOk, InFlight, SnapshotOk;
    if sys.result.None? { TakenSame(p, sys.receiver, sys.session, Some(r)); }
  }

  /** Which snapshot the session drains does not matter to what the receiver has and what is in flight. */
  lemma TakenSame(p: Publication, rx: Receiver, session: Session, snapshot: Option<Record>)
    requires Declares(p) && TakenOk(p, rx, session)
    ensures TakenOk(p, rx, session.(snapshot := snapshot))
    ensures InFlight(p, rx, session.(snapshot := snapshot)) == InFlight(p, rx, session)
  {
  }

  /** What sending the chunk at the session's position does. */
  lemma ChunkSent(sys: System, ticket: Ticket, frame: Frame)
    requires sys.session.status.Streaming? && sys.session.snapshot.Some? && !sys.session.snapshot.value.Aborted?
    requires sys.session.nextIndex < |sys.session.snapshot.value.chunks|
    requires ChunkToSend(sys.store, sys.session.snapshot.value.chunks[sys.session.nextIndex]) == Some(frame)
    ensures Step(sys, ticket, SendChunk)
      == sys.(channel := sys.channel + [frame], session := sys.session.(nextIndex := sys.session.nextIndex + 1))
  {
  }

  lemma NothingSent(sys: System, ticket: Ticket)
    requires sys.session.status.Streaming? && sys.session.snapshot.Some? ==>
      sys.session.nextIndex >= |Chunks(sys.session.snapshot.value)|
    ensures Step(sys, ticket, SendChunk) == sys
  {
  }

  lemma InFlightGrows(p: Publication, rx: Receiver, session: Session)
    requires Declares(p) && rx.nextIndex <= session.nextIndex < |p.ids| && !session.status.Ended?
    ensures InFlight(p, rx, session.(nextIndex := session.nextIndex + 1))
      == InFlight(p, rx, session) + [FrameAt(p, session.nextIndex)]
  {
    hide FrameAt, Declares;
    FramesGrow(p, rx.nextIndex, session.nextIndex);
  }

  lemma AfterResult(sys: System, ticket: Ticket, event: Event)
    requires sys.result.Some?
    ensures Step(sys, ticket, event).result == sys.result
    ensures !event.Server? && !event.Open? && !event.Poll? ==> Step(sys, ticket, event).store == sys.store
  {
  }

  lemma SendKeeps(flow: Flow, p: Publication, ticket: Ticket)
    requires FlowOk(flow, p)
    ensures FlowOk(Advance(flow, p, ticket, Take(SendChunk)), p) && Step(flow.sys, ticket, SendChunk).store == flow.sys.store
  {
    hide Underway, Declares, ChunkToSend, FrameAt, Step, ReceiverInStep, Inv;
    var (sys, sent) := (flow.sys, flow.upload.sent);
    UnderwayFacts(sys.store, p, sent);
    if sys.result.Some? {
      AfterResult(sys, ticket, SendChunk);
      ResultInStep(sys, Step(sys, ticket, SendChunk), p, sent);
    } else if SendsChunk(sys) {
      var c := NextChunk(sys, p, sent);
      ListedPiece(sys.store, p, sent, c);
      ChunkSent(sys, ticket, FrameAt(p, c.index));
      SentInStep(sys, p, sent);
    } else {
      NothingSent(sys, ticket);
    }
  }

  predicate SendsChunk(sys: System) {
    && sys.session.status.Streaming? && sys.session.snapshot.Some?
    && sys.session.nextIndex < |Chunks(sys.session.snapshot.value)|
  }

  /** Results are final. */
  lemma ResultInStep(sys: System, sys': System, p: Publication, sent: nat)
    requires Declares(p) && HasRecord(sys.store, p.begin.transferId) && ReceiverInStep(sys, p, sent)
    requires sys.result.Some? && sys'.result == sys.result && sys'.store == sys.store
    ensures ReceiverInStep(sys', p, sent)
  {
  }

  /** The chunk at the session's position is the one with that index, and is on record. */
  lemma NextChunk(sys: System, p: Publication, sent: nat) returns (c: Chunk)
    requires Declares(p) && HasRecord(sys.store, p.begin.transferId) && ReceiverInStep(sys, p, sent)
    requires sys.result.None? && SendsChunk(sys)
    ensures !sys.session.snapshot.value.Aborted?
    ensures c == Chunks(sys.session.snapshot.value)[sys.session.nextIndex] && c.index == sys.session.nextIndex < |p.ids|
    ensures c in Chunks(RecordOf(sys.store, p.begin.transferId))
  {
    hide Declares, TakenOk, InFlight;
    c := Chunks(sys.session.snapshot.value)[sys.session.nextIndex];
    assert c in Chunks(sys.session.snapshot.value);
  }

  lemma SentInStep(sys: System, p: Publication, sent: nat)
    requires Declares(p) && HasRecord(sys.store, p.begin.transferId) && ReceiverInStep(sys, p, sent)
    requires sys.result.None? && sys.session.status.Streaming? && sys.session.nextIndex < |p.ids|
    ensures ReceiverInStep(sys.(channel := sys.channel + [FrameAt(p, sys.session.nextIndex)],
      session := sys.session.(nextIndex := sys.session.nextIndex + 1)), p, sent)
  {
    hide Declares, InFlight, SnapshotOk, FrameAt, Flatten, Split;
    assert TakenOk(p, sys.receiver, sys.session);
    InFlightGrows(p, sys.receiver, sys.session);
  }

  lemma TerminalKeeps(flow: Flow, p: Publication, ticket: Ticket)
    requires FlowOk(flow, p)
    ensures FlowOk(Advance(flow, p, ticket, Take(SendTerminal)), p)
    ensures Step(flow.sys, ticket, SendTerminal).store == flow.sys.store
  {
    hide Underway, Declares, Step, ReceiverInStep, Inv;
    UnderwayFacts(flow.sys.store, p, flow.upload.sent);
    TerminatedInStep(flow.sys, p, ticket, flow.upload.sent);
  }

  /** An open snapshot is dropped, and a committed one, sent in full, ends the stream with the commit frame. */
  lemma Terminated(sys: System, ticket: Ticket)
    requires sys.session.snapshot.Some? ==> !sys.session.snapshot.value.Aborted?
    ensures Step(sys, ticket, SendTerminal) ==
      if !sys.session.status.Streaming? || sys.session.snapshot.None? || SendsChunk(sys) then sys
      else if sys.session.snapshot.value.InProgress? then sys.(session := sys.session.(snapshot := None))
      else
        sys.(session := sys.session.(status := Ended, snapshot := None),
          channel := sys.channel + [CommitFrame(sys.session.snapshot.value.begin.expectedHash)])
  {
  }

  lemma TerminatedInStep(sys: System, p: Publication, ticket: Ticket, sent: nat)
    requires Declares(p) && HasRecord(sys.store, p.begin.transferId) && ReceiverInStep(sys, p, sent)
    requires RecordOf(sys.store, p.begin.transferId).Committed? ==> sent == |p.ids| + 1
    ensures ReceiverInStep(Step(sys, ticket, SendTerminal), p, sent)
    ensures Step(sys, ticket, SendTerminal).store == sys.store
  {
    hide Declares, Step, InFlight, Split, Flatten;
    if sys.result.Some? {
      AfterResult(sys, ticket, SendTerminal);
    } else {
      Terminated(sys, ticket);
      if sys.session.status.Streaming? {
        InFlightEnds(p, sys.receiver, sys.session);
        TakenSame(p, sys.receiver, sys.session, None);
      }
    }
  }

  lemma InFlightEnds(p: Publication, rx: Receiver, session: Session)
    requires Declares(p) && rx.nextIndex <= session.nextIndex <= |p.ids| && session.status.Streaming?
    ensures InFlight(p, rx, session.(status := Ended, snapshot := None))
      == InFlight(p, rx, session) + [CommitFrame(p.begin.expectedHash)]
  {
    hide Declares, FramesBetween;
  }

  /** A header that is a prefix of the whole agrees with each piece in turn. */
  lemma HeaderOfPrefix(whole: Bytes, output: Bytes, data: Bytes, header: Bytes)
    requires header <= whole && output + data <= whole
    ensures HeaderAgrees(output, data, header)
  {
    var start := Min(|output|, |header|);
    var end := Min(|output| + |data|, |header|);
    if start < end {
      assert |output| == start;
      forall i | 0 <= i < end - start ensures data[..end - start][i] == header[start..end][i] {
        assert (output + data)[start + i] == whole[start + i] == header[start + i];
      }
    }
  }

  /** The receiver accepts the next chunk frame. */
  lemma PieceTaken(p: Publication, ticket: Ticket, rx: Receiver)
    requires Declares(p) && Matches(ticket, p) && rx.begin.Some? && rx.nextIndex < |p.ids|
    requires rx.aggregate == rx.output == Flatten(Split(p.data)[..rx.nextIndex])
    ensures match ApplyFrame(rx, ticket, FrameAt(p, rx.nextIndex))
      case Err(_) => false
      case Ok((next, done)) =>
        && !done && next.begin == rx.begin && next.nextIndex == rx.nextIndex + 1
        && next.aggregate == next.output == Flatten(Split(p.data)[..rx.nextIndex + 1])
  {
    hide Split, Flatten, HeaderAgrees, BeginMatches;
    var (pieces, k) := (Split(p.data), rx.nextIndex);
    SplitMatches(p.data);
    FlattenPrefix(pieces, k + 1);
    HeaderOfPrefix(p.data, rx.output, pieces[k], ticket.tensorHeader);
  }

  /** The receiver accepts the commit frame, having everything. */
  lemma CommitTaken(p: Publication, ticket: Ticket, rx: Receiver)
    requires Declares(p) && rx.begin == Some(p.begin) && rx.nextIndex == |p.ids|
    requires rx.aggregate == rx.output == Flatten(Split(p.data)[..rx.nextIndex])
    ensures ApplyFrame(rx, ticket, CommitFrame(p.begin.expectedHash)) == Ok((rx, true)) && rx.output == p.data
  {
    hide Split, Flatten;
    SplitMatches(p.data);
    assert Split(p.data)[..|p.ids|] == Split(p.data);
  }

  /** The receiver takes one more frame. */
  lemma FrameTaken(sys: System, ticket: Ticket, next: Receiver)
    requires sys.result.None? && sys.channel != [] && ApplyFrame(sys.receiver, ticket, sys.channel[0]) == Ok((next, false))
    ensures Step(sys, ticket, Deliver) == sys.(channel := sys.channel[1..], receiver := next)
  {
  }

  lemma NothingDelivered(sys: System, ticket: Ticket)
    requires sys.result.Some? || sys.channel == []
    ensures Step(sys, ticket, Deliver) == sys
  {
  }

  lemma FrameEnds(sys: System, ticket: Ticket)
    requires sys.result.None? && sys.channel != []
    requires ApplyFrame(sys.receiver, ticket, sys.channel[0]) == Ok((sys.receiver, true))
    ensures Step(sys, ticket, Deliver) == sys.(channel := sys.channel[1..], result := Some(Ok(sys.receiver.output)))
  {
  }

  lemma TakenInStep(sys: System, p: Publication, sent: nat, next: Receiver)
    requires Declares(p) && HasRecord(sys.store, p.begin.transferId) && ReceiverInStep(sys, p, sent)
    requires sys.result.None? && sys.channel != [] && TakenOk(p, next, sys.session)
    requires sys.channel[1..] == InFlight(p, next, sys.session)
    ensures ReceiverInStep(sys.(channel := sys.channel[1..], receiver := next), p, sent)
  {
    hide Declares, SessionOk;
  }

  lemma DeliveredInStep(sys: System, p: Publication, ticket: Ticket, sent: nat)
    requires Declares(p) && HasRecord(sys.store, p.begin.transferId) && ReceiverInStep(sys, p, sent)
    requires Matches(ticket, p) && sys.result.None? && sys.channel != []
    ensures ReceiverInStep(Step(sys, ticket, Deliver), p, sent) && Step(sys, ticket, Deliver).store == sys.store
  {
    hide Declares, Split, Flatten, FrameAt, ApplyFrame, SnapshotOk, Matches, Step;
    var rx := sys.receiver;
    if rx.begin.None? {
      BeginTaken(p, ticket, rx);
      FrameTaken(sys, ticket, rx.(begin := Some(p.begin)));
      assert sys.channel[1..] == InFlight(p, rx.(begin := Some(p.begin)), sys.session);
      TakenInStep(sys, p, sent, rx.(begin := Some(p.begin)));
    } else if rx.nextIndex < sys.session.nextIndex {
      PieceTaken(p, ticket, rx);
      var next := ApplyFrame(rx, ticket, FrameAt(p, rx.nextIndex)).value.0;
      FrameTaken(sys, ticket, next);
      assert sys.channel[1..] == InFlight(p, next, sys.session);
      TakenInStep(sys, p, sent, next);
    } else {
      CommitTaken(p, ticket, rx);
      FrameEnds(sys, ticket);
    }
  }

  lemma DeliverKeeps(flow: Flow, p: Publication, ticket: Ticket)
    requires FlowOk(flow, p) && Matches(ticket, p)
    ensures FlowOk(Advance(flow, p, ticket, Take(Deliver)), p)
    ensures Step(flow.sys, ticket, Deliver).store == flow.sys.store
  {
    hide Underway, Declares, Step, Matches, ReceiverInStep, Inv;
    UnderwayFacts(flow.sys.store, p, flow.upload.sent);
    if flow.sys.channel != [] && flow.sys.result.None? {
      DeliveredInStep(flow.sys, p, ticket, flow.upload.sent);
    } else {
      NothingDelivered(flow.sys, ticket);
    }
  }

  lemma BeginTaken(p: Publication, ticket: Ticket, rx: Receiver)
    requires Matches(ticket, p) && rx.begin.None?
    ensures ApplyFrame(rx, ticket, BeginFrame(p.begin)) == Ok((rx.(begin := Some(p.begin)), false))
  {
  }

  lemma MoveKeeps(flow: Flow, p: Publication, ticket: Ticket, move: Move)
    requires LosslessCodec() && FlowOk(flow, p) && Matches(ticket, p) && Allowed(flow, p, move)
    ensures FlowOk(Advance(flow, p, ticket, move), p)
    ensures Evolves(flow.sys.store, Advance(flow, p, ticket, move).sys.store)
  {
    hide Underway, ReceiverInStep, Matches, Step, Evolves, Inv, Declares;
    UnderwayFacts(flow.sys.store, p, flow.upload.sent);
    EvolvesReflexive(flow.sys.store);
    match move
    case Produce(now) => ProduceKeeps(flow, p, ticket, now);
    case Take(event) =>
      match event
      case Server(request, now) =>
        ServerKeeps(flow, p, ticket, request, now);
      case Open(_) => InspectionKeeps(flow, p, ticket, event);
      case Poll(_) => InspectionKeeps(flow, p, ticket, event);
      case SendChunk => SendKeeps(flow, p, ticket);
      case SendTerminal => TerminalKeeps(flow, p, ticket);
      case Deliver => DeliverKeeps(flow, p, ticket);
  }

  lemma {:induction false} MovesKeep(flow: Flow, p: Publication, ticket: Ticket, moves: seq<Move>)
    requires LosslessCodec() && FlowOk(flow, p) && Matches(ticket, p) && AllAllowed(flow, p, ticket, moves)
    ensures FlowOk(Moves(flow, p, ticket, moves), p)
    ensures Evolves(flow.sys.store, Moves(flow, p, ticket, moves).sys.store)
    decreases |moves|
  {
    hide Underway, ReceiverInStep, Matches, Advance, Allowed, Evolves, Inv;
    UnderwayFacts(flow.sys.store, p, flow.upload.sent);
    if moves == [] {
      EvolvesReflexive(flow.sys.store);
    } else {
      var next := Advance(flow, p, ticket, moves[0]);
      MoveKeeps(flow, p, ticket, moves[0]);
      MovesKeep(next, p, ticket, moves[1..]);
      EvolvesTransitive(flow.sys.store, next.sys.store, Moves(next, p, ticket, moves[1..]).sys.store);
    }
  }

  lemma BegunOk(s: Void, p: Publication, now: U64)
    requires LosslessCodec() && Inv(s) && Declares(p) && Unused(s, p) && now < p.begin.deadline
    ensures FlowOk(Begun(s, p, now), p)
  {
    hide Underway, Inv, Unused, HandleBegin;
    BeginAccepted(s, p, now);
    UnderwayFacts(HandleBegin(s, p.begin, now).0, p, 0);
  }

  /** Nothing is left to send or to deliver. */
  predicate Drained(sys: System) {
    sys.session.status.Ended? && sys.channel == []
  }

  /** The live receiver never fails, and has everything once the stream is drained. */
  lemma ReceiverOnlySucceeds(flow: Flow, p: Publication)
    requires FlowOk(flow, p)
    ensures flow.sys.result.None? || flow.sys.result == Some(Ok(p.data))
    ensures Drained(flow.sys) ==> flow.sys.result == Some(Ok(p.data))
  {
    hide Underway, TakenOk, Split, Inv;
    UnderwayFacts(flow.sys.store, p, flow.upload.sent);
  }
}
