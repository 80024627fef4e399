/**
 * What a live receiver accepts, whoever sends: the frame sequences that make it return, described without its state.
 */
module LiveFrames {
  import opened Basics
  import opened Transfer
  import opened TransferInvariant
  import opened TransferReaders
  import opened LiveStream

  /** A fresh receiver fed some frames: its state and whether it is done, after which nothing more is read. */
  function Feed(ticket: Ticket, frames: seq<Frame>): Result<(Receiver, bool), StreamError> {
    if frames == [] then Ok((FRESH_RECEIVER, false))
    else
      match Feed(ticket, frames[..|frames| - 1])
      case Err(e) => Err(e)
      case Ok((rx, done)) => if done then Ok((rx, true)) else ApplyFrame(rx, ticket, frames[|frames| - 1])
  }

  /** The data of the chunk frames, in the order they come. */
  function Payload(frames: seq<Frame>): Bytes {
    if frames == [] then []
    else
      var last := frames[|frames| - 1];
      Payload(frames[..|frames| - 1]) + if last.ChunkFrame? then last.data else []
  }

  predicate AsTicketed(begin: Begin, ticket: Ticket) {
    && begin.transferId == ticket.transferId
    && begin.envelope == ticket.envelope && begin.tensorHeader == ticket.tensorHeader
    && begin.expectedLen == ticket.expectedLen && begin.expectedHash == ticket.expectedHash
    && begin.deadline == ticket.deadline && begin.authorizationHash == Sha256(ticket.authorization)
  }

  /** Two byte strings are equal as far as both go. */
  predicate Agree(a: Bytes, b: Bytes) {
    forall k :: 0 <= k < |a| && k < |b| ==> a[k] == b[k]
  }

  /** The chunk index that the receiver's 32-bit counter asks for after `n` chunks. */
  function IndexAfter(n: nat): U32 {
    if n < U32_LIMIT then n else U32_LIMIT - 1
  }

  /** The declaration of the ticket, then intact chunks in order whose bytes agree with the header of the ticket. */
  predicate InOrder(ticket: Ticket, frames: seq<Frame>) {
    frames != [] ==>
      && frames[0].BeginFrame? && AsTicketed(frames[0].begin, ticket)
      && (forall i :: 1 <= i < |frames| ==>
        frames[i].ChunkFrame? && frames[i].index == IndexAfter(i - 1) && frames[i].hash == Sha256(frames[i].data))
      && Agree(Payload(frames), ticket.tensorHeader)
  }

  function Received(frames: seq<Frame>): Receiver {
    if frames == [] || !frames[0].BeginFrame? then FRESH_RECEIVER
    else Receiver(Some(frames[0].begin), IndexAfter(|frames| - 1), Payload(frames), Payload(frames))
  }

  lemma HeaderAgreesExactly(output: Bytes, data: Bytes, header: Bytes)
    requires Agree(output, header)
    ensures HeaderAgrees(output, data, header) <==> Agree(output + data, header)
  {
    var start, end := Min(|output|, |header|), Min(|output| + |data|, |header|);
    var all := output + data;
    if HeaderAgrees(output, data, header) {
      forall k | 0 <= k < |all| && k < |header| ensures all[k] == header[k] {
        if k >= |output| {
          assert data[..end - start][k - start] == header[start..end][k - start];
        }
      }
    }
    if Agree(all, header) && start < end {
      forall k | 0 <= k < end - start ensures data[..end - start][k] == header[start..end][k] {
        assert all[start + k] == header[start + k];
      }
      assert data[..end - start] == header[start..end];
    }
  }

  /** Frames are in order exactly when all but the last are and the last continues them. */
  lemma FrontInOrder(ticket: Ticket, frames: seq<Frame>)
    requires frames != []
    ensures var n := |frames| - 1;
      InOrder(ticket, frames) <==>
        && InOrder(ticket, frames[..n])
        && (if n == 0 then frames[0].BeginFrame? && AsTicketed(frames[0].begin, ticket)
            else
              && frames[n].ChunkFrame? && frames[n].index == IndexAfter(n - 1) && frames[n].hash == Sha256(frames[n].data)
              && Agree(Payload(frames[..n]) + frames[n].data, ticket.tensorHeader))
  {
    var n := |frames| - 1;
    var front := frames[..n];
    if InOrder(ticket, frames) && n > 0 {
      assert Agree(Payload(front), ticket.tensorHeader) by {
        assert forall k :: 0 <= k < |Payload(front)| ==> Payload(front)[k] == Payload(frames)[k];
      }
    }
  }

  /** After frames in order the receiver reads on exactly when the next one continues them. */
  lemma ReadsOn(ticket: Ticket, frames: seq<Frame>)
    requires frames != [] && InOrder(ticket, frames[..|frames| - 1])
    ensures var applied := ApplyFrame(Received(frames[..|frames| - 1]), ticket, frames[|frames| - 1]);
      && (applied.Ok? && !applied.value.1 <==> InOrder(ticket, frames))
      && (InOrder(ticket, frames) ==> applied == Ok((Received(frames), false)))
  {
    hide InOrder, HeaderAgrees, Agree;
    var n := |frames| - 1;
    var front, last := frames[..n], frames[n];
    FrontInOrder(ticket, frames);
    assert Payload(frames) == Payload(front) + if last.ChunkFrame? then last.data else [];
    if front == [] {
      assert last.BeginFrame? ==> Payload(frames) == [];
    } else {
      StartsTicketed(ticket, front);
      assert frames[0] == front[0];
      if last.ChunkFrame? { HeaderAgreesExactly(Payload(front), last.data, ticket.tensorHeader); }
    }
  }

  lemma StartsTicketed(ticket: Ticket, frames: seq<Frame>)
    requires InOrder(ticket, frames) && frames != []
    ensures frames[0].BeginFrame? && AsTicketed(frames[0].begin, ticket) && Agree(Payload(frames), ticket.tensorHeader)
  {
  }

  /** A receiver still reads on exactly after frames in order, and then holds their payload. */
  lemma {:induction false} FedExactly(ticket: Ticket, frames: seq<Frame>)
    ensures Feed(ticket, frames).Ok? && !Feed(ticket, frames).value.1 <==> InOrder(ticket, frames)
    ensures InOrder(ticket, frames) ==> Feed(ticket, frames) == Ok((Received(frames), false))
    decreases |frames|
  {
    hide ApplyFrame;
    if frames != [] {
      FedExactly(ticket, frames[..|frames| - 1]);
      FrontInOrder(ticket, frames);
      if InOrder(ticket, frames[..|frames| - 1]) { ReadsOn(ticket, frames); }
    }
  }

  /** A receiver returns bytes exactly when it reads a whole transfer as its ticket announces it. */
  predicate Returns(ticket: Ticket, frames: seq<Frame>, output: Bytes) {
    && frames != []
    && Feed(ticket, frames[..|frames| - 1]).Ok? && !Feed(ticket, frames[..|frames| - 1]).value.1
    && Feed(ticket, frames).Ok? && Feed(ticket, frames).value.1 && Feed(ticket, frames).value.0.output == output
  }

  /**
   * Over every sequence of frames, honest or not: the receiver returns `output` with the last frame if and only if the
   * frames are the declaration of the ticket, as many intact chunks in order as it declares, of the declared length and
   * agreeing with the header, and a commit with the declared hash, which is the hash of their concatenation `output`.
   */
  lemma ReceivedExactly(ticket: Ticket, frames: seq<Frame>, output: Bytes)
    ensures Returns(ticket, frames, output) <==>
      && |frames| >= 2
      && InOrder(ticket, frames[..|frames| - 1])
      && frames[0].begin.expectedChunks == IndexAfter(|frames| - 2)
      && output == Payload(frames[..|frames| - 1])
      && |output| == ticket.expectedLen
      && Sha256(output) == ticket.expectedHash
      && frames[|frames| - 1] == CommitFrame(ticket.expectedHash)
  {
    hide InOrder, Payload;
    if frames != [] {
      var front := frames[..|frames| - 1];
      FedExactly(ticket, front);
      if InOrder(ticket, front) && front != [] { StartsTicketed(ticket, front); }
    }
  }

  /** What the receiver of a running system has is as its ticket announces. */
  predicate Announced(sys: System, ticket: Ticket) {
    && (sys.receiver.begin.Some? ==> AsTicketed(sys.receiver.begin.value, ticket))
    && Agree(sys.receiver.output, ticket.tensorHeader)
    && (sys.result.Some? && sys.result.value.Ok? ==>
      sys.receiver.begin.Some? && sys.result.value.value == sys.receiver.output)
  }

  lemma StepAnnounced(sys: System, ticket: Ticket, event: Event)
    requires Announced(sys, ticket)
    ensures Announced(Step(sys, ticket, event), ticket)
  {
    hide Handle, HandleInspect, ChunkToSend, HeaderAgrees, Agree;
    if event == Deliver && sys.channel != [] && sys.channel[0].ChunkFrame? {
      HeaderAgreesExactly(sys.receiver.output, sys.channel[0].data, ticket.tensorHeader);
    }
  }

  lemma {:induction false} StepsAnnounced(sys: System, ticket: Ticket, events: seq<Event>)
    requires Announced(sys, ticket)
    ensures Announced(Steps(sys, ticket, events), ticket)
    decreases |events|
  {
    hide Step, Announced;
    if events != [] {
      StepAnnounced(sys, ticket, events[0]);
      StepsAnnounced(Step(sys, ticket, events[0]), ticket, events[1..]);
    }
  }

  /**
   * Over every interleaving, bytes that a live receiver returns belong to a committed record whose whole declaration is
   * that of the ticket, and begin with the ticket's header as far as they go.
   */
  lemma LiveReceiveIsAnnounced(store: Void, ticket: Ticket, events: seq<Event>)
    requires LosslessCodec() && Inv(store) && ProperEvents(Start(store), ticket, events)
    ensures var sys, t := Steps(Start(store), ticket, events), ticket.transferId;
      sys.result.Some? && sys.result.value.Ok? ==>
        && IsCommitted(sys.store, t) && AsTicketed(RecordOf(sys.store, t).begin, ticket)
        && Agree(sys.result.value.value, ticket.tensorHeader)
  {
    hide Inv, AsTicketed, Agree;
    StepsOk(Start(store), ticket, events);
    assert Announced(Start(store), ticket) by { EmptyAgrees(ticket.tensorHeader); }
    StepsAnnounced(Start(store), ticket, events);
  }

  lemma EmptyAgrees(b: Bytes)
    ensures Agree([], b)
  {
  }
}
