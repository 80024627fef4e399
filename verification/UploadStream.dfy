/**
 * A producer's upload stream on the server: the authorization check, the begin request, and then one request per frame
 * until the first failure or terminal frame, interleaved with any other requests.
 */
module UploadStream {
  import opened Basics
  import opened Transfer
  import opened TransferInvariant
  import opened TransferReaders
  import opened LiveStream
  import opened LiveFrames
  import opened VoidServer
  import opened Publication

  /** `accepted` are the frames that were answered without an error; `reply` is what the producer is told at the end. */
  datatype Uploading = Uploading(
    store: Void,
    status: Status,
    expectedIndex: U32,
    accepted: seq<Frame>,
    reply: Option<Reply>)

  datatype Happening =
    | Other(request: Request, now: U64)
    | OpenUpload(now: U64)
    | Receive(frame: Frame, objectId: Id, now: U64)

  function NewUpload(store: Void): Uploading {
    Uploading(store, Opening, 0, [], None)
  }

  /** `handle_transfer_stream_upload`, one request at a time. */
  function Advance(u: Uploading, begin: Begin, authorization: Bytes, h: Happening): Uploading {
    match h
    case Other(request, now) => u.(store := Handle(u.store, request, now).0)
    case OpenUpload(now) =>
      if u.status != Opening then u
      else if Sha256(authorization) != begin.authorizationHash then
        u.(status := Ended, reply := Some(Error(BadAuthorization)))
      else
        var (store, reply) := HandleBegin(u.store, begin, now);
        if reply.TransferReply? then u.(store := store, status := Streaming)
        else u.(store := store, status := Ended, reply := Some(reply))
    case Receive(frame, objectId, now) =>
      if u.status != Streaming then u
      else
        var (store, reply, next) := UploadFrame(u.store, begin.transferId, u.expectedIndex, frame, objectId, now);
        if reply.Error? then u.(store := store, status := Ended, expectedIndex := next, reply := Some(reply))
        else if frame.CommitFrame? || frame.AbortFrame? then
          Uploading(store, Ended, next, u.accepted + [frame], Some(reply))
        else Uploading(store, Streaming, next, u.accepted + [frame], None)
  }

  function After(store: Void, begin: Begin, authorization: Bytes, run: seq<Happening>): Uploading {
    if run == [] then NewUpload(store)
    else Advance(After(store, begin, authorization, run[..|run| - 1]), begin, authorization, run[|run| - 1])
  }

  predicate ProperHappening(u: Uploading, begin: Begin, h: Happening) {
    match h
    case Other(request, now) => Proper(u.store, request)
    case OpenUpload(_) => true
    case Receive(_, _, _) => Addresses(u.store, begin.transferId)
  }

  predicate ProperUpload(store: Void, begin: Begin, authorization: Bytes, run: seq<Happening>) {
    run != [] ==>
      && ProperUpload(store, begin, authorization, run[..|run| - 1])
      && ProperHappening(After(store, begin, authorization, run[..|run| - 1]), begin, run[|run| - 1])
  }

  // ---------------------------------------------------------------------------
  // Order
  // ---------------------------------------------------------------------------

  /** Chunks 0, 1, ... in order, then at most one commit or abort, which ends the stream. */
  predicate Ordered(frames: seq<Frame>, ended: bool) {
    && (forall i :: 0 <= i < |frames| - 1 ==> frames[i].ChunkFrame?)
    && (forall i :: 0 <= i < |frames| && frames[i].ChunkFrame? ==> frames[i].index == IndexAfter(i))
    && (frames != [] ==> !frames[|frames| - 1].BeginFrame? && (frames[|frames| - 1].ChunkFrame? || ended))
  }

  lemma AdvanceOrdered(u: Uploading, begin: Begin, authorization: Bytes, h: Happening)
    requires Ordered(u.accepted, u.status == Ended)
    requires u.status != Ended ==> u.expectedIndex == IndexAfter(|u.accepted|)
    requires u.status == Opening ==> u.accepted == []
    ensures var u' := Advance(u, begin, authorization, h);
      && Ordered(u'.accepted, u'.status == Ended)
      && (u'.status != Ended ==> u'.expectedIndex == IndexAfter(|u'.accepted|))
      && (u'.status == Opening ==> u'.accepted == [])
  {
    hide Handle, HandleBegin, HandleChunk, HandleCommit, HandleAbort;
    if h.Receive? && h.frame.ChunkFrame? {
      ChunkReplies(u.store, begin.transferId, h.frame.index, h.frame.data, h.frame.hash, h.objectId, h.now);
    }
  }

  /**
   * Over every run the frames that a stream accepts are chunks 0, 1, ... in order and then at most one commit or abort.
   */
  lemma {:induction false} AcceptedInOrder(store: Void, begin: Begin, authorization: Bytes, run: seq<Happening>)
    ensures var u := After(store, begin, authorization, run);
      && Ordered(u.accepted, u.status == Ended)
      && (u.status != Ended ==> u.expectedIndex == IndexAfter(|u.accepted|))
      && (u.status == Opening ==> u.accepted == [])
    decreases |run|
  {
    hide Advance, Ordered;
    if run == [] {
      assert Ordered([], false) by { NoneOrdered(); }
    } else {
      AcceptedInOrder(store, begin, authorization, run[..|run| - 1]);
      AdvanceOrdered(After(store, begin, authorization, run[..|run| - 1]), begin, authorization, run[|run| - 1]);
    }
  }

  lemma NoneOrdered()
    ensures Ordered([], false)
  {
  }

  // ---------------------------------------------------------------------------
  // Authorization
  // ---------------------------------------------------------------------------

  /** What the other requests of a run do by themselves. */
  function OthersOnly(store: Void, run: seq<Happening>): Void {
    if run == [] then store
    else
      var before, last := OthersOnly(store, run[..|run| - 1]), run[|run| - 1];
      if last.Other? then Handle(before, last.request, last.now).0 else before
  }

  /** A producer without the declared authorization accepts no frame and changes nothing, over every run. */
  lemma {:induction false} UnauthorizedChangesNothing(
    store: Void, begin: Begin, authorization: Bytes, run: seq<Happening>)
    requires Sha256(authorization) != begin.authorizationHash
    ensures var u := After(store, begin, authorization, run);
      && u.store == OthersOnly(store, run) && u.accepted == [] && u.status != Streaming
      && (u.reply.Some? ==> u.reply == Some(Error(BadAuthorization)))
    decreases |run|
  {
    hide Handle, HandleBegin, UploadFrame;
    if run != [] { UnauthorizedChangesNothing(store, begin, authorization, run[..|run| - 1]); }
  }

  // ---------------------------------------------------------------------------
  // Content
  // ---------------------------------------------------------------------------

  /** The chunks of an accepted sequence of frames. */
  function ChunkCount(frames: seq<Frame>): nat {
    if frames != [] && !frames[|frames| - 1].ChunkFrame? then |frames| - 1 else |frames|
  }

  /** What the server has of the frames that it accepted. */
  ghost predicate Holds(s: Void, begin: Begin, accepted: seq<Frame>) {
    var t := begin.transferId;
    && HasRecord(s, t) && RecordOf(s, t).begin == begin
    && (!IsAborted(s, t) ==> Prefix(s, t, ChunkCount(accepted)) == Some(Payload(accepted)))
    && (accepted != [] && accepted[|accepted| - 1].CommitFrame? ==> IsCommitted(s, t))
    && (accepted != [] && accepted[|accepted| - 1].AbortFrame? ==> IsAborted(s, t))
  }

  ghost predicate UploadOk(u: Uploading, begin: Begin) {
    && Inv(u.store)
    && Ordered(u.accepted, u.status == Ended)
    && (u.status != Ended ==> u.expectedIndex == IndexAfter(|u.accepted|))
    && (u.status == Opening ==> u.accepted == [])
    && (u.status == Streaming || u.accepted != [] ==> Holds(u.store, begin, u.accepted))
  }

  lemma HoldsStill(s: Void, s': Void, begin: Begin, accepted: seq<Frame>)
    requires Inv(s) && Inv(s') && Evolves(s, s') && Holds(s, begin, accepted)
    ensures Holds(s', begin, accepted)
  {
    hide Inv, Prefix, Payload;
    var t := begin.transferId;
    assert HasRecord(s, t);
    if !IsAborted(s', t) { PrefixStable(s, s', t, ChunkCount(accepted)); }
    if IsCommitted(s, t) { CommittedContent(s', t); }
  }

  /** An accepted chunk is the next piece of the transfer's data. */
  lemma ChunkHeld(s: Void, begin: Begin, accepted: seq<Frame>, frame: Frame, objectId: Id, now: U64)
    requires Sound(s, begin.transferId) && Holds(s, begin, accepted) && frame.ChunkFrame?
    requires forall i :: 0 <= i < |accepted| ==> accepted[i].ChunkFrame?
    requires !UploadFrame(s, begin.transferId, IndexAfter(|accepted|), frame, objectId, now).1.Error?
    ensures var s' := UploadFrame(s, begin.transferId, IndexAfter(|accepted|), frame, objectId, now).0;
      Inv(s') && Evolves(s, s') && Holds(s', begin, accepted + [frame])
  {
    hide Inv, Evolves, DataAt, StoreChunk, Expire, LoadRecord;
    var t, n := begin.transferId, |accepted|;
    var s' := UploadFrame(s, t, IndexAfter(n), frame, objectId, now).0;
    ChunkPromise(s, t, frame.index, frame.data, frame.hash, objectId, now);
    ChunkReplies(s, t, frame.index, frame.data, frame.hash, objectId, now);
    HoldsStill(s, s', begin, accepted);
    DataAtBound(s', t, frame.index);
    assert (accepted + [frame])[..n] == accepted;
    assert Payload(accepted + [frame]) == Payload(accepted) + frame.data;
    if !IsAborted(s', t) { assert Prefix(s', t, n + 1) == Some(Payload(accepted) + frame.data); }
  }

  lemma ChunkReplies(s: Void, t: Id, index: U32, data: Bytes, hash: Digest, objectId: Id, now: U64)
    ensures var reply := HandleChunk(s, t, index, data, hash, objectId, now).1; reply.Error? || reply.ChunkStored?
  {
  }

  lemma TerminalReplies(s: Void, t: Id, aggregateHash: Digest, reason: string, now: U64)
    ensures var reply := HandleCommit(s, t, aggregateHash, now).1; reply.Error? || reply.TransferReply?
    ensures var reply := HandleAbort(s, t, reason, now).1; reply.Error? || reply.TransferReply?
  {
  }

  /** An accepted commit or abort leaves the transfer committed or aborted, with the data it had. */
  lemma TerminalHeld(s: Void, begin: Begin, accepted: seq<Frame>, frame: Frame, expected: U32, objectId: Id, now: U64)
    requires Sound(s, begin.transferId) && Holds(s, begin, accepted) && (frame.CommitFrame? || frame.AbortFrame?)
    requires forall i :: 0 <= i < |accepted| ==> accepted[i].ChunkFrame?
    requires !UploadFrame(s, begin.transferId, expected, frame, objectId, now).1.Error?
    ensures var s' := UploadFrame(s, begin.transferId, expected, frame, objectId, now).0;
      Inv(s') && Evolves(s, s') && Holds(s', begin, accepted + [frame])
  {
    hide Inv, Evolves, Prefix, HandleCommit, HandleAbort, DeliversHash;
    var t, n := begin.transferId, |accepted|;
    var s' := UploadFrame(s, t, expected, frame, objectId, now).0;
    match frame {
      case CommitFrame(hash) =>
        CommitPromise(s, t, hash, now);
        TerminalReplies(s, t, hash, "", now);
        assert IsCommitted(s', t) by { HashDelivered(s', t, hash); }
      case AbortFrame(reason) =>
        AbortPromise(s, t, reason, now);
        TerminalReplies(s, t, begin.expectedHash, reason, now);
        assert IsAborted(s', t);
    }
    HoldsStill(s, s', begin, accepted);
    assert (accepted + [frame])[..n] == accepted;
    assert Payload(accepted + [frame]) == Payload(accepted);
  }

  lemma HashDelivered(s: Void, t: Id, hash: Digest)
    requires DeliversHash(s, t, hash)
    ensures IsCommitted(s, t)
  {
  }

  /** A refused frame changes no more than the request that it amounts to. */
  lemma FrameKeeps(s: Void, t: Id, expected: U32, frame: Frame, objectId: Id, now: U64)
    requires Sound(s, t)
    ensures var s' := UploadFrame(s, t, expected, frame, objectId, now).0; Inv(s') && Evolves(s, s')
  {
    hide Inv, Evolves, HandleChunk, HandleCommit, HandleAbort;
    EvolvesReflexive(s);
    match frame
    case ChunkFrame(index, data, hash) => HandleKeeps(s, TransferChunk(t, index, data, hash, objectId), now);
    case CommitFrame(hash) => HandleKeeps(s, TransferCommit(t, hash), now);
    case AbortFrame(reason) => HandleKeeps(s, TransferAbort(t, reason), now);
    case BeginFrame(_) =>
  }

  lemma OpenHolds(s: Void, begin: Begin, now: U64)
    requires LosslessCodec() && Inv(s)
    ensures var (s', reply) := HandleBegin(s, begin, now);
      Inv(s') && Evolves(s, s') && (reply.TransferReply? ==> Holds(s', begin, []))
  {
    hide Inv, Evolves, HandleBegin;
    BeginPromise(s, begin, now);
  }

  lemma AdvanceKeeps(u: Uploading, begin: Begin, authorization: Bytes, h: Happening)
    requires LosslessCodec() && UploadOk(u, begin) && ProperHappening(u, begin, h)
    ensures UploadOk(Advance(u, begin, authorization, h), begin)
  {
    hide Inv, Evolves, Holds, Handle, HandleBegin, UploadFrame, Addresses;
    assert Ordered(u.accepted, u.status == Ended);
    var u' := Advance(u, begin, authorization, h);
    assert Ordered(u'.accepted, u'.status == Ended) && (u'.status != Ended ==> u'.expectedIndex == IndexAfter(|u'.accepted|))
      && (u'.status == Opening ==> u'.accepted == []) by {
      AdvanceOrdered(u, begin, authorization, h);
    }
    match h
    case Other(request, now) =>
      HandleKeeps(u.store, request, now);
      if Holds(u.store, begin, u.accepted) { HoldsStill(u.store, u'.store, begin, u.accepted); }
    case OpenUpload(now) =>
      OpenHolds(u.store, begin, now);
      if Holds(u.store, begin, u.accepted) { HoldsStill(u.store, HandleBegin(u.store, begin, now).0, begin, u.accepted); }
    case Receive(frame, objectId, now) =>
      if u.status == Streaming { ReceiveKeeps(u, begin, authorization, frame, objectId, now); }
  }

  lemma ReceiveKeeps(u: Uploading, begin: Begin, authorization: Bytes, frame: Frame, objectId: Id, now: U64)
    requires LosslessCodec() && UploadOk(u, begin) && Addresses(u.store, begin.transferId) && u.status == Streaming
    ensures var u' := Advance(u, begin, authorization, Receive(frame, objectId, now));
      Inv(u'.store) && Holds(u'.store, begin, u'.accepted)
  {
    hide Inv, Evolves, Holds, UploadFrame, Addresses;
    var t := begin.transferId;
    var (s', reply, next) := UploadFrame(u.store, t, u.expectedIndex, frame, objectId, now);
    FrameKeeps(u.store, t, u.expectedIndex, frame, objectId, now);
    if reply.Error? {
      HoldsStill(u.store, s', begin, u.accepted);
    } else if frame.ChunkFrame? {
      ChunkHeld(u.store, begin, u.accepted, frame, objectId, now);
    } else {
      NoSecondBegin(u.store, t, u.expectedIndex, frame, objectId, now);
      TerminalHeld(u.store, begin, u.accepted, frame, u.expectedIndex, objectId, now);
    }
  }

  lemma NoSecondBegin(s: Void, t: Id, expected: U32, frame: Frame, objectId: Id, now: U64)
    requires !UploadFrame(s, t, expected, frame, objectId, now).1.Error?
    ensures !frame.BeginFrame?
  {
  }

  /**
   * Over every run, whatever is interleaved: from its first accepted frame on, the record is the declared one and its
   * data begin with the accepted data, unless it was aborted; an accepted commit leaves it committed and an accepted
   * abort leaves it aborted.
   */
  lemma {:induction false} UploadHolds(store: Void, begin: Begin, authorization: Bytes, run: seq<Happening>)
    requires LosslessCodec() && Inv(store) && ProperUpload(store, begin, authorization, run)
    ensures UploadOk(After(store, begin, authorization, run), begin)
    decreases |run|
  {
    hide Inv, Holds, Advance, ProperHappening;
    if run != [] {
      UploadHolds(store, begin, authorization, run[..|run| - 1]);
      AdvanceKeeps(After(store, begin, authorization, run[..|run| - 1]), begin, authorization, run[|run| - 1]);
    }
  }

  /** A stream whose commit was accepted has delivered: the content begins with all the data that it sent. */
  lemma CommittedUpload(store: Void, begin: Begin, authorization: Bytes, run: seq<Happening>)
    requires LosslessCodec() && Inv(store) && ProperUpload(store, begin, authorization, run)
    ensures var u, t := After(store, begin, authorization, run), begin.transferId;
      u.accepted != [] && u.accepted[|u.accepted| - 1].CommitFrame? ==>
        && IsCommitted(u.store, t) && RecordOf(u.store, t).begin == begin
        && Payload(u.accepted) <= Content(u.store, t)
        && (|u.accepted| - 1 == begin.expectedChunks ==> Payload(u.accepted) == Content(u.store, t))
  {
    hide Inv, Ordered, Prefix, Payload, Holds;
    UploadHolds(store, begin, authorization, run);
    var u := After(store, begin, authorization, run);
    if u.accepted != [] && u.accepted[|u.accepted| - 1].CommitFrame? { CommittedHeld(u.store, begin, u.accepted); }
  }

  lemma CommittedHeld(s: Void, begin: Begin, accepted: seq<Frame>)
    requires Inv(s) && Holds(s, begin, accepted) && accepted != [] && accepted[|accepted| - 1].CommitFrame?
    ensures var t := begin.transferId;
      && IsCommitted(s, t) && RecordOf(s, t).begin == begin
      && Payload(accepted) <= Content(s, t)
      && (|accepted| - 1 == begin.expectedChunks ==> Payload(accepted) == Content(s, t))
  {
    hide Inv, Prefix, Payload;
    CommittedContent(s, begin.transferId);
    PrefixGrows(s, begin.transferId, |accepted| - 1, begin.expectedChunks);
  }

  lemma PrefixGrows(s: Void, t: Id, m: nat, n: nat)
    requires Inv(s) && Prefix(s, t, m).Some? && Prefix(s, t, n).Some?
    requires HasRecord(s, t) && n == RecordOf(s, t).begin.expectedChunks
    ensures m <= n && Prefix(s, t, m).value <= Prefix(s, t, n).value
  {
    hide Inv, DataAt;
    if m > 0 { DataAtBound(s, t, m - 1); }
    PrefixMonotone(s, t, m, n);
  }

  lemma {:induction false} PrefixMonotone(s: Void, t: Id, m: nat, n: nat)
    requires m <= n && Prefix(s, t, n).Some?
    ensures Prefix(s, t, m).Some? && Prefix(s, t, m).value <= Prefix(s, t, n).value
    decreases n
  {
    hide DataAt;
    if m < n { PrefixMonotone(s, t, m, n - 1); }
  }

  // ---------------------------------------------------------------------------
  // A whole publication
  // ---------------------------------------------------------------------------

  /** The stream of a publication up to its frame `k`; `clock` gives the time of each request. */
  function StreamOf(p: Publication, clock: nat -> U64, k: nat): seq<Happening>
    requires Declares(p) && k <= |p.ids| + 1
  {
    if k == 0 then [OpenUpload(clock(0))]
    else StreamOf(p, clock, k - 1) + [Receive(FrameAt(p, k - 1), IdAt(p, k - 1), clock(k))]
  }

  function FramesOf(p: Publication, k: nat): seq<Frame>
    requires Declares(p) && k <= |p.ids| + 1
  {
    if k == 0 then [] else FramesOf(p, k - 1) + [FrameAt(p, k - 1)]
  }

  /** The first `k` frames of the publication have been accepted, and with the commit the stream has ended. */
  ghost predicate StreamedUpTo(u: Uploading, p: Publication, k: nat) {
    && Underway(u.store, p, k) && k <= |p.ids| + 1 && Declares(p)
    && u.accepted == FramesOf(p, k)
    && u.status == (if k <= |p.ids| then Streaming else Ended)
    && (k <= |p.ids| ==> u.expectedIndex == k && u.reply == None)
    && (k > |p.ids| ==> u.reply.Some? && u.reply.value.TransferReply? && u.reply.value.record.Committed?)
  }

  lemma NextStreamed(u: Uploading, p: Publication, authorization: Bytes, k: nat, now: U64)
    requires LosslessCodec() && Declares(p) && k <= |p.ids| && StreamedUpTo(u, p, k) && now < p.begin.deadline
    ensures StreamedUpTo(Advance(u, p.begin, authorization, Receive(FrameAt(p, k), IdAt(p, k), now)), p, k + 1)
  {
    hide Underway, Declares, UploadFrame, FrameAt;
    FrameReply(u.store, p, k, now);
  }

  lemma StreamOpens(store: Void, p: Publication, authorization: Bytes, now: U64)
    requires LosslessCodec() && Inv(store) && Declares(p) && Unused(store, p) && now < p.begin.deadline
    requires Sha256(authorization) == p.begin.authorizationHash
    ensures StreamedUpTo(Advance(NewUpload(store), p.begin, authorization, OpenUpload(now)), p, 0)
  {
    hide Inv, Underway, Declares, Unused, HandleBegin;
    BeginAccepted(store, p, now);
  }

  /** With the declared authorization and within the lease every frame of a publication is accepted, up to the commit. */
  lemma {:induction false} PublicationAccepted(
    store: Void, p: Publication, authorization: Bytes, clock: nat -> U64, k: nat)
    requires LosslessCodec() && Inv(store) && Declares(p) && Unused(store, p) && k <= |p.ids| + 1
    requires Sha256(authorization) == p.begin.authorizationHash
    requires forall i: nat :: clock(i) < p.begin.deadline
    ensures StreamedUpTo(After(store, p.begin, authorization, StreamOf(p, clock, k)), p, k)
    decreases k
  {
    hide StreamedUpTo, Inv, Unused, Declares, Advance, FrameAt, Underway;
    var run := StreamOf(p, clock, k);
    if k == 0 {
      assert run[..0] == [] && run[|run| - 1] == OpenUpload(clock(0));
      StreamOpens(store, p, authorization, clock(0));
    } else {
      PublicationAccepted(store, p, authorization, clock, k - 1);
      assert run[..|run| - 1] == StreamOf(p, clock, k - 1);
      NextStreamed(After(store, p.begin, authorization, StreamOf(p, clock, k - 1)), p, authorization, k - 1, clock(k));
    }
  }

  /** The reply to frame `k` of a publication that is underway. */
  lemma FrameReply(s: Void, p: Publication, k: nat, now: U64)
    requires LosslessCodec() && Declares(p) && Underway(s, p, k) && k <= |p.ids| && now < p.begin.deadline
    ensures k < U32_LIMIT
    ensures var (s', reply, next) := UploadFrame(s, p.begin.transferId, k, FrameAt(p, k), IdAt(p, k), now);
      && Underway(s', p, k + 1)
      && (k < |p.ids| ==> FrameAt(p, k).ChunkFrame? && reply.ChunkStored? && next == k + 1)
      && (k == |p.ids| ==> FrameAt(p, k).CommitFrame? && reply.TransferReply? && reply.record.Committed?)
  {
    hide Inv, Underway, HandleChunk, HandleCommit, Split;
    SplitCount(p.data);
    if k < |p.ids| { FrameAccepted(s, p, k, now); } else { CommitStored(s, p, now); }
  }
}
