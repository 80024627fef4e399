/**
 * Durability, exactly. A request rewrites or deletes the objects of certain ids, which can be read off the state, the
 * request and the clock before it runs. A committed transfer survives a run if and only if no request of the run hits
 * its record or one of its chunks. Nothing is asked of the requests.
 */
module TransferDurability {
  import opened Basics
  import opened Transfer
  import opened TransferInvariant
  import opened TransferReaders

  // ---------------------------------------------------------------------------
  // What a request touches
  // ---------------------------------------------------------------------------

  predicate Expired(r: Record, now: U64) {
    r.InProgress? && now >= r.begin.deadline
  }

  /** An abort of an open record deletes its chunks and rewrites the record that it declares. */
  function Aborts(r: Record): set<Id> {
    {r.begin.transferId} + Ids(Chunks(r))
  }

  /** The ids that a request addressed to record `r` rewrites or deletes when nothing but its lease matters. */
  function ExpiryTouches(r: Record, now: U64): set<Id> {
    if Expired(r, now) then Aborts(r) else {}
  }

  // --- when a request goes through ---

  predicate CanUpload(s: Void, id: Id, data: Bytes) {
    |data| <= MAX_OBJECT && (id in s.index ==> s.index[id].PlainKey?)
  }

  predicate CanBegin(s: Void, begin: Begin, now: U64) {
    && begin.protocolVersion == PROTOCOL_VERSION && begin.transferId != NIL_ID && begin.expectedChunks <= MAX_PARTS
    && (begin.expectedChunks == 0 <==> begin.expectedLen == 0)
    && now < begin.deadline && begin.transferId !in s.index
  }

  predicate CanStoreChunk(s: Void, r: Record, index: U32, data: Bytes, hash: Digest, objectId: Id) {
    && r.InProgress? && index < r.begin.expectedChunks && (forall c :: c in r.chunks ==> c.index != index)
    && Sha256(data) == hash && ProspectiveLen(r.chunks, data) <= r.begin.expectedLen && |data| <= MAX_OBJECT
    && objectId !in s.index
  }

  predicate CanCommit(s: Void, r: Record, aggregateHash: Digest) {
    && r.InProgress? && aggregateHash == r.begin.expectedHash
    && |r.chunks| == r.begin.expectedChunks && Contiguous(r.chunks) && TotalLen(r.chunks) == r.begin.expectedLen
    && ReadChunks(s, r.chunks).Ok? && Sha256(ReadChunks(s, r.chunks).value) == aggregateHash
  }

  /** The guards are what the handlers check. */
  lemma ChunkGuard(s: Void, id: Id, r: Record, index: U32, data: Bytes, hash: Digest, objectId: Id)
    ensures StoreChunk(s, id, r, index, data, hash, objectId).1.ChunkStored?
      <==> CanStoreChunk(s, r, index, data, hash, objectId)
  {
    hide TotalLen, ProspectiveLen;
  }

  lemma CommitGuard(s: Void, id: Id, r: Record, aggregateHash: Digest, now: U64)
    ensures CommitRecord(s, id, r, aggregateHash, now).1.TransferReply? <==> CanCommit(s, r, aggregateHash)
  {
    hide ReadChunks, TotalLen, Contiguous;
  }

  /** The ids whose objects the request rewrites or deletes. */
  function Touches(s: Void, request: Request, now: U64): set<Id> {
    match request
    case Upload(id, data) => if CanUpload(s, id, data) then {id} else {}
    case TransferBegin(begin) => if CanBegin(s, begin, now) then {begin.transferId} else {}
    case _ =>
      match LoadRecord(s, request.transferId)
      case Err(_) => {}
      case Ok(r) =>
        if request.TransferAbort? then (if r.InProgress? then Aborts(r) else {})
        else if Expired(r, now) then Aborts(r)
        else
          match request
          case TransferChunk(id, index, data, hash, objectId) =>
            if CanStoreChunk(s, r, index, data, hash, objectId) then {id, objectId} else {}
          case TransferCommit(id, aggregateHash) => if CanCommit(s, r, aggregateHash) then {id} else {}
          case _ => {}
  }

  /** The ids that a committed transfer stands on: its record and its chunks. */
  function Guarded(s: Void, t: Id): set<Id>
    requires HasRecord(s, t)
  {
    {t} + Ids(Chunks(RecordOf(s, t)))
  }

  /** Each of these ids names the same object, with the same bytes, in both states. */
  predicate SameAt(s: Void, s': Void, ids: set<Id>) {
    forall x :: x in ids ==> SameObjectAt(s, s', x)
  }

  predicate SameObjectAt(s: Void, s': Void, x: Id) {
    && x in s.index && x in s'.index && s'.index[x] == s.index[x]
    && s.index[x] in s.objects && s.index[x] in s'.objects && s'.objects[s.index[x]] == s.objects[s.index[x]]
  }

  /** Every id names an object under a key of its own. Every request keeps this, proper or not. */
  predicate Linked(s: Void) {
    forall id :: id in s.index ==> s.index[id].id == id && s.index[id] in s.objects
  }

  /** A committed record whose chunks are stored as chunks. */
  predicate Intact(s: Void, t: Id) {
    && HasRecord(s, t) && RecordOf(s, t).Committed?
    && (forall c :: c in RecordOf(s, t).chunks ==> c.objectId in s.index && s.index[c.objectId] == ChunkKey(c.objectId))
  }

  // ---------------------------------------------------------------------------
  // Untouched ids keep their objects
  // ---------------------------------------------------------------------------

  lemma {:induction false} DeleteChunksRemoves(s: Void, chunks: seq<Chunk>)
    requires Linked(s)
    ensures var r := DeleteChunks(s, chunks);
      Linked(r) && Untouched(s, r, Ids(chunks)) && forall x :: x in Ids(chunks) ==> x !in r.index
    decreases |chunks|
  {
    if chunks != [] {
      var o := chunks[0].objectId;
      assert chunks == [chunks[0]] + chunks[1..];
      assert Ids(chunks) == {o} + Ids(chunks[1..]);
      DeleteChunksRemoves(Delete(s, o), chunks[1..]);
    }
  }

  lemma AbortTouches(s: Void, r: Record, reason: string, now: U64)
    requires Linked(s) && r.InProgress?
    ensures var s' := AbortTransfer(s, r.begin, r.chunks, reason, now).0;
      && Linked(s') && Untouched(s, s', Aborts(r))
      && (forall x :: x in Ids(r.chunks) && x != r.begin.transferId ==> x !in s'.index)
      && OnRecord(s', r.begin.transferId, Aborted(r.begin, reason, now))
  {
    DeleteChunksRemoves(s, r.chunks);
  }

  predicate OnRecord(s: Void, id: Id, r: Record) {
    id in s.index && s.index[id] == RecordKey(id) && RecordKey(id) in s.objects && s.objects[RecordKey(id)] == Encode(r)
  }

  lemma UntouchedSame(s: Void, s': Void, touched: set<Id>, ids: set<Id>)
    requires Linked(s) && Untouched(s, s', touched) && touched !! ids && forall x :: x in ids ==> x in s.index
    ensures SameAt(s, s', ids)
  {
  }

  /** What every abort does to a committed transfer: nothing when it misses it, and otherwise it breaks it. */
  lemma AbortExactly(s: Void, r: Record, reason: string, now: U64, t: Id)
    requires LosslessCodec() && Linked(s) && Intact(s, t) && r.InProgress?
    ensures var s' := AbortTransfer(s, r.begin, r.chunks, reason, now).0;
      Linked(s') && (SameAt(s, s', Guarded(s, t)) <==> Aborts(r) !! Guarded(s, t))
  {
    var s' := AbortTransfer(s, r.begin, r.chunks, reason, now).0;
    AbortTouches(s, r, reason, now);
    if Aborts(r) !! Guarded(s, t) {
      UntouchedSame(s, s', Aborts(r), Guarded(s, t));
    } else {
      var x :| x in Aborts(r) && x in Guarded(s, t);
      assert !SameObjectAt(s, s', x) by {
        assert Decode(Encode(Aborted(r.begin, reason, now))) == Some(Aborted(r.begin, reason, now));
      }
    }
  }

  lemma ExpireExactly(s: Void, r: Record, now: U64, t: Id)
    requires LosslessCodec() && Linked(s) && Intact(s, t)
    ensures var s' := Expire(s, r, now).0;
      Linked(s') && (SameAt(s, s', Guarded(s, t)) <==> ExpiryTouches(r, now) !! Guarded(s, t))
  {
    if Expired(r, now) {
      AbortExactly(s, r, LEASE_EXPIRED, now, t);
    } else {
      SameItself(s, t);
    }
  }

  lemma SameItself(s: Void, t: Id)
    requires Linked(s) && Intact(s, t)
    ensures SameAt(s, s, Guarded(s, t))
  {
  }

  /** Writing a record over an id breaks exactly the transfer that has it as a chunk. */
  lemma PersistExactly(s: Void, s0: Void, id: Id, r: Record, fresh0: set<Id>, t: Id)
    requires LosslessCodec() && Linked(s) && Intact(s, t) && id != t && Linked(s0) && Untouched(s, s0, fresh0)
    requires forall x :: x in fresh0 ==> x !in s.index
    ensures var s' := Persist(s0, id, r);
      Linked(s') && (SameAt(s, s', Guarded(s, t)) <==> {id} + fresh0 !! Guarded(s, t))
  {
    var s' := Persist(s0, id, r);
    assert fresh0 !! Guarded(s, t);
    assert Untouched(s, s', {id} + fresh0);
    if id !in Guarded(s, t) {
      UntouchedSame(s, s', {id} + fresh0, Guarded(s, t));
    } else {
      assert !SameObjectAt(s, s', id);
    }
  }

  lemma ChunkExactly(s: Void, id: Id, r: Record, index: U32, data: Bytes, hash: Digest, objectId: Id, t: Id)
    requires LosslessCodec() && Linked(s) && Intact(s, t) && LoadRecord(s, id) == Ok(r)
    ensures var (s', reply) := StoreChunk(s, id, r, index, data, hash, objectId);
      && Linked(s')
      && (SameAt(s, s', Guarded(s, t)) <==> (if reply.ChunkStored? then {id, objectId} else {}) !! Guarded(s, t))
  {
    var (s', reply) := StoreChunk(s, id, r, index, data, hash, objectId);
    if reply.ChunkStored? {
      var s0 := Put(s, objectId, ChunkKey(objectId), data);
      var updated := InProgress(r.begin, SortByIndex(r.chunks + [reply.chunk]), SaturatingAdd64(r.revision, 1));
      PersistExactly(s, s0, id, updated, {objectId}, t);
      assert {id} + {objectId} == {id, objectId};
    } else {
      SameItself(s, t);
    }
  }

  lemma CommitExactly(s: Void, id: Id, r: Record, aggregateHash: Digest, now: U64, t: Id)
    requires LosslessCodec() && Linked(s) && Intact(s, t) && LoadRecord(s, id) == Ok(r)
    ensures var (s', reply) := CommitRecord(s, id, r, aggregateHash, now);
      && Linked(s')
      && (SameAt(s, s', Guarded(s, t)) <==> (if reply.TransferReply? then {id} else {}) !! Guarded(s, t))
  {
    var (s', reply) := CommitRecord(s, id, r, aggregateHash, now);
    if reply.TransferReply? {
      PersistExactly(s, s, id, Committed(r.begin, r.chunks, now), {}, t);
    } else {
      SameItself(s, t);
    }
  }

  /** Uploads and begin requests never reach a managed object. */
  lemma NewObjectsExactly(s: Void, request: Request, now: U64, t: Id)
    requires LosslessCodec() && Linked(s) && Intact(s, t) && (request.Upload? || request.TransferBegin?)
    ensures Linked(Handle(s, request, now).0) && SameAt(s, Handle(s, request, now).0, Guarded(s, t))
    ensures Touches(s, request, now) !! Guarded(s, t)
  {
    var s' := Handle(s, request, now).0;
    assert Untouched(s, s', Touches(s, request, now));
    UntouchedSame(s, s', Touches(s, request, now), Guarded(s, t));
  }

  /** One request: a committed transfer keeps its objects if and only if the request touches none of them. */
  lemma RequestExactly(s: Void, request: Request, now: U64, t: Id)
    requires LosslessCodec() && Linked(s) && Intact(s, t)
    ensures Linked(Handle(s, request, now).0)
    ensures SameAt(s, Handle(s, request, now).0, Guarded(s, t)) <==> Touches(s, request, now) !! Guarded(s, t)
  {
    hide SameAt, Guarded, Intact, Linked, AbortTransfer, StoreChunk, CommitRecord;
    if request.Upload? || request.TransferBegin? {
      NewObjectsExactly(s, request, now, t);
    } else {
      match LoadRecord(s, request.transferId)
      case Err(_) => SameUnloaded(s, request, now, t);
      case Ok(r) =>
        if request.TransferAbort? {
          if r.InProgress? { AbortExactly(s, r, request.reason, now, t); } else { SameItself(s, t); }
        } else if Expired(r, now) {
          ExpireExactly(s, r, now, t);
          ClosedIsRefused(s, request, now, r);
        } else {
          SameItself(s, t);
          match request
          case TransferChunk(id, index, data, hash, objectId) =>
            ChunkGuard(s, id, r, index, data, hash, objectId);
            ChunkExactly(s, id, r, index, data, hash, objectId, t);
          case TransferCommit(id, aggregateHash) =>
            CommitGuard(s, id, r, aggregateHash, now);
            CommitExactly(s, id, r, aggregateHash, now, t);
          case _ =>
        }
    }
  }

  /** A cleanup of an unreadable record only changes the active set. */
  lemma SameUnloaded(s: Void, request: Request, now: U64, t: Id)
    requires Linked(s) && Intact(s, t) && !request.Upload? && !request.TransferBegin?
    requires LoadRecord(s, request.transferId).Err?
    ensures Linked(Handle(s, request, now).0) && SameAt(s, Handle(s, request, now).0, Guarded(s, t))
  {
  }

  /** After its expiry a record refuses what the request asked for. */
  lemma ClosedIsRefused(s: Void, request: Request, now: U64, r: Record)
    requires !request.Upload? && !request.TransferBegin? && !request.TransferAbort?
    requires LoadRecord(s, request.transferId) == Ok(r) && Expired(r, now)
    ensures Handle(s, request, now).0 == Expire(s, r, now).0
  {
  }

  /** The ids a request touches are all it can change: every other id keeps its key and its object, or stays unused. */
  lemma HandleUntouched(s: Void, request: Request, now: U64)
    requires Linked(s)
    ensures Untouched(s, Handle(s, request, now).0, Touches(s, request, now))
  {
    hide Untouched, AbortTransfer, StoreChunk, CommitRecord, Linked;
    UntouchedItself(s);
    if request.Upload? || request.TransferBegin? {
      NewObjectsUntouched(s, request, now);
    } else if LoadRecord(s, request.transferId).Ok? {
      var r := LoadRecord(s, request.transferId).value;
      if request.TransferAbort? {
        if r.InProgress? { AbortTouches(s, r, request.reason, now); }
      } else if Expired(r, now) {
        AbortTouches(s, r, LEASE_EXPIRED, now);
        ClosedIsRefused(s, request, now, r);
      } else {
        match request
        case TransferChunk(id, index, data, hash, objectId) =>
          ChunkGuard(s, id, r, index, data, hash, objectId);
          StoreUntouched(s, id, r, index, data, hash, objectId);
        case TransferCommit(id, aggregateHash) =>
          CommitGuard(s, id, r, aggregateHash, now);
          CommitUntouched(s, id, r, aggregateHash, now);
        case _ =>
      }
    } else {
      UnloadedUntouched(s, request, now);
    }
  }

  lemma UntouchedItself(s: Void)
    ensures Untouched(s, s, {})
  {
  }

  lemma NewObjectsUntouched(s: Void, request: Request, now: U64)
    requires request.Upload? || request.TransferBegin?
    ensures Untouched(s, Handle(s, request, now).0, Touches(s, request, now))
  {
  }

  lemma UnloadedUntouched(s: Void, request: Request, now: U64)
    requires !request.Upload? && !request.TransferBegin? && LoadRecord(s, request.transferId).Err?
    ensures Untouched(s, Handle(s, request, now).0, {})
  {
  }

  lemma StoreUntouched(s: Void, id: Id, r: Record, index: U32, data: Bytes, hash: Digest, objectId: Id)
    ensures var (s', reply) := StoreChunk(s, id, r, index, data, hash, objectId);
      Untouched(s, s', if reply.ChunkStored? then {id, objectId} else {})
  {
  }

  lemma CommitUntouched(s: Void, id: Id, r: Record, aggregateHash: Digest, now: U64)
    ensures var (s', reply) := CommitRecord(s, id, r, aggregateHash, now);
      Untouched(s, s', if reply.TransferReply? then {id} else {})
  {
  }

  // ---------------------------------------------------------------------------
  // Runs
  // ---------------------------------------------------------------------------

  /** No request of the run touches any of these ids. */
  predicate Spares(s: Void, run: seq<(Request, U64)>, ids: set<Id>)
    decreases |run|
  {
    run == [] || (
      Touches(s, run[0].0, run[0].1) !! ids && Spares(Handle(s, run[0].0, run[0].1).0, run[1..], ids))
  }

  /** At every point of the run these ids name the objects that they name in `s0`. */
  predicate SameThroughout(s0: Void, s: Void, run: seq<(Request, U64)>, ids: set<Id>)
    decreases |run|
  {
    SameAt(s0, s, ids) && (run == [] || SameThroughout(s0, Handle(s, run[0].0, run[0].1).0, run[1..], ids))
  }

  lemma SameIsIntact(s0: Void, s: Void, t: Id)
    requires Intact(s0, t) && SameAt(s0, s, Guarded(s0, t))
    ensures Intact(s, t) && RecordOf(s, t) == RecordOf(s0, t) && Guarded(s, t) == Guarded(s0, t)
  {
    assert t in Guarded(s0, t) && SameObjectAt(s0, s, t);
    forall c | c in RecordOf(s0, t).chunks ensures c.objectId in s.index && s.index[c.objectId] == ChunkKey(c.objectId) {
      assert c.objectId in Guarded(s0, t);
    }
  }

  lemma SameChain(s0: Void, s: Void, s': Void, ids: set<Id>)
    requires SameAt(s0, s, ids)
    ensures SameAt(s0, s', ids) <==> SameAt(s, s', ids)
  {
    forall x | x in ids ensures SameObjectAt(s0, s', x) <==> SameObjectAt(s, s', x) { assert SameObjectAt(s0, s, x); }
  }

  lemma {:induction false} RunExactlyFrom(s0: Void, s: Void, run: seq<(Request, U64)>, t: Id)
    requires LosslessCodec() && Linked(s) && Intact(s0, t) && SameAt(s0, s, Guarded(s0, t))
    ensures SameThroughout(s0, s, run, Guarded(s0, t)) <==> Spares(s, run, Guarded(s0, t))
    decreases |run|
  {
    hide SameAt, Guarded, Linked, Touches, Handle;
    if run != [] {
      var next := Handle(s, run[0].0, run[0].1).0;
      SameIsIntact(s0, s, t);
      RequestExactly(s, run[0].0, run[0].1, t);
      SameChain(s0, s, next, Guarded(s0, t));
      if SameAt(s0, next, Guarded(s0, t)) {
        RunExactlyFrom(s0, next, run[1..], t);
      } else {
        NotThroughout(s0, next, run[1..], Guarded(s0, t));
      }
    }
  }

  lemma NotThroughout(s0: Void, s: Void, run: seq<(Request, U64)>, ids: set<Id>)
    requires !SameAt(s0, s, ids)
    ensures !SameThroughout(s0, s, run, ids)
  {
  }

  /**
   * Durability over any run of any requests: the record, the chunk objects and hence the content of a committed
   * transfer are the same at every point if and only if no request touches its record or its chunks.
   */
  lemma DurableExactly(s: Void, run: seq<(Request, U64)>, t: Id)
    requires LosslessCodec() && Linked(s) && Intact(s, t)
    ensures SameThroughout(s, s, run, Guarded(s, t)) <==> Spares(s, run, Guarded(s, t))
  {
    SameItself(s, t);
    RunExactlyFrom(s, s, run, t);
  }

  lemma {:induction false} ReadsGuarded(s: Void, s': Void, chunks: seq<Chunk>, ids: set<Id>)
    requires SameAt(s, s', ids) && Ids(chunks) <= ids
    ensures ReadChunks(s', chunks) == ReadChunks(s, chunks)
    decreases |chunks|
  {
    if chunks != [] {
      var last := chunks[|chunks| - 1];
      assert last in chunks && last.objectId in ids;
      assert SameObjectAt(s, s', last.objectId);
      forall x | x in Ids(chunks[..|chunks| - 1]) ensures x in Ids(chunks) {}
      ReadsGuarded(s, s', chunks[..|chunks| - 1], ids);
    }
  }

  lemma {:induction false} ThroughoutAtEnd(s0: Void, s: Void, run: seq<(Request, U64)>, ids: set<Id>)
    requires SameThroughout(s0, s, run, ids)
    ensures SameAt(s0, Run(s, run), ids)
    decreases |run|
  {
    hide SameAt, Handle;
    if run != [] { ThroughoutAtEnd(s0, Handle(s, run[0].0, run[0].1).0, run[1..], ids); }
  }

  /** What was committed stays committed, with the same record and the same content, after every run that spares it. */
  lemma CommittedForever(s: Void, run: seq<(Request, U64)>, t: Id)
    requires LosslessCodec() && Linked(s) && Intact(s, t) && IsCommitted(s, t)
    requires Spares(s, run, Guarded(s, t))
    ensures var s' := Run(s, run);
      && IsCommitted(s', t) && RecordOf(s', t) == RecordOf(s, t) && Content(s', t) == Content(s, t)
      && (forall c :: c in RecordOf(s, t).chunks ==> SameObjectAt(s, s', c.objectId))
  {
    hide Run, Spares, SameThroughout, Handle;
    var s' := Run(s, run);
    DurableExactly(s, run, t);
    ThroughoutAtEnd(s, s, run, Guarded(s, t));
    SameIsIntact(s, s', t);
    ReadsGuarded(s, s', RecordOf(s, t).chunks, Guarded(s, t));
  }

  // ---------------------------------------------------------------------------
  // Requests that address transfer records spare committed transfers
  // ---------------------------------------------------------------------------

  lemma CommittedIsIntact(s: Void, t: Id)
    requires Inv(s) && HasRecord(s, t) && RecordOf(s, t).Committed?
    ensures Linked(s) && Intact(s, t) && IsCommitted(s, t)
  {
    CommittedContent(s, t);
    assert RecordOk(s, t);
    forall c | c in RecordOf(s, t).chunks ensures c.objectId in s.index && s.index[c.objectId] == ChunkKey(c.objectId) {
      assert Stored(s, c);
    }
  }

  lemma ProperSpares(s: Void, request: Request, now: U64, t: Id)
    requires LosslessCodec() && Inv(s) && Proper(s, request) && HasRecord(s, t) && RecordOf(s, t).Committed?
    ensures Touches(s, request, now) !! Guarded(s, t)
  {
    CommittedIsIntact(s, t);
    if request.Upload? || request.TransferBegin? {
      NewObjectsExactly(s, request, now, t);
    } else if LoadRecord(s, request.transferId).Ok? {
      ProperTransferSpares(s, request, now, t);
    }
  }

  lemma ProperTransferSpares(s: Void, request: Request, now: U64, t: Id)
    requires Inv(s) && Proper(s, request) && HasRecord(s, t) && RecordOf(s, t).Committed?
    requires !request.Upload? && !request.TransferBegin? && LoadRecord(s, request.transferId).Ok?
    ensures Touches(s, request, now) !! Guarded(s, t)
  {
    hide Inv, CanStoreChunk, CanCommit, Guarded;
    var u := request.transferId;
    LoadedIsRecord(s, u);
    if RecordOf(s, u).InProgress? {
      OpenRecordApart(s, u, t);
      if request.TransferChunk? { NewChunkApart(s, request, now, t); }
    } else {
      ClosedTouchesNothing(s, request, now, RecordOf(s, u));
    }
  }

  lemma ClosedTouchesNothing(s: Void, request: Request, now: U64, r: Record)
    requires !request.Upload? && !request.TransferBegin? && LoadRecord(s, request.transferId) == Ok(r) && !r.InProgress?
    ensures Touches(s, request, now) == {}
  {
  }

  lemma OpenRecordApart(s: Void, u: Id, t: Id)
    requires Inv(s) && HasRecord(s, u) && RecordOf(s, u).InProgress? && HasRecord(s, t) && RecordOf(s, t).Committed?
    ensures Aborts(RecordOf(s, u)) !! Guarded(s, t)
  {
    assert RecordOk(s, u) && RecordOk(s, t);
    assert Ids(Chunks(RecordOf(s, u))) == Listed(s, u) && Ids(Chunks(RecordOf(s, t))) == Listed(s, t);
    forall x | x in Aborts(RecordOf(s, u)) ensures x !in Guarded(s, t) {
      if x in Listed(s, u) { ListedStored(s, u, x); }
      if x in Listed(s, t) { ListedStored(s, t, x); }
    }
  }

  lemma NewChunkApart(s: Void, request: Request, now: U64, t: Id)
    requires Inv(s) && HasRecord(s, t) && RecordOf(s, t).Committed? && request.TransferChunk?
    requires LoadRecord(s, request.transferId).Ok?
    ensures var r := LoadRecord(s, request.transferId).value;
      CanStoreChunk(s, r, request.index, request.data, request.hash, request.objectId) ==>
        request.objectId !in Guarded(s, t)
  {
    hide Inv;
    CommittedIsIntact(s, t);
  }

  lemma {:induction false} ProperRunSpares(s: Void, run: seq<(Request, U64)>, t: Id)
    requires LosslessCodec() && Inv(s) && ProperRun(s, run) && HasRecord(s, t) && RecordOf(s, t).Committed?
    ensures Spares(s, run, Guarded(s, t))
    decreases |run|
  {
    hide Inv, Touches, Handle, Proper, Evolves;
    if run != [] {
      var next := Handle(s, run[0].0, run[0].1).0;
      ProperSpares(s, run[0].0, run[0].1, t);
      HandleKeeps(s, run[0].0, run[0].1);
      CommittedStays(s, next, t);
      ProperRunSpares(next, run[1..], t);
    }
  }

  lemma CommittedStays(s: Void, s': Void, t: Id)
    requires Evolves(s, s') && HasRecord(s, t) && RecordOf(s, t).Committed?
    ensures HasRecord(s', t) && RecordOf(s', t) == RecordOf(s, t) && Guarded(s', t) == Guarded(s, t)
  {
  }
}
