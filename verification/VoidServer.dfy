/**
 * The Void server as the source keeps it: stores and an active set updated in place by each handler. Besides its new
 * state each handler promises what a caller may rely on when the request addresses a transfer record.
 */
module VoidServer {
  import opened Basics
  import opened Transfer
  import opened TransferInvariant
  import opened TransferReaders

  // ---------------------------------------------------------------------------
  // What the handlers promise
  // ---------------------------------------------------------------------------

  /** The codec loses nothing, the invariant holds, and `t` is not a plain or chunk object that decodes as a record. */
  ghost predicate Sound(s: Void, t: Id) {
    LosslessCodec() && Inv(s) && Addresses(s, t)
  }

  ghost predicate Keeps(s: Void, s': Void) {
    Inv(s') && Evolves(s, s')
  }

  /** The transfer is committed, and what it delivers has the declared length and this hash. */
  predicate DeliversHash(s: Void, t: Id, hash: Digest) {
    && IsCommitted(s, t) && Sha256(Content(s, t)) == hash
    && |Content(s, t)| == RecordOf(s, t).begin.expectedLen
  }

  /** The transfer is aborted, and nothing that it listed before is left. */
  predicate AbortedClean(s: Void, s': Void, t: Id) {
    IsAborted(s', t) && forall o :: o in Listed(s, t) ==> o !in s'.index && ChunkKey(o) !in s'.objects
  }

  predicate HasOpenRecord(s: Void, begin: Begin) {
    HasRecord(s, begin.transferId) && RecordOf(s, begin.transferId) == InProgress(begin, [], 0)
  }

  predicate HoldsRecord(s: Void, t: Id, r: Record) {
    HasRecord(s, t) && RecordOf(s, t) == r
  }

  lemma BeginPromise(s: Void, begin: Begin, now: U64)
    requires LosslessCodec() && Inv(s)
    ensures var (s', reply) := HandleBegin(s, begin, now);
      Keeps(s, s') && (reply.TransferReply? ==> HasOpenRecord(s', begin))
  {
    BeginKeeps(s, begin, now);
    var r := InProgress(begin, [], 0);
    assert Decode(Encode(r)) == Some(r);
  }

  lemma ChunkPromise(s: Void, t: Id, index: U32, data: Bytes, hash: Digest, objectId: Id, now: U64)
    requires Sound(s, t)
    ensures var (s', reply) := HandleChunk(s, t, index, data, hash, objectId, now);
      Keeps(s, s') && (reply.ChunkStored? ==> DataAt(s', t, index) == Some(data))
  {
    hide Inv, Evolves, DataAt, WellFormed;
    ChunkKeeps(s, t, index, data, hash, objectId, now);
    if HandleChunk(s, t, index, data, hash, objectId, now).1.ChunkStored? {
      LoadedIsRecord(s, t);
      ExpireKeeps(s, t, now);
      var live := Expire(s, RecordOf(s, t), now).0;
      StoreChunkUpdates(live, t, index, data, hash, objectId);
      var s' := HandleChunk(s, t, index, data, hash, objectId, now).0;
      DataAtChunk(s', t, Chunk(index, objectId, |data|, hash));
    }
  }

  lemma CommitPromise(s: Void, t: Id, aggregateHash: Digest, now: U64)
    requires Sound(s, t)
    ensures var (s', reply) := HandleCommit(s, t, aggregateHash, now);
      Keeps(s, s') && (reply.TransferReply? ==> DeliversHash(s', t, aggregateHash))
  {
    hide Inv, Evolves, DataAt, WellFormed;
    CommitKeeps(s, t, aggregateHash, now);
    if HandleCommit(s, t, aggregateHash, now).1.TransferReply? {
      LoadedIsRecord(s, t);
      ExpireKeeps(s, t, now);
      CommitUpdates(Expire(s, RecordOf(s, t), now).0, t, aggregateHash, now);
      CommittedContent(HandleCommit(s, t, aggregateHash, now).0, t);
    }
  }

  lemma AbortPromise(s: Void, t: Id, reason: string, now: U64)
    requires Sound(s, t)
    ensures var (s', reply) := HandleAbort(s, t, reason, now);
      Keeps(s, s') && (reply.TransferReply? ==> AbortedClean(s, s', t))
  {
    hide Inv, Evolves, WellFormed;
    HandleKeeps(s, TransferAbort(t, reason), now);
    if HandleAbort(s, t, reason, now).1.TransferReply? {
      LoadedIsRecord(s, t);
      AbortCleans(s, t, reason, now);
    }
  }

  lemma AbortCleans(s: Void, t: Id, reason: string, now: U64)
    requires LosslessCodec() && Inv(s) && HasRecord(s, t) && RecordOf(s, t).InProgress?
    ensures AbortedClean(s, AbortTransfer(s, RecordOf(s, t).begin, RecordOf(s, t).chunks, reason, now).0, t)
  {
    hide WellFormed, Owned;
    assert RecordOk(s, t);
    AbortUpdates(s, t, reason, now);
    AbortIsUpdate(s, t, reason, now);
    var s' := AbortTransfer(s, RecordOf(s, t).begin, RecordOf(s, t).chunks, reason, now).0;
    forall o | o in Listed(s, t) ensures o !in s'.index && ChunkKey(o) !in s'.objects {
      assert Absent(s', o);
      assert ChunkKey(o).id == o;
    }
  }

  lemma CleanupPromise(s: Void, t: Id, now: U64)
    requires Sound(s, t)
    ensures Keeps(s, HandleCleanup(s, t, now)) && !Overdue(HandleCleanup(s, t, now), t, now)
  {
    HandleKeeps(s, CleanupOne(t), now);
    if LoadRecord(s, t).Ok? {
      LoadedIsRecord(s, t);
      ExpireKeeps(s, t, now);
    }
  }

  // ---------------------------------------------------------------------------
  // The handlers
  // ---------------------------------------------------------------------------

  class Server {
    var index: map<Id, Key>
    var objects: map<Key, Bytes>
    var active: set<Id>

    function State(): Void
      reads this
    {
      Void(index, objects, active)
    }

    constructor ()
      ensures State() == Void(map[], map[], {})
    {
      index, objects, active := map[], map[], {};
    }

    method Store(id: Id, key: Key, data: Bytes)
      modifies this
      ensures State() == Put(old(State()), id, key, data)
    {
      objects := objects[key := data];
      index := index[id := key];
    }

    method DeleteObject(id: Id)
      modifies this
      ensures State() == Delete(old(State()), id)
    {
      if id in index {
        objects := objects - {index[id]};
        index := index - {id};
      }
    }

    /** `abort_transfer_locked`. */
    method AbortLocked(begin: Begin, chunks: seq<Chunk>, reason: string, now: U64) returns (record: Record)
      modifies this
      ensures (State(), record) == AbortTransfer(old(State()), begin, chunks, reason, now)
    {
      var i := 0;
      while i < |chunks|
        invariant 0 <= i <= |chunks|
        invariant DeleteChunks(State(), chunks[i..]) == DeleteChunks(old(State()), chunks)
      {
        assert chunks[i..][1..] == chunks[i + 1..];
        DeleteObject(chunks[i].objectId);
        i := i + 1;
      }
      assert chunks[i..] == [];
      record := Aborted(begin, reason, now);
      Store(begin.transferId, RecordKey(begin.transferId), Encode(record));
      active := active - {begin.transferId};
    }

    /** `expire_transfer_locked`. */
    method ExpireLocked(r: Record, now: U64) returns (record: Record)
      modifies this
      ensures (State(), record) == Expire(old(State()), r, now)
    {
      if r.InProgress? && now >= r.begin.deadline {
        record := AbortLocked(r.begin, r.chunks, LEASE_EXPIRED, now);
      } else {
        record := r;
      }
    }

    method UploadObject(id: Id, data: Bytes) returns (reply: Reply)
      modifies this
      ensures (State(), reply) == HandleUpload(old(State()), id, data)
      ensures Inv(old(State())) ==> Keeps(old(State()), State())
    {
      hide Inv, Evolves;
      if Inv(State()) { UploadKeeps(State(), id, data); }
      if |data| > MAX_OBJECT { return Error(TooLarge); }
      if id in index && !index[id].PlainKey? { return Error(ManagedObject); }
      Store(id, PlainKey(id), data);
      return Uploaded(id);
    }

    method BeginTransfer(begin: Begin, now: U64) returns (reply: Reply)
      modifies this
      ensures (State(), reply) == HandleBegin(old(State()), begin, now)
      ensures LosslessCodec() && Inv(old(State())) ==>
        Keeps(old(State()), State()) && (reply.TransferReply? ==> HasOpenRecord(State(), begin))
    {
      hide Inv, Keeps, HasOpenRecord, LosslessCodec;
      if LosslessCodec() && Inv(State()) { BeginPromise(State(), begin, now); }
      if begin.protocolVersion != PROTOCOL_VERSION { return Error(BadVersion); }
      if begin.transferId == NIL_ID { return Error(NilId); }
      if begin.expectedChunks > MAX_PARTS { return Error(TooManyChunks); }
      if (begin.expectedChunks == 0) != (begin.expectedLen == 0) { return Error(EmptyMismatch); }
      if begin.deadline <= now { return Error(DeadlinePassed); }
      if begin.transferId in index { return Error(AlreadyExists); }
      var record := InProgress(begin, [], 0);
      Store(begin.transferId, RecordKey(begin.transferId), Encode(record));
      active := active + {begin.transferId};
      return TransferReply(record);
    }

    /** Is the index taken, and what do the recorded lengths add up to? */
    method ScanChunks(chunks: seq<Chunk>, index': U32) returns (taken: bool, total: nat)
      ensures taken <==> exists c :: c in chunks && c.index == index'
      ensures total == TotalLen(chunks)
    {
      taken, total := false, 0;
      var i := 0;
      while i < |chunks|
        invariant 0 <= i <= |chunks|
        invariant taken <==> exists c :: c in chunks[..i] && c.index == index'
        invariant total == TotalLen(chunks[..i])
      {
        assert chunks[..i + 1] == chunks[..i] + [chunks[i]];
        taken := taken || chunks[i].index == index';
        total := total + chunks[i].len;
        i := i + 1;
      }
      assert chunks[..i] == chunks;
    }

    method UploadChunk(t: Id, index': U32, data: Bytes, hash: Digest, objectId: Id, now: U64) returns (reply: Reply)
      modifies this
      ensures (State(), reply) == HandleChunk(old(State()), t, index', data, hash, objectId, now)
      ensures Sound(old(State()), t) ==>
        Keeps(old(State()), State()) && (reply.ChunkStored? ==> DataAt(State(), t, index') == Some(data))
    {
      hide Sound, Keeps, DataAt;
      if Sound(State(), t) { ChunkPromise(State(), t, index', data, hash, objectId, now); }
      var loaded := LoadRecord(State(), t);
      if loaded.Err? { return Error(loaded.error); }
      var r := ExpireLocked(loaded.value, now);
      if !r.InProgress? { return Error(NotInProgress); }
      if index' >= r.begin.expectedChunks { return Error(IndexOutOfRange); }
      var taken, total := ScanChunks(r.chunks, index');
      if taken { return Error(DuplicateIndex); }
      if Sha256(data) != hash { return Error(HashMismatch); }
      var prospective := SaturatingAdd64(total, |data|);
      if prospective > r.begin.expectedLen { return Error(ExceedsLength); }
      if |data| > MAX_OBJECT { return Error(TooLarge); }
      if objectId in index { return Error(AlreadyExists); }
      Store(objectId, ChunkKey(objectId), data);
      var chunk := Chunk(index', objectId, if prospective < total then 0 else prospective - total, hash);
      var chunks := SortByIndex(r.chunks + [chunk]);
      Store(t, RecordKey(t), Encode(InProgress(r.begin, chunks, SaturatingAdd64(r.revision, 1))));
      return ChunkStored(chunk);
    }

    method Inspect(t: Id, now: U64) returns (reply: Reply)
      modifies this
      ensures (State(), reply) == HandleInspect(old(State()), t, now)
      ensures Sound(old(State()), t) ==>
        Keeps(old(State()), State()) && (reply.TransferReply? ==> HoldsRecord(State(), t, reply.record))
    {
      hide Inv, Evolves, LosslessCodec, Addresses;
      if Sound(State(), t) { InspectReturns(State(), t, now); }
      var loaded := LoadRecord(State(), t);
      if loaded.Err? { return Error(loaded.error); }
      var r := ExpireLocked(loaded.value, now);
      return TransferReply(r);
    }

    /** The validation loop of a commit: download, check and hash each chunk in manifest order. */
    method HashChunks(chunks: seq<Chunk>) returns (result: Result<Bytes, Failure>)
      ensures result == ReadChunks(State(), chunks)
    {
      var aggregate: Bytes := [];
      var i := 0;
      while i < |chunks|
        invariant 0 <= i <= |chunks|
        invariant ReadChunks(State(), chunks[..i]) == Ok(aggregate)
      {
        assert chunks[..i + 1][..i] == chunks[..i];
        var failure: Option<Failure> := None;
        match Download(State(), chunks[i].objectId) {
          case Err(e) => failure := Some(e);
          case Ok(data) =>
            if |data| != chunks[i].len || Sha256(data) != chunks[i].hash {
              failure := Some(InvalidChunk);
            } else {
              aggregate := aggregate + data;
            }
        }
        if failure.Some? {
          FailsFrom(State(), chunks, i + 1, failure.value);
          return Err(failure.value);
        }
        i := i + 1;
      }
      assert chunks[..i] == chunks;
      return Ok(aggregate);
    }

    method Commit(t: Id, aggregateHash: Digest, now: U64) returns (reply: Reply)
      modifies this
      ensures (State(), reply) == HandleCommit(old(State()), t, aggregateHash, now)
      ensures Sound(old(State()), t) ==>
        Keeps(old(State()), State()) && (reply.TransferReply? ==> DeliversHash(State(), t, aggregateHash))
    {
      hide Sound, Keeps, DeliversHash;
      if Sound(State(), t) { CommitPromise(State(), t, aggregateHash, now); }
      var loaded := LoadRecord(State(), t);
      if loaded.Err? { return Error(loaded.error); }
      var r := ExpireLocked(loaded.value, now);
      if !r.InProgress? { return Error(NotInProgress); }
      if aggregateHash != r.begin.expectedHash { return Error(WrongCommitHash); }
      if |r.chunks| != r.begin.expectedChunks || !Contiguous(r.chunks) { return Error(WrongChunkSet); }
      if TotalLen(r.chunks) != r.begin.expectedLen { return Error(WrongLength); }
      var content := HashChunks(r.chunks);
      if content.Err? { return Error(content.error); }
      if Sha256(content.value) != aggregateHash { return Error(AggregateMismatch); }
      var record := Committed(r.begin, r.chunks, now);
      Store(t, RecordKey(t), Encode(record));
      active := active - {t};
      return TransferReply(record);
    }

    method Abort(t: Id, reason: string, now: U64) returns (reply: Reply)
      modifies this
      ensures (State(), reply) == HandleAbort(old(State()), t, reason, now)
      ensures Sound(old(State()), t) ==>
        Keeps(old(State()), State()) && (reply.TransferReply? ==> AbortedClean(old(State()), State(), t))
    {
      hide Sound, Keeps, AbortedClean;
      if Sound(State(), t) { AbortPromise(State(), t, reason, now); }
      var loaded := LoadRecord(State(), t);
      if loaded.Err? { return Error(loaded.error); }
      if !loaded.value.InProgress? { return Error(NotInProgress); }
      var record := AbortLocked(loaded.value.begin, loaded.value.chunks, reason, now);
      return TransferReply(record);
    }

    /** The body of the cleanup task's loop for one snapshot id. */
    method Cleanup(t: Id, now: U64)
      modifies this
      ensures State() == HandleCleanup(old(State()), t, now)
      ensures LoadRecord(old(State()), t).Err? ==>
        index == old(index) && objects == old(objects) && active == old(active) - {t}
      ensures Sound(old(State()), t) ==> Keeps(old(State()), State()) && !Overdue(State(), t, now)
    {
      hide Sound, Keeps, Overdue;
      if Sound(State(), t) { CleanupPromise(State(), t, now); }
      var loaded := LoadRecord(State(), t);
      if loaded.Err? {
        active := active - {t};
      } else {
        var _ := ExpireLocked(loaded.value, now);
      }
    }
  }

  /** A failing read of a prefix is the failure of the whole list. */
  lemma {:induction false} FailsFrom(s: Void, chunks: seq<Chunk>, i: nat, e: Failure)
    requires i <= |chunks| && ReadChunks(s, chunks[..i]) == Err(e)
    ensures ReadChunks(s, chunks) == Err(e)
    decreases |chunks| - i
  {
    if i < |chunks| {
      assert chunks[..i + 1][..i] == chunks[..i];
      FailsFrom(s, chunks, i + 1, e);
    } else {
      assert chunks[..i] == chunks;
    }
  }
}
