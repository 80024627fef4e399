/**
 * The Void server's transfer protocol: its durable state and one function per request.
 *
 * Every request runs under the `transfer_mutation` lock, so each is one atomic step from a state to a
 * state and a reply. Postcard is the pair `Encode`/`Decode`; `LosslessCodec` is the only fact used about it.
 */
module Transfer {
  import opened Basics
  import opened Sorting

  type Id = nat
  const NIL_ID: Id := 0

  const PROTOCOL_VERSION := 1
  const LEASE_EXPIRED := "transfer lease expired"

  /** Object-store keys: plain uploads, immutable transfer chunks and transfer records never share one. */
  datatype Key = PlainKey(id: Id) | ChunkKey(id: Id) | RecordKey(id: Id)

  datatype Begin = Begin(
    protocolVersion: nat,
    transferId: Id,
    envelope: Bytes,
    tensorHeader: Bytes,
    expectedChunks: U32,
    expectedLen: U64,
    expectedHash: Digest,
    deadline: U64,
    authorizationHash: Digest)

  datatype Chunk = Chunk(index: U32, objectId: Id, len: U64, hash: Digest)

  datatype Record =
    | InProgress(begin: Begin, chunks: seq<Chunk>, revision: U64)
    | Committed(begin: Begin, chunks: seq<Chunk>, committedAt: U64)
    | Aborted(begin: Begin, reason: string, abortedAt: U64)

  const Encode: Record -> Bytes
  const Decode: Bytes -> Option<Record>

  ghost predicate LosslessCodec() {
    forall r :: Decode(Encode(r)) == Some(r)
  }

  /** The metadata store (`index`), the object store (`objects`) and the in-memory active set. */
  datatype Void = Void(index: map<Id, Key>, objects: map<Key, Bytes>, active: set<Id>)

  datatype Failure =
    | TooLarge | ManagedObject | AlreadyExists | NotFound | MissingObject | Undecodable
    | BadVersion | NilId | TooManyChunks | EmptyMismatch | DeadlinePassed
    | NotInProgress | IndexOutOfRange | DuplicateIndex | HashMismatch | ExceedsLength
    | WrongCommitHash | WrongChunkSet | WrongLength | InvalidChunk | AggregateMismatch | NotCommitted | BadAuthorization

  datatype Reply =
    | Uploaded(id: Id)
    | TransferReply(record: Record)
    | ChunkStored(chunk: Chunk)
    | Swept
    | Error(failure: Failure)

  /** `objectId` is the v4 identifier drawn for the object a request stores. */
  datatype Request =
    | Upload(id: Id, data: Bytes)
    | TransferBegin(begin: Begin)
    | TransferChunk(transferId: Id, index: U32, data: Bytes, hash: Digest, objectId: Id)
    | TransferInspect(transferId: Id)
    | TransferCommit(transferId: Id, aggregateHash: Digest)
    | TransferAbort(transferId: Id, reason: string)
    | CleanupOne(transferId: Id)

  // ---------------------------------------------------------------------------
  // Storage primitives
  // ---------------------------------------------------------------------------

  /** `try_download`: a metadata miss and a dangling key fail differently. */
  function Download(s: Void, id: Id): Result<Bytes, Failure> {
    if id !in s.index then Err(NotFound)
    else if s.index[id] !in s.objects then Err(MissingObject)
    else Ok(s.objects[s.index[id]])
  }

  /** `load_transfer_record` decodes whatever object the id names; it does not look at the key. */
  function LoadRecord(s: Void, id: Id): Result<Record, Failure> {
    match Download(s, id)
    case Err(e) => Err(e)
    case Ok(bytes) => if Decode(bytes).Some? then Ok(Decode(bytes).value) else Err(Undecodable)
  }

  function Put(s: Void, id: Id, key: Key, data: Bytes): Void {
    s.(index := s.index[id := key], objects := s.objects[key := data])
  }

  function Persist(s: Void, id: Id, record: Record): Void {
    Put(s, id, RecordKey(id), Encode(record))
  }

  function Delete(s: Void, id: Id): Void {
    if id in s.index then s.(index := s.index - {id}, objects := s.objects - {s.index[id]}) else s
  }

  function DeleteChunks(s: Void, chunks: seq<Chunk>): Void
    decreases |chunks|
  {
    if chunks == [] then s else DeleteChunks(Delete(s, chunks[0].objectId), chunks[1..])
  }

  function TotalLen(chunks: seq<Chunk>): nat {
    if chunks == [] then 0 else TotalLen(chunks[..|chunks| - 1]) + chunks[|chunks| - 1].len
  }

  function ByIndex(): (Chunk, Chunk) -> bool {
    (a: Chunk, b: Chunk) => a.index < b.index
  }

  /** The stable `sort_by_key(index)`. */
  function SortByIndex(chunks: seq<Chunk>): seq<Chunk> {
    SortBy(chunks, ByIndex())
  }

  /** Download, validate and concatenate the listed chunks in list order. */
  function ReadChunks(s: Void, chunks: seq<Chunk>): Result<Bytes, Failure> {
    if chunks == [] then Ok([])
    else
      var last := chunks[|chunks| - 1];
      match ReadChunks(s, chunks[..|chunks| - 1])
      case Err(e) => Err(e)
      case Ok(prefix) =>
        match Download(s, last.objectId)
        case Err(e) => Err(e)
        case Ok(data) =>
          if |data| != last.len || Sha256(data) != last.hash then Err(InvalidChunk) else Ok(prefix + data)
  }

  predicate Contiguous(chunks: seq<Chunk>) {
    forall i :: 0 <= i < |chunks| ==> chunks[i].index == i
  }

  function Chunks(r: Record): seq<Chunk> {
    if r.Aborted? then [] else r.chunks
  }

  // ---------------------------------------------------------------------------
  // Requests
  // ---------------------------------------------------------------------------

  function AbortTransfer(s: Void, begin: Begin, chunks: seq<Chunk>, reason: string, now: U64): (Void, Record) {
    var record := Aborted(begin, reason, now);
    var stored := Persist(DeleteChunks(s, chunks), begin.transferId, record);
    (stored.(active := stored.active - {begin.transferId}), record)
  }

  function Expire(s: Void, r: Record, now: U64): (Void, Record) {
    if r.InProgress? && now >= r.begin.deadline then AbortTransfer(s, r.begin, r.chunks, LEASE_EXPIRED, now)
    else (s, r)
  }

  function HandleUpload(s: Void, id: Id, data: Bytes): (Void, Reply) {
    if |data| > MAX_OBJECT then (s, Error(TooLarge))
    else if id in s.index && !s.index[id].PlainKey? then (s, Error(ManagedObject))
    else (Put(s, id, PlainKey(id), data), Uploaded(id))
  }

  function HandleBegin(s: Void, begin: Begin, now: U64): (Void, Reply) {
    if begin.protocolVersion != PROTOCOL_VERSION then (s, Error(BadVersion))
    else if begin.transferId == NIL_ID then (s, Error(NilId))
    else if begin.expectedChunks > MAX_PARTS then (s, Error(TooManyChunks))
    else if (begin.expectedChunks == 0) != (begin.expectedLen == 0) then (s, Error(EmptyMismatch))
    else if begin.deadline <= now then (s, Error(DeadlinePassed))
    else if begin.transferId in s.index then (s, Error(AlreadyExists))
    else
      var record := InProgress(begin, [], 0);
      var stored := Persist(s, begin.transferId, record);
      (stored.(active := stored.active + {begin.transferId}), TransferReply(record))
  }

  /** The length bookkeeping of a new chunk: the saturated prospective length. */
  function ProspectiveLen(chunks: seq<Chunk>, data: Bytes): nat {
    SaturatingAdd64(TotalLen(chunks), |data|)
  }

  /** `handle_transfer_chunk` once the record is loaded and not expired. */
  function StoreChunk(s: Void, id: Id, r: Record, index: U32, data: Bytes, hash: Digest, objectId: Id): (Void, Reply) {
    if !r.InProgress? then (s, Error(NotInProgress))
    else if index >= r.begin.expectedChunks then (s, Error(IndexOutOfRange))
    else if exists c :: c in r.chunks && c.index == index then (s, Error(DuplicateIndex))
    else if Sha256(data) != hash then (s, Error(HashMismatch))
    else if ProspectiveLen(r.chunks, data) > r.begin.expectedLen then (s, Error(ExceedsLength))
    else if |data| > MAX_OBJECT then (s, Error(TooLarge))
    else if objectId in s.index then (s, Error(AlreadyExists))
    else
      var len := ProspectiveLen(r.chunks, data) - TotalLen(r.chunks);
      var chunk := Chunk(index, objectId, if len < 0 then 0 else len, hash);
      var updated := InProgress(r.begin, SortByIndex(r.chunks + [chunk]), SaturatingAdd64(r.revision, 1));
      (Persist(Put(s, objectId, ChunkKey(objectId), data), id, updated), ChunkStored(chunk))
  }

  function HandleChunk(s: Void, id: Id, index: U32, data: Bytes, hash: Digest, objectId: Id, now: U64): (Void, Reply) {
    match LoadRecord(s, id)
    case Err(e) => (s, Error(e))
    case Ok(loaded) =>
      var (live, r) := Expire(s, loaded, now);
      StoreChunk(live, id, r, index, data, hash, objectId)
  }

  function HandleInspect(s: Void, id: Id, now: U64): (Void, Reply) {
    match LoadRecord(s, id)
    case Err(e) => (s, Error(e))
    case Ok(loaded) =>
      var (live, r) := Expire(s, loaded, now);
      (live, TransferReply(r))
  }

  /** `handle_transfer_commit` once the record is loaded and not expired. */
  function CommitRecord(s: Void, id: Id, r: Record, aggregateHash: Digest, now: U64): (Void, Reply) {
    if !r.InProgress? then (s, Error(NotInProgress))
    else if aggregateHash != r.begin.expectedHash then (s, Error(WrongCommitHash))
    else if |r.chunks| != r.begin.expectedChunks || !Contiguous(r.chunks) then (s, Error(WrongChunkSet))
    else if TotalLen(r.chunks) != r.begin.expectedLen then (s, Error(WrongLength))
    else match ReadChunks(s, r.chunks)
      case Err(e) => (s, Error(e))
      case Ok(content) =>
        if Sha256(content) != aggregateHash then (s, Error(AggregateMismatch))
        else
          var record := Committed(r.begin, r.chunks, now);
          var stored := Persist(s, id, record);
          (stored.(active := stored.active - {id}), TransferReply(record))
  }

  function HandleCommit(s: Void, id: Id, aggregateHash: Digest, now: U64): (Void, Reply) {
    match LoadRecord(s, id)
    case Err(e) => (s, Error(e))
    case Ok(loaded) =>
      var (live, r) := Expire(s, loaded, now);
      CommitRecord(live, id, r, aggregateHash, now)
  }

  function HandleAbort(s: Void, id: Id, reason: string, now: U64): (Void, Reply) {
    match LoadRecord(s, id)
    case Err(e) => (s, Error(e))
    case Ok(r) =>
      if !r.InProgress? then (s, Error(NotInProgress))
      else
        var (aborted, record) := AbortTransfer(s, r.begin, r.chunks, reason, now);
        (aborted, TransferReply(record))
  }

  /** One iteration of the cleanup task: an unreadable record leaves the active set, an expired one is aborted. */
  function HandleCleanup(s: Void, id: Id, now: U64): Void {
    match LoadRecord(s, id)
    case Err(_) => s.(active := s.active - {id})
    case Ok(r) => Expire(s, r, now).0
  }

  function Handle(s: Void, request: Request, now: U64): (Void, Reply) {
    match request
    case Upload(id, data) => HandleUpload(s, id, data)
    case TransferBegin(begin) => HandleBegin(s, begin, now)
    case TransferChunk(id, index, data, hash, objectId) => HandleChunk(s, id, index, data, hash, objectId, now)
    case TransferInspect(id) => HandleInspect(s, id, now)
    case TransferCommit(id, aggregateHash) => HandleCommit(s, id, aggregateHash, now)
    case TransferAbort(id, reason) => HandleAbort(s, id, reason, now)
    case CleanupOne(id) => (HandleCleanup(s, id, now), Swept)
  }
}
