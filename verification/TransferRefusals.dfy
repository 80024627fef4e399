/** Why a request is refused: every error names something that is really wrong. */
module TransferRefusals {
  import opened Basics
  import opened Transfer

  /** The transfer that a request addresses. */
  function Addressed(request: Request): Id
    requires !request.Upload? && !request.TransferBegin?
  {
    request.transferId
  }

  /** The record that the request finds. */
  predicate Finds(s: Void, request: Request, r: Record) {
    !request.Upload? && !request.TransferBegin? && LoadRecord(s, Addressed(request)) == Ok(r)
  }

  /** The record that the request finds, or one of the chunks that it lists, fails to download in this way. */
  predicate FailsToLoad(s: Void, request: Request, failure: Failure) {
    && !request.Upload? && !request.TransferBegin?
    && (Download(s, Addressed(request)) == Err(failure)
        || (LoadRecord(s, Addressed(request)).Ok?
            && exists c :: c in Chunks(LoadRecord(s, Addressed(request)).value) && Download(s, c.objectId) == Err(failure)))
  }

  /** A listed chunk that is stored with another length or hash. */
  predicate Damaged(s: Void, c: Chunk) {
    var data := Download(s, c.objectId);
    data.Ok? && (|data.value| != c.len || Sha256(data.value) != c.hash)
  }

  predicate OtherHash(s: Void, r: Record, hash: Digest) {
    ReadChunks(s, Chunks(r)).Ok? && Sha256(ReadChunks(s, Chunks(r)).value) != hash
  }

  predicate Closed(r: Record, now: U64) {
    !r.InProgress? || now >= r.begin.deadline
  }

  /** What an error says about the request and the state it met. */
  ghost predicate Explained(s: Void, request: Request, now: U64, failure: Failure) {
    match failure
    case TooLarge => (request.Upload? || request.TransferChunk?) && |request.data| > 1024 * 1024 * 1024
    case ManagedObject => request.Upload? && request.id in s.index && !s.index[request.id].PlainKey?
    case AlreadyExists =>
      || (request.TransferBegin? && request.begin.transferId in s.index)
      || (request.TransferChunk? && request.objectId in s.index)
    case BadVersion => request.TransferBegin? && request.begin.protocolVersion != 1
    case NilId => request.TransferBegin? && request.begin.transferId == 0
    case TooManyChunks => request.TransferBegin? && request.begin.expectedChunks > 10_000
    case EmptyMismatch => request.TransferBegin? && (request.begin.expectedChunks == 0) != (request.begin.expectedLen == 0)
    case DeadlinePassed => request.TransferBegin? && request.begin.deadline <= now
    case NotFound => FailsToLoad(s, request, NotFound)
    case MissingObject => FailsToLoad(s, request, MissingObject)
    case Undecodable =>
      && !request.Upload? && !request.TransferBegin? && Download(s, Addressed(request)).Ok?
      && Decode(Download(s, Addressed(request)).value).None?
    case NotInProgress => exists r :: Finds(s, request, r) && Closed(r, now)
    case IndexOutOfRange =>
      request.TransferChunk? && exists r :: Finds(s, request, r) && request.index >= r.begin.expectedChunks
    case DuplicateIndex =>
      request.TransferChunk? && exists r, c :: Finds(s, request, r) && c in Chunks(r) && c.index == request.index
    case HashMismatch => request.TransferChunk? && Sha256(request.data) != request.hash
    case ExceedsLength =>
      request.TransferChunk?
      && exists r :: Finds(s, request, r) && SaturatingAdd64(TotalLen(Chunks(r)), |request.data|) > r.begin.expectedLen
    case WrongCommitHash =>
      request.TransferCommit? && exists r :: Finds(s, request, r) && request.aggregateHash != r.begin.expectedHash
    case WrongChunkSet =>
      request.TransferCommit?
      && exists r :: Finds(s, request, r) && (|Chunks(r)| != r.begin.expectedChunks || !Contiguous(Chunks(r)))
    case WrongLength =>
      request.TransferCommit? && exists r :: Finds(s, request, r) && TotalLen(Chunks(r)) != r.begin.expectedLen
    case InvalidChunk =>
      request.TransferCommit? && exists r, c :: Finds(s, request, r) && c in Chunks(r) && Damaged(s, c)
    case AggregateMismatch =>
      request.TransferCommit?
      && exists r :: Finds(s, request, r) && OtherHash(s, r, request.aggregateHash)
    case NotCommitted => false
    case BadAuthorization => false
  }

  lemma {:induction false} ReadFails(s: Void, chunks: seq<Chunk>)
    requires ReadChunks(s, chunks).Err?
    ensures var e := ReadChunks(s, chunks).error;
      && (e == InvalidChunk ==> exists c :: c in chunks && Damaged(s, c))
      && (e != InvalidChunk ==>
        e in {NotFound, MissingObject} && exists c :: c in chunks && Download(s, c.objectId) == Err(e))
    decreases |chunks|
  {
    var front, last := chunks[..|chunks| - 1], chunks[|chunks| - 1];
    assert chunks == front + [last];
    if ReadChunks(s, front).Err? {
      ReadFails(s, front);
    } else if Download(s, last.objectId).Err? {
      assert last in chunks;
    } else {
      assert last in chunks && Damaged(s, last);
    }
  }

  lemma ChunkRefused(s: Void, r: Record, request: Request, now: U64)
    requires request.TransferChunk? && Finds(s, request, r) && !Closed(r, now)
    ensures var reply := StoreChunk(s, request.transferId, r, request.index, request.data, request.hash, request.objectId).1;
      reply.Error? ==> Explained(s, request, now, reply.failure)
  {
    hide TotalLen, SaturatingAdd64, Download;
  }

  lemma CommitRefused(s: Void, r: Record, request: Request, now: U64)
    requires request.TransferCommit? && Finds(s, request, r) && !Closed(r, now)
    ensures var reply := CommitRecord(s, request.transferId, r, request.aggregateHash, now).1;
      reply.Error? ==> Explained(s, request, now, reply.failure)
  {
    hide TotalLen, ReadChunks, Contiguous, Download, Damaged;
    if ReadChunks(s, Chunks(r)).Err? { ReadFails(s, Chunks(r)); }
  }

  /** Whatever the state and the clock, a refused request has the defect that its error names. */
  lemma RefusalsExplained(s: Void, request: Request, now: U64)
    ensures var reply := Handle(s, request, now).1;
      reply.Error? ==> Explained(s, request, now, reply.failure)
  {
    hide StoreChunk, CommitRecord, AbortTransfer, TotalLen, ReadChunks, Contiguous;
    if !request.Upload? && !request.TransferBegin? && LoadRecord(s, Addressed(request)).Ok? {
      var r := LoadRecord(s, Addressed(request)).value;
      assert Finds(s, request, r);
      if Closed(r, now) {
        ClosedRefused(s, r, request, now);
      } else if request.TransferChunk? {
        ChunkRefused(s, r, request, now);
      } else if request.TransferCommit? {
        CommitRefused(s, r, request, now);
      }
    }
  }

  /** A transfer that is closed, or whose lease is over, refuses requests for no other reason. */
  lemma ClosedRefused(s: Void, r: Record, request: Request, now: U64)
    requires Finds(s, request, r) && Closed(r, now)
    ensures var reply := Handle(s, request, now).1; reply.Error? ==> reply.failure == NotInProgress
    ensures request.TransferChunk? || request.TransferCommit? ==> Handle(s, request, now).1 == Error(NotInProgress)
  {
    hide DeleteChunks, TotalLen, ReadChunks, Contiguous;
  }
}
