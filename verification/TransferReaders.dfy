/**
 * The readers of a transfer: what they may conclude from a record that other requests keep changing.
 *
 * `resolve_transfer_raw` reads a committed manifest; `download_committed_transfer` stages chunks while the
 * transfer is still open; the live receiver (module `LiveStream`) consumes frames. All three rest on
 * `DataAt`: the bytes at an index of a transfer, which never change unless the transfer is aborted.
 */
module TransferReaders {
  import opened Basics
  import opened Transfer
  import opened TransferInvariant

  /** The bytes stored for chunk `i` of transfer `t`, if the record lists such a chunk. */
  ghost function DataAt(s: Void, t: Id, i: nat): Option<Bytes> {
    if HasRecord(s, t) && exists c :: c in Chunks(RecordOf(s, t)) && c.index == i && Stored(s, c) then
      var c :| c in Chunks(RecordOf(s, t)) && c.index == i && Stored(s, c);
      Some(s.objects[ChunkKey(c.objectId)])
    else
      None
  }

  /** The concatenation of chunks `0..n`, if all of them are there. */
  ghost function Prefix(s: Void, t: Id, n: nat): Option<Bytes> {
    if n == 0 then Some([])
    else if Prefix(s, t, n - 1).Some? && DataAt(s, t, n - 1).Some? then
      Some(Prefix(s, t, n - 1).value + DataAt(s, t, n - 1).value)
    else None
  }

  /** The committed bytes of a transfer. */
  function Content(s: Void, t: Id): Bytes
    requires HasRecord(s, t) && ReadChunks(s, Chunks(RecordOf(s, t))).Ok?
  {
    ReadChunks(s, Chunks(RecordOf(s, t))).value
  }

  predicate IsCommitted(s: Void, t: Id) {
    HasRecord(s, t) && RecordOf(s, t).Committed? && ReadChunks(s, RecordOf(s, t).chunks).Ok?
  }

  /** The transfer is committed and its content is `data`. */
  predicate Delivers(s: Void, t: Id, data: Bytes) {
    IsCommitted(s, t) && Content(s, t) == data
  }

  predicate IsAborted(s: Void, t: Id) {
    HasRecord(s, t) && RecordOf(s, t).Aborted?
  }

  lemma DataAtChunk(s: Void, t: Id, c: Chunk)
    requires Inv(s) && HasRecord(s, t) && c in Chunks(RecordOf(s, t))
    ensures Stored(s, c) && DataAt(s, t, c.index) == Some(s.objects[ChunkKey(c.objectId)])
  {
    var r := RecordOf(s, t);
    assert RecordOk(s, t);
    assert Stored(s, c);
    var d :| d in Chunks(r) && d.index == c.index && Stored(s, d)
      && DataAt(s, t, c.index) == Some(s.objects[ChunkKey(d.objectId)]);
    var i :| 0 <= i < |Chunks(r)| && Chunks(r)[i] == c;
    var j :| 0 <= j < |Chunks(r)| && Chunks(r)[j] == d;
    assert i == j;
  }

  /** Chunk bytes survive any evolution that does not abort the transfer. */
  lemma DataAtStable(s: Void, s': Void, t: Id, i: nat)
    requires Inv(s) && Inv(s') && Evolves(s, s') && DataAt(s, t, i).Some? && !IsAborted(s', t)
    ensures DataAt(s', t, i) == DataAt(s, t, i)
  {
    var c :| c in Chunks(RecordOf(s, t)) && c.index == i && Stored(s, c)
      && DataAt(s, t, i) == Some(s.objects[ChunkKey(c.objectId)]);
    assert HasRecord(s', t);
    assert c.objectId in Listed(s, t);
    assert SameObject(s, s', c.objectId);
    DataAtChunk(s', t, c);
  }

  lemma {:induction false} PrefixStable(s: Void, s': Void, t: Id, n: nat)
    requires Inv(s) && Inv(s') && Evolves(s, s') && Prefix(s, t, n).Some? && !IsAborted(s', t)
    ensures Prefix(s', t, n) == Prefix(s, t, n)
  {
    hide Inv, DataAt, Evolves, IsAborted;
    if n > 0 {
      PrefixStable(s, s', t, n - 1);
      DataAtStable(s, s', t, n - 1);
    }
  }

  /** Only indices below the declared chunk count carry data. */
  lemma DataAtBound(s: Void, t: Id, i: nat)
    requires Inv(s) && DataAt(s, t, i).Some?
    ensures HasRecord(s, t) && i < RecordOf(s, t).begin.expectedChunks <= MAX_PARTS
  {
    assert RecordOk(s, t);
  }

  /** Reading the first `n` entries of a contiguous list is the prefix of the transfer. */
  lemma {:induction false} PrefixIsRead(s: Void, t: Id, n: nat)
    requires Inv(s) && HasRecord(s, t)
    requires n <= |Chunks(RecordOf(s, t))| && Contiguous(Chunks(RecordOf(s, t)))
    ensures ReadChunks(s, Chunks(RecordOf(s, t))[..n]).Ok?
    ensures Prefix(s, t, n) == Some(ReadChunks(s, Chunks(RecordOf(s, t))[..n]).value)
  {
    hide Inv, DataAt, HasRecord, RecordOf, Chunks;
    if n > 0 {
      var chunks := Chunks(RecordOf(s, t));
      PrefixIsRead(s, t, n - 1);
      DataAtChunk(s, t, chunks[n - 1]);
      assert chunks[..n][..n - 1] == chunks[..n - 1];
    }
  }

  /** A committed transfer's content is exactly its chunks in index order, of the declared length and hash. */
  lemma CommittedContent(s: Void, t: Id)
    requires Inv(s) && HasRecord(s, t) && RecordOf(s, t).Committed?
    ensures IsCommitted(s, t)
    ensures Prefix(s, t, RecordOf(s, t).begin.expectedChunks) == Some(Content(s, t))
    ensures |Content(s, t)| == RecordOf(s, t).begin.expectedLen
    ensures Sha256(Content(s, t)) == RecordOf(s, t).begin.expectedHash
  {
    assert RecordOk(s, t);
    var chunks := RecordOf(s, t).chunks;
    PrefixIsRead(s, t, |chunks|);
    assert chunks[..|chunks|] == chunks;
    ReadsStored(s, chunks);
  }

  /** An inspection of the record returns the record the server holds afterwards. */
  lemma InspectReturns(s: Void, t: Id, now: U64)
    requires LosslessCodec() && Inv(s) && Addresses(s, t)
    ensures var (s', reply) := HandleInspect(s, t, now);
      && Inv(s') && Evolves(s, s')
      && (reply.TransferReply? ==> HasRecord(s', t) && reply.record == RecordOf(s', t))
  {
    HandleKeeps(s, TransferInspect(t), now);
    if LoadRecord(s, t).Ok? {
      LoadedIsRecord(s, t);
      ExpireKeeps(s, t, now);
    }
  }

  /** Terminal states are final: an aborted transfer never commits. */
  lemma AbortedForever(s: Void, run: seq<(Request, U64)>, t: Id)
    requires LosslessCodec() && Inv(s) && ProperRun(s, run) && IsAborted(s, t)
    ensures HasRecord(Run(s, run), t) && RecordOf(Run(s, run), t) == RecordOf(s, t)
  {
    RunKeeps(s, run);
    assert HasRecord(Run(s, run), t);
  }

  // ---------------------------------------------------------------------------
  // Conservation and cleanup
  // ---------------------------------------------------------------------------

  /** After any run the stored chunk objects are exactly the listed ones, each by a single live record. */
  lemma ChunkObjectsConserved(run: seq<(Request, U64)>)
    requires LosslessCodec() && ProperRun(EMPTY, run)
    ensures var s := Run(EMPTY, run);
      && (forall o :: ChunkKey(o) in s.objects <==> exists t :: o in Listed(s, t))
      && (forall t1, t2, o :: o in Listed(s, t1) && o in Listed(s, t2) ==> t1 == t2)
      && (forall t :: t in s.active <==> HasRecord(s, t) && RecordOf(s, t).InProgress?)
  {
    EmptyInv();
    RunKeeps(EMPTY, run);
    var s := Run(EMPTY, run);
    forall o ensures ChunkKey(o) in s.objects <==> exists t :: o in Listed(s, t) {
      if ChunkKey(o) in s.objects {
        assert ChunkKey(o).id == o;
      }
      forall t | o in Listed(s, t) ensures ChunkKey(o) in s.objects { ListedStored(s, t, o); }
    }
  }

  /**
   * After any run every record has strictly increasing indices below the declared count and a total length within the
   * declared one; an open one has counted its chunks; and every listed chunk is stored with exactly the recorded
   * length and hash.
   */
  lemma RecordsAfterRun(run: seq<(Request, U64)>, t: Id)
    requires LosslessCodec() && ProperRun(EMPTY, run) && HasRecord(Run(EMPTY, run), t)
    ensures var s := Run(EMPTY, run); var r := RecordOf(s, t);
      && r.begin.transferId == t && Increasing(Chunks(r)) && TotalLen(Chunks(r)) <= r.begin.expectedLen
      && (r.InProgress? ==> r.revision == |r.chunks|)
      && (forall c :: c in Chunks(r) ==> c.index < r.begin.expectedChunks && ChunkKey(c.objectId) in s.objects)
      && (forall c :: c in Chunks(r) ==> |s.objects[ChunkKey(c.objectId)]| == c.len)
      && (forall c :: c in Chunks(r) ==> Sha256(s.objects[ChunkKey(c.objectId)]) == c.hash)
  {
    EmptyInv();
    RunKeeps(EMPTY, run);
    assert RecordOk(Run(EMPTY, run), t);
    forall c | c in Chunks(RecordOf(Run(EMPTY, run), t)) ensures Stored(Run(EMPTY, run), c) {}
  }

  /** The transfer is still open although its lease ended by `now`. */
  predicate Overdue(s: Void, t: Id, now: nat) {
    HasRecord(s, t) && RecordOf(s, t).InProgress? && RecordOf(s, t).begin.deadline <= now
  }

  /** No request at or after `now` leaves a transfer overdue that was not already. */
  lemma NoNewOverdue(s: Void, request: Request, now: nat, at: U64, t: Id)
    requires LosslessCodec() && Inv(s) && Proper(s, request) && now <= at
    requires Overdue(Handle(s, request, at).0, t, now)
    ensures Overdue(s, t, now)
    ensures request != CleanupOne(t)
  {
    HandleKeeps(s, request, at);
    var s' := Handle(s, request, at).0;
    if HasRecord(s, t) {
      assert RecordEvolves(RecordOf(s, t), RecordOf(s', t));
      if request == CleanupOne(t) {
        LoadedIsRecord(s, t);
        ExpireKeeps(s, t, at);
      }
    } else {
      FreshRecord(s, request, at, t);
    }
  }

  /** A record that appears in one step is the one a begin request declared. */
  lemma FreshRecord(s: Void, request: Request, at: U64, t: Id)
    requires LosslessCodec() && Inv(s) && Proper(s, request)
    requires !HasRecord(s, t) && HasRecord(Handle(s, request, at).0, t)
    ensures request.TransferBegin? && RecordOf(Handle(s, request, at).0, t) == InProgress(request.begin, [], 0)
    ensures request.begin.deadline > at
  {
    var s' := Handle(s, request, at).0;
    match request
    case Upload(id, data) =>
    case TransferBegin(begin) =>
      assert Decode(Encode(InProgress(begin, [], 0))) == Some(InProgress(begin, [], 0));
    case TransferChunk(u, index, data, hash, objectId) => OnlyAddressed(s, request, at, u, t);
    case TransferInspect(u) => OnlyAddressed(s, request, at, u, t);
    case TransferCommit(u, aggregateHash) => OnlyAddressed(s, request, at, u, t);
    case TransferAbort(u, reason) => OnlyAddressed(s, request, at, u, t);
    case CleanupOne(u) => OnlyAddressed(s, request, at, u, t);
  }

  /** Between `s` and `s'` the only id that may have become a record's is `u`. */
  predicate RecordIdsWithin(s: Void, s': Void, u: Id) {
    forall id :: id in s'.index && s'.index[id].RecordKey? ==> id == u || (id in s.index && s.index[id] == s'.index[id])
  }

  lemma {:induction false} DeleteShrinks(s: Void, chunks: seq<Chunk>)
    ensures forall id :: id in DeleteChunks(s, chunks).index ==> id in s.index && DeleteChunks(s, chunks).index[id] == s.index[id]
    decreases |chunks|
  {
    if chunks != [] { DeleteShrinks(Delete(s, chunks[0].objectId), chunks[1..]); }
  }

  lemma AbortWithin(s: Void, begin: Begin, chunks: seq<Chunk>, reason: string, now: U64)
    ensures RecordIdsWithin(s, AbortTransfer(s, begin, chunks, reason, now).0, begin.transferId)
  {
    DeleteShrinks(s, chunks);
  }

  lemma StoreWithin(s: Void, u: Id, r: Record, index: U32, data: Bytes, hash: Digest, objectId: Id)
    ensures RecordIdsWithin(s, StoreChunk(s, u, r, index, data, hash, objectId).0, u)
  {
  }

  lemma StepWithin(s: Void, request: Request, at: U64, u: Id)
    requires !request.Upload? && !request.TransferBegin? && request.transferId == u
    requires LoadRecord(s, u).Ok? && LoadRecord(s, u).value.begin.transferId == u
    ensures RecordIdsWithin(s, Handle(s, request, at).0, u)
  {
    var r := LoadRecord(s, u).value;
    AbortWithin(s, r.begin, Chunks(r), LEASE_EXPIRED, at);
    var (live, r') := Expire(s, r, at);
    match request
    case TransferChunk(_, index, data, hash, objectId) => StoreWithin(live, u, r', index, data, hash, objectId);
    case TransferAbort(_, reason) => AbortWithin(s, r.begin, Chunks(r), reason, at);
    case _ =>
  }

  /** A request that addresses record `u` creates no other record. */
  lemma OnlyAddressed(s: Void, request: Request, at: U64, u: Id, t: Id)
    requires LosslessCodec() && Inv(s) && Proper(s, request)
    requires !request.Upload? && !request.TransferBegin? && request.transferId == u
    requires !HasRecord(s, t)
    ensures !HasRecord(Handle(s, request, at).0, t)
  {
    if LoadRecord(s, u).Ok? {
      LoadedIsRecord(s, u);
      StepWithin(s, request, at, u);
      HandleKeeps(s, request, at);
      assert HasRecord(Handle(s, request, at).0, u);
    }
  }

  /**
   * A cleanup pass: if a run at or after `now` sweeps every transfer that was active when it started,
   * then no transfer is overdue at the end, whatever else was interleaved.
   */
  lemma CleanupLeavesNoneOverdue(s: Void, run: seq<(Request, U64)>, now: nat)
    requires LosslessCodec() && Inv(s) && ProperRun(s, run)
    requires forall k :: 0 <= k < |run| ==> now <= run[k].1
    requires forall t :: t in s.active ==> exists k :: 0 <= k < |run| && run[k].0 == CleanupOne(t)
    ensures forall t :: !Overdue(Run(s, run), t, now)
  {
    forall t ensures !Overdue(Run(s, run), t, now) {
      if Overdue(Run(s, run), t, now) {
        OverdueNeverSwept(s, run, now, t);
        assert false;
      }
    }
  }

  lemma {:induction false} OverdueNeverSwept(s: Void, run: seq<(Request, U64)>, now: nat, t: Id)
    requires LosslessCodec() && Inv(s) && ProperRun(s, run)
    requires forall k :: 0 <= k < |run| ==> now <= run[k].1
    requires Overdue(Run(s, run), t, now)
    ensures Overdue(s, t, now)
    ensures forall k :: 0 <= k < |run| ==> run[k].0 != CleanupOne(t)
    decreases |run|
  {
    if run != [] {
      var next := Handle(s, run[0].0, run[0].1).0;
      HandleKeeps(s, run[0].0, run[0].1);
      OverdueNeverSwept(next, run[1..], now, t);
      NoNewOverdue(s, run[0].0, now, run[0].1, t);
      forall k | 0 <= k < |run| ensures run[k].0 != CleanupOne(t) {
        if k > 0 { assert run[k] == run[1..][k - 1]; }
      }
    }
  }
}
