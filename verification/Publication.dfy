/**
 * A producer's publication: the split of the artifact, the frames of its upload stream, and what the server holds
 * after each of them, whatever other requests arrive in between.
 */
module Publication {
  import opened Basics
  import opened Transfer
  import opened TransferInvariant
  import opened TransferReaders
  import opened TransferDurability
  import opened LiveStream

  // ---------------------------------------------------------------------------
  // The split
  // ---------------------------------------------------------------------------

  /** `data.chunks(VOID_CHUNK_SIZE)`. */
  function Split(data: Bytes): seq<Bytes>
    decreases |data|
  {
    if data == [] then []
    else if |data| <= VOID_CHUNK_SIZE then [data]
    else [data[..VOID_CHUNK_SIZE]] + Split(data[VOID_CHUNK_SIZE..])
  }

  function Flatten(pieces: seq<Bytes>): Bytes {
    if pieces == [] then [] else Flatten(pieces[..|pieces| - 1]) + pieces[|pieces| - 1]
  }

  /** The declared chunk count: `len.div_ceil(VOID_CHUNK_SIZE)`, and zero for the empty artifact. */
  function DeclaredChunks(len: nat): nat {
    (len + VOID_CHUNK_SIZE - 1) / VOID_CHUNK_SIZE
  }

  lemma {:induction false} FlattenCons(first: Bytes, rest: seq<Bytes>)
    ensures Flatten([first] + rest) == first + Flatten(rest)
  {
    if rest == [] {
      assert [first] + rest == [first];
      assert Flatten([first][..0]) == [];
    } else {
      var all := [first] + rest;
      assert all[..|all| - 1] == [first] + rest[..|rest| - 1];
      FlattenCons(first, rest[..|rest| - 1]);
    }
  }

  lemma {:induction false} SplitCount(data: Bytes)
    ensures |Split(data)| == DeclaredChunks(|data|)
    ensures forall p :: p in Split(data) ==> 0 < |p| <= VOID_CHUNK_SIZE
    decreases |data|
  {
    if |data| > VOID_CHUNK_SIZE { SplitCount(data[VOID_CHUNK_SIZE..]); }
  }

  lemma {:induction false} SplitFlattens(data: Bytes)
    ensures Flatten(Split(data)) == data
    decreases |data|
  {
    if data == [] {
    } else if |data| <= VOID_CHUNK_SIZE {
      assert Flatten([data]) == Flatten([]) + data;
    } else {
      var first, rest := data[..VOID_CHUNK_SIZE], data[VOID_CHUNK_SIZE..];
      SplitFlattens(rest);
      FlattenCons(first, Split(rest));
      assert data == first + rest;
    }
  }

  /** The producer's split matches its declaration and loses nothing. */
  lemma SplitMatches(data: Bytes)
    ensures |Split(data)| == DeclaredChunks(|data|)
    ensures Flatten(Split(data)) == data
    ensures forall p :: p in Split(data) ==> 0 < |p| <= VOID_CHUNK_SIZE
  {
    SplitCount(data);
    SplitFlattens(data);
  }

  lemma {:induction false} FlattenPrefix(pieces: seq<Bytes>, k: nat)
    requires k <= |pieces|
    ensures Flatten(pieces[..k]) <= Flatten(pieces)
    ensures k > 0 ==> Flatten(pieces[..k]) == Flatten(pieces[..k - 1]) + pieces[k - 1]
    decreases |pieces| - k
  {
    if k < |pieces| {
      FlattenPrefix(pieces, k + 1);
    } else {
      assert pieces[..k] == pieces;
    }
    if k > 0 { assert pieces[..k][..k - 1] == pieces[..k - 1]; }
  }

  // ---------------------------------------------------------------------------
  // The publication
  // ---------------------------------------------------------------------------

  /** Everything `publish_artifact` fixes before the first frame; `ids` are the v4 ids drawn for the chunks. */
  datatype Publication = Publication(begin: Begin, data: Bytes, ids: seq<Id>)

  predicate Declares(p: Publication) {
    && p.begin.protocolVersion == PROTOCOL_VERSION
    && p.begin.transferId != NIL_ID
    && p.begin.expectedChunks == DeclaredChunks(|p.data|) <= MAX_PARTS
    && p.begin.expectedLen == |p.data|
    && p.begin.expectedHash == Sha256(p.data)
    && |p.ids| == |Split(p.data)|
    && (forall i :: 0 <= i < |p.ids| ==> p.ids[i] != p.begin.transferId)
    && (forall i, j :: 0 <= i < j < |p.ids| ==> p.ids[i] != p.ids[j])
  }

  /** The ids the publication stores objects under. */
  function OwnIds(p: Publication): set<Id> {
    {p.begin.transferId} + set i | 0 <= i < |p.ids| :: p.ids[i]
  }

  /** The frames of the upload stream: the pieces in order, then the commit. */
  function FrameAt(p: Publication, k: nat): Frame
    requires Declares(p) && k <= |p.ids|
  {
    if k == |p.ids| then CommitFrame(p.begin.expectedHash)
    else
      SplitCount(p.data);
      ChunkFrame(k, Split(p.data)[k], Sha256(Split(p.data)[k]))
  }

  /** The v4 id drawn while frame `k` is handled; a commit draws none. */
  function IdAt(p: Publication, k: nat): Id {
    if k < |p.ids| then p.ids[k] else NIL_ID
  }

  /**
   * The server after the begin request and the first `k` frames. The record lists exactly the first `k` pieces, their
   * data are stored, and the ids of the rest are unused; after the commit frame all pieces are listed.
   */
  ghost predicate Underway(s: Void, p: Publication, k: nat) {
    var t, n := p.begin.transferId, |p.ids|;
    && Declares(p) && k <= n + 1
    && Inv(s) && HasRecord(s, t) && RecordOf(s, t).begin == p.begin
    && (if k <= n then RecordOf(s, t).InProgress? else RecordOf(s, t).Committed?)
    && |Chunks(RecordOf(s, t))| == (if k <= n then k else n)
    && Contiguous(Chunks(RecordOf(s, t)))
    && (forall i :: 0 <= i < |Chunks(RecordOf(s, t))| ==> DataAt(s, t, i) == Some(Split(p.data)[i]))
    && (forall i :: k <= i < n ==> p.ids[i] !in s.index)
  }

  /** None of the publication's ids is in use. */
  predicate Unused(s: Void, p: Publication) {
    OwnIds(p) !! s.index.Keys
  }

  lemma OwnId(p: Publication, i: nat)
    requires i < |p.ids|
    ensures p.ids[i] in OwnIds(p)
  {
  }

  lemma BeginAccepted(s: Void, p: Publication, now: U64)
    requires LosslessCodec() && Inv(s) && Declares(p) && Unused(s, p) && now < p.begin.deadline
    ensures var (s', reply) := HandleBegin(s, p.begin, now);
      reply.TransferReply? && reply.record.InProgress? && Underway(s', p, 0)
  {
    var (s', reply) := HandleBegin(s, p.begin, now);
    assert p.begin.transferId in OwnIds(p);
    assert p.begin.expectedChunks == 0 <==> p.begin.expectedLen == 0;
    BeginKeeps(s, p.begin, now);
    var r := InProgress(p.begin, [], 0);
    assert Decode(Encode(r)) == Some(r);
    forall i | 0 <= i < |p.ids| ensures p.ids[i] !in s'.index { OwnId(p, i); }
  }

  // ---------------------------------------------------------------------------
  // What the server holds
  // ---------------------------------------------------------------------------

  /** Chunks `0..m` with these data concatenate to them. */
  lemma {:induction false} PrefixOfPieces(s: Void, t: Id, pieces: seq<Bytes>, m: nat)
    requires m <= |pieces| && forall i :: 0 <= i < m ==> DataAt(s, t, i) == Some(pieces[i])
    ensures Prefix(s, t, m) == Some(Flatten(pieces[..m]))
  {
    if m > 0 {
      PrefixOfPieces(s, t, pieces, m - 1);
      FlattenPrefix(pieces, m);
    }
  }

  lemma HeldPrefix(s: Void, p: Publication, k: nat)
    requires Underway(s, p, k)
    ensures var m := |Chunks(RecordOf(s, p.begin.transferId))|;
      m <= |Split(p.data)| && Prefix(s, p.begin.transferId, m) == Some(Flatten(Split(p.data)[..m]))
  {
    PrefixOfPieces(s, p.begin.transferId, Split(p.data), |Chunks(RecordOf(s, p.begin.transferId))|);
  }

  /** After the commit frame the transfer delivers the artifact. */
  lemma CommittedDelivers(s: Void, p: Publication)
    requires Underway(s, p, |p.ids| + 1)
    ensures Delivers(s, p.begin.transferId, p.data)
  {
    hide DataAt, Prefix, Inv;
    HeldPrefix(s, p, |p.ids| + 1);
    SplitMatches(p.data);
    assert Split(p.data)[..|p.ids|] == Split(p.data);
    CommittedContent(s, p.begin.transferId);
  }

  /** A contiguous record's prefix is as long as its recorded lengths say. */
  lemma PrefixTotal(s: Void, t: Id)
    requires Inv(s) && HasRecord(s, t) && Contiguous(Chunks(RecordOf(s, t)))
    ensures var chunks := Chunks(RecordOf(s, t));
      && ReadChunks(s, chunks).Ok? && Prefix(s, t, |chunks|) == Some(ReadChunks(s, chunks).value)
      && TotalLen(chunks) == |ReadChunks(s, chunks).value|
  {
    var chunks := Chunks(RecordOf(s, t));
    assert RecordOk(s, t);
    assert chunks[..|chunks|] == chunks;
    PrefixIsRead(s, t, |chunks|);
    ReadsStored(s, chunks);
  }

  // ---------------------------------------------------------------------------
  // The producer's next frame
  // ---------------------------------------------------------------------------

  /** Indices that increase and stay below the length are exactly 0, 1, 2, ... */
  lemma {:induction false} IncreasingIsContiguous(chunks: seq<Chunk>)
    requires Increasing(chunks) && forall c :: c in chunks ==> c.index < |chunks|
    ensures Contiguous(chunks)
  {
    if chunks != [] {
      var init, last := chunks[..|chunks| - 1], chunks[|chunks| - 1];
      assert last in chunks;
      forall c | c in init ensures c.index < last.index <= |init| {}
      IncreasingIsContiguous(init);
      if init != [] { assert init[|init| - 1] in init; }
    }
  }

  lemma ContiguousRecord(s: Void, t: Id)
    requires Inv(s) && HasRecord(s, t)
    requires forall c :: c in Chunks(RecordOf(s, t)) ==> c.index < |Chunks(RecordOf(s, t))|
    ensures Contiguous(Chunks(RecordOf(s, t)))
  {
    assert RecordOk(s, t);
    IncreasingIsContiguous(Chunks(RecordOf(s, t)));
  }

  /** The next frame meets every condition of the server. */
  lemma FrameAcceptable(s: Void, p: Publication, k: nat)
    requires k < |p.ids| && Underway(s, p, k)
    ensures k < U32_LIMIT && Split(p.data)[k] in Split(p.data)
    ensures CanStoreChunk(
      s, RecordOf(s, p.begin.transferId), k, Split(p.data)[k], Sha256(Split(p.data)[k]), p.ids[k])
  {
    hide Inv, Prefix, Split, DeclaredChunks, DataAt, ReadChunks, Flatten;
    var t, r, pieces := p.begin.transferId, RecordOf(s, p.begin.transferId), Split(p.data);
    SplitMatches(p.data);
    assert pieces[k] in pieces;
    ChunkLenExact(s, t, pieces[k]);
    HeldPrefix(s, p, k);
    PrefixTotal(s, t);
    FlattenPrefix(pieces, k + 1);
  }

  /** The state after the next piece is stored. */
  lemma FrameExtends(s: Void, s': Void, p: Publication, k: nat, chunk: Chunk)
    requires k < |p.ids| && Underway(s, p, k)
    requires Inv(s') && Evolves(s, s') && HasRecord(s', p.begin.transferId)
    requires var r, r' := RecordOf(s, p.begin.transferId), RecordOf(s', p.begin.transferId);
      && r'.InProgress? && r'.begin == r.begin && |r'.chunks| == k + 1
      && (forall c :: c in r'.chunks <==> c in r.chunks || c == chunk)
    requires chunk.index == k && chunk.objectId == p.ids[k]
    requires s'.index.Keys == s.index.Keys + {p.ids[k]}
    requires ChunkKey(p.ids[k]) in s'.objects && s'.objects[ChunkKey(p.ids[k])] == Split(p.data)[k]
    ensures Underway(s', p, k + 1)
  {
    hide Inv, Evolves, HasRecord, RecordOf, Stored, DataAt, Split, TotalLen;
    var t := p.begin.transferId;
    forall c | c in Chunks(RecordOf(s', t)) ensures c.index < k + 1 {
      if c != chunk { assert c in RecordOf(s, t).chunks; }
    }
    ContiguousRecord(s', t);
    DataAtChunk(s', t, chunk);
    forall i | 0 <= i < k ensures DataAt(s', t, i) == Some(Split(p.data)[i]) { DataAtStable(s, s', t, i); }
  }

  lemma FrameAccepted(s: Void, p: Publication, k: nat, now: U64)
    requires LosslessCodec() && now < p.begin.deadline && k < |p.ids| && Underway(s, p, k)
    ensures var (s', reply, expected) := UploadFrame(s, p.begin.transferId, k, FrameAt(p, k), p.ids[k], now);
      reply.ChunkStored? && expected == k + 1 && Underway(s', p, k + 1) && Evolves(s, s')
  {
    hide Inv, Evolves, WellFormed, DataAt, CanStoreChunk, Split, DeclaredChunks, Underway, Declares, StoreChunk;
    FrameAcceptable(s, p, k);
    FrameFacts(s, p, k);
    var t, r, piece := p.begin.transferId, RecordOf(s, p.begin.transferId), Split(p.data)[k];
    ChunkGuard(s, t, r, k, piece, Sha256(piece), p.ids[k]);
    StoreChunkUpdates(s, t, k, piece, Sha256(piece), p.ids[k]);
    var (s', reply) := StoreChunk(s, t, r, k, piece, Sha256(piece), p.ids[k]);
    FrameExtends(s, s', p, k, reply.chunk);
    assert HandleChunk(s, t, k, piece, Sha256(piece), p.ids[k], now) == (s', reply);
  }

  lemma FrameFacts(s: Void, p: Publication, k: nat)
    requires k < |p.ids| && Underway(s, p, k)
    ensures Declares(p) && |Split(p.data)| == |p.ids| && Inv(s) && HasRecord(s, p.begin.transferId)
    ensures LoadRecord(s, p.begin.transferId) == Ok(RecordOf(s, p.begin.transferId))
    ensures RecordOf(s, p.begin.transferId).InProgress? && RecordOf(s, p.begin.transferId).begin == p.begin
    ensures |RecordOf(s, p.begin.transferId).chunks| == k && k + 1 < U32_LIMIT
  {
  }

  lemma CommitStored(s: Void, p: Publication, now: U64)
    requires LosslessCodec() && now < p.begin.deadline && Underway(s, p, |p.ids|)
    ensures var (s', reply) := HandleCommit(s, p.begin.transferId, p.begin.expectedHash, now);
      && reply.TransferReply? && reply.record.Committed? && Underway(s', p, |p.ids| + 1) && Evolves(s, s')
  {
    hide Inv, Evolves, DataAt, Prefix, ReadChunks, Split, Flatten, TotalLen;
    var t, n := p.begin.transferId, |p.ids|;
    var r := RecordOf(s, t);
    SplitMatches(p.data);
    HeldPrefix(s, p, n);
    PrefixTotal(s, t);
    assert Split(p.data)[..n] == Split(p.data);
    CommitUpdates(s, t, p.begin.expectedHash, now);
    var s' := HandleCommit(s, t, p.begin.expectedHash, now).0;
    forall i | 0 <= i < n ensures DataAt(s', t, i) == Some(Split(p.data)[i]) { DataAtStable(s, s', t, i); }
  }

  // ---------------------------------------------------------------------------
  // Everybody else's requests
  // ---------------------------------------------------------------------------

  /** A request that touches none of the publication's ids leaves it where it was. */
  lemma OthersKeep(s: Void, p: Publication, k: nat, request: Request, now: U64)
    requires LosslessCodec() && Underway(s, p, k) && Proper(s, request)
    requires Touches(s, request, now) !! OwnIds(p)
    ensures var s' := Handle(s, request, now).0;
      && Underway(s', p, k) && Evolves(s, s')
      && RecordOf(s', p.begin.transferId) == RecordOf(s, p.begin.transferId)
  {
    hide Handle, Proper, Touches, DataAt, Evolves, Split, Contiguous, Inv, Untouched;
    var s', t := Handle(s, request, now).0, p.begin.transferId;
    HandleKeeps(s, request, now);
    InvIsLinked(s);
    HandleUntouched(s, request, now);
    assert t in OwnIds(p);
    SameRecord(s, s', Touches(s, request, now), t);
    forall i | 0 <= i < |Chunks(RecordOf(s', t))| ensures DataAt(s', t, i) == Some(Split(p.data)[i]) {
      DataAtStable(s, s', t, i);
    }
    forall i | k <= i < |p.ids| ensures p.ids[i] !in s'.index {
      OwnId(p, i);
      StaysUnused(s, s', Touches(s, request, now), p.ids[i]);
    }
  }

  lemma InvIsLinked(s: Void)
    requires Inv(s)
    ensures Linked(s)
  {
  }

  lemma SameRecord(s: Void, s': Void, touched: set<Id>, t: Id)
    requires Untouched(s, s', touched) && t !in touched && HasRecord(s, t)
    ensures HasRecord(s', t) && RecordOf(s', t) == RecordOf(s, t)
  {
    assert RecordKey(t).id == t;
  }

  lemma StaysUnused(s: Void, s': Void, touched: set<Id>, id: Id)
    requires Untouched(s, s', touched) && id !in touched && id !in s.index
    ensures id !in s'.index
  {
  }

  /** An inspection within the lease, or after the commit, changes nothing and returns the record. */
  lemma InspectSame(s: Void, p: Publication, k: nat, now: U64)
    requires Underway(s, p, k) && (k <= |p.ids| ==> now < p.begin.deadline)
    ensures HandleInspect(s, p.begin.transferId, now) == (s, TransferReply(RecordOf(s, p.begin.transferId)))
  {
  }
}
