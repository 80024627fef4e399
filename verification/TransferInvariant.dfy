/**
 * What every transfer request keeps: well-formed records, exact chunk ownership, an exact active set,
 * and monotone evolution of each record. Everything is lifted to arbitrary runs of requests.
 */
module TransferInvariant {
  import opened Basics
  import opened Sorting
  import opened Transfer

  // ---------------------------------------------------------------------------
  // State predicates
  // ---------------------------------------------------------------------------

  predicate HasRecord(s: Void, t: Id) {
    && t in s.index
    && s.index[t] == RecordKey(t)
    && RecordKey(t) in s.objects
    && Decode(s.objects[RecordKey(t)]).Some?
  }

  function RecordOf(s: Void, t: Id): Record
    requires HasRecord(s, t)
  {
    Decode(s.objects[RecordKey(t)]).value
  }

  function Ids(chunks: seq<Chunk>): set<Id> {
    set c | c in chunks :: c.objectId
  }

  /** The chunk objects the record stored under `t` lists; none when there is no such record. */
  function Listed(s: Void, t: Id): set<Id> {
    if HasRecord(s, t) then Ids(Chunks(RecordOf(s, t))) else {}
  }

  /** The object behind a manifest entry is present, immutable-keyed and exactly as declared. */
  predicate Stored(s: Void, c: Chunk) {
    && c.objectId in s.index
    && s.index[c.objectId] == ChunkKey(c.objectId)
    && ChunkKey(c.objectId) in s.objects
    && |s.objects[ChunkKey(c.objectId)]| == c.len <= MAX_OBJECT
    && Sha256(s.objects[ChunkKey(c.objectId)]) == c.hash
  }

  predicate Increasing(chunks: seq<Chunk>) {
    forall i, j :: 0 <= i < j < |chunks| ==> chunks[i].index < chunks[j].index
  }

  predicate DistinctObjects(chunks: seq<Chunk>) {
    forall i, j :: 0 <= i < j < |chunks| ==> chunks[i].objectId != chunks[j].objectId
  }

  predicate WellFormedBegin(b: Begin) {
    && b.protocolVersion == PROTOCOL_VERSION
    && b.expectedChunks <= MAX_PARTS
    && (b.expectedChunks == 0 <==> b.expectedLen == 0)
  }

  predicate WellFormed(r: Record) {
    && WellFormedBegin(r.begin)
    && Increasing(Chunks(r))
    && DistinctObjects(Chunks(r))
    && (forall c :: c in Chunks(r) ==> c.index < r.begin.expectedChunks && c.len <= MAX_OBJECT)
    && TotalLen(Chunks(r)) <= r.begin.expectedLen
    && (r.InProgress? ==> r.revision == |r.chunks|)
    && (r.Committed? ==>
      && |r.chunks| == r.begin.expectedChunks
      && Contiguous(r.chunks)
      && TotalLen(r.chunks) == r.begin.expectedLen)
  }

  ghost predicate RecordOk(s: Void, t: Id)
    requires HasRecord(s, t)
  {
    var r := RecordOf(s, t);
    && r.begin.transferId == t
    && WellFormed(r)
    && (forall c :: c in Chunks(r) ==> Stored(s, c))
    && (r.Committed? ==>
      ReadChunks(s, r.chunks).Ok? && Sha256(ReadChunks(s, r.chunks).value) == r.begin.expectedHash)
  }

  /** Index and objects agree: every id names one object, every object is named, by a key for its own id. */
  ghost predicate Consistent(s: Void) {
    && (forall id :: id in s.index ==> s.index[id].id == id && s.index[id] in s.objects)
    && (forall k :: k in s.objects ==> k.id in s.index && s.index[k.id] == k)
    && (forall k :: k in s.objects && k.RecordKey? ==> Decode(s.objects[k]).Some?)
  }

  /** Conservation: the stored chunk objects are exactly the listed ones, each listed by one record. */
  ghost predicate Owned(s: Void) {
    && (forall k :: k in s.objects && k.ChunkKey? ==> exists t :: k.id in Listed(s, t))
    && (forall t1, t2, o :: o in Listed(s, t1) && o in Listed(s, t2) ==> t1 == t2)
  }

  ghost predicate ActiveExact(s: Void) {
    forall t :: t in s.active <==> HasRecord(s, t) && RecordOf(s, t).InProgress?
  }

  ghost predicate Inv(s: Void) {
    && Consistent(s)
    && (forall t :: HasRecord(s, t) ==> RecordOk(s, t))
    && Owned(s)
    && ActiveExact(s)
  }

  /** What one record may become: the terminal states are final, an open one only gains chunks. */
  predicate RecordEvolves(r: Record, r': Record) {
    && r'.begin == r.begin
    && (r.Committed? || r.Aborted? ==> r' == r)
    && (!r'.Aborted? ==> forall c :: c in Chunks(r) ==> c in Chunks(r'))
  }

  predicate SameObject(s: Void, s': Void, o: Id) {
    ChunkKey(o) in s.objects && ChunkKey(o) in s'.objects && s'.objects[ChunkKey(o)] == s.objects[ChunkKey(o)]
  }

  /** Across `s` to `s'` every record evolves, and keeps its chunk bytes as long as it is not aborted. */
  ghost predicate Evolves(s: Void, s': Void) {
    forall t {:trigger HasRecord(s, t)} {:trigger HasRecord(s', t)} :: HasRecord(s, t) ==>
      && HasRecord(s', t)
      && RecordEvolves(RecordOf(s, t), RecordOf(s', t))
      && (!RecordOf(s', t).Aborted? ==> forall o :: o in Listed(s, t) ==> SameObject(s, s', o))
  }

  /** The request does not name a plain or chunk object that happens to decode as a transfer record. */
  predicate Addresses(s: Void, t: Id) {
    LoadRecord(s, t).Ok? ==> s.index[t] == RecordKey(t)
  }

  predicate Proper(s: Void, request: Request) {
    match request
    case TransferChunk(t, _, _, _, _) => Addresses(s, t)
    case TransferInspect(t) => Addresses(s, t)
    case TransferCommit(t, _) => Addresses(s, t)
    case TransferAbort(t, _) => Addresses(s, t)
    case CleanupOne(t) => Addresses(s, t)
    case _ => true
  }

  // ---------------------------------------------------------------------------
  // Chunk lists
  // ---------------------------------------------------------------------------

  lemma {:induction false} ReadsStored(s: Void, chunks: seq<Chunk>)
    requires forall c :: c in chunks ==> Stored(s, c)
    ensures ReadChunks(s, chunks).Ok?
    ensures |ReadChunks(s, chunks).value| == TotalLen(chunks)
  {
    if chunks != [] {
      ReadsStored(s, chunks[..|chunks| - 1]);
      assert chunks[|chunks| - 1] in chunks;
    }
  }

  lemma {:induction false} ReadsSame(s: Void, s': Void, chunks: seq<Chunk>)
    requires forall c :: c in chunks ==> Stored(s, c) && Stored(s', c) && SameObject(s, s', c.objectId)
    ensures ReadChunks(s', chunks) == ReadChunks(s, chunks)
  {
    if chunks != [] {
      ReadsSame(s, s', chunks[..|chunks| - 1]);
      assert chunks[|chunks| - 1] in chunks;
    }
  }

  lemma {:induction false} TotalBound(chunks: seq<Chunk>)
    requires forall c :: c in chunks ==> c.len <= MAX_OBJECT
    ensures TotalLen(chunks) <= |chunks| * MAX_OBJECT
  {
    if chunks != [] {
      TotalBound(chunks[..|chunks| - 1]);
      assert chunks[|chunks| - 1] in chunks;
    }
  }

  /** Strictly increasing indices below `n` leave room for at most `n` chunks. */
  lemma {:induction false} IncreasingBound(chunks: seq<Chunk>, n: nat)
    requires Increasing(chunks)
    requires forall c :: c in chunks ==> c.index < n
    ensures |chunks| <= n
  {
    if chunks != [] {
      var last := chunks[|chunks| - 1];
      var init := chunks[..|chunks| - 1];
      assert last in chunks;
      forall c | c in init ensures c.index < last.index {}
      IncreasingBound(init, last.index);
    }
  }

  lemma {:induction false} InsertTotal(chunks: seq<Chunk>, c: Chunk)
    ensures TotalLen(InsertBy(chunks, c, ByIndex())) == TotalLen(chunks) + c.len
    decreases |chunks|
  {
    if chunks == [] || chunks[|chunks| - 1].index <= c.index {
      assert (chunks + [c])[..|chunks|] == chunks;
    } else {
      var init, last := chunks[..|chunks| - 1], chunks[|chunks| - 1];
      InsertTotal(init, c);
      var inner := InsertBy(init, c, ByIndex());
      assert (inner + [last])[..|inner|] == inner;
    }
  }

  lemma {:induction false} SortTotal(chunks: seq<Chunk>)
    ensures TotalLen(SortByIndex(chunks)) == TotalLen(chunks)
    decreases |chunks|
  {
    if chunks != [] {
      SortTotal(chunks[..|chunks| - 1]);
      InsertTotal(SortByIndex(chunks[..|chunks| - 1]), chunks[|chunks| - 1]);
    }
  }

  function OtherIndex(): (Chunk, Chunk) -> bool {
    (a: Chunk, b: Chunk) => a.index != b.index
  }

  function OtherObject(): (Chunk, Chunk) -> bool {
    (a: Chunk, b: Chunk) => a.objectId != b.objectId
  }

  /** The chunk list after `push` and `sort_by_key`. */
  lemma PushSorted(chunks: seq<Chunk>, c: Chunk)
    requires Increasing(chunks) && DistinctObjects(chunks)
    requires forall d :: d in chunks ==> d.index != c.index && d.objectId != c.objectId
    ensures Increasing(SortByIndex(chunks + [c])) && DistinctObjects(SortByIndex(chunks + [c]))
    ensures |SortByIndex(chunks + [c])| == |chunks| + 1
    ensures forall d :: d in SortByIndex(chunks + [c]) <==> d in chunks || d == c
    ensures TotalLen(SortByIndex(chunks + [c])) == TotalLen(chunks) + c.len
  {
    var all, r := chunks + [c], SortByIndex(chunks + [c]);
    SortByIsSorted(all, ByIndex());
    SortedMembers(all, ByIndex());
    PairwiseMore(chunks, c, OtherIndex());
    PairwiseMore(chunks, c, OtherObject());
    SortedPairwise(all, ByIndex(), OtherIndex());
    SortedPairwise(all, ByIndex(), OtherObject());
    forall i, j | 0 <= i < j < |r| ensures r[i].index < r[j].index && r[i].objectId != r[j].objectId {
      assert OtherIndex()(r[i], r[j]) && OtherObject()(r[i], r[j]) && !ByIndex()(r[j], r[i]);
    }
    SortTotal(all);
    assert all[..|chunks|] == chunks;
  }

  // ---------------------------------------------------------------------------
  // One record changes
  // ---------------------------------------------------------------------------

  /** Ids a change of record `t` to a record listing `chunks` may touch. */
  function Touched(s: Void, t: Id, chunks: seq<Chunk>): set<Id> {
    {t} + Listed(s, t) + Ids(chunks)
  }

  ghost predicate Untouched(s: Void, s': Void, ids: set<Id>) {
    && (forall id :: id !in ids ==> (id in s'.index <==> id in s.index))
    && (forall id :: id !in ids && id in s.index ==> s'.index[id] == s.index[id])
    && (forall k: Key :: k.id !in ids ==> (k in s'.objects <==> k in s.objects))
    && (forall k: Key :: k.id !in ids && k in s.objects ==> s'.objects[k] == s.objects[k])
  }

  /** The only object stored for `id` is the one under `key`. */
  ghost predicate OnlyKey(s: Void, id: Id, key: Key) {
    && id in s.index && s.index[id] == key
    && forall k: Key :: k.id == id ==> (k in s.objects <==> k == key)
  }

  ghost predicate Absent(s: Void, id: Id) {
    id !in s.index && forall k: Key :: k.id == id ==> k !in s.objects
  }

  /**
   * `s'` is `s` with the record under `t` replaced by `r'`: chunk objects it no longer lists are gone,
   * newly listed ones were free and are stored, and nothing else changed.
   */
  ghost predicate Updates(s: Void, s': Void, t: Id, r': Record) {
    var touched := Touched(s, t, Chunks(r'));
    && (t in s.index ==> HasRecord(s, t))
    && Untouched(s, s', touched)
    && OnlyKey(s', t, RecordKey(t)) && Decode(s'.objects[RecordKey(t)]) == Some(r')
    && (forall c :: c in Chunks(r') ==> Stored(s', c) && OnlyKey(s', c.objectId, ChunkKey(c.objectId)))
    && (forall o :: o in Ids(Chunks(r')) && o !in Listed(s, t) ==> o !in s.index)
    && (forall o :: o in Listed(s, t) && o !in Ids(Chunks(r')) ==> Absent(s', o))
    && (forall o :: o in Listed(s, t) && o in Ids(Chunks(r')) ==> SameObject(s, s', o))
    && s'.active == if r'.InProgress? then s.active + {t} else s.active - {t}
  }

  /** Ids listed by a record are stored chunk objects. */
  lemma ListedStored(s: Void, t: Id, o: Id)
    requires Inv(s) && o in Listed(s, t)
    ensures o in s.index && s.index[o] == ChunkKey(o) && ChunkKey(o) in s.objects
  {
  }

  /** An id that an update of record `t` touches is no other record's. */
  lemma TouchedIsNoRecord(s: Void, s': Void, t: Id, r': Record, u: Id)
    requires Inv(s) && Updates(s, s', t, r') && u != t && u in Touched(s, t, Chunks(r'))
    ensures !HasRecord(s, u) && !HasRecord(s', u)
  {
    hide Inv, Untouched, OnlyKey;
    if u in Listed(s, t) { ListedStored(s, t, u); }
    if u in Ids(Chunks(r')) { assert s'.index[u] == ChunkKey(u); }
  }

  /** Updating record `t` leaves every other record and its objects alone. */
  lemma OtherRecordSame(s: Void, s': Void, t: Id, r': Record, u: Id)
    requires Inv(s) && Updates(s, s', t, r') && u != t
    ensures HasRecord(s', u) <==> HasRecord(s, u)
    ensures HasRecord(s, u) ==> RecordOf(s', u) == RecordOf(s, u)
    ensures Listed(s', u) == Listed(s, u)
    ensures forall o :: o in Listed(s, u) ==> SameObject(s, s', o) && o in s.index && o in s'.index && s'.index[o] == s.index[o]
  {
    hide Inv, Updates;
    if u in Touched(s, t, Chunks(r')) {
      TouchedIsNoRecord(s, s', t, r', u);
    } else {
      UntouchedByUpdate(s, s', t, r');
      assert RecordKey(u).id == u;
      forall o | o in Listed(s, u) ensures SameObject(s, s', o) && o in s.index && o in s'.index && s'.index[o] == s.index[o] {
        ListedElsewhere(s, s', t, r', u, o);
      }
    }
  }

  lemma UntouchedByUpdate(s: Void, s': Void, t: Id, r': Record)
    requires Updates(s, s', t, r')
    ensures Untouched(s, s', Touched(s, t, Chunks(r')))
  {
  }

  lemma ListedElsewhere(s: Void, s': Void, t: Id, r': Record, u: Id, o: Id)
    requires Inv(s) && Updates(s, s', t, r') && u != t && o in Listed(s, u)
    ensures SameObject(s, s', o) && o in s.index && o in s'.index && s'.index[o] == s.index[o]
  {
    ListedStored(s, u, o);
    assert o !in Touched(s, t, Chunks(r'));
    assert ChunkKey(o).id == o;
  }

  lemma UpdateConsistent(s: Void, s': Void, t: Id, r': Record)
    requires Inv(s) && Updates(s, s', t, r')
    ensures Consistent(s')
  {
    hide WellFormed, Owned, ReadChunks, Listed, HasRecord, Stored, RecordOk;
    var touched := Touched(s, t, Chunks(r'));
    forall id | id in s'.index ensures s'.index[id].id == id && s'.index[id] in s'.objects {
      if id !in touched { assert id in s.index; } else { TouchedKey(s, s', t, r', id); }
    }
    forall k | k in s'.objects
      ensures k.id in s'.index && s'.index[k.id] == k
      ensures k.RecordKey? ==> Decode(s'.objects[k]).Some?
    {
      if k.id !in touched { assert k in s.objects; } else { TouchedKey(s, s', t, r', k.id); }
    }
  }

  /** After an update a touched id is gone, or the record's, or a listed chunk's. */
  lemma TouchedKey(s: Void, s': Void, t: Id, r': Record, id: Id)
    requires Inv(s) && Updates(s, s', t, r') && id in Touched(s, t, Chunks(r'))
    ensures Absent(s', id) || (id == t && OnlyKey(s', t, RecordKey(t)) && Decode(s'.objects[RecordKey(t)]).Some?)
      || (OnlyKey(s', id, ChunkKey(id)) && ChunkKey(id) in s'.objects)
  {
    hide Inv, WellFormed, ReadChunks;
    if id != t && id in Ids(Chunks(r')) {
      var c :| c in Chunks(r') && c.objectId == id;
      assert OnlyKey(s', c.objectId, ChunkKey(c.objectId));
    }
  }

  lemma UpdateRecordsOk(s: Void, s': Void, t: Id, r': Record)
    requires Inv(s) && Updates(s, s', t, r')
    requires WellFormed(r') && r'.begin.transferId == t
    requires r'.Committed? ==>
      ReadChunks(s', r'.chunks).Ok? && Sha256(ReadChunks(s', r'.chunks).value) == r'.begin.expectedHash
    ensures forall u :: HasRecord(s', u) ==> RecordOk(s', u)
  {
    hide WellFormed, Owned;
    forall u | HasRecord(s', u) ensures RecordOk(s', u) {
      if u == t {
        assert RecordOf(s', t) == r';
      } else {
        OtherRecordOk(s, s', t, r', u);
      }
    }
  }

  lemma OtherRecordOk(s: Void, s': Void, t: Id, r': Record, u: Id)
    requires Inv(s) && Updates(s, s', t, r') && u != t && HasRecord(s', u)
    ensures RecordOk(s', u)
  {
    hide WellFormed, Owned, Updates;
    OtherRecordSame(s, s', t, r', u);
    var r := RecordOf(s, u);
    assert RecordOk(s, u);
    forall c | c in Chunks(r) ensures Stored(s', c) && SameObject(s, s', c.objectId) {
      assert c.objectId in Listed(s, u);
    }
    ReadsSame(s, s', Chunks(r));
  }

  lemma UpdateOwned(s: Void, s': Void, t: Id, r': Record)
    requires Inv(s) && Updates(s, s', t, r')
    ensures Owned(s')
  {
    assert Listed(s', t) == Ids(Chunks(r'));
    forall k | k in s'.objects && k.ChunkKey? ensures exists u :: k.id in Listed(s', u) {
      if k.id in Ids(Chunks(r')) {
        assert k.id in Listed(s', t);
      } else {
        assert k.id in Listed(s, t) ==> Absent(s', k.id);
        assert k.id != t;
        assert k in s.objects;
        var u :| k.id in Listed(s, u);
        OtherRecordSame(s, s', t, r', u);
      }
    }
    forall t1, t2, o | o in Listed(s', t1) && o in Listed(s', t2) ensures t1 == t2 {
      if t1 != t { ListedByOther(s, s', t, r', t1, o); }
      if t2 != t { ListedByOther(s, s', t, r', t2, o); }
    }
  }

  /** What another record lists is not in the new list. */
  lemma ListedByOther(s: Void, s': Void, t: Id, r': Record, u: Id, o: Id)
    requires Inv(s) && Updates(s, s', t, r') && u != t && o in Listed(s', u)
    ensures o in Listed(s, u) && o !in Ids(Chunks(r'))
  {
    OtherRecordSame(s, s', t, r', u);
    ListedStored(s, u, o);
    assert o !in Listed(s, t);
  }

  lemma UpdateActive(s: Void, s': Void, t: Id, r': Record)
    requires Inv(s) && Updates(s, s', t, r')
    ensures ActiveExact(s')
  {
    forall u ensures u in s'.active <==> HasRecord(s', u) && RecordOf(s', u).InProgress? {
      if u != t { OtherRecordSame(s, s', t, r', u); }
    }
  }

  lemma UpdateEvolves(s: Void, s': Void, t: Id, r': Record)
    requires Inv(s) && Updates(s, s', t, r')
    requires HasRecord(s, t) ==> RecordEvolves(RecordOf(s, t), r')
    ensures Evolves(s, s')
  {
    forall u | HasRecord(s, u)
      ensures HasRecord(s', u) && RecordEvolves(RecordOf(s, u), RecordOf(s', u))
      ensures !RecordOf(s', u).Aborted? ==> forall o :: o in Listed(s, u) ==> SameObject(s, s', o)
    {
      if u != t {
        OtherRecordSame(s, s', t, r', u);
      } else if !r'.Aborted? {
        forall o | o in Listed(s, t) ensures SameObject(s, s', o) {
          var c :| c in Chunks(RecordOf(s, t)) && c.objectId == o;
          assert c in Chunks(r');
        }
      }
    }
  }

  /** A well-formed change of one record keeps the invariant and is an evolution. */
  lemma UpdateKeeps(s: Void, s': Void, t: Id, r': Record)
    requires Inv(s) && Updates(s, s', t, r')
    requires WellFormed(r') && r'.begin.transferId == t
    requires r'.Committed? ==>
      ReadChunks(s', r'.chunks).Ok? && Sha256(ReadChunks(s', r'.chunks).value) == r'.begin.expectedHash
    requires HasRecord(s, t) ==> RecordEvolves(RecordOf(s, t), r')
    ensures Inv(s') && Evolves(s, s')
  {
    UpdateConsistent(s, s', t, r');
    UpdateRecordsOk(s, s', t, r');
    UpdateOwned(s, s', t, r');
    UpdateActive(s, s', t, r');
    UpdateEvolves(s, s', t, r');
  }

  // ---------------------------------------------------------------------------
  // Requests
  // ---------------------------------------------------------------------------

  lemma DeleteOne(s: Void, o: Id)
    requires o in s.index <==> ChunkKey(o) in s.objects
    requires o in s.index ==> s.index[o] == ChunkKey(o)
    ensures Delete(s, o) == s.(index := s.index - {o}, objects := s.objects - {ChunkKey(o)})
  {
    if o !in s.index { assert s.index == s.index - {o} && s.objects == s.objects - {ChunkKey(o)}; }
  }

  /** Deleting a chunk list removes exactly those ids and their chunk objects. */
  lemma {:induction false} DeleteChunksExact(s: Void, chunks: seq<Chunk>)
    requires forall o :: o in Ids(chunks) ==> (o in s.index <==> ChunkKey(o) in s.objects)
    requires forall o :: o in Ids(chunks) && o in s.index ==> s.index[o] == ChunkKey(o)
    ensures DeleteChunks(s, chunks).index == s.index - Ids(chunks)
    ensures DeleteChunks(s, chunks).objects == s.objects - (set o | o in Ids(chunks) :: ChunkKey(o))
    ensures DeleteChunks(s, chunks).active == s.active
    decreases |chunks|
  {
    hide Delete, Ids;
    IdsOfSuffix(chunks);
    if chunks != [] {
      var o := chunks[0].objectId;
      DeleteOne(s, o);
      DeleteChunksExact(Delete(s, o), chunks[1..]);
      assert (set p | p in Ids(chunks) :: ChunkKey(p)) == {ChunkKey(o)} + (set p | p in Ids(chunks[1..]) :: ChunkKey(p));
    }
  }

  lemma IdsOfSuffix(chunks: seq<Chunk>)
    ensures chunks == [] ==> Ids(chunks) == {}
    ensures chunks != [] ==> Ids(chunks) == {chunks[0].objectId} + Ids(chunks[1..])
  {
    if chunks != [] { assert chunks == [chunks[0]] + chunks[1..]; }
  }

  lemma EvolvesReflexive(s: Void)
    requires Inv(s)
    ensures Evolves(s, s)
  {
    forall t, o | HasRecord(s, t) && o in Listed(s, t) ensures SameObject(s, s, o) { ListedStored(s, t, o); }
  }

  lemma EvolvesTransitive(a: Void, b: Void, c: Void)
    requires Evolves(a, b) && Evolves(b, c)
    ensures Evolves(a, c)
  {
    forall t | HasRecord(a, t)
      ensures HasRecord(c, t) && RecordEvolves(RecordOf(a, t), RecordOf(c, t))
      ensures !RecordOf(c, t).Aborted? ==> forall o :: o in Listed(a, t) ==> SameObject(a, c, o)
    {
      assert HasRecord(b, t) && HasRecord(c, t);
      if !RecordOf(c, t).Aborted? {
        assert !RecordOf(b, t).Aborted?;
        forall o | o in Listed(a, t) ensures SameObject(a, c, o) {
          var d :| d in Chunks(RecordOf(a, t)) && d.objectId == o;
          assert d in Chunks(RecordOf(b, t));
          assert o in Listed(b, t);
        }
      }
    }
  }

  /** Storing a plain object under an unmanaged id hides nothing and adds no record. */
  lemma UploadSame(s: Void, s': Void, id: Id, data: Bytes)
    requires Consistent(s) && (id in s.index ==> s.index[id].PlainKey?)
    requires s' == Put(s, id, PlainKey(id), data)
    ensures forall t :: HasRecord(s', t) <==> HasRecord(s, t)
    ensures forall t :: HasRecord(s, t) ==> RecordOf(s', t) == RecordOf(s, t)
    ensures forall t :: Listed(s', t) == Listed(s, t)
    ensures forall c :: Stored(s, c) ==> Stored(s', c) && SameObject(s, s', c.objectId)
    ensures Consistent(s')
  {
  }

  /** A plain upload never lands on a managed id, so no record or chunk sees it. */
  lemma UploadKeeps(s: Void, id: Id, data: Bytes)
    requires Inv(s)
    ensures Inv(HandleUpload(s, id, data).0) && Evolves(s, HandleUpload(s, id, data).0)
  {
    hide WellFormed;
    EvolvesReflexive(s);
    var s' := HandleUpload(s, id, data).0;
    if s' != s {
      assert s'.active == s.active && s'.objects == s.objects[PlainKey(id) := data];
      hide Put;
      UploadSame(s, s', id, data);
      forall t | HasRecord(s, t) ensures RecordOk(s', t) {
        var r := RecordOf(s, t);
        assert RecordOk(s, t);
        forall c | c in Chunks(r) ensures Stored(s', c) && SameObject(s, s', c.objectId) { assert Stored(s, c); }
        ReadsSame(s, s', Chunks(r));
      }
      forall t, o | HasRecord(s, t) && o in Listed(s, t) ensures SameObject(s, s', o) {
        var c :| c in Chunks(RecordOf(s, t)) && c.objectId == o;
        assert RecordOk(s, t) && Stored(s, c);
      }
      UploadOwned(s, s', id, data);
    }
  }

  lemma UploadOwned(s: Void, s': Void, id: Id, data: Bytes)
    requires Owned(s) && s'.objects == s.objects[PlainKey(id) := data]
    requires forall t :: Listed(s', t) == Listed(s, t)
    ensures Owned(s')
  {
    hide Listed;
    forall k | k in s'.objects && k.ChunkKey? ensures exists t :: k.id in Listed(s', t) {
      var t :| k.id in Listed(s, t);
      assert k.id in Listed(s', t);
    }
  }

  /** The record a successful load returns, for a properly addressed request. */
  lemma LoadedIsRecord(s: Void, t: Id)
    requires Inv(s) && Addresses(s, t) && LoadRecord(s, t).Ok?
    ensures HasRecord(s, t) && LoadRecord(s, t).value == RecordOf(s, t) && RecordOk(s, t)
  {
  }

  lemma AbortIsUpdate(s: Void, t: Id, reason: string, now: U64)
    requires LosslessCodec()
    requires Inv(s) && HasRecord(s, t) && RecordOf(s, t).InProgress? && RecordOf(s, t).begin.transferId == t
    ensures var r := RecordOf(s, t); var (s', r') := AbortTransfer(s, r.begin, r.chunks, reason, now);
      Updates(s, s', t, r')
  {
    var r := RecordOf(s, t);
    var ids := Ids(r.chunks);
    assert ids == Listed(s, t);
    forall o | o in ids
      ensures o in s.index && s.index[o] == ChunkKey(o) && ChunkKey(o) in s.objects && o != t
    {
      ListedStored(s, t, o);
    }
    DeleteChunksExact(s, r.chunks);
    var (s', r') := AbortTransfer(s, r.begin, r.chunks, reason, now);
    assert Decode(Encode(r')) == Some(r');
    forall o | o in ids ensures Absent(s', o) {
      assert forall k: Key :: k.id == o && k in s.objects ==> k == ChunkKey(o);
    }
  }

  lemma AbortUpdates(s: Void, t: Id, reason: string, now: U64)
    requires LosslessCodec()
    requires Inv(s) && HasRecord(s, t) && RecordOf(s, t).InProgress?
    ensures var r := RecordOf(s, t); var (s', r') := AbortTransfer(s, r.begin, r.chunks, reason, now);
      Inv(s') && Evolves(s, s') && HasRecord(s', t) && RecordOf(s', t) == r'
  {
    var r := RecordOf(s, t);
    assert RecordOk(s, t);
    AbortIsUpdate(s, t, reason, now);
    var (s', r') := AbortTransfer(s, r.begin, r.chunks, reason, now);
    assert WellFormed(r') && HasRecord(s', t) && RecordOf(s', t) == r';
    hide Updates, WellFormed, Inv;
    UpdateKeeps(s, s', t, r');
  }

  lemma ExpireKeeps(s: Void, t: Id, now: U64)
    requires LosslessCodec()
    requires Inv(s) && HasRecord(s, t)
    ensures var (s', r') := Expire(s, RecordOf(s, t), now);
      Inv(s') && Evolves(s, s') && HasRecord(s', t) && RecordOf(s', t) == r'
  {
    var r := RecordOf(s, t);
    assert RecordOk(s, t);
    if r.InProgress? && now >= r.begin.deadline {
      AbortUpdates(s, t, LEASE_EXPIRED, now);
    } else {
      EvolvesReflexive(s);
    }
  }

  lemma BeginKeeps(s: Void, begin: Begin, now: U64)
    requires LosslessCodec() && Inv(s)
    ensures Inv(HandleBegin(s, begin, now).0) && Evolves(s, HandleBegin(s, begin, now).0)
  {
    hide ReadChunks, Owned;
    EvolvesReflexive(s);
    var (s', reply) := HandleBegin(s, begin, now);
    if reply.TransferReply? {
      var t := begin.transferId;
      var r' := reply.record;
      assert Decode(Encode(r')) == Some(r');
      assert Listed(s, t) == {};
      assert Updates(s, s', t, r');
      UpdateKeeps(s, s', t, r');
    }
  }

  /**
   * The arithmetic of an accepted chunk: neither the saturating addition nor the subtraction loses a byte,
   * because an open record holds at most 10,000 chunks of at most 1 GiB.
   */
  lemma ChunkLenExact(s: Void, t: Id, data: Bytes)
    requires Inv(s) && HasRecord(s, t) && |data| <= MAX_OBJECT
    ensures var r := RecordOf(s, t); ProspectiveLen(Chunks(r), data) == TotalLen(Chunks(r)) + |data|
  {
    var r := RecordOf(s, t);
    assert RecordOk(s, t);
    TotalBound(Chunks(r));
    IncreasingBound(Chunks(r), r.begin.expectedChunks);
  }

  /** The record an accepted chunk produces. */
  lemma StoreChunkRecord(s: Void, t: Id, index: U32, data: Bytes, hash: Digest, objectId: Id) returns (r': Record)
    requires LosslessCodec() && Inv(s) && HasRecord(s, t)
    requires StoreChunk(s, t, RecordOf(s, t), index, data, hash, objectId).1.ChunkStored?
    ensures r'.InProgress? && r'.begin == RecordOf(s, t).begin && WellFormed(r')
    ensures objectId !in s.index && |data| <= MAX_OBJECT && Sha256(data) == hash
    ensures |r'.chunks| == |Chunks(RecordOf(s, t))| + 1
    ensures forall c :: c in r'.chunks <==> c in Chunks(RecordOf(s, t)) || c == Chunk(index, objectId, |data|, hash)
    ensures StoreChunk(s, t, RecordOf(s, t), index, data, hash, objectId)
      == (Persist(Put(s, objectId, ChunkKey(objectId), data), t, r'), ChunkStored(Chunk(index, objectId, |data|, hash)))
  {
    var r := RecordOf(s, t);
    assert RecordOk(s, t);
    ChunkLenExact(s, t, data);
    var (s', reply) := StoreChunk(s, t, r, index, data, hash, objectId);
    forall c | c in r.chunks ensures c.index != index && c.objectId != objectId {
      assert Stored(s, c);
    }
    PushSorted(r.chunks, reply.chunk);
    IncreasingBound(r.chunks, r.begin.expectedChunks);
    r' := InProgress(r.begin, SortByIndex(r.chunks + [reply.chunk]), r.revision + 1);
  }

  /** Writing a new chunk object and rewriting the record touches only those two ids. */
  lemma ChunkWriteTouches(s: Void, s': Void, t: Id, o: Id, data: Bytes, encoded: Bytes)
    requires Consistent(s) && o !in s.index && t in s.index && s.index[t] == RecordKey(t)
    requires s'.index == s.index[o := ChunkKey(o)][t := RecordKey(t)]
    requires s'.objects == s.objects[ChunkKey(o) := data][RecordKey(t) := encoded]
    ensures Untouched(s, s', {t, o})
    ensures OnlyKey(s', t, RecordKey(t)) && OnlyKey(s', o, ChunkKey(o))
    ensures forall c :: Stored(s, c) ==>
      Stored(s', c) && SameObject(s, s', c.objectId) && OnlyKey(s', c.objectId, ChunkKey(c.objectId)) && c.objectId != o
  {
  }

  /** What the invariant says about one record, without the rest of the state. */
  lemma RecordFacts(s: Void, t: Id)
    requires Inv(s) && HasRecord(s, t)
    ensures Consistent(s) && RecordOf(s, t).begin.transferId == t
    ensures forall c :: c in Chunks(RecordOf(s, t)) ==> Stored(s, c) && c.objectId in Listed(s, t)
    ensures RecordOf(s, t).InProgress? ==> t in s.active
  {
    assert RecordOk(s, t);
  }

  /** The state after the chunk object and the rewritten record are stored. */
  lemma ChunkWritten(s: Void, s': Void, t: Id, r': Record, chunk: Chunk, data: Bytes)
    requires LosslessCodec() && Consistent(s) && HasRecord(s, t) && t in s.active
    requires chunk.objectId !in s.index && |data| == chunk.len <= MAX_OBJECT && Sha256(data) == chunk.hash
    requires s' == Persist(Put(s, chunk.objectId, ChunkKey(chunk.objectId), data), t, r')
    ensures Untouched(s, s', {t, chunk.objectId}) && s'.active == s.active + {t}
    ensures OnlyKey(s', t, RecordKey(t)) && Decode(s'.objects[RecordKey(t)]) == Some(r')
    ensures Stored(s', chunk) && OnlyKey(s', chunk.objectId, ChunkKey(chunk.objectId))
    ensures forall c :: Stored(s, c) ==>
      && Stored(s', c) && SameObject(s, s', c.objectId) && OnlyKey(s', c.objectId, ChunkKey(c.objectId))
      && c.objectId != chunk.objectId
  {
    hide Consistent, Untouched;
    assert Decode(Encode(r')) == Some(r');
    ChunkWriteTouches(s, s', t, chunk.objectId, data, Encode(r'));
  }

  lemma StoreChunkIsUpdate(s: Void, s': Void, t: Id, r': Record, chunk: Chunk, data: Bytes)
    requires LosslessCodec() && Inv(s) && HasRecord(s, t) && RecordOf(s, t).InProgress? && r'.InProgress?
    requires chunk.objectId !in s.index && |data| == chunk.len <= MAX_OBJECT && Sha256(data) == chunk.hash
    requires forall c :: c in r'.chunks <==> c in RecordOf(s, t).chunks || c == chunk
    requires s' == Persist(Put(s, chunk.objectId, ChunkKey(chunk.objectId), data), t, r')
    ensures Updates(s, s', t, r')
  {
    hide Inv, Persist, Put, Untouched, OnlyKey, Stored, Consistent, SameObject;
    RecordFacts(s, t);
    ChunkWritten(s, s', t, r', chunk, data);
    assert Ids(r'.chunks) == Listed(s, t) + {chunk.objectId};
    UntouchedMore(s, s', {t, chunk.objectId}, Touched(s, t, r'.chunks));
  }

  lemma UntouchedMore(s: Void, s': Void, ids: set<Id>, more: set<Id>)
    requires Untouched(s, s', ids) && ids <= more
    ensures Untouched(s, s', more)
  {
  }

  lemma StoredRecord(s: Void, s': Void, t: Id, r': Record, o: Id, data: Bytes)
    requires LosslessCodec() && t in s.index && o != t
    requires s' == Persist(Put(s, o, ChunkKey(o), data), t, r')
    ensures HasRecord(s', t) && RecordOf(s', t) == r'
    ensures s'.index.Keys == s.index.Keys + {o}
    ensures ChunkKey(o) in s'.objects && s'.objects[ChunkKey(o)] == data
  {
    assert Decode(Encode(r')) == Some(r');
  }

  /** An accepted chunk is added to the record, sorted in, with its exact length and its bytes stored. */
  lemma StoreChunkUpdates(s: Void, t: Id, index: U32, data: Bytes, hash: Digest, objectId: Id)
    requires LosslessCodec() && Inv(s) && HasRecord(s, t)
    requires StoreChunk(s, t, RecordOf(s, t), index, data, hash, objectId).1.ChunkStored?
    ensures var r := RecordOf(s, t);
      var (s', reply) := StoreChunk(s, t, r, index, data, hash, objectId);
      && HasRecord(s', t) && RecordOf(s', t).InProgress? && RecordOf(s', t).begin == r.begin
      && reply.chunk == Chunk(index, objectId, |data|, hash)
      && (forall c :: c in RecordOf(s', t).chunks <==> c in r.chunks || c == reply.chunk)
      && |RecordOf(s', t).chunks| == |r.chunks| + 1
      && s'.index.Keys == s.index.Keys + {objectId}
      && ChunkKey(objectId) in s'.objects && s'.objects[ChunkKey(objectId)] == data
      && Inv(s') && Evolves(s, s')
  {
    var (s', reply) := StoreChunk(s, t, RecordOf(s, t), index, data, hash, objectId);
    assert RecordOf(s, t).begin.transferId == t && RecordOf(s, t).InProgress? by { assert RecordOk(s, t); }
    var r' := StoreChunkRecord(s, t, index, data, hash, objectId);
    hide StoreChunk, WellFormed, Inv, Updates, Evolves, Persist, Put;
    StoreChunkIsUpdate(s, s', t, r', reply.chunk, data);
    StoredRecord(s, s', t, r', objectId, data);
    UpdateKeeps(s, s', t, r');
  }

  lemma StoreChunkKeeps(s: Void, t: Id, index: U32, data: Bytes, hash: Digest, objectId: Id)
    requires LosslessCodec() && Inv(s) && HasRecord(s, t)
    ensures var s' := StoreChunk(s, t, RecordOf(s, t), index, data, hash, objectId).0; Inv(s') && Evolves(s, s')
  {
    if StoreChunk(s, t, RecordOf(s, t), index, data, hash, objectId).1.ChunkStored? {
      StoreChunkUpdates(s, t, index, data, hash, objectId);
    } else {
      EvolvesReflexive(s);
    }
  }

  lemma ChunkKeeps(s: Void, t: Id, index: U32, data: Bytes, hash: Digest, objectId: Id, now: U64)
    requires LosslessCodec() && Inv(s) && Addresses(s, t)
    ensures var s' := HandleChunk(s, t, index, data, hash, objectId, now).0; Inv(s') && Evolves(s, s')
  {
    hide Updates;
    if LoadRecord(s, t).Ok? {
      LoadedIsRecord(s, t);
      ExpireKeeps(s, t, now);
      var live := Expire(s, RecordOf(s, t), now).0;
      StoreChunkKeeps(live, t, index, data, hash, objectId);
      EvolvesTransitive(s, live, HandleChunk(s, t, index, data, hash, objectId, now).0);
    } else {
      EvolvesReflexive(s);
    }
  }

  lemma CommitIsUpdate(s: Void, s': Void, t: Id, now: U64)
    requires LosslessCodec() && Inv(s) && HasRecord(s, t) && RecordOf(s, t).InProgress?
    requires var r' := Committed(RecordOf(s, t).begin, RecordOf(s, t).chunks, now);
      s' == Persist(s, t, r').(active := s.active - {t})
    ensures Updates(s, s', t, Committed(RecordOf(s, t).begin, RecordOf(s, t).chunks, now))
    ensures ReadChunks(s', RecordOf(s, t).chunks) == ReadChunks(s, RecordOf(s, t).chunks)
  {
    var r := RecordOf(s, t);
    assert RecordOk(s, t);
    var r' := Committed(r.begin, r.chunks, now);
    assert Decode(Encode(r')) == Some(r');
    forall c | c in r.chunks
      ensures Stored(s', c) && SameObject(s, s', c.objectId) && OnlyKey(s', c.objectId, ChunkKey(c.objectId))
    {
      assert Stored(s, c);
    }
    ReadsSame(s, s', r.chunks);
  }

  lemma CommitUpdates(s: Void, t: Id, aggregateHash: Digest, now: U64)
    requires LosslessCodec() && Inv(s) && HasRecord(s, t)
    requires CommitRecord(s, t, RecordOf(s, t), aggregateHash, now).1.TransferReply?
    ensures var r := RecordOf(s, t);
      var (s', reply) := CommitRecord(s, t, r, aggregateHash, now);
      && r.InProgress?
      && HasRecord(s', t) && RecordOf(s', t) == Committed(r.begin, r.chunks, now) == reply.record
      && Inv(s') && Evolves(s, s')
  {
    var r := RecordOf(s, t);
    assert RecordOk(s, t);
    var (s', reply) := CommitRecord(s, t, r, aggregateHash, now);
    CommitIsUpdate(s, s', t, now);
    UpdateKeeps(s, s', t, Committed(r.begin, r.chunks, now));
  }

  lemma CommitKeeps(s: Void, t: Id, aggregateHash: Digest, now: U64)
    requires LosslessCodec() && Inv(s) && Addresses(s, t)
    ensures var s' := HandleCommit(s, t, aggregateHash, now).0; Inv(s') && Evolves(s, s')
  {
    hide Updates;
    EvolvesReflexive(s);
    if LoadRecord(s, t).Ok? {
      LoadedIsRecord(s, t);
      ExpireKeeps(s, t, now);
      var (live, r) := Expire(s, RecordOf(s, t), now);
      var (s', reply) := CommitRecord(live, t, r, aggregateHash, now);
      if reply.TransferReply? {
        CommitUpdates(live, t, aggregateHash, now);
        EvolvesTransitive(s, live, s');
      }
    }
  }

  /** Main invariant: every properly addressed request keeps `Inv` and only evolves records. */
  lemma HandleKeeps(s: Void, request: Request, now: U64)
    requires LosslessCodec() && Inv(s) && Proper(s, request)
    ensures Inv(Handle(s, request, now).0) && Evolves(s, Handle(s, request, now).0)
  {
    EvolvesReflexive(s);
    match request
    case Upload(id, data) => UploadKeeps(s, id, data);
    case TransferBegin(begin) => BeginKeeps(s, begin, now);
    case TransferChunk(t, index, data, hash, objectId) => ChunkKeeps(s, t, index, data, hash, objectId, now);
    case TransferCommit(t, aggregateHash) => CommitKeeps(s, t, aggregateHash, now);
    case TransferInspect(t) =>
      if LoadRecord(s, t).Ok? { LoadedIsRecord(s, t); ExpireKeeps(s, t, now); }
    case TransferAbort(t, reason) =>
      if LoadRecord(s, t).Ok? {
        LoadedIsRecord(s, t);
        if RecordOf(s, t).InProgress? { AbortUpdates(s, t, reason, now); }
      }
    case CleanupOne(t) =>
      if LoadRecord(s, t).Ok? {
        LoadedIsRecord(s, t);
        ExpireKeeps(s, t, now);
      } else {
        assert !HasRecord(s, t);
        assert s.active - {t} == s.active;
      }
  }

  // ---------------------------------------------------------------------------
  // Runs
  // ---------------------------------------------------------------------------

  function Run(s: Void, run: seq<(Request, U64)>): Void
    decreases |run|
  {
    if run == [] then s else Run(Handle(s, run[0].0, run[0].1).0, run[1..])
  }

  predicate ProperRun(s: Void, run: seq<(Request, U64)>)
    decreases |run|
  {
    run == [] || (Proper(s, run[0].0) && ProperRun(Handle(s, run[0].0, run[0].1).0, run[1..]))
  }

  const EMPTY := Void(map[], map[], {})

  lemma EmptyInv()
    ensures Inv(EMPTY)
  {
  }

  /** Every run of requests keeps the invariant and only evolves the records it started from. */
  lemma {:induction false} RunKeeps(s: Void, run: seq<(Request, U64)>)
    requires LosslessCodec() && Inv(s) && ProperRun(s, run)
    ensures Inv(Run(s, run)) && Evolves(s, Run(s, run))
    decreases |run|
  {
    if run == [] {
      EvolvesReflexive(s);
    } else {
      var next := Handle(s, run[0].0, run[0].1).0;
      HandleKeeps(s, run[0].0, run[0].1);
      RunKeeps(next, run[1..]);
      EvolvesTransitive(s, next, Run(next, run[1..]));
    }
  }
}
