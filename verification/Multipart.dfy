/**
 * Multipart uploads against the in-memory store, and the ranged download that reads an object back piece by piece.
 */
module Multipart {
  import opened Basics

  type Id = nat
  type SessionId = nat

  /** The largest file uploaded in a single frame. */
  const MAX_FRAME_SIZE := 64 * 1024 * 1024

  /** The server's side of an upload: the parts it has acknowledged, and the number of bytes it has seen. */
  datatype Session = Session(store: SessionId, parts: set<nat>, total: nat)

  /** Objects, the sizes on record, open uploads, and the store's own multipart sessions. */
  datatype Parts = Parts(
    objects: map<Id, Bytes>,
    records: map<Id, nat>,
    uploads: map<Id, Session>,
    stored: map<SessionId, map<nat, Bytes>>)

  datatype Reply = Uploaded | Ack | Failed

  // ---------------------------------------------------------------------------
  // Specification
  // ---------------------------------------------------------------------------

  /** Parts `1..n`, in order. */
  function Joined(parts: map<nat, Bytes>, n: nat): Bytes
    requires forall k :: 1 <= k <= n ==> k in parts
  {
    if n == 0 then [] else Joined(parts, n - 1) + parts[n]
  }

  function OneTo(n: nat): (s: set<nat>)
    ensures forall k :: k in s <==> 1 <= k <= n
  {
    if n == 0 then {} else OneTo(n - 1) + {n}
  }

  function Concat(pieces: seq<Bytes>): Bytes {
    if pieces == [] then [] else Concat(pieces[..|pieces| - 1]) + pieces[|pieces| - 1]
  }

  lemma {:induction false} JoinedPut(parts: map<nat, Bytes>, n: nat, k: nat, data: Bytes)
    requires n < k && forall i :: 1 <= i <= n ==> i in parts
    ensures Joined(Put(parts, k, data), n) == Joined(parts, n)
  {
    if n > 0 { JoinedPut(parts, n - 1, k, data); }
  }

  /** The pieces so far are the parts 1, 2, ... of the upload. */
  predicate Uploading(p: Parts, id: Id, session: SessionId, pieces: seq<Bytes>) {
    && id in p.uploads && p.uploads[id] == Session(session, OneTo(|pieces|), |Concat(pieces)|)
    && session in p.stored && p.stored[session].Keys == OneTo(|pieces|)
    && Joined(p.stored[session], |pieces|) == Concat(pieces)
  }

  lemma NothingUploaded(p: Parts, id: Id, session: SessionId)
    requires id !in p.uploads
    ensures Uploading(Begin(p, id, session).0, id, session, [])
  {
  }

  /** What an accepted part does to its upload. */
  lemma PartAccepted(p: Parts, id: Id, n: nat, data: Bytes)
    requires Consistent(p)
    ensures var r := UploadPart(p, id, n, data);
            && (r.1 == Failed <==> n == 0 || n > MAX_PARTS || id !in p.uploads)
            && r.0.objects == p.objects && r.0.records == p.records && r.1 != Uploaded
            && (r.1 == Ack ==>
              var s := p.uploads[id];
              && id in r.0.uploads && r.0.uploads[id] == Session(s.store, s.parts + {n}, s.total + |data|)
              && s.store in p.stored && s.store in r.0.stored
              && r.0.stored[s.store] == Put(p.stored[s.store], n, data))
  {
  }

  lemma OneMorePart(parts: map<nat, Bytes>, pieces: seq<Bytes>, data: Bytes)
    requires parts.Keys == OneTo(|pieces|) && Joined(parts, |pieces|) == Concat(pieces)
    ensures OneTo(|pieces + [data]|) == OneTo(|pieces|) + {|pieces| + 1}
    ensures var more := Put(parts, |pieces| + 1, data);
      more.Keys == OneTo(|pieces + [data]|) && Joined(more, |pieces + [data]|) == Concat(pieces + [data])
    ensures |Concat(pieces + [data])| == |Concat(pieces)| + |data|
  {
    JoinedPut(parts, |pieces|, |pieces| + 1, data);
    assert (pieces + [data])[..|pieces|] == pieces;
  }

  lemma PieceUploaded(p: Parts, id: Id, session: SessionId, pieces: seq<Bytes>, data: Bytes)
    requires Consistent(p) && Uploading(p, id, session, pieces)
    ensures var r := UploadPart(p, id, |pieces| + 1, data);
            && (r.1 == Failed <==> |pieces| >= MAX_PARTS) && r.0.objects == p.objects && r.0.records == p.records
            && (r.1 == Ack ==> Uploading(r.0, id, session, pieces + [data]))
  {
    hide Consistent, UploadPart, Put, Joined, Concat, OneTo;
    PartAccepted(p, id, |pieces| + 1, data);
    OneMorePart(p.stored[session], pieces, data);
  }

  lemma UploadFinishes(p: Parts, id: Id, session: SessionId, pieces: seq<Bytes>)
    requires Consistent(p) && Uploading(p, id, session, pieces)
    ensures var r := Finish(p, id, |pieces|);
            && (r.1 == Uploaded <==> 1 <= |pieces| <= MAX_PARTS)
            && (r.1 == Uploaded ==> r.0.objects == p.objects[id := Concat(pieces)])
            && (r.1 == Uploaded ==> r.0.records == p.records[id := |Concat(pieces)|])
            && (r.1 != Uploaded ==> r.0.objects == p.objects && r.0.records == p.records)
  {
  }

  /** Every open upload has its own store session, holding exactly the acknowledged parts. */
  predicate Consistent(p: Parts) {
    && (forall id :: id in p.uploads ==>
      p.uploads[id].store in p.stored && p.stored[p.uploads[id].store].Keys == p.uploads[id].parts)
    && (forall a, b :: a in p.uploads && b in p.uploads && p.uploads[a].store == p.uploads[b].store ==> a == b)
  }

  /** `handle_upload` under a new id. */
  function Upload(p: Parts, id: Id, data: Bytes): (Parts, Reply) {
    if |data| > MAX_OBJECT then (p, Failed)
    else (p.(objects := p.objects[id := data], records := p.records[id := |data|]), Uploaded)
  }

  /** `handle_upload_begin`, with the store's new session id. */
  function Begin(p: Parts, id: Id, session: SessionId): (Parts, Reply) {
    if id in p.uploads then (p, Failed)
    else (p.(uploads := p.uploads[id := Session(session, {}, 0)], stored := p.stored[session := map[]]), Uploaded)
  }

  /** The store keeps the latest data of a part. */
  function Put(parts: map<nat, Bytes>, n: nat, data: Bytes): map<nat, Bytes> {
    parts[n := data]
  }

  /** `handle_upload_part`. */
  function UploadPart(p: Parts, id: Id, n: nat, data: Bytes): (Parts, Reply)
    requires Consistent(p)
  {
    if n == 0 || n > MAX_PARTS || id !in p.uploads then (p, Failed)
    else
      var s := p.uploads[id];
      (p.(uploads := p.uploads[id := Session(s.store, s.parts + {n}, s.total + |data|)],
          stored := p.stored[s.store := Put(p.stored[s.store], n, data)]), Ack)
  }

  /** `handle_upload_finish`: whatever happens, the upload is over. */
  function Finish(p: Parts, id: Id, count: nat): (Parts, Reply)
    requires Consistent(p)
  {
    if count == 0 || count > MAX_PARTS || id !in p.uploads then (p, Failed)
    else
      var s := p.uploads[id];
      var closed := p.(uploads := p.uploads - {id}, stored := p.stored - {s.store});
      if s.parts != OneTo(count) then (closed, Failed)
      else
        (closed.(objects := p.objects[id := Joined(p.stored[s.store], count)], records := p.records[id := s.total]),
         Uploaded)
  }

  /** The default `get_range`. */
  function GetRange(data: Bytes, offset: nat, length: nat): Bytes {
    if offset >= |data| then []
    else if offset + length < |data| then data[offset..offset + length] else data[offset..]
  }

  // ---------------------------------------------------------------------------
  // The handlers
  // ---------------------------------------------------------------------------

  class MultipartServer {
    var objects: map<Id, Bytes>
    var records: map<Id, nat>
    var uploads: map<Id, Session>
    var stored: map<SessionId, map<nat, Bytes>>

    ghost function State(): Parts
      reads this
    {
      Parts(objects, records, uploads, stored)
    }

    constructor ()
      ensures State() == Parts(map[], map[], map[], map[]) && Consistent(State())
    {
      objects, records, uploads, stored := map[], map[], map[], map[];
    }

    method HandleUpload(id: Id, data: Bytes) returns (reply: Reply)
      modifies this
      ensures (State(), reply) == Upload(old(State()), id, data)
      ensures reply == Uploaded <==> |data| <= 1024 * 1024 * 1024
    {
      if |data| > MAX_OBJECT { return Failed; }
      objects := objects[id := data];
      records := records[id := |data|];
      reply := Uploaded;
    }

    method HandleBegin(id: Id, session: SessionId) returns (reply: Reply)
      requires Consistent(State()) && session !in stored
      modifies this
      ensures (State(), reply) == Begin(old(State()), id, session) && Consistent(State())
    {
      if id in uploads { return Failed; }
      stored := stored[session := map[]];
      uploads := uploads[id := Session(session, {}, 0)];
      reply := Uploaded;
    }

    method HandlePart(id: Id, n: nat, data: Bytes) returns (reply: Reply)
      requires Consistent(State())
      modifies this
      ensures (State(), reply) == UploadPart(old(State()), id, n, data) && Consistent(State())
    {
      if n == 0 || n > MAX_PARTS || id !in uploads { return Failed; }
      var s := uploads[id];
      stored := stored[s.store := Put(stored[s.store], n, data)];
      uploads := uploads[id := Session(s.store, s.parts + {n}, s.total + |data|)];
      reply := Ack;
    }

    /** `finish_multipart` of the in-memory store: takes the session out and strings its parts together. */
    method StringTogether(session: SessionId, count: nat) returns (data: Bytes)
      requires session in stored && forall k :: 1 <= k <= count ==> k in stored[session]
      modifies this`stored
      ensures stored == old(stored) - {session} && data == Joined(old(stored)[session], count)
    {
      var parts := stored[session];
      stored := stored - {session};
      data := [];
      for k := 0 to count
        invariant data == Joined(parts, k) && stored == old(stored) - {session}
      {
        data := data + parts[k + 1];
      }
    }

    method HandleFinish(id: Id, count: nat) returns (reply: Reply)
      requires Consistent(State())
      modifies this
      ensures (State(), reply) == Finish(old(State()), id, count) && Consistent(State())
    {
      if count == 0 || count > MAX_PARTS || id !in uploads { return Failed; }
      var s := uploads[id];
      uploads := uploads - {id};
      var expected: set<nat> := {};
      for k := 0 to count
        invariant expected == OneTo(k)
      {
        expected := expected + {k + 1};
      }
      if s.parts != expected {
        stored := stored - {s.store};
        return Failed;
      }
      var data := StringTogether(s.store, count);
      objects := objects[id := data];
      records := records[id := s.total];
      reply := Uploaded;
    }

    /** `handle_download_range`. */
    method HandleRange(id: Id, offset: nat, length: nat) returns (reply: Option<Bytes>)
      ensures reply == if length == 0 then Some([])
                       else if id in records && id in objects then Some(GetRange(objects[id], offset, length)) else None
    {
      if length == 0 { return Some([]); }
      if id !in records { return None; }
      if id !in objects { return None; }
      reply := Some(GetRange(objects[id], offset, length));
    }

    /** The multipart branch: one part for each piece that a read returns; the loop stops at the first refusal. */
    method UploadParts(id: Id, session: SessionId, pieces: seq<Bytes>) returns (ok: bool)
      requires Consistent(State()) && session !in stored && id !in uploads
      modifies this
      ensures Consistent(State())
      ensures ok <==> 1 <= |pieces| <= MAX_PARTS
      ensures ok ==> objects == old(objects)[id := Concat(pieces)] && records == old(records)[id := |Concat(pieces)|]
      ensures !ok ==> objects == old(objects) && records == old(records)
    {
      hide Consistent, Uploading, Concat;
      ghost var p := State();
      NothingUploaded(p, id, session);
      var reply := HandleBegin(id, session);
      for k := 0 to |pieces|
        invariant Consistent(State()) && objects == old(objects) && records == old(records) && k <= MAX_PARTS
        invariant Uploading(State(), id, session, pieces[..k])
      {
        p := State();
        assert pieces[..k + 1] == pieces[..k] + [pieces[k]];
        PieceUploaded(p, id, session, pieces[..k], pieces[k]);
        reply := HandlePart(id, k + 1, pieces[k]);
        if reply == Failed { return false; }
      }
      assert pieces[..|pieces|] == pieces;
      UploadFinishes(State(), id, session, pieces);
      reply := HandleFinish(id, |pieces|);
      ok := reply == Uploaded;
    }

    /**
     * `upload_file` under a new id: a file that fits in one frame is uploaded at once, a larger one piece by piece as
     * its reads return them.
     */
    method UploadFile(id: Id, session: SessionId, pieces: seq<Bytes>) returns (ok: bool)
      requires Consistent(State()) && session !in stored && id !in uploads
      modifies this
      ensures Consistent(State())
      ensures ok <==> |Concat(pieces)| <= MAX_FRAME_SIZE || |pieces| <= MAX_PARTS
      ensures ok ==> objects == old(objects)[id := Concat(pieces)] && records == old(records)[id := |Concat(pieces)|]
      ensures !ok ==> objects == old(objects) && records == old(records)
    {
      if |Concat(pieces)| <= MAX_FRAME_SIZE {
        var reply := HandleUpload(id, Concat(pieces));
        ok := reply == Uploaded;
      } else {
        ok := UploadParts(id, session, pieces);
      }
    }

    /** `download_to_file`: reads a chunk at a time until a short or an empty one, whatever the object's length. */
    method DownloadToFile(id: Id) returns (file: Bytes, ok: bool)
      ensures ok <==> id in records && id in objects
      ensures ok ==> file == objects[id]
    {
      file := [];
      var offset := 0;
      while true
        invariant id in objects ==> offset == |file| <= |objects[id]| && file == objects[id][..offset]
        invariant id !in objects ==> offset == 0
        decreases if id in objects then |objects[id]| - offset else 0
      {
        var reply := HandleRange(id, offset, VOID_CHUNK_SIZE);
        if reply.None? { return file, false; }
        var data := reply.value;
        if data == [] { return file, true; }
        file := file + data;
        offset := offset + |data|;
        if |data| < VOID_CHUNK_SIZE { return file, true; }
      }
    }
  }

  // ---------------------------------------------------------------------------
  // Runs
  // ---------------------------------------------------------------------------

  datatype Op = BeginOp(id: Id, session: SessionId) | PartOp(id: Id, n: nat, data: Bytes) | FinishOp(id: Id, count: nat)

  lemma BeginConsistent(p: Parts, id: Id, session: SessionId)
    requires Consistent(p) && session !in p.stored
    ensures Consistent(Begin(p, id, session).0)
  {
  }

  lemma PartConsistent(p: Parts, id: Id, n: nat, data: Bytes)
    requires Consistent(p)
    ensures Consistent(UploadPart(p, id, n, data).0)
  {
  }

  lemma FinishConsistent(p: Parts, id: Id, count: nat)
    requires Consistent(p)
    ensures Consistent(Finish(p, id, count).0)
  {
  }

  /** A session id that the store would hand out twice is never handed out: such a step does nothing. */
  function Step(p: Parts, op: Op): (r: Parts)
    requires Consistent(p)
    ensures Consistent(r)
  {
    match op
    case BeginOp(id, session) =>
      if session in p.stored then p else (BeginConsistent(p, id, session); Begin(p, id, session).0)
    case PartOp(id, n, data) => PartConsistent(p, id, n, data); UploadPart(p, id, n, data).0
    case FinishOp(id, count) => FinishConsistent(p, id, count); Finish(p, id, count).0
  }

  function Run(p: Parts, ops: seq<Op>): (r: Parts)
    requires Consistent(p)
    ensures Consistent(r)
    decreases |ops|
  {
    if ops == [] then p else Step(Run(p, ops[..|ops| - 1]), ops[|ops| - 1])
  }

  /** An accepted write of a part of `id`. */
  predicate Writes(op: Op, id: Id) {
    op.PartOp? && op.id == id && 1 <= op.n <= MAX_PARTS
  }

  /** The last write of each part of `id`. */
  function LastWrites(ops: seq<Op>, id: Id): map<nat, Bytes> {
    if ops == [] then map[]
    else
      var before, op := LastWrites(ops[..|ops| - 1], id), ops[|ops| - 1];
      if Writes(op, id) then before[op.n := op.data] else before
  }

  /** All bytes written for `id`, repeats included. */
  function Written(ops: seq<Op>, id: Id): nat {
    if ops == [] then 0
    else Written(ops[..|ops| - 1], id) + if Writes(ops[|ops| - 1], id) then |ops[|ops| - 1].data| else 0
  }

  /** The bytes of writes that a later write of the same part replaced. */
  function Replaced(ops: seq<Op>, id: Id): nat {
    if ops == [] then 0
    else
      var front, op := ops[..|ops| - 1], ops[|ops| - 1];
      Replaced(front, id)
      + if Writes(op, id) && op.n in LastWrites(front, id) then |LastWrites(front, id)[op.n]| else 0
  }

  /** Between its begin and its finish an upload sees parts only; anything may happen to the others. */
  predicate Uninterrupted(ops: seq<Op>, id: Id) {
    forall i :: 0 <= i < |ops| ==> !(ops[i].FinishOp? && ops[i].id == id)
  }

  /** The open upload of `id` holds the last write of each part. */
  predicate Holds(p: Parts, id: Id, session: SessionId, ops: seq<Op>) {
    && id in p.uploads && p.uploads[id] == Session(session, LastWrites(ops, id).Keys, Written(ops, id))
    && session in p.stored && p.stored[session] == LastWrites(ops, id)
  }

  lemma StepHolds(p: Parts, id: Id, session: SessionId, ops: seq<Op>, op: Op)
    requires Consistent(p) && Holds(p, id, session, ops) && !(op.FinishOp? && op.id == id)
    ensures Holds(Step(p, op), id, session, ops + [op])
  {
    assert (ops + [op])[..|ops|] == ops;
  }

  lemma {:induction false} RunHolds(p: Parts, id: Id, session: SessionId, ops: seq<Op>)
    requires Consistent(p) && session !in p.stored && id !in p.uploads && Uninterrupted(ops, id)
    ensures Holds(Run(Step(p, BeginOp(id, session)), ops), id, session, ops)
    decreases |ops|
  {
    if ops != [] {
      var front, op := ops[..|ops| - 1], ops[|ops| - 1];
      RunHolds(p, id, session, front);
      StepHolds(Run(Step(p, BeginOp(id, session)), front), id, session, front, op);
      assert front + [op] == ops;
    }
  }

  /**
   * Whatever parts were uploaded, in any order and with repeats, among uploads of other objects: finishing succeeds
   * exactly when the numbers are 1..count, and the object is then the last write of each part, strung together.
   */
  lemma FinishExactly(p: Parts, id: Id, session: SessionId, ops: seq<Op>, count: nat)
    requires Consistent(p) && session !in p.stored && id !in p.uploads && Uninterrupted(ops, id)
    ensures var r := Finish(Run(Step(p, BeginOp(id, session)), ops), id, count);
            && (r.1 == Uploaded <==> 1 <= count <= MAX_PARTS && LastWrites(ops, id).Keys == OneTo(count))
            && (r.1 == Uploaded ==> id in r.0.objects && r.0.objects[id] == Joined(LastWrites(ops, id), count))
            && (r.1 == Uploaded ==> id in r.0.records && r.0.records[id] == Written(ops, id))
            && (1 <= count <= MAX_PARTS ==> id !in r.0.uploads && session !in r.0.stored)
  {
    RunHolds(p, id, session, ops);
  }

  function Total(parts: map<nat, Bytes>, n: nat): nat {
    if n == 0 then 0 else Total(parts, n - 1) + if n in parts then |parts[n]| else 0
  }

  lemma {:induction false} JoinedLength(parts: map<nat, Bytes>, n: nat)
    requires forall k :: 1 <= k <= n ==> k in parts
    ensures |Joined(parts, n)| == Total(parts, n)
  {
    if n > 0 { JoinedLength(parts, n - 1); }
  }

  lemma {:induction false} TotalReplaced(parts: map<nat, Bytes>, k: nat, data: Bytes, n: nat)
    ensures Total(parts[k := data], n) == Total(parts, n)
      + if 1 <= k <= n then |data| - (if k in parts then |parts[k]| else 0) else 0
  {
    if n > 0 { TotalReplaced(parts, k, data, n - 1); }
  }

  lemma {:induction false} WrittenSplits(ops: seq<Op>, id: Id)
    ensures Written(ops, id) == Total(LastWrites(ops, id), MAX_PARTS) + Replaced(ops, id)
    decreases |ops|
  {
    if ops == [] {
      NothingTotal(MAX_PARTS);
    } else {
      var front, op := ops[..|ops| - 1], ops[|ops| - 1];
      WrittenSplits(front, id);
      if Writes(op, id) { TotalReplaced(LastWrites(front, id), op.n, op.data, MAX_PARTS); }
    }
  }

  lemma {:induction false} NothingTotal(n: nat)
    ensures Total(map[], n) == 0
  {
    if n > 0 { NothingTotal(n - 1); }
  }

  lemma {:induction false} NoPartsBeyond(parts: map<nat, Bytes>, count: nat, n: nat)
    requires count <= n && parts.Keys == OneTo(count)
    ensures Total(parts, n) == Total(parts, count)
    decreases n
  {
    if n > count { NoPartsBeyond(parts, count, n - 1); }
  }

  /**
   * The size put on record counts every write, so it is the object's length exactly when no write with data was
   * replaced by a later one of the same part.
   */
  lemma RecordedSizeExactly(ops: seq<Op>, id: Id, count: nat)
    requires count <= MAX_PARTS && LastWrites(ops, id).Keys == OneTo(count)
    ensures Written(ops, id) == |Joined(LastWrites(ops, id), count)| <==> Replaced(ops, id) == 0
  {
    WrittenSplits(ops, id);
    JoinedLength(LastWrites(ops, id), count);
    NoPartsBeyond(LastWrites(ops, id), count, MAX_PARTS);
  }

  /** One part written twice: the object has one byte, and two are put on record. */
  lemma RepeatedPartCountsTwice(p: Parts, id: Id, session: SessionId)
    requires Consistent(p) && session !in p.stored && id !in p.uploads
    ensures var ops := [PartOp(id, 1, [7]), PartOp(id, 1, [8])];
      var r := Finish(Run(Step(p, BeginOp(id, session)), ops), id, 1);
      r.1 == Uploaded && id in r.0.objects && r.0.objects[id] == [8] && id in r.0.records && r.0.records[id] == 2
  {
    hide Run, Step, Finish, Consistent;
    var ops := [PartOp(id, 1, [7]), PartOp(id, 1, [8])];
    WrittenTwice(id);
    FinishExactly(p, id, session, ops, 1);
  }

  lemma WrittenTwice(id: Id)
    ensures var ops := [PartOp(id, 1, [7]), PartOp(id, 1, [8])];
      && LastWrites(ops, id).Keys == OneTo(1) && Joined(LastWrites(ops, id), 1) == [8] && Written(ops, id) == 2
  {
    var first, ops := [PartOp(id, 1, [7])], [PartOp(id, 1, [7]), PartOp(id, 1, [8])];
    assert ops[..1] == first && first[..0] == [];
    assert LastWrites(first, id) == map[1 := [7]];
    assert LastWrites(ops, id) == map[1 := [8]];
    assert Joined(LastWrites(ops, id), 0) == [];
    assert OneTo(1) == {1};
    assert Joined(LastWrites(ops, id), 1) == [] + [8];
    assert Written(first, id) == 1;
  }
}
