/** The two replay paths: resolving a committed manifest, and staging chunks while a transfer is open. */
module TransferReplay {
  import opened Basics
  import opened Transfer
  import opened TransferInvariant
  import opened TransferReaders

  /** `resolve_transfer_raw` against one state of the server. */
  function ResolveTransfer(s: Void, t: Id): Result<Bytes, Failure> {
    match LoadRecord(s, t)
    case Err(e) => Err(e)
    case Ok(r) =>
      if !r.Committed? then Err(NotCommitted)
      else if |r.chunks| != r.begin.expectedChunks || !Contiguous(r.chunks) then Err(WrongChunkSet)
      else match ReadChunks(s, r.chunks)
        case Err(e) => Err(e)
        case Ok(bytes) =>
          if |bytes| != r.begin.expectedLen || Sha256(bytes) != r.begin.expectedHash then Err(AggregateMismatch)
          else Ok(bytes)
  }

  /** Resolution succeeds exactly on committed transfers, with exactly their content. */
  lemma ResolvesExactlyCommitted(s: Void, t: Id)
    requires Inv(s) && Addresses(s, t)
    ensures ResolveTransfer(s, t).Ok? <==> HasRecord(s, t) && RecordOf(s, t).Committed?
    ensures ResolveTransfer(s, t).Ok? ==> IsCommitted(s, t) && ResolveTransfer(s, t).value == Content(s, t)
  {
    if LoadRecord(s, t).Ok? {
      LoadedIsRecord(s, t);
      if RecordOf(s, t).Committed? { CommittedContent(s, t); }
    }
  }

  /** `world(k)` is the server state seen by the k-th request of a reader, other requests running in between. */
  ghost predicate Unfolds(world: nat -> Void) {
    && (forall k :: Inv(world(k)))
    && (forall j, k :: 0 <= j <= k ==> Evolves(world(j), world(k)))
  }

  /** Once a manifest is committed, a chunk it lists reads the same at every later state. */
  lemma CommittedChunkStays(world: nat -> Void, t: Id, k: nat, c: Chunk)
    requires Unfolds(world) && HasRecord(world(0), t) && RecordOf(world(0), t).Committed?
    requires c in RecordOf(world(0), t).chunks
    ensures Stored(world(0), c) && Stored(world(k), c) && SameObject(world(0), world(k), c.objectId)
  {
    assert RecordOk(world(0), t);
    assert Evolves(world(0), world(k)) && HasRecord(world(k), t);
    assert RecordOk(world(k), t);
    assert c.objectId in Listed(world(0), t);
  }

  /** The resolver as written: one download per request, each against a possibly later state. */
  method ResolveTransferRaw(world: nat -> Void, t: Id) returns (result: Result<Bytes, Failure>)
    requires Unfolds(world) && Addresses(world(0), t)
    ensures result == ResolveTransfer(world(0), t)
  {
    hide Evolves, WellFormed, Inv, Contiguous;
    var loaded := LoadRecord(world(0), t);
    if loaded.Err? { return Err(loaded.error); }
    var r := loaded.value;
    if !r.Committed? { return Err(NotCommitted); }
    if |r.chunks| != r.begin.expectedChunks || !Contiguous(r.chunks) { return Err(WrongChunkSet); }
    LoadedIsRecord(world(0), t);
    CommittedContent(world(0), t);
    var bytes: Bytes, aggregate: Bytes := [], [];
    var i := 0;
    while i < |r.chunks|
      invariant 0 <= i <= |r.chunks|
      invariant aggregate == bytes
      invariant ReadChunks(world(0), r.chunks[..i]) == Ok(bytes)
    {
      var c := r.chunks[i];
      CommittedChunkStays(world, t, i + 1, c);
      var data := Download(world(i + 1), c.objectId);
      match data {
        case Err(e) => return Err(e);
        case Ok(piece) =>
          if |piece| != c.len || Sha256(piece) != c.hash { return Err(InvalidChunk); }
          aggregate := aggregate + piece;
          bytes := bytes + piece;
      }
      assert r.chunks[..i + 1][..i] == r.chunks[..i];
      i := i + 1;
    }
    assert r.chunks[..i] == r.chunks;
    if |bytes| != r.begin.expectedLen || Sha256(aggregate) != r.begin.expectedHash { return Err(AggregateMismatch); }
    return Ok(bytes);
  }

  // ---------------------------------------------------------------------------
  // Progressive staging
  // ---------------------------------------------------------------------------

  /** Everything staged is what the transfer holds at that index, unless it was aborted meanwhile. */
  ghost predicate StagedOk(s: Void, t: Id, staged: map<nat, Bytes>) {
    !IsAborted(s, t) ==> forall i :: i in staged ==> DataAt(s, t, i) == Some(staged[i])
  }

  lemma StagedStable(s: Void, s': Void, t: Id, staged: map<nat, Bytes>)
    requires Inv(s) && Inv(s') && Evolves(s, s') && StagedOk(s, t, staged)
    requires staged != map[] ==> HasRecord(s, t)
    ensures StagedOk(s', t, staged)
  {
    if !IsAborted(s', t) {
      forall i | i in staged ensures DataAt(s', t, i) == Some(staged[i]) {
        assert !IsAborted(s, t);
        DataAtStable(s, s', t, i);
      }
    }
  }

  /** What is staged, how many requests were made, and how many polls were finished. */
  datatype Stage = Stage(chunks: map<nat, Bytes>, next: nat, polls: nat)

  const NOTHING_STAGED := Stage(map[], 0, 0)

  /** Download, in list order, every chunk that is not staged yet; each download sees the next state. */
  function StageChunks(world: nat -> Void, chunks: seq<Chunk>, stage: Stage): (r: Result<Stage, Failure>)
    ensures r.Ok? ==> stage.next <= r.value.next && r.value.polls == stage.polls
    decreases |chunks|
  {
    if chunks == [] then Ok(stage)
    else
      var c := chunks[0];
      if c.index in stage.chunks then StageChunks(world, chunks[1..], stage)
      else
        match Download(world(stage.next), c.objectId)
        case Err(e) => Err(e)
        case Ok(data) =>
          if |data| != c.len || Sha256(data) != c.hash then Err(InvalidChunk)
          else StageChunks(world, chunks[1..], Staged(stage, c, data))
  }

  function Staged(stage: Stage, c: Chunk, data: Bytes): Stage {
    stage.(chunks := stage.chunks[c.index := data], next := stage.next + 1)
  }

  /** The staged chunks `0..n` in index order, if none is missing. */
  function Joined(staged: map<nat, Bytes>, n: nat): Option<Bytes> {
    if n == 0 then Some([])
    else if n - 1 in staged && Joined(staged, n - 1).Some? then Some(Joined(staged, n - 1).value + staged[n - 1])
    else None
  }

  /** What a poll that sees a committed manifest of `count` chunks returns. */
  function Assembled(begin: Begin, count: nat, staged: map<nat, Bytes>): Result<Bytes, Failure> {
    if count != begin.expectedChunks then Err(WrongChunkSet)
    else
      match Joined(staged, begin.expectedChunks)
      case None => Err(MissingObject)
      case Some(output) =>
        if |output| != begin.expectedLen || Sha256(output) != begin.expectedHash then Err(AggregateMismatch)
        else Ok(output)
  }

  /** The loop sleeps between polls, so the clock read at the end of a poll is later than at the end of the one before. */
  ghost predicate Ticks(clock: nat -> nat) {
    forall i: nat :: clock(i) < clock(i + 1)
  }

  /** `download_committed_transfer` from one poll on; request `k` sees `world(k)`, and poll `i` ends at `clock(i)`. */
  function DownloadFrom(world: nat -> Void, clock: nat -> nat, t: Id, stage: Stage): Result<Bytes, Failure>
    requires Ticks(clock)
    decreases U64_LIMIT - clock(stage.polls)
  {
    match LoadRecord(world(stage.next), t)
    case Err(e) => Err(e)
    case Ok(r) =>
      if r.Aborted? then Err(NotCommitted)
      else
        match StageChunks(world, r.chunks, stage.(next := stage.next + 1))
        case Err(e) => Err(e)
        case Ok(full) =>
          if r.Committed? then Assembled(r.begin, |r.chunks|, full.chunks)
          else if clock(stage.polls) >= r.begin.deadline then Err(DeadlinePassed)
          else DownloadFrom(world, clock, t, full.(polls := stage.polls + 1))
  }

  /** The number of the last inspection request that the loop makes. */
  ghost function LastPoll(world: nat -> Void, clock: nat -> nat, t: Id, stage: Stage): nat
    requires Ticks(clock)
    decreases U64_LIMIT - clock(stage.polls)
  {
    match LoadRecord(world(stage.next), t)
    case Err(_) => stage.next
    case Ok(r) =>
      if !r.InProgress? || clock(stage.polls) >= r.begin.deadline then stage.next
      else
        match StageChunks(world, r.chunks, stage.(next := stage.next + 1))
        case Err(_) => stage.next
        case Ok(full) => LastPoll(world, clock, t, full.(polls := stage.polls + 1))
  }

  /** The poll that comes next, when this one finds the transfer open and stages all that it lists. */
  function NextPoll(world: nat -> Void, t: Id, stage: Stage): (r: Option<Stage>)
    ensures r.Some? ==> stage.next < r.value.next && r.value.polls == stage.polls + 1
  {
    match LoadRecord(world(stage.next), t)
    case Err(_) => None
    case Ok(r) =>
      if !r.InProgress? then None
      else
        match StageChunks(world, r.chunks, stage.(next := stage.next + 1))
        case Err(_) => None
        case Ok(full) => Some(full.(polls := stage.polls + 1))
  }

  /** Every poll that starts before request `last` and finds the transfer open ends within the lease. */
  predicate PollsInTime(world: nat -> Void, clock: nat -> nat, t: Id, stage: Stage, deadline: U64, last: nat)
    decreases last - stage.next
  {
    stage.next < last && NextPoll(world, t, stage).Some? ==>
      && clock(stage.polls) < deadline
      && PollsInTime(world, clock, t, NextPoll(world, t, stage).value, deadline, last)
  }

  /** Some request from number `k` on sees the transfer aborted. */
  ghost predicate AbortedFrom(world: nat -> Void, t: Id, k: nat) {
    exists j: nat :: k <= j && IsAborted(world(j), t)
  }

  /** A chunk that an earlier record listed downloads and validates, and is the data at its index, barring an abort. */
  lemma ListedValidates(s: Void, s': Void, t: Id, c: Chunk)
    requires Inv(s) && Inv(s') && Evolves(s, s') && HasRecord(s, t) && c in Chunks(RecordOf(s, t))
    ensures !IsAborted(s', t) ==>
      match Download(s', c.objectId)
      case Err(_) => false
      case Ok(data) => |data| == c.len && Sha256(data) == c.hash && DataAt(s', t, c.index) == Some(data)
  {
    hide Inv, DataAt;
    assert HasRecord(s', t);
    if !IsAborted(s', t) {
      DataAtChunk(s', t, c);
    }
  }

  /** One more chunk staged leaves a sound stage for the state that the next request sees. */
  lemma OneStaged(world: nat -> Void, t: Id, k: nat, c: Chunk, data: Bytes, stage: Stage)
    requires Unfolds(world) && k <= stage.next && HasRecord(world(k), t) && c in Chunks(RecordOf(world(k), t))
    requires StagedOk(world(stage.next), t, stage.chunks) && Download(world(stage.next), c.objectId) == Ok(data)
    ensures StagedOk(world(stage.next + 1), t, Staged(stage, c, data).chunks)
  {
    hide Inv, DataAt, Download;
    var s, s' := world(stage.next), world(stage.next + 1);
    assert Evolves(world(k), s) && Evolves(s, s');
    ListedValidates(world(k), s, t, c);
    assert HasRecord(s, t);
    StagedStable(s, s', t, Staged(stage, c, data).chunks);
  }

  /** Staging the chunks of a record seen at request `k`: nothing wrong is staged, and only an abort makes it fail. */
  lemma {:induction false} StagingKeeps(world: nat -> Void, t: Id, k: nat, chunks: seq<Chunk>, stage: Stage)
    requires Unfolds(world) && k <= stage.next && HasRecord(world(k), t)
    requires StagedOk(world(stage.next), t, stage.chunks)
    requires forall c :: c in chunks ==> c in Chunks(RecordOf(world(k), t))
    ensures match StageChunks(world, chunks, stage)
      case Err(_) => AbortedFrom(world, t, stage.next)
      case Ok(full) =>
        && full.polls == stage.polls && stage.next <= full.next
        && StagedOk(world(full.next), t, full.chunks)
        && stage.chunks.Keys <= full.chunks.Keys && (forall c :: c in chunks ==> c.index in full.chunks)
    decreases |chunks|
  {
    hide Inv, DataAt, HasRecord, RecordOf, IsAborted, StagedOk, Evolves, Download;
    if chunks != [] {
      var c := chunks[0];
      assert chunks == [c] + chunks[1..];
      if c.index in stage.chunks {
        StagingKeeps(world, t, k, chunks[1..], stage);
      } else {
        assert Inv(world(k)) && Inv(world(stage.next)) && Evolves(world(k), world(stage.next));
        ListedValidates(world(k), world(stage.next), t, c);
        if !IsAborted(world(stage.next), t) {
          var data := Download(world(stage.next), c.objectId).value;
          OneStaged(world, t, k, c, data, stage);
          StagingKeeps(world, t, k, chunks[1..], Staged(stage, c, data));
        } else {
          assert AbortedFrom(world, t, stage.next);
          if Download(world(stage.next), c.objectId).Ok? {
            var data := Download(world(stage.next), c.objectId).value;
            OneStaged(world, t, k, c, data, stage);
            StagingKeeps(world, t, k, chunks[1..], Staged(stage, c, data));
          }
        }
      }
    }
  }

  /** What a full stage of a committed transfer holds. */
  lemma CommittedStage(s: Void, s': Void, t: Id, staged: map<nat, Bytes>)
    requires Inv(s) && Inv(s') && Evolves(s, s')
    requires HasRecord(s, t) && RecordOf(s, t).Committed? && StagedOk(s', t, staged)
    requires forall c :: c in RecordOf(s, t).chunks ==> c.index in staged
    ensures IsCommitted(s, t)
    ensures Assembled(RecordOf(s, t).begin, |RecordOf(s, t).chunks|, staged) == Ok(Content(s, t))
  {
    hide DataAt, ReadChunks;
    var r := RecordOf(s, t);
    assert RecordOk(s, t) && HasRecord(s', t);
    CommittedContent(s, t);
    PrefixStable(s, s', t, r.begin.expectedChunks);
    forall j | 0 <= j < r.begin.expectedChunks ensures j in staged && DataAt(s', t, j) == Some(staged[j]) {
      assert r.chunks[j] in r.chunks;
    }
    JoinedIsPrefix(s', t, staged, r.begin.expectedChunks);
  }

  lemma {:induction false} JoinedIsPrefix(s: Void, t: Id, staged: map<nat, Bytes>, n: nat)
    requires forall j :: 0 <= j < n ==> j in staged && DataAt(s, t, j) == Some(staged[j])
    ensures Joined(staged, n) == Prefix(s, t, n)
  {
    if n > 0 { JoinedIsPrefix(s, t, staged, n - 1); }
  }

  lemma CommittedNeverAborts(world: nat -> Void, t: Id, k: nat)
    requires Unfolds(world) && HasRecord(world(k), t) && RecordOf(world(k), t).Committed?
    ensures !AbortedFrom(world, t, k)
  {
    hide Inv;
    forall j: nat | k <= j ensures !IsAborted(world(j), t) { assert Evolves(world(k), world(j)); }
  }

  /** A poll at request `k` of a transfer that is not aborted: all its chunks get staged. */
  lemma PollStages(world: nat -> Void, t: Id, stage: Stage)
    requires Unfolds(world) && HasRecord(world(stage.next), t) && !IsAborted(world(stage.next), t)
    requires StagedOk(world(stage.next), t, stage.chunks)
    ensures match StageChunks(world, RecordOf(world(stage.next), t).chunks, stage.(next := stage.next + 1))
      case Err(_) => AbortedFrom(world, t, stage.next)
      case Ok(full) =>
        && full.polls == stage.polls && stage.next < full.next && HasRecord(world(full.next), t)
        && StagedOk(world(full.next), t, full.chunks)
        && (RecordOf(world(stage.next), t).Committed? ==>
          Delivered(world(stage.next), t, Assembled(RecordOf(world(stage.next), t).begin,
            |RecordOf(world(stage.next), t).chunks|, full.chunks)))
  {
    hide Inv, DataAt, StageChunks, Assembled, StagedOk;
    var k := stage.next;
    var r := RecordOf(world(k), t);
    assert Evolves(world(k), world(k + 1)) && HasRecord(world(k + 1), t);
    StagedStable(world(k), world(k + 1), t, stage.chunks);
    StagingKeeps(world, t, k, r.chunks, stage.(next := k + 1));
    if StageChunks(world, r.chunks, stage.(next := k + 1)).Ok? {
      var full := StageChunks(world, r.chunks, stage.(next := k + 1)).value;
      assert Evolves(world(k), world(full.next)) && HasRecord(world(full.next), t);
      if r.Committed? { CommittedStage(world(k), world(full.next), t, full.chunks); }
    }
  }

  /** The result is the content of the transfer, committed in this state. */
  predicate Delivered(s: Void, t: Id, result: Result<Bytes, Failure>) {
    result.Ok? && Delivers(s, t, result.value)
  }

  /**
   * The whole polling loop, whatever the server does in between and during polls: it returns bytes exactly when its last
   * poll sees the transfer committed, and then returns exactly the committed content.
   */
  lemma {:induction false} DownloadExactly(world: nat -> Void, clock: nat -> nat, t: Id, stage: Stage)
    requires Unfolds(world) && Ticks(clock) && Addresses(world(stage.next), t)
    requires StagedOk(world(stage.next), t, stage.chunks)
    ensures stage.next <= LastPoll(world, clock, t, stage)
    ensures var (s, result) := (world(LastPoll(world, clock, t, stage)), DownloadFrom(world, clock, t, stage));
      (result.Ok? <==> IsCommitted(s, t)) && (result.Ok? ==> Delivers(s, t, result.value))
    decreases U64_LIMIT - clock(stage.polls)
  {
    hide Inv, DataAt, StageChunks, Assembled, StagedOk, Ticks, Evolves;
    var s := world(stage.next);
    assert Inv(s);
    if LoadRecord(s, t).Ok? {
      LoadedIsRecord(s, t);
      var r := RecordOf(s, t);
      if !r.Aborted? {
        PollStages(world, t, stage);
        match StageChunks(world, r.chunks, stage.(next := stage.next + 1))
        case Err(_) => if r.Committed? { CommittedNeverAborts(world, t, stage.next); }
        case Ok(full) =>
          if r.InProgress? && clock(stage.polls) < r.begin.deadline {
            AtRecord(world(full.next), t);
            Later(clock, stage.polls);
            DownloadExactly(world, clock, t, full.(polls := stage.polls + 1));
          }
      }
    }
  }

  lemma AtRecord(s: Void, t: Id)
    requires HasRecord(s, t)
    ensures Addresses(s, t) && LoadRecord(s, t) == Ok(RecordOf(s, t))
  {
  }

  lemma Later(clock: nat -> nat, i: nat)
    requires Ticks(clock)
    ensures clock(i) < clock(i + 1)
  {
  }

  /** Two committed states of one transfer have the same content. */
  lemma SameContent(s: Void, s': Void, t: Id)
    requires Inv(s) && Inv(s') && Evolves(s, s') && HasRecord(s, t) && RecordOf(s, t).Committed?
    ensures IsCommitted(s, t) && IsCommitted(s', t) && Content(s', t) == Content(s, t)
  {
    hide DataAt, ReadChunks;
    assert HasRecord(s', t);
    CommittedContent(s, t);
    CommittedContent(s', t);
    PrefixStable(s, s', t, RecordOf(s, t).begin.expectedChunks);
  }

  /** A poll that sees the commit returns the content. */
  lemma CommittedPoll(world: nat -> Void, clock: nat -> nat, t: Id, stage: Stage)
    requires Unfolds(world) && Ticks(clock) && StagedOk(world(stage.next), t, stage.chunks)
    requires IsCommitted(world(stage.next), t)
    ensures DownloadFrom(world, clock, t, stage) == Ok(Content(world(stage.next), t))
  {
    hide Inv, DataAt, StageChunks, Assembled, StagedOk, Ticks, ReadChunks;
    AtRecord(world(stage.next), t);
    PollStages(world, t, stage);
    CommittedNeverAborts(world, t, stage.next);
  }

  /** A poll of an open transfer that is never aborted is the last one when the lease is over, and not otherwise. */
  lemma OpenPoll(world: nat -> Void, clock: nat -> nat, t: Id, stage: Stage)
    requires Unfolds(world) && Ticks(clock) && StagedOk(world(stage.next), t, stage.chunks)
    requires HasRecord(world(stage.next), t) && RecordOf(world(stage.next), t).InProgress?
    requires !AbortedFrom(world, t, stage.next)
    ensures NextPoll(world, t, stage).Some?
    ensures var next := NextPoll(world, t, stage).value;
      && HasRecord(world(next.next), t) && StagedOk(world(next.next), t, next.chunks)
      && DownloadFrom(world, clock, t, stage)
        == if clock(stage.polls) < RecordOf(world(stage.next), t).begin.deadline then DownloadFrom(world, clock, t, next)
           else Err(DeadlinePassed)
  {
    hide Inv, DataAt, StageChunks, Assembled, StagedOk, Ticks, ReadChunks, AbortedFrom;
    AtRecord(world(stage.next), t);
    PollStages(world, t, stage);
  }

  /**
   * A transfer that is never aborted and is committed by request `last`: the loop returns the committed content if and
   * only if every poll that starts before that request and still finds it open ends within the lease.
   */
  lemma {:induction false} DownloadCompletes(world: nat -> Void, clock: nat -> nat, t: Id, stage: Stage, last: nat)
    requires Unfolds(world) && Ticks(clock) && StagedOk(world(stage.next), t, stage.chunks)
    requires HasRecord(world(stage.next), t) && !AbortedFrom(world, t, stage.next) && IsCommitted(world(last), t)
    ensures DownloadFrom(world, clock, t, stage) == Ok(Content(world(last), t))
      <==> PollsInTime(world, clock, t, stage, RecordOf(world(last), t).begin.deadline, last)
    decreases U64_LIMIT - clock(stage.polls)
  {
    hide Inv, DataAt, StagedOk, Ticks, ReadChunks, DownloadFrom, Evolves, NextPoll;
    var k := stage.next;
    assert !IsAborted(world(k), t) && Inv(world(k)) && Inv(world(last));
    if RecordOf(world(k), t).Committed? {
      if k <= last { SameContent(world(k), world(last), t); } else { SameContent(world(last), world(k), t); }
      CommittedPoll(world, clock, t, stage);
      CommittedIsLast(world, t, stage);
    } else {
      StillOpen(world, t, k, last);
      OpenPoll(world, clock, t, stage);
      if clock(stage.polls) < RecordOf(world(k), t).begin.deadline {
        Later(clock, stage.polls);
        DownloadCompletes(world, clock, t, NextPoll(world, t, stage).value, last);
      }
    }
  }

  lemma CommittedIsLast(world: nat -> Void, t: Id, stage: Stage)
    requires HasRecord(world(stage.next), t) && RecordOf(world(stage.next), t).Committed?
    ensures NextPoll(world, t, stage).None?
  {
  }

  /** A transfer still open at request `k` is committed only later, under the same lease. */
  lemma StillOpen(world: nat -> Void, t: Id, k: nat, last: nat)
    requires Unfolds(world) && HasRecord(world(k), t) && RecordOf(world(k), t).InProgress? && IsCommitted(world(last), t)
    ensures k < last && RecordOf(world(last), t).begin == RecordOf(world(k), t).begin
  {
    hide Inv, ReadChunks;
    if last <= k { SameContent(world(last), world(k), t); } else { assert Evolves(world(k), world(last)); }
  }

  // ---------------------------------------------------------------------------
  // Whatever the server sends
  // ---------------------------------------------------------------------------

  /** A committed record that declares these bytes. */
  predicate DeclaredBy(s: Void, t: Id, bytes: Bytes) {
    LoadRecord(s, t).Ok? &&
      var r := LoadRecord(s, t).value;
      && r.Committed? && |r.chunks| == r.begin.expectedChunks
      && |bytes| == r.begin.expectedLen && Sha256(bytes) == r.begin.expectedHash
  }

  /** Even from a server that keeps no invariant the resolver returns only bytes that a committed record declares. */
  lemma ResolvesOnlyDeclared(s: Void, t: Id)
    ensures ResolveTransfer(s, t).Ok? ==>
      && DeclaredBy(s, t, ResolveTransfer(s, t).value)
      && Contiguous(LoadRecord(s, t).value.chunks)
      && ReadChunks(s, LoadRecord(s, t).value.chunks) == Ok(ResolveTransfer(s, t).value)
  {
  }

  /** Data that one of these chunks describes. */
  predicate DescribedBy(chunks: seq<Chunk>, index: nat, data: Bytes) {
    exists c :: c in chunks && c.index == index && c.len == |data| && c.hash == Sha256(data)
  }

  /** And nothing is staged but what the record describes. */
  lemma {:induction false} StagesOnlyDescribed(world: nat -> Void, chunks: seq<Chunk>, stage: Stage)
    ensures var r := StageChunks(world, chunks, stage);
      r.Ok? ==> forall i :: i in r.value.chunks ==>
        (i in stage.chunks && r.value.chunks[i] == stage.chunks[i]) || DescribedBy(chunks, i, r.value.chunks[i])
    decreases |chunks|
  {
    hide Download;
    if chunks != [] {
      var c, rest := chunks[0], chunks[1..];
      assert chunks == [c] + rest;
      if c.index in stage.chunks {
        StagesOnlyDescribed(world, rest, stage);
      } else if Download(world(stage.next), c.objectId).Ok? {
        StagesOnlyDescribed(world, rest, Staged(stage, c, Download(world(stage.next), c.objectId).value));
      }
    }
  }

  /** So the polling loop, too, returns only bytes that a committed record declares which it has seen. */
  lemma {:induction false} DownloadsOnlyDeclared(world: nat -> Void, clock: nat -> nat, t: Id, stage: Stage)
    requires Ticks(clock)
    ensures var r := DownloadFrom(world, clock, t, stage);
      r.Ok? ==> exists k: nat :: k >= stage.next && DeclaredBy(world(k), t, r.value)
    decreases U64_LIMIT - clock(stage.polls)
  {
    hide LoadRecord, StageChunks, Joined;
    var loaded := LoadRecord(world(stage.next), t);
    if loaded.Ok? && !loaded.value.Aborted? {
      var staging := StageChunks(world, loaded.value.chunks, stage.(next := stage.next + 1));
      if staging.Ok? {
        if loaded.value.Committed? {
          assert DownloadFrom(world, clock, t, stage).Ok? ==>
            DeclaredBy(world(stage.next), t, DownloadFrom(world, clock, t, stage).value);
        } else if clock(stage.polls) < loaded.value.begin.deadline {
          DownloadsOnlyDeclared(world, clock, t, staging.value.(polls := stage.polls + 1));
        }
      }
    }
  }

  // ---------------------------------------------------------------------------
  // The loop as written
  // ---------------------------------------------------------------------------

  /** Download every listed chunk that is not staged yet. */
  method StageListed(world: nat -> Void, chunks: seq<Chunk>, stage: Stage) returns (result: Result<Stage, Failure>)
    ensures result == StageChunks(world, chunks, stage)
  {
    var staged: map<nat, Bytes>, next := stage.chunks, stage.next;
    var i := 0;
    while i < |chunks|
      invariant 0 <= i <= |chunks|
      invariant StageChunks(world, chunks[i..], Stage(staged, next, stage.polls)) == StageChunks(world, chunks, stage)
    {
      var c := chunks[i];
      assert chunks[i..][1..] == chunks[i + 1..];
      if c.index !in staged {
        var data := Download(world(next), c.objectId);
        if data.Err? { return Err(data.error); }
        if |data.value| != c.len || Sha256(data.value) != c.hash { return Err(InvalidChunk); }
        staged := staged[c.index := data.value];
        next := next + 1;
      }
      i := i + 1;
    }
    return Ok(Stage(staged, next, stage.polls));
  }

  lemma {:induction false} MissingStays(staged: map<nat, Bytes>, i: nat, n: nat)
    requires i < n && i !in staged
    ensures Joined(staged, n) == None
  {
    if i < n - 1 { MissingStays(staged, i, n - 1); }
  }

  /** Concatenate the staged chunks of a committed manifest, removing each from the stage. */
  method Assemble(begin: Begin, chunks: seq<Chunk>, stage: map<nat, Bytes>) returns (result: Result<Bytes, Failure>)
    ensures result == Assembled(begin, |chunks|, stage)
  {
    if |chunks| != begin.expectedChunks { return Err(WrongChunkSet); }
    var staged := stage;
    var output: Bytes, aggregate: Bytes := [], [];
    var index := 0;
    while index < begin.expectedChunks
      invariant 0 <= index <= begin.expectedChunks
      invariant aggregate == output && Joined(stage, index) == Some(output)
      invariant forall j: nat :: index <= j ==> (j in staged <==> j in stage)
      invariant forall j: nat :: index <= j && j in stage ==> staged[j] == stage[j]
    {
      if index !in staged {
        MissingStays(stage, index, begin.expectedChunks);
        return Err(MissingObject);
      }
      var data := staged[index];
      staged := staged - {index};
      aggregate := aggregate + data;
      output := output + data;
      index := index + 1;
    }
    if |output| != begin.expectedLen || Sha256(aggregate) != begin.expectedHash { return Err(AggregateMismatch); }
    return Ok(output);
  }

  /**
   * `download_committed_transfer`: `staged` survives from one poll of the record to the next. `last` is the number of
   * the last inspection.
   */
  method DownloadCommittedTransfer(world: nat -> Void, clock: nat -> nat, t: Id)
    returns (result: Result<Bytes, Failure>, ghost last: nat)
    requires Unfolds(world) && Ticks(clock) && Addresses(world(0), t)
    ensures result == DownloadFrom(world, clock, t, NOTHING_STAGED)
    ensures result.Ok? <==> IsCommitted(world(last), t)
    ensures result.Ok? ==> Delivers(world(last), t, result.value)
  {
    hide Inv, Evolves, StageChunks, Assembled, LoadRecord, ReadChunks;
    DownloadExactly(world, clock, t, NOTHING_STAGED);
    last := LastPoll(world, clock, t, NOTHING_STAGED);
    var stage := NOTHING_STAGED;
    while true
      invariant DownloadFrom(world, clock, t, stage) == DownloadFrom(world, clock, t, NOTHING_STAGED)
      decreases U64_LIMIT - clock(stage.polls)
    {
      var loaded := LoadRecord(world(stage.next), t);
      if loaded.Err? { return Err(loaded.error), last; }
      var r := loaded.value;
      if r.Aborted? { return Err(NotCommitted), last; }
      var staging := StageListed(world, r.chunks, stage.(next := stage.next + 1));
      if staging.Err? { return Err(staging.error), last; }
      if r.Committed? {
        result := Assemble(r.begin, r.chunks, staging.value.chunks);
        return;
      }
      if clock(stage.polls) >= r.begin.deadline { return Err(DeadlinePassed), last; }
      stage := staging.value.(polls := stage.polls + 1);
    }
  }
}
