/**
 * Round trip of an artifact. A producer publishes it frame by frame while a live receiver streams it, and any other
 * requests arrive in between; what was published comes back from the live stream, from the polling download and from
 * the resolver of committed transfers.
 */
module RoundTrip {
  import opened Basics
  import opened Transfer
  import opened TransferInvariant
  import opened TransferReaders
  import opened TransferReplay
  import opened TransferDurability
  import opened LiveStream
  import opened Publication
  import opened Interleaving

  // ---------------------------------------------------------------------------
  // The live receiver finishes
  // ---------------------------------------------------------------------------

  /** How many steps of the stream are left once the transfer is committed. */
  function Work(sys: System, n: nat): int {
    if sys.result.Some? then 0
    else
      match sys.session.status
      case Opening => 2 * n + 5
      case Ended => |sys.channel|
      case Streaming =>
        var last := if sys.session.snapshot.None? then 3 else if sys.session.snapshot.value.Committed? then 2 else 4;
        |sys.channel| + 2 * (n - sys.session.nextIndex) + last
  }

  /** The event is the stream's next step, and not a step that changes nothing. */
  predicate IsDue(sys: System, event: Event) {
    && sys.result.None?
    && match event
       case Server(_, _) => false
       case Open(_) => sys.session.status.Opening?
       case Poll(_) => sys.session.status.Streaming? && sys.session.snapshot.None?
       case SendChunk => SendsChunk(sys)
       case SendTerminal => sys.session.status.Streaming? && sys.session.snapshot.Some? && !SendsChunk(sys)
       case Deliver => sys.channel != []
  }

  /** The steps of the stream, apart from their clocks. */
  predicate SameKind(a: Event, b: Event) {
    (a.Open? && b.Open?) || (a.Poll? && b.Poll?) || (!a.Server? && !a.Open? && !a.Poll? && a == b)
  }

  lemma {:induction false} FramesCount(p: Publication, i: nat, j: nat)
    requires Declares(p) && i <= j <= |p.ids|
    ensures |FramesBetween(p, i, j)| == j - i
    decreases j - i
  {
    hide Declares, FrameAt;
    if i < j { FramesCount(p, i + 1, j); }
  }

  lemma WorkBound(flow: Flow, p: Publication)
    requires FlowOk(flow, p)
    ensures 0 <= Work(flow.sys, |p.ids|) <= 2 * |p.ids| + 5
    ensures Work(flow.sys, |p.ids|) == 0 <==> flow.sys.result.Some?
  {
    hide Underway, Split, SnapshotOk, Flatten, Declares, Inv;
    UnderwayFacts(flow.sys.store, p, flow.upload.sent);
    var sys := flow.sys;
    if sys.result.None? && !sys.session.status.Opening? {
      FramesCount(p, sys.receiver.nextIndex, sys.session.nextIndex);
    }
  }

  /** A step that is not due changes at most the server. */
  lemma IdleStep(sys: System, ticket: Ticket, event: Event)
    requires sys.result.None? && !IsDue(sys, event) && !event.Open? && !event.Poll?
    ensures Step(sys, ticket, event) == sys.(store := Step(sys, ticket, event).store)
  {
  }

  /** What a step should do to the work that is left. */
  predicate Works(sys: System, sys': System, n: nat, event: Event) {
    if IsDue(sys, event) then Work(sys', n) < Work(sys, n) else sys' == sys.(store := sys'.store)
  }

  lemma InspectionWorks(sys: System, p: Publication, ticket: Ticket, event: Event)
    requires Underway(sys.store, p, |p.ids| + 1) && Matches(ticket, p) && (event.Open? || event.Poll?)
    requires sys.result.None? && (sys.session.status.Opening? ==> sys.channel == [])
    ensures Works(sys, Step(sys, ticket, event), |p.ids|, event)
  {
    hide Underway, Matches, Step, Inv;
    UnderwayFacts(sys.store, p, |p.ids| + 1);
    Inspected(sys, p, ticket, |p.ids| + 1, event);
  }

  lemma SendWorks(sys: System, p: Publication, ticket: Ticket)
    requires Underway(sys.store, p, |p.ids| + 1) && ReceiverInStep(sys, p, |p.ids| + 1)
    requires sys.result.None? && SendsChunk(sys)
    ensures Works(sys, Step(sys, ticket, SendChunk), |p.ids|, SendChunk)
  {
    hide Underway, ReceiverInStep, Step, ChunkToSend, FrameAt, Declares, Inv, SnapshotOk;
    UnderwayFacts(sys.store, p, |p.ids| + 1);
    var c := NextChunk(sys, p, |p.ids| + 1);
    ListedPiece(sys.store, p, |p.ids| + 1, c);
    ChunkSent(sys, ticket, FrameAt(p, c.index));
  }

  lemma TerminalWorks(sys: System, p: Publication, ticket: Ticket)
    requires Declares(p) && HasRecord(sys.store, p.begin.transferId) && ReceiverInStep(sys, p, |p.ids| + 1)
    requires IsDue(sys, SendTerminal)
    ensures Works(sys, Step(sys, ticket, SendTerminal), |p.ids|, SendTerminal)
  {
    hide ReceiverInStep, Step, Declares;
    SessionFacts(sys, p);
    Terminated(sys, ticket);
  }

  lemma DeliverWorks(sys: System, p: Publication, ticket: Ticket)
    requires Declares(p) && HasRecord(sys.store, p.begin.transferId) && ReceiverInStep(sys, p, |p.ids| + 1)
    requires IsDue(sys, Deliver)
    ensures Works(sys, Step(sys, ticket, Deliver), |p.ids|, Deliver)
  {
    hide ReceiverInStep, Step, Declares;
    SessionFacts(sys, p);
    DeliveredOnly(sys, ticket);
  }

  /** After the commit a due step leaves less work, and any other event changes only the server. */
  lemma DueWorks(flow: Flow, p: Publication, ticket: Ticket, event: Event)
    requires FlowOk(flow, p) && Matches(ticket, p) && flow.upload.sent == |p.ids| + 1 && flow.sys.result.None?
    ensures Works(flow.sys, Step(flow.sys, ticket, event), |p.ids|, event)
  {
    hide Underway, Declares, ReceiverInStep, Matches, Step, Work, SendsChunk, Inv;
    UnderwayFacts(flow.sys.store, p, |p.ids| + 1);
    if event.Open? || event.Poll? {
      SessionFacts(flow.sys, p);
      InspectionWorks(flow.sys, p, ticket, event);
    } else if !IsDue(flow.sys, event) {
      IdleStep(flow.sys, ticket, event);
    } else {
      match event
      case SendChunk => SendWorks(flow.sys, p, ticket);
      case SendTerminal => TerminalWorks(flow.sys, p, ticket);
      case Deliver => DeliverWorks(flow.sys, p, ticket);
    }
  }

  /** Where the session stands. */
  lemma SessionFacts(sys: System, p: Publication)
    requires Declares(p) && HasRecord(sys.store, p.begin.transferId) && ReceiverInStep(sys, p, |p.ids| + 1)
    requires sys.result.None?
    ensures if sys.session.status.Opening? then sys.channel == [] else sys.session.nextIndex <= |p.ids|
    ensures sys.session.snapshot.Some? && sys.session.status.Streaming? ==>
      && !sys.session.snapshot.value.Aborted? && sys.session.nextIndex <= |p.ids|
      && (sys.session.snapshot.value.Committed? ==> |Chunks(sys.session.snapshot.value)| == |p.ids|)
  {
    hide Declares, InFlight;
  }

  lemma DeliveredOnly(sys: System, ticket: Ticket)
    requires sys.result.None? && sys.channel != []
    ensures var sys' := Step(sys, ticket, Deliver);
      sys'.session == sys.session && sys'.channel == sys.channel[1..]
  {
  }

  lemma FlowDeclares(flow: Flow, p: Publication)
    requires FlowOk(flow, p)
    ensures Declares(p) && HasRecord(flow.sys.store, p.begin.transferId)
  {
  }

  lemma {:induction false} WorkShrinks(flow: Flow, p: Publication, ticket: Ticket, moves: seq<Move>)
    requires LosslessCodec() && FlowOk(flow, p) && Matches(ticket, p) && AllAllowed(flow, p, ticket, moves)
    requires flow.upload.sent == |p.ids| + 1
    ensures var end := Moves(flow, p, ticket, moves);
      end.upload.sent == |p.ids| + 1 && Work(end.sys, |p.ids|) <= Work(flow.sys, |p.ids|)
    decreases |moves|
  {
    hide FlowOk, Matches, Step, Allowed, Work;
    FlowDeclares(flow, p);
    if moves != [] {
      MoveWorks(flow, p, ticket, moves[0]);
      MoveKeeps(flow, p, ticket, moves[0]);
      WorkShrinks(Advance(flow, p, ticket, moves[0]), p, ticket, moves[1..]);
    }
  }

  /** No move adds work; one that leaves it changes only the server. */
  lemma MoveWorks(flow: Flow, p: Publication, ticket: Ticket, move: Move)
    requires FlowOk(flow, p) && Matches(ticket, p) && flow.upload.sent == |p.ids| + 1 && Allowed(flow, p, move)
    ensures var next := Advance(flow, p, ticket, move);
      && next.upload.sent == |p.ids| + 1 && Work(next.sys, |p.ids|) <= Work(flow.sys, |p.ids|)
      && (flow.sys.result.None? && move.Take? && IsDue(flow.sys, move.event) ==>
        Work(next.sys, |p.ids|) < Work(flow.sys, |p.ids|))
      && (flow.sys.result.None? && !(move.Take? && IsDue(flow.sys, move.event)) ==>
        next.sys == flow.sys.(store := next.sys.store))
  {
    hide Underway, ReceiverInStep, Matches, Step, IsDue, Allowed, Inv;
    UnderwayFacts(flow.sys.store, p, flow.upload.sent);
    if move.Take? {
      if flow.sys.result.Some? {
        AfterResult(flow.sys, ticket, move.event);
      } else {
        DueWorks(flow, p, ticket, move.event);
      }
    }
  }

  /** A stream that has not finished has a next step. */
  lemma SomethingDue(flow: Flow, p: Publication) returns (event: Event)
    requires FlowOk(flow, p) && flow.sys.result.None?
    ensures IsDue(flow.sys, event)
  {
    hide Underway, Split, SnapshotOk, TakenOk, FramesBetween, Inv;
    UnderwayFacts(flow.sys.store, p, flow.upload.sent);
    var sys := flow.sys;
    event :=
      if sys.session.status.Opening? then Open(0)
      else if sys.session.status.Ended? then Deliver
      else if sys.session.snapshot.None? then Poll(0)
      else if SendsChunk(sys) then SendChunk
      else SendTerminal;
  }

  /** The moves include every kind of step of the stream; whatever else they include does not matter. */
  predicate Round(moves: seq<Move>) {
    Includes(moves, Open(0)) && Includes(moves, Poll(0)) && Includes(moves, SendChunk)
    && Includes(moves, SendTerminal) && Includes(moves, Deliver)
  }

  predicate Includes(moves: seq<Move>, event: Event) {
    exists i :: 0 <= i < |moves| && moves[i].Take? && SameKind(moves[i].event, event)
  }

  lemma {:induction false} IncludedWorks(flow: Flow, p: Publication, ticket: Ticket, moves: seq<Move>, event: Event)
    requires LosslessCodec() && FlowOk(flow, p) && Matches(ticket, p) && AllAllowed(flow, p, ticket, moves)
    requires flow.upload.sent == |p.ids| + 1 && IsDue(flow.sys, event) && Includes(moves, event)
    ensures Work(Moves(flow, p, ticket, moves).sys, |p.ids|) < Work(flow.sys, |p.ids|)
    decreases |moves|
  {
    hide FlowOk, Matches, Step, Allowed, Work;
    FlowDeclares(flow, p);
    var next := Advance(flow, p, ticket, moves[0]);
    MoveWorks(flow, p, ticket, moves[0]);
    MoveKeeps(flow, p, ticket, moves[0]);
    if moves[0].Take? && IsDue(flow.sys, moves[0].event) {
      WorkShrinks(next, p, ticket, moves[1..]);
    } else {
      var i :| 0 <= i < |moves| && moves[i].Take? && SameKind(moves[i].event, event);
      assert i > 0 && moves[1..][i - 1] == moves[i];
      IncludedWorks(next, p, ticket, moves[1..], event);
    }
  }

  function Concat(rounds: seq<seq<Move>>): seq<Move> {
    if rounds == [] then [] else rounds[0] + Concat(rounds[1..])
  }

  predicate AllRounds(rounds: seq<seq<Move>>) {
    forall i :: 0 <= i < |rounds| ==> Round(rounds[i])
  }

  lemma {:induction false} RoundsWork(flow: Flow, p: Publication, ticket: Ticket, rounds: seq<seq<Move>>)
    requires LosslessCodec() && FlowOk(flow, p) && Matches(ticket, p) && flow.upload.sent == |p.ids| + 1
    requires AllAllowed(flow, p, ticket, Concat(rounds)) && AllRounds(rounds)
    ensures var end := Moves(flow, p, ticket, Concat(rounds)).sys;
      end.result.Some? || Work(end, |p.ids|) <= Work(flow.sys, |p.ids|) - |rounds|
    decreases |rounds|
  {
    hide FlowOk, Matches, Work, Advance, Allowed, IsDue;
    FlowDeclares(flow, p);
    if rounds != [] {
      MovesAppend(flow, p, ticket, rounds[0], Concat(rounds[1..]));
      var next := Moves(flow, p, ticket, rounds[0]);
      WorkShrinks(flow, p, ticket, rounds[0]);
      MovesKeep(flow, p, ticket, rounds[0]);
      RoundsWork(next, p, ticket, rounds[1..]);
      if flow.sys.result.None? {
        RoundWorks(flow, p, ticket, rounds[0]);
      } else {
        WorkBound(flow, p);
        var end := Moves(next, p, ticket, Concat(rounds[1..]));
        WorkShrinks(next, p, ticket, Concat(rounds[1..]));
        MovesKeep(next, p, ticket, Concat(rounds[1..]));
        WorkBound(end, p);
      }
    }
  }

  lemma RoundWorks(flow: Flow, p: Publication, ticket: Ticket, moves: seq<Move>)
    requires LosslessCodec() && FlowOk(flow, p) && Matches(ticket, p) && AllAllowed(flow, p, ticket, moves)
    requires flow.upload.sent == |p.ids| + 1 && flow.sys.result.None? && Round(moves)
    ensures Work(Moves(flow, p, ticket, moves).sys, |p.ids|) < Work(flow.sys, |p.ids|)
  {
    hide FlowOk, Matches, Work, AllAllowed, Moves;
    var event := SomethingDue(flow, p);
    var kind := match event case Open(_) => Open(0) case Poll(_) => Poll(0) case _ => event;
    assert IsDue(flow.sys, kind);
    IncludedWorks(flow, p, ticket, moves, kind);
  }

  /**
   * Completeness of the live stream: after the commit, `2n + 5` rounds in each of which every kind of step gets its turn
   * deliver exactly the artifact, from any state that an allowed interleaving may have reached.
   */
  lemma FairStreamCompletes(flow: Flow, p: Publication, ticket: Ticket, rounds: seq<seq<Move>>)
    requires LosslessCodec() && FlowOk(flow, p) && Matches(ticket, p) && flow.upload.sent == |p.ids| + 1
    requires AllAllowed(flow, p, ticket, Concat(rounds)) && AllRounds(rounds) && |rounds| >= 2 * |p.ids| + 5
    ensures Moves(flow, p, ticket, Concat(rounds)).sys.result == Some(Ok(p.data))
  {
    hide FlowOk, Matches, Work, Round, Allowed, Advance;
    FlowDeclares(flow, p);
    var end := Moves(flow, p, ticket, Concat(rounds));
    RoundsWork(flow, p, ticket, rounds);
    MovesKeep(flow, p, ticket, Concat(rounds));
    WorkBound(flow, p);
    WorkBound(end, p);
    ReceiverOnlySucceeds(end, p);
  }

  // ---------------------------------------------------------------------------
  // The polling download
  // ---------------------------------------------------------------------------

  /** A reader's `k`-th request sees the state after the first `schedule(k)` moves. */
  ghost predicate Watches(
    world: nat -> Void, schedule: nat -> nat, flow: Flow, p: Publication, ticket: Ticket, moves: seq<Move>)
    requires Declares(p)
  {
    && (forall k: nat :: schedule(k) <= |moves|)
    && (forall j: nat, k: nat :: j <= k ==> schedule(j) <= schedule(k))
    && (forall k: nat :: world(k) == Moves(flow, p, ticket, moves[..schedule(k)]).sys.store)
  }

  /** The first `k` moves include the commit. */
  predicate CommittedBy(flow: Flow, p: Publication, ticket: Ticket, moves: seq<Move>, k: nat)
    requires Declares(p)
  {
    k <= |moves| && Moves(flow, p, ticket, moves[..k]).upload.sent == |p.ids| + 1
  }

  /** Between two points of a run the server only evolves. */
  lemma MovesTo(flow: Flow, p: Publication, ticket: Ticket, moves: seq<Move>, j: nat, k: nat)
    requires LosslessCodec() && FlowOk(flow, p) && Matches(ticket, p) && AllAllowed(flow, p, ticket, moves)
    requires j <= k <= |moves|
    ensures FlowOk(Moves(flow, p, ticket, moves[..j]), p)
    ensures Evolves(Moves(flow, p, ticket, moves[..j]).sys.store, Moves(flow, p, ticket, moves[..k]).sys.store)
  {
    hide FlowOk, Matches, Evolves, Moves, AllAllowed;
    FlowDeclares(flow, p);
    var a, b, c := moves[..j], moves[j..k], moves[k..];
    assert moves == a + (b + c) && a + b == moves[..k];
    MovesAppend(flow, p, ticket, a, b + c);
    MovesKeep(flow, p, ticket, a);
    MovesAppend(flow, p, ticket, a, b);
    MovesAppend(Moves(flow, p, ticket, a), p, ticket, b, c);
    MovesKeep(Moves(flow, p, ticket, a), p, ticket, b);
  }

  lemma FlowFacts(flow: Flow, p: Publication)
    requires FlowOk(flow, p)
    ensures Inv(flow.sys.store) && HasRecord(flow.sys.store, p.begin.transferId)
    ensures !IsAborted(flow.sys.store, p.begin.transferId)
    ensures flow.upload.sent == |p.ids| + 1 ==> Delivers(flow.sys.store, p.begin.transferId, p.data)
    ensures RecordOf(flow.sys.store, p.begin.transferId).begin == p.begin
  {
    hide ReceiverInStep, Delivers, Inv;
    UnderwayFacts(flow.sys.store, p, flow.upload.sent);
    if flow.upload.sent == |p.ids| + 1 { CommittedDelivers(flow.sys.store, p); }
  }

  /**
   * The polling download started any time after the begin request, whatever happens in between and during its polls:
   * when request `last` and later ones see the commit, it returns the artifact if and only if the polls before that
   * one end within the lease.
   */
  lemma StagedDownloadCompletes(
    flow: Flow, p: Publication, ticket: Ticket, moves: seq<Move>, world: nat -> Void, schedule: nat -> nat,
    clock: nat -> nat, last: nat)
    requires LosslessCodec() && FlowOk(flow, p) && Matches(ticket, p) && AllAllowed(flow, p, ticket, moves)
    requires Declares(p) && Watches(world, schedule, flow, p, ticket, moves) && Ticks(clock)
    requires CommittedBy(flow, p, ticket, moves, schedule(last))
    ensures Unfolds(world)
    ensures DownloadFrom(world, clock, p.begin.transferId, NOTHING_STAGED) == Ok(p.data)
      <==> PollsInTime(world, clock, p.begin.transferId, NOTHING_STAGED, p.begin.deadline, last)
  {
    hide FlowOk, Matches, Evolves, Moves, AllAllowed, Ticks, Inv;
    var t := p.begin.transferId;
    forall k: nat ensures Inv(world(k)) && HasRecord(world(k), t) && !IsAborted(world(k), t) {
      MovesTo(flow, p, ticket, moves, schedule(k), schedule(k));
      FlowFacts(Moves(flow, p, ticket, moves[..schedule(k)]), p);
    }
    forall j: nat, k: nat | j <= k ensures Evolves(world(j), world(k)) {
      MovesTo(flow, p, ticket, moves, schedule(j), schedule(k));
    }
    MovesTo(flow, p, ticket, moves, schedule(last), schedule(last));
    FlowFacts(Moves(flow, p, ticket, moves[..schedule(last)]), p);
    DownloadCompletes(world, clock, t, NOTHING_STAGED, last);
  }

  // ---------------------------------------------------------------------------
  // The round trip
  // ---------------------------------------------------------------------------

  /** In every allowed interleaving the producer's frames are accepted; after the commit the content is the artifact. */
  lemma PublicationCommits(s: Void, p: Publication, ticket: Ticket, now: U64, moves: seq<Move>)
    requires LosslessCodec() && Inv(s) && Declares(p) && Unused(s, p) && now < p.begin.deadline && Matches(ticket, p)
    requires AllAllowed(Begun(s, p, now), p, ticket, moves)
    ensures FlowOk(Moves(Begun(s, p, now), p, ticket, moves), p)
    ensures var flow := Moves(Begun(s, p, now), p, ticket, moves);
      && !flow.upload.failed
      && (flow.upload.sent == |p.ids| + 1 ==> Delivers(flow.sys.store, p.begin.transferId, p.data))
  {
    hide Moves, Inv, Unused, Matches, AllAllowed, Delivers, Underway, ReceiverInStep, Begun;
    BegunOk(s, p, now);
    MovesKeep(Begun(s, p, now), p, ticket, moves);
    FlowFacts(Moves(Begun(s, p, now), p, ticket, moves), p);
  }

  /**
   * The whole round trip, over every interleaving of the publication with a live stream and with anyone else's requests.
   * The live receiver never fails, has the artifact once the stream is drained, and drains it under every fair
   * continuation after the commit; the polling download returns the artifact exactly when its polls before the commit
   * end within the lease; and the resolver returns it from the commit on.
   */
  lemma PublicationComesBack(s: Void, p: Publication, ticket: Ticket, now: U64, moves: seq<Move>)
    requires LosslessCodec() && Inv(s) && Declares(p) && Unused(s, p) && now < p.begin.deadline && Matches(ticket, p)
    requires AllAllowed(Begun(s, p, now), p, ticket, moves)
    ensures var flow := Moves(Begun(s, p, now), p, ticket, moves);
      && (flow.sys.result.None? || flow.sys.result == Some(Ok(p.data)))
      && (Drained(flow.sys) ==> flow.sys.result == Some(Ok(p.data)))
      && (flow.upload.sent == |p.ids| + 1 ==>
        && ResolveTransfer(flow.sys.store, p.begin.transferId) == Ok(p.data)
        && forall rounds ::
          AllAllowed(flow, p, ticket, Concat(rounds)) && AllRounds(rounds) && |rounds| >= 2 * |p.ids| + 5 ==>
          Moves(flow, p, ticket, Concat(rounds)).sys.result == Some(Ok(p.data)))
    ensures forall world: nat -> Void, schedule: nat -> nat, clock: nat -> nat, last: nat
      {:trigger Watches(world, schedule, Begun(s, p, now), p, ticket, moves), Ticks(clock), schedule(last)} ::
      && Watches(world, schedule, Begun(s, p, now), p, ticket, moves) && Ticks(clock)
      && CommittedBy(Begun(s, p, now), p, ticket, moves, schedule(last)) ==>
        (DownloadFrom(world, clock, p.begin.transferId, NOTHING_STAGED) == Ok(p.data)
         <==> PollsInTime(world, clock, p.begin.transferId, NOTHING_STAGED, p.begin.deadline, last))
  {
    hide Moves, Inv, Unused, Matches, AllAllowed, Underway, ReceiverInStep, Begun, Concat, Round, Watches, Ticks,
      ReadChunks;
    var start := Begun(s, p, now);
    var flow := Moves(start, p, ticket, moves);
    BegunOk(s, p, now);
    PublicationCommits(s, p, ticket, now, moves);
    ReceiverOnlySucceeds(flow, p);
    FlowFacts(flow, p);
    ResolvesExactlyCommitted(flow.sys.store, p.begin.transferId);
    if flow.upload.sent == |p.ids| + 1 {
      forall rounds | AllAllowed(flow, p, ticket, Concat(rounds)) && AllRounds(rounds) && |rounds| >= 2 * |p.ids| + 5
        ensures Moves(flow, p, ticket, Concat(rounds)).sys.result == Some(Ok(p.data))
      {
        FairStreamCompletes(flow, p, ticket, rounds);
      }
    }
    forall world: nat -> Void, schedule: nat -> nat, clock: nat -> nat, last: nat
      {:trigger Watches(world, schedule, start, p, ticket, moves), Ticks(clock), schedule(last)}
      | && Watches(world, schedule, start, p, ticket, moves) && Ticks(clock)
        && CommittedBy(start, p, ticket, moves, schedule(last))
      ensures DownloadFrom(world, clock, p.begin.transferId, NOTHING_STAGED) == Ok(p.data)
        <==> PollsInTime(world, clock, p.begin.transferId, NOTHING_STAGED, p.begin.deadline, last)
    {
      StagedDownloadCompletes(start, p, ticket, moves, world, schedule, clock, last);
    }
  }
}
