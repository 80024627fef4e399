/** Which trees strand room: exactly those that are not steady. */
module PlacementExact {
  import opened Basics
  import opened Placement
  import opened PlacementTree

  // ---------------------------------------------------------------------------
  // Trees that have only seen one operation
  // ---------------------------------------------------------------------------

  /** Whatever runs in the tree got there as an instance of `op`. */
  predicate OnlyRuns(n: Node, op: Operation)
    decreases n
  {
    && (n.instances != {} ==> op in n.operations)
    && (forall i :: 0 <= i < |n.workers| ==>
      && (n.workers[i].node.routes != map[] ==> op in n.workers[i].node.operations)
      && OnlyRuns(n.workers[i].node, op))
  }

  lemma {:induction false} IdleRunsNothing(n: Node, op: Operation)
    requires Idle(n)
    ensures OnlyRuns(n, op)
    decreases n
  {
    hide Capacity;
    forall i | 0 <= i < |n.workers| ensures OnlyRuns(n.workers[i].node, op) { IdleRunsNothing(n.workers[i].node, op); }
    forall i | 0 <= i < |n.workers| ensures n.workers[i].node.routes == map[] { assert Idle(n.workers[i].node); }
  }

  lemma {:induction false} StartRunsOnly(n: Node, id: Id, op: Operation)
    requires TreeOk(n) && OnlyRuns(n, op) && StartAt(n, id, op).Ok?
    ensures OnlyRuns(StartAt(n, id, op).value, op)
    decreases n
  {
    hide TreeOk, Load, LimitOf, Select;
    StartNeeds(n, id, op);
    var k := StartUnfolds(n, id, op);
    if k > 0 {
      TreeBelow(n, k - 1);
      StartRunsOnly(n.workers[k - 1].node, id, op);
    }
  }

  // ---------------------------------------------------------------------------
  // Starts and shutdowns do not change what is steady
  // ---------------------------------------------------------------------------

  lemma ReplacedSteady(n: Node, k: nat, child: Node, n': Node, op: Operation)
    requires 0 < k <= |n.workers| && n'.limit == n.limit && n'.operations == n.operations
    requires n'.workers == n.workers[k - 1 := n.workers[k - 1].(node := child)]
    requires child.limit == n.workers[k - 1].node.limit && child.operations == n.workers[k - 1].node.operations
    requires Steady(child, op) <==> Steady(n.workers[k - 1].node, op)
    ensures Steady(n', op) <==> Steady(n, op)
  {
    forall i | 0 <= i < |n.workers|
      ensures n'.workers[i].advertised == n.workers[i].advertised && n'.workers[i].node.limit == n.workers[i].node.limit
      ensures n'.workers[i].node.operations == n.workers[i].node.operations
      ensures Steady(n'.workers[i].node, op) <==> Steady(n.workers[i].node, op)
    {
      if i == k - 1 { assert n'.workers[i].node == child; }
    }
  }

  predicate SameSetup(n: Node, n': Node) {
    n'.limit == n.limit && n'.operations == n.operations
  }

  lemma {:induction false} StartKeepsSteady(n: Node, id: Id, started: Operation, op: Operation)
    requires TreeOk(n) && StartAt(n, id, started).Ok?
    ensures SameSetup(n, StartAt(n, id, started).value)
    ensures Steady(StartAt(n, id, started).value, op) <==> Steady(n, op)
    decreases n
  {
    hide TreeOk, Load, LimitOf, Select, Steady;
    StartNeeds(n, id, started);
    var k := StartUnfolds(n, id, started);
    if k > 0 {
      TreeBelow(n, k - 1);
      StartKeepsSteady(n.workers[k - 1].node, id, started, op);
      var child := StartAt(n.workers[k - 1].node, id, started).value;
      ReplacedSteady(n, k, child, Extended(n, id, k, child), op);
    } else {
      SameWorkersSteady(n, Extended(n, id, 0, n), op);
    }
  }

  lemma SameWorkersSteady(n: Node, n': Node, op: Operation)
    requires SameSetup(n, n') && n'.workers == n.workers
    ensures Steady(n', op) <==> Steady(n, op)
  {
  }

  lemma {:induction false} ShutdownKeepsSteady(n: Node, id: Id, op: Operation)
    requires TreeOk(n) && ShutdownAt(n, id).Ok?
    ensures SameSetup(n, ShutdownAt(n, id).value)
    ensures Steady(ShutdownAt(n, id).value, op) <==> Steady(n, op)
    decreases n
  {
    hide TreeOk, Load, LimitOf, Steady;
    ShutdownKeeps(n, id);
    var k := RoutedIndex(n, id);
    if k > 0 {
      TreeBelow(n, k - 1);
      ShutdownKeeps(n.workers[k - 1].node, id);
      ShutdownKeepsSteady(n.workers[k - 1].node, id, op);
      var child := ShutdownAt(n.workers[k - 1].node, id).value;
      assert ShutdownAt(n, id) == Ok(Reduced(n, id, k, child));
      ReplacedSteady(n, k, child, Reduced(n, id, k, child), op);
    } else {
      assert ShutdownAt(n, id) == Ok(Reduced(n, id, 0, n));
      SameWorkersSteady(n, Reduced(n, id, 0, n), op);
    }
  }

  lemma {:induction false} RunKeepsSteady(n: Node, run: seq<RootRequest>, op: Operation)
    requires TreeOk(n)
    ensures TreeOk(ServeAll(n, run)) && Capacity(ServeAll(n, run)) == Capacity(n)
    ensures Steady(ServeAll(n, run), op) <==> Steady(n, op)
    decreases |run|
  {
    hide TreeOk, Capacity, Steady;
    if run != [] {
      if run[0].Start? {
        if StartAt(n, run[0].id, run[0].op).Ok? {
          StartKeeps(n, run[0].id, run[0].op);
          StartKeepsSteady(n, run[0].id, run[0].op, op);
        }
      } else {
        ShutdownKeeps(n, run[0].id);
        if ShutdownAt(n, run[0].id).Ok? { ShutdownKeepsSteady(n, run[0].id, op); }
      }
      RunKeepsSteady(Serve(n, run[0]), run[1..], op);
    }
  }

  // ---------------------------------------------------------------------------
  // A full tree was steady
  // ---------------------------------------------------------------------------

  /** A bounded tree that instances of `op` alone have filled up is steady for `op`. */
  lemma {:induction false} FullIsSteady(n: Node, op: Operation)
    requires TreeOk(n) && OnlyRuns(n, op) && n.limit.Some? && Capacity(n).Some?
    requires |n.routes| == Capacity(n).value < USIZE_MAX
    ensures Steady(n, op)
    decreases n
  {
    hide Load, IdsTo;
    OccupancyIsLoad(n);
    RoomIsTotal(n, |n.workers|);
    assert !RoomUpTo(n, |n.workers| + 1);
    assert !HasCapacity(LimitOf(n, 0), Load(n, TargetOf(n, 0)));
    LocalLoad(n);
    forall i | 0 <= i < |n.workers| && n.workers[i].advertised != Some(0)
      ensures op in n.workers[i].node.operations
      ensures n.workers[i].node.limit.None? || Steady(n.workers[i].node, op)
    {
      assert !HasCapacity(LimitOf(n, i + 1), Load(n, TargetOf(n, i + 1)));
      WorkerFull(n, i);
      var child := n.workers[i].node;
      if child.limit.Some? {
        BoundedCapacity(child, |child.workers|);
        FullIsSteady(child, op);
      }
    }
  }

  lemma LocalLoad(n: Node)
    requires TreeOk(n)
    ensures Load(n, TargetOf(n, 0)) == |n.instances|
  {
  }

  lemma WorkerFull(n: Node, i: nat)
    requires TreeOk(n) && i < |n.workers| && |n.routes| < USIZE_MAX
    requires !HasCapacity(LimitOf(n, i + 1), Load(n, TargetOf(n, i + 1))) && n.workers[i].advertised != Some(0)
    ensures var child := n.workers[i].node;
      && TreeOk(child) && child.routes != map[] && |child.routes| < USIZE_MAX
      && (Capacity(child).Some? ==> |child.routes| == Capacity(child).value)
  {
    hide Capacity;
    var child := n.workers[i].node;
    UpToDate(n, i);
    assert Within(LimitOf(n, i + 1), Load(n, TargetOf(n, i + 1)));
    assert child.routes.Keys == IdsTo(n, ToWorker(n.workers[i].token)) <= n.routes.Keys;
    SubsetSize(child.routes.Keys, n.routes.Keys);
    assert |child.routes| == |child.routes.Keys|;
  }

  /** A node with its own bound has a total bound, since workers always advertise one. */
  lemma {:induction false} BoundedCapacity(n: Node, k: nat)
    requires TreeOk(n) && n.limit.Some? && k <= |n.workers|
    ensures CapacityUpTo(n, k).Some?
  {
    hide Capacity;
    if k > 0 {
      BoundedCapacity(n, k - 1);
      UpToDate(n, k - 1);
    }
  }

  // ---------------------------------------------------------------------------
  // Filling a tree
  // ---------------------------------------------------------------------------

  /** Starts of the ids 0, 1, ..., `k - 1`. */
  function Starts(op: Operation, k: nat): seq<RootRequest> {
    if k == 0 then [] else Starts(op, k - 1) + [Start(k - 1, op)]
  }

  lemma {:induction false} ServeLast(n: Node, run: seq<RootRequest>, last: RootRequest)
    ensures ServeAll(n, run + [last]) == Serve(ServeAll(n, run), last)
    decreases |run|
  {
    hide Serve;
    if run == [] {
      assert run + [last] == [last] && [last][1..] == [];
      assert ServeAll(n, [last]) == ServeAll(Serve(n, last), []);
    } else {
      assert (run + [last])[0] == run[0] && (run + [last])[1..] == run[1..] + [last];
      ServeLast(Serve(n, run[0]), run[1..], last);
    }
  }

  /** A start of a new id in a reachable state succeeds exactly when there is room. */
  predicate StartsWell(n: Node, id: Id, op: Operation) {
    id !in n.routes && |n.routes| < USIZE_MAX ==> (StartAt(n, id, op).Ok? <==> HasCapacity(Capacity(n), |n.routes|))
  }

  /** In no reachable state is room stranded: nor can a start succeed without room. */
  ghost predicate NeverStrands(n: Node, op: Operation) {
    forall run, id :: StartsWell(ServeAll(n, run), id, op)
  }

  /** What filling an idle tree with `k` instances of `op` leaves. */
  ghost predicate Filled(n: Node, op: Operation, k: nat) {
    var n' := ServeAll(n, Starts(op, k));
    && TreeOk(n') && OnlyRuns(n', op) && Capacity(n') == Capacity(n) && (Steady(n', op) <==> Steady(n, op))
    && SameSetup(n, n') && Balanced(n', op) && n'.routes.Keys == FirstIds(k) && |n'.routes| == k
    && AdvertisedUpTo(n', |n'.workers|) == AdvertisedUpTo(n, |n.workers|)
  }

  function FirstIds(k: nat): (r: set<Id>)
    ensures |r| == k
    ensures forall i: Id :: i in r ==> i < k
    ensures forall i: Id :: i < k ==> i in r
  {
    if k == 0 then {} else FirstIds(k - 1) + {k - 1}
  }

  /** After `j` instances of `op` the start of another one succeeds. */
  predicate StartsNext(n: Node, op: Operation, j: nat) {
    StartAt(ServeAll(n, Starts(op, j)), j, op).Ok?
  }

  predicate AllStart(n: Node, op: Operation, k: nat) {
    forall j :: 0 <= j < k ==> StartsNext(n, op, j)
  }

  lemma {:induction false} FirstFailure(n: Node, op: Operation, k: nat) returns (j: nat)
    requires !AllStart(n, op, k)
    ensures j < k && AllStart(n, op, j) && !StartsNext(n, op, j)
  {
    hide StartsNext;
    if AllStart(n, op, k - 1) { j := k - 1; } else { j := FirstFailure(n, op, k - 1); }
  }

  lemma {:induction false} Fill(n: Node, op: Operation, k: nat)
    requires Idle(n) && AllStart(n, op, k)
    ensures Filled(n, op, k)
  {
    hide TreeOk, Capacity, Steady, StartAt, OnlyRuns, Balanced, AdvertisedUpTo;
    if k == 0 {
      IdleIsOk(n);
      IdleRunsNothing(n, op);
      IdleIsBalanced(n, op);
    } else {
      Fill(n, op, k - 1);
      var before := ServeAll(n, Starts(op, k - 1));
      assert StartsNext(n, op, k - 1);
      ServeLast(n, Starts(op, k - 1), Start(k - 1, op));
      StartKeeps(before, k - 1, op);
      StartRunsOnly(before, k - 1, op);
      StartKeepsSteady(before, k - 1, op, op);
      StartBalanced(before, k - 1, op);
      StartKeepsAdvertised(before, k - 1, op);
    }
  }

  lemma StartKeepsAdvertised(n: Node, id: Id, op: Operation)
    requires TreeOk(n) && StartAt(n, id, op).Ok?
    ensures var n' := StartAt(n, id, op).value;
      |n'.workers| == |n.workers| && AdvertisedUpTo(n', |n'.workers|) == AdvertisedUpTo(n, |n.workers|)
  {
    hide TreeOk, Load, Select, LimitOf;
    StartNeeds(n, id, op);
    var k := StartUnfolds(n, id, op);
    SameAdvertised(n, StartAt(n, id, op).value, |n.workers|);
  }

  lemma {:induction false} SameAdvertised(n: Node, n': Node, k: nat)
    requires k <= |n.workers| == |n'.workers|
    requires forall i :: 0 <= i < |n.workers| ==> n'.workers[i].advertised == n.workers[i].advertised
    ensures AdvertisedUpTo(n', k) == AdvertisedUpTo(n, k)
  {
    if k > 0 { SameAdvertised(n, n', k - 1); }
  }

  // ---------------------------------------------------------------------------
  // Unbounded roots
  // ---------------------------------------------------------------------------

  /** No compatible worker with room lags more than one instance behind the node itself. */
  predicate Balanced(n: Node, op: Operation) {
    forall i :: 0 <= i < |n.workers| && op in n.workers[i].node.operations ==>
      !HasCapacity(LimitOf(n, i + 1), Load(n, TargetOf(n, i + 1)))
      || Load(n, TargetOf(n, i + 1)) + 1 >= Load(n, TargetOf(n, 0))
  }

  lemma IdleIsBalanced(n: Node, op: Operation)
    requires Idle(n)
    ensures Balanced(n, op) && n.routes.Keys == {}
  {
    IdleLoads(n);
  }

  lemma ExtendedOtherLoad(n: Node, id: Id, k: nat, child: Node, j: nat)
    requires DistinctTokens(n.workers) && k <= |n.workers| && j <= |n.workers| && j != k && id !in n.routes
    ensures LimitOf(Extended(n, id, k, child), j) == LimitOf(n, j)
    ensures Load(Extended(n, id, k, child), TargetOf(n, j)) == Load(n, TargetOf(n, j))
  {
    assert TargetOf(n, j) != TargetOf(n, k);
    assert IdsTo(Extended(n, id, k, child), TargetOf(n, j)) == IdsTo(n, TargetOf(n, j));
  }

  lemma StartBalanced(n: Node, id: Id, op: Operation)
    requires TreeOk(n) && Balanced(n, op) && StartAt(n, id, op).Ok?
    ensures Balanced(StartAt(n, id, op).value, op)
  {
    hide TreeOk, Load, Select;
    StartNeeds(n, id, op);
    TreeFacts(n);
    var k := StartUnfolds(n, id, op);
    var child := n;
    if k > 0 {
      TreeBelow(n, k - 1);
      StartKeepsSteady(n.workers[k - 1].node, id, op, op);
      child := StartAt(n.workers[k - 1].node, id, op).value;
    }
    var n' := Extended(n, id, k, child);
    ExtendedLoad(n, id, k, child);
    forall j | 0 <= j <= |n.workers|
      ensures LimitOf(n', j) == LimitOf(n, j) && TargetOf(n', j) == TargetOf(n, j)
      ensures Load(n', TargetOf(n, j)) == Load(n, TargetOf(n, j)) + if j == k then 1 else 0
    {
      if j != k { ExtendedOtherLoad(n, id, k, child, j); }
    }
  }

  /** What the first `k` workers advertise together. */
  function AdvertisedUpTo(n: Node, k: nat): nat
    requires k <= |n.workers|
  {
    if k == 0 then 0
    else
      var last := n.workers[k - 1].advertised;
      AdvertisedUpTo(n, k - 1) + if last.Some? then last.value else 0
  }

  lemma {:induction false} LoadsWithinAdvertised(n: Node, k: nat)
    requires TreeOk(n) && k <= |n.workers|
    ensures LoadUpTo(n, k + 1) <= Load(n, TargetOf(n, 0)) + AdvertisedUpTo(n, k)
  {
    hide Load, Capacity, TargetOf;
    if k == 0 {
      assert LoadUpTo(n, 1) == LoadUpTo(n, 0) + Load(n, TargetOf(n, 0));
    } else {
      LoadsWithinAdvertised(n, k - 1);
      UpToDate(n, k - 1);
      assert Within(LimitOf(n, k), Load(n, TargetOf(n, k)));
    }
  }

  lemma {:induction false} OneWithinAll(n: Node, i: nat, k: nat)
    requires i < k <= |n.workers| && n.workers[i].advertised.Some?
    ensures n.workers[i].advertised.value <= AdvertisedUpTo(n, k)
  {
    if i < k - 1 { OneWithinAll(n, i, k - 1); }
  }

  /** Once an unbounded node hosts more than its workers advertise together, every compatible worker is full. */
  lemma OverfullIsSteady(n: Node, op: Operation)
    requires TreeOk(n) && OnlyRuns(n, op) && Balanced(n, op) && n.limit.None? && |n.routes| < USIZE_MAX
    requires |n.routes| >= 2 * AdvertisedUpTo(n, |n.workers|) + 2
    ensures Steady(n, op)
  {
    hide Load, IdsTo, Capacity;
    OccupancyIsLoad(n);
    LoadsWithinAdvertised(n, |n.workers|);
    LocalLoad(n);
    assert op in n.operations;
    forall i | 0 <= i < |n.workers| && n.workers[i].advertised != Some(0) && op in n.workers[i].node.operations
      ensures n.workers[i].node.limit.None? || Steady(n.workers[i].node, op)
    {
      UpToDate(n, i);
      OneWithinAll(n, i, |n.workers|);
      assert Within(LimitOf(n, i + 1), Load(n, TargetOf(n, i + 1)));
      assert !HasCapacity(LimitOf(n, i + 1), Load(n, TargetOf(n, i + 1)));
      WorkerFull(n, i);
      var child := n.workers[i].node;
      if child.limit.Some? {
        CapacityIsBounded(child);
        FullIsSteady(child, op);
      }
    }
  }

  lemma CapacityIsBounded(n: Node)
    requires TreeOk(n) && n.limit.Some?
    ensures Capacity(n).Some?
  {
    BoundedCapacity(n, |n.workers|);
  }

  // ---------------------------------------------------------------------------
  // The condition
  // ---------------------------------------------------------------------------

  lemma SteadyNeverStrands(n: Node, op: Operation)
    requires TreeOk(n) && Steady(n, op)
    ensures NeverStrands(n, op)
  {
    forall run, id ensures StartsWell(ServeAll(n, run), id, op) {
      RunKeepsSteady(n, run, op);
      var n' := ServeAll(n, run);
      if id !in n'.routes && |n'.routes| < USIZE_MAX { StartSucceedsIffRoom(n', id, op); }
    }
  }

  /** The first start that fails while an idle tree is filled finds `k` instances, and there is room for more. */
  ghost predicate StrandsAt(n: Node, op: Operation, k: nat) {
    var n' := ServeAll(n, Starts(op, k));
    && |n'.routes| == k && k !in n'.routes && StartAt(n', k, op).Err?
    && HasCapacity(Capacity(n'), k) && Capacity(n') == Capacity(n)
  }

  lemma UnfilledStrands(n: Node, op: Operation, bound: nat) returns (k: nat)
    requires Idle(n) && !AllStart(n, op, bound) && (Capacity(n).Some? ==> bound <= Capacity(n).value)
    ensures k < bound && StrandsAt(n, op, k)
  {
    hide TreeOk, Capacity, Steady, OnlyRuns, Balanced, AdvertisedUpTo;
    k := FirstFailure(n, op, bound);
    Fill(n, op, k);
    assert k !in FirstIds(k);
  }

  /** A bounded idle tree that is not steady strands room while it is filled with instances of `op` alone. */
  lemma UnsteadyStrands(n: Node, op: Operation) returns (k: nat)
    requires Idle(n) && Capacity(n).Some? && Capacity(n).value < USIZE_MAX && !Steady(n, op)
    ensures k < Capacity(n).value && StrandsAt(n, op, k)
  {
    hide TreeOk, Capacity, Steady, OnlyRuns, Balanced, StrandsAt, AdvertisedUpTo;
    var cap := Capacity(n).value;
    if AllStart(n, op, cap) {
      Fill(n, op, cap);
      if n.limit.None? { CapacityIsUnbounded(n); }
      FullIsSteady(ServeAll(n, Starts(op, cap)), op);
    }
    k := UnfilledStrands(n, op, cap);
  }

  lemma CapacityIsUnbounded(n: Node)
    requires n.limit.None?
    ensures Capacity(n) == None
  {
    UnboundedCapacity(n, |n.workers|);
  }

  /** So does an unbounded one, after finitely many starts. */
  lemma UnsteadyUnboundedStrands(n: Node, op: Operation) returns (k: nat)
    requires Idle(n) && n.limit.None? && 2 * AdvertisedUpTo(n, |n.workers|) + 2 < USIZE_MAX && !Steady(n, op)
    ensures k < USIZE_MAX && StrandsAt(n, op, k)
  {
    hide TreeOk, Capacity, Steady, OnlyRuns, Balanced, StrandsAt, AdvertisedUpTo;
    var bound := 2 * AdvertisedUpTo(n, |n.workers|) + 2;
    CapacityIsUnbounded(n);
    if AllStart(n, op, bound) {
      Fill(n, op, bound);
      OverfullIsSteady(ServeAll(n, Starts(op, bound)), op);
    }
    k := UnfilledStrands(n, op, bound);
  }

  lemma StrandsOnce(n: Node, op: Operation, k: nat)
    requires StrandsAt(n, op, k) && k < USIZE_MAX
    ensures !NeverStrands(n, op)
  {
    hide Capacity;
    assert !StartsWell(ServeAll(n, Starts(op, k)), k, op);
  }

  /**
   * Exactly the steady trees never strand room: an idle tree of bounded capacity is steady for `op` if and only if,
   * after every run of starts and shutdowns of any operations, a start of a new id of `op` succeeds exactly when the
   * occupancy is below the total capacity.
   */
  lemma NeverStrandsExactly(n: Node, op: Operation)
    requires Idle(n) && Capacity(n).Some? && Capacity(n).value < USIZE_MAX
    ensures Steady(n, op) <==> NeverStrands(n, op)
  {
    hide TreeOk, Capacity, Steady, NeverStrands, StrandsAt;
    IdleIsOk(n);
    if Steady(n, op) {
      SteadyNeverStrands(n, op);
    } else {
      var k := UnsteadyStrands(n, op);
      StrandsOnce(n, op, k);
    }
  }

  /**
   * The same for a tree whose root is unbounded, in which every start should succeed. A server always resolves its own
   * limit to a number, so this is about the type of the limit and not about a configuration that a server can have.
   */
  lemma NeverStrandsUnbounded(n: Node, op: Operation)
    requires Idle(n) && n.limit.None? && 2 * AdvertisedUpTo(n, |n.workers|) + 2 < USIZE_MAX
    ensures Steady(n, op) <==> NeverStrands(n, op)
  {
    hide TreeOk, Capacity, Steady, NeverStrands, StrandsAt;
    IdleIsOk(n);
    if Steady(n, op) {
      SteadyNeverStrands(n, op);
    } else {
      var k := UnsteadyUnboundedStrands(n, op);
      StrandsOnce(n, op, k);
    }
  }
}
