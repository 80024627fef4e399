/** What placement keeps over every run in a tree of nodes, and when a start succeeds. */
module PlacementTree {
  import opened Basics
  import opened Placement

  predicate DistinctTokens(workers: seq<Worker>) {
    forall i, j :: 0 <= i < j < |workers| ==> workers[i].token != workers[j].token
  }

  /** The advertised bound of a target at its parent. */
  function LimitOf(n: Node, i: nat): Option<nat>
    requires i <= |n.workers|
  {
    if i == 0 then n.limit else n.workers[i - 1].advertised
  }

  function TargetOf(n: Node, i: nat): Target
    requires i <= |n.workers|
  {
    if i == 0 then Local else ToWorker(n.workers[i - 1].token)
  }

  predicate Within(limit: Option<nat>, current: nat) {
    limit.None? || current <= limit.value
  }

  /**
   * The invariant of one node and its subtree: local routes are the hosted instances, the routes to a worker are
   * exactly that worker's own routes, every route leads somewhere, no bound is exceeded, and every
   * advertisement is up to date.
   */
  ghost predicate TreeOk(n: Node)
    decreases n
  {
    && DistinctTokens(n.workers)
    && n.instances == IdsTo(n, Local)
    && (forall id :: id in n.routes && n.routes[id].ToWorker? ==>
      exists i :: 0 <= i < |n.workers| && n.workers[i].token == n.routes[id].token)
    && (forall i :: 0 <= i <= |n.workers| ==> Within(LimitOf(n, i), Load(n, TargetOf(n, i))))
    && (forall i :: 0 <= i < |n.workers| ==>
      && TreeOk(n.workers[i].node)
      && n.workers[i].node.routes.Keys == IdsTo(n, ToWorker(n.workers[i].token))
      && n.workers[i].advertised == Advertise(Capacity(n.workers[i].node)))
  }

  /** A node that can hold an instance of its own, or a worker that is offered one, serves the operation. */
  predicate Serving(n: Node, op: Operation, i: nat)
    requires i <= |n.workers|
  {
    LimitOf(n, i) == Some(0) || op in (if i == 0 then n.operations else n.workers[i - 1].node.operations)
  }

  /**
   * The trees in which no room is ever stranded. Every target with capacity serves the operation, all the way down;
   * except that an unbounded node takes what its workers cannot, and that an unbounded worker is offered one
   * instance, which it can always host itself.
   */
  predicate Steady(n: Node, op: Operation)
    decreases n
  {
    && Serving(n, op, 0)
    && (forall i :: 0 <= i < |n.workers| ==>
      || n.workers[i].advertised == Some(0)
      || (n.limit.None? && op !in n.workers[i].node.operations)
      || (op in n.workers[i].node.operations && (n.workers[i].node.limit.None? || Steady(n.workers[i].node, op))))
  }

  // ---------------------------------------------------------------------------
  // Counting
  // ---------------------------------------------------------------------------

  /** Ids routed to one of the first `k` targets (the node itself, then its workers). */
  ghost function IdsUpTo(n: Node, k: nat): set<Id>
    requires k <= |n.workers| + 1
  {
    if k == 0 then {} else IdsUpTo(n, k - 1) + IdsTo(n, TargetOf(n, k - 1))
  }

  ghost function LoadUpTo(n: Node, k: nat): nat
    requires k <= |n.workers| + 1
  {
    if k == 0 then 0 else LoadUpTo(n, k - 1) + Load(n, TargetOf(n, k - 1))
  }

  lemma {:induction false} IdsUpToExact(n: Node, k: nat)
    requires k <= |n.workers| + 1
    ensures forall id :: id in IdsUpTo(n, k) <==>
      id in n.routes && exists i :: 0 <= i < k && n.routes[id] == TargetOf(n, i)
  {
    if k > 0 { IdsUpToExact(n, k - 1); }
  }

  lemma EarlierDisjoint(n: Node, k: nat)
    requires DistinctTokens(n.workers) && k <= |n.workers|
    ensures IdsUpTo(n, k) !! IdsTo(n, TargetOf(n, k))
  {
    hide IdsUpTo;
    IdsUpToExact(n, k);
    forall id | id in IdsUpTo(n, k) ensures id !in IdsTo(n, TargetOf(n, k)) {
      var i :| 0 <= i < k && n.routes[id] == TargetOf(n, i);
      assert TargetOf(n, i) != TargetOf(n, k);
    }
  }

  lemma {:induction false} LoadsAddUp(n: Node, k: nat)
    requires DistinctTokens(n.workers) && k <= |n.workers| + 1
    ensures |IdsUpTo(n, k)| == LoadUpTo(n, k)
  {
    hide IdsTo, TargetOf, DistinctTokens;
    if k > 0 {
      LoadsAddUp(n, k - 1);
      EarlierDisjoint(n, k - 1);
      DisjointSize(IdsUpTo(n, k - 1), IdsTo(n, TargetOf(n, k - 1)));
    }
  }

  lemma DisjointSize(a: set<Id>, b: set<Id>)
    requires a !! b
    ensures |a + b| == |a| + |b|
  {
  }

  /** The occupancy of a node is the sum of its targets' loads. */
  lemma OccupancyIsLoad(n: Node)
    requires TreeOk(n)
    ensures |n.routes| == LoadUpTo(n, |n.workers| + 1)
  {
    hide IdsUpTo, LoadUpTo;
    var k := |n.workers| + 1;
    IdsUpToExact(n, k);
    forall id | id in n.routes ensures id in IdsUpTo(n, k) { RouteLeads(n, id); }
    assert IdsUpTo(n, k) == n.routes.Keys;
    LoadsAddUp(n, k);
  }

  lemma RouteLeads(n: Node, id: Id)
    requires TreeOk(n) && id in n.routes
    ensures exists i :: 0 <= i < |n.workers| + 1 && n.routes[id] == TargetOf(n, i)
  {
    hide Load, Within, LimitOf, Capacity, Advertise, DistinctTokens, IdsTo;
    if n.routes[id].ToWorker? {
      var i :| 0 <= i < |n.workers| && n.workers[i].token == n.routes[id].token;
      assert n.routes[id] == TargetOf(n, i + 1);
    } else {
      assert n.routes[id] == TargetOf(n, 0);
    }
  }

  /** Some target among the first `k` has room. */
  predicate RoomUpTo(n: Node, k: nat)
    requires k <= |n.workers| + 1
  {
    exists i :: 0 <= i < k && HasCapacity(LimitOf(n, i), Load(n, TargetOf(n, i)))
  }

  /** Below `usize::MAX` the saturating sum is exact, so room somewhere is the same as room in total. */
  lemma {:induction false} RoomIsTotal(n: Node, k: nat)
    requires k <= |n.workers|
    requires forall i :: 0 <= i <= |n.workers| ==> Within(LimitOf(n, i), Load(n, TargetOf(n, i)))
    ensures RoomUpTo(n, k + 1) && LoadUpTo(n, k + 1) < USIZE_MAX ==> HasCapacity(CapacityUpTo(n, k), LoadUpTo(n, k + 1))
    ensures !RoomUpTo(n, k + 1) ==> !HasCapacity(CapacityUpTo(n, k), LoadUpTo(n, k + 1))
    ensures Within(CapacityUpTo(n, k), LoadUpTo(n, k + 1)) || LoadUpTo(n, k + 1) > USIZE_MAX
  {
    if k == 0 {
      assert LoadUpTo(n, 1) == LoadUpTo(n, 0) + Load(n, TargetOf(n, 0));
      if RoomUpTo(n, 1) { assert HasCapacity(LimitOf(n, 0), Load(n, TargetOf(n, 0))); }
    } else {
      RoomIsTotal(n, k - 1);
      var load := Load(n, TargetOf(n, k));
      assert Within(LimitOf(n, k), load);
      if HasCapacity(LimitOf(n, k), load) {
        assert RoomUpTo(n, k + 1);
      } else if RoomUpTo(n, k + 1) {
        var i :| 0 <= i < k + 1 && HasCapacity(LimitOf(n, i), Load(n, TargetOf(n, i)));
        assert i < k;
        assert RoomUpTo(n, k);
      } else {
        assert !RoomUpTo(n, k);
      }
    }
  }

  // ---------------------------------------------------------------------------
  // Selection
  // ---------------------------------------------------------------------------

  /** A target the selection may use: it serves the operation and has room. */
  predicate Usable(n: Node, op: Operation, i: nat)
    requires i <= |n.workers|
  {
    && op in (if i == 0 then n.operations else n.workers[i - 1].node.operations)
    && HasCapacity(LimitOf(n, i), Load(n, TargetOf(n, i)))
  }

  predicate Chosen(n: Node, best: (Target, nat), i: nat)
    requires i <= |n.workers|
  {
    best == (TargetOf(n, i), Load(n, TargetOf(n, i)))
  }

  /** The first of the least loaded usable targets among the first `k + 1`: the node itself, then its workers by token. */
  predicate FirstLeast(n: Node, op: Operation, k: nat, best: (Target, nat), i: nat)
    requires i <= k <= |n.workers|
  {
    && Usable(n, op, i) && Chosen(n, best, i)
    && (forall j :: 0 <= j <= k && Usable(n, op, j) ==> best.1 <= Load(n, TargetOf(n, j)))
    && (forall j :: 0 <= j < i && Usable(n, op, j) ==> best.1 < Load(n, TargetOf(n, j)))
  }

  /** Selection finds a usable target exactly when there is one, and the first of the least loaded ones. */
  lemma {:induction false} BestIsLeast(n: Node, op: Operation, k: nat)
    requires k <= |n.workers|
    ensures BestOf(n, op, k).Some? <==> exists i :: 0 <= i <= k && Usable(n, op, i)
    ensures BestOf(n, op, k).Some? ==> exists i :: 0 <= i <= k && FirstLeast(n, op, k, BestOf(n, op, k).value, i)
  {
    if k == 0 {
      assert Usable(n, op, 0) <==> BestOf(n, op, 0).Some?;
      assert BestOf(n, op, 0).Some? ==> FirstLeast(n, op, 0, BestOf(n, op, 0).value, 0);
    } else {
      hide Load;
      BestIsLeast(n, op, k - 1);
      var before, best := BestOf(n, op, k - 1), BestOf(n, op, k);
      assert TargetOf(n, k) == ToWorker(n.workers[k - 1].token);
      if best.Some? && best == before {
        var i :| 0 <= i <= k - 1 && FirstLeast(n, op, k - 1, before.value, i);
        assert FirstLeast(n, op, k, best.value, i);
      } else if best.Some? {
        assert FirstLeast(n, op, k, best.value, k);
      } else {
        assert !Usable(n, op, k);
      }
    }
  }

  lemma IndexOfWorker(workers: seq<Worker>, i: nat)
    requires DistinctTokens(workers) && i < |workers|
    ensures WorkerIndex(workers, workers[i].token) == i
  {
  }

  // ---------------------------------------------------------------------------
  // Starts
  // ---------------------------------------------------------------------------

  /** Fresh ids are fresh in the whole subtree. */
  lemma FreshBelow(n: Node, id: Id, i: nat)
    requires TreeOk(n) && id !in n.routes && i < |n.workers|
    ensures id !in n.instances && id !in n.workers[i].node.routes
  {
  }

  /** The new node after a worker took (or released) an instance. */
  lemma {:induction false} CapacitySame(n: Node, n': Node, k: nat)
    requires |n'.workers| == |n.workers| && n'.limit == n.limit && k <= |n.workers|
    requires forall i :: 0 <= i < |n.workers| ==> n'.workers[i].advertised == n.workers[i].advertised
    ensures CapacityUpTo(n', k) == CapacityUpTo(n, k)
  {
    if k > 0 { CapacitySame(n, n', k - 1); }
  }

  /**
   * `n'` is `n` after its target number `i` (0 is the node itself) took or released `id`, and nothing else changed;
   * a worker behind that target is again a tree with the same capacity.
   */
  ghost predicate Changed(n: Node, n': Node, id: Id, i: nat)
    requires i <= |n.workers|
  {
    && n'.limit == n.limit && n'.operations == n.operations && |n'.workers| == |n.workers|
    && n'.routes - {id} == n.routes - {id}
    && (id in n.routes ==> n.routes[id] == TargetOf(n, i))
    && (id in n'.routes ==> n'.routes[id] == TargetOf(n, i))
    && n'.instances - {id} == n.instances - {id}
    && (id in n'.instances <==> id in n'.routes && i == 0)
    && (forall j :: 0 <= j < |n.workers| && j + 1 != i ==> n'.workers[j] == n.workers[j])
    && (i > 0 ==>
      var child, child' := n.workers[i - 1].node, n'.workers[i - 1].node;
      && n'.workers[i - 1] == n.workers[i - 1].(node := child')
      && TreeOk(child') && Capacity(child') == Capacity(child)
      && child'.routes.Keys - {id} == child.routes.Keys - {id}
      && (id in child'.routes <==> id in n'.routes))
  }

  /** Only the changed target's routes differ, and only by `id`. */
  lemma RouteShift(n: Node, n': Node, id: Id, i: nat, t: Target)
    requires i <= |n.workers| && n'.routes - {id} == n.routes - {id}
    requires id in n.routes ==> n.routes[id] == TargetOf(n, i)
    requires id in n'.routes ==> n'.routes[id] == TargetOf(n, i)
    ensures IdsTo(n', t) - {id} == IdsTo(n, t) - {id}
    ensures id in IdsTo(n', t) <==> id in n'.routes && t == TargetOf(n, i)
    ensures t != TargetOf(n, i) ==> IdsTo(n', t) == IdsTo(n, t)
  {
    forall x | x != id
      ensures x in n'.routes <==> x in n.routes
      ensures x in n.routes ==> n'.routes[x] == n.routes[x]
    {
      assert x in n'.routes <==> x in n'.routes - {id};
      assert x in n.routes <==> x in n.routes - {id};
      if x in n.routes { assert (n'.routes - {id})[x] == (n.routes - {id})[x]; }
    }
  }

  lemma ChangedChildren(n: Node, n': Node, id: Id, i: nat, j: nat)
    requires TreeOk(n) && i <= |n.workers| && Changed(n, n', id, i) && j < |n.workers|
    ensures TreeOk(n'.workers[j].node)
    ensures n'.workers[j].node.routes.Keys == IdsTo(n', ToWorker(n'.workers[j].token))
    ensures n'.workers[j].advertised == Advertise(Capacity(n'.workers[j].node))
  {
    hide Load, LimitOf, CapacityUpTo, Capacity, IdsTo;
    RouteShift(n, n', id, i, ToWorker(n.workers[j].token));
    assert TargetOf(n, j + 1) == TargetOf(n, i) ==> j + 1 == i;
    if j + 1 == i {
      var keys, ids := n'.workers[j].node.routes.Keys, IdsTo(n', ToWorker(n'.workers[j].token));
      assert keys - {id} == ids - {id};
      SameBut(keys, ids, id);
    }
  }

  lemma SameBut(a: set<Id>, b: set<Id>, id: Id)
    requires a - {id} == b - {id} && (id in a <==> id in b)
    ensures a == b
  {
    forall x ensures x in a <==> x in b {
      assert x != id ==> (x in a <==> x in a - {id}) && (x in b <==> x in b - {id});
    }
  }

  lemma LimitFact(n: Node, j: nat)
    requires TreeOk(n) && j <= |n.workers|
    ensures Within(LimitOf(n, j), Load(n, TargetOf(n, j)))
  {
  }

  lemma ChangedLimits(n: Node, n': Node, id: Id, i: nat, j: nat)
    requires TreeOk(n) && i <= |n.workers| && Changed(n, n', id, i) && j <= |n.workers|
    requires Within(LimitOf(n, i), Load(n', TargetOf(n, i)))
    ensures Within(LimitOf(n', j), Load(n', TargetOf(n', j)))
  {
    hide TreeOk, Capacity, IdsTo;
    TreeFacts(n);
    LimitFact(n, j);
    RouteShift(n, n', id, i, TargetOf(n, j));
    assert TargetOf(n', j) == TargetOf(n, j) && LimitOf(n', j) == LimitOf(n, j);
    assert TargetOf(n, j) == TargetOf(n, i) ==> j == i;
  }

  lemma ChangedRoutes(n: Node, n': Node, id: Id, i: nat, x: Id)
    requires TreeOk(n) && i <= |n.workers| && Changed(n, n', id, i)
    requires x in n'.routes && n'.routes[x].ToWorker?
    ensures exists j :: 0 <= j < |n'.workers| && n'.workers[j].token == n'.routes[x].token
  {
    hide TreeOk, Load, Capacity, LimitOf;
    var j := i;
    if x != id {
      RouteShift(n, n', id, i, n'.routes[x]);
      assert x in IdsTo(n', n'.routes[x]) - {id};
      RouteLeads(n, x);
      j :| 0 <= j < |n.workers| + 1 && n.routes[x] == TargetOf(n, j);
    }
    assert n'.workers[j - 1].token == n'.routes[x].token;
  }

  lemma TreeFacts(n: Node)
    requires TreeOk(n)
    ensures DistinctTokens(n.workers) && n.instances == IdsTo(n, Local)
    ensures forall i :: 0 <= i < |n.workers| ==>
      TreeOk(n.workers[i].node) && n.workers[i].node.routes.Keys == IdsTo(n, ToWorker(n.workers[i].token))
  {
  }

  lemma ChangedSelf(n: Node, n': Node, id: Id, i: nat)
    requires TreeOk(n) && i <= |n.workers| && Changed(n, n', id, i)
    ensures |n'.workers| == |n.workers| && DistinctTokens(n'.workers)
    ensures n'.instances == IdsTo(n', Local) && Capacity(n') == Capacity(n)
  {
    hide TreeOk, IdsTo, CapacityUpTo;
    TreeFacts(n);
    CapacitySame(n, n', |n.workers|);
    RouteShift(n, n', id, i, Local);
    SameBut(n'.instances, IdsTo(n', Local), id);
  }

  /** A change at one target keeps the tree, as long as that target stays within its bound. */
  lemma ChangedKeeps(n: Node, n': Node, id: Id, i: nat)
    requires TreeOk(n) && i <= |n.workers| && Changed(n, n', id, i)
    requires Within(LimitOf(n, i), Load(n', TargetOf(n, i)))
    ensures TreeOk(n') && Capacity(n') == Capacity(n)
  {
    hide Changed, Load, Capacity, IdsTo, LimitOf, TargetOf, Within, DistinctTokens;
    ChangedSelf(n, n', id, i);
    forall j | 0 <= j <= |n'.workers| ensures Within(LimitOf(n', j), Load(n', TargetOf(n', j))) {
      ChangedLimits(n, n', id, i, j);
    }
    forall j | 0 <= j < |n'.workers|
      ensures TreeOk(n'.workers[j].node)
      ensures n'.workers[j].node.routes.Keys == IdsTo(n', ToWorker(n'.workers[j].token))
      ensures n'.workers[j].advertised == Advertise(Capacity(n'.workers[j].node))
    {
      ChangedChildren(n, n', id, i, j);
    }
    forall x | x in n'.routes && n'.routes[x].ToWorker?
      ensures exists j :: 0 <= j < |n'.workers| && n'.workers[j].token == n'.routes[x].token
    {
      ChangedRoutes(n, n', id, i, x);
    }
  }

  lemma SelectedIndex(n: Node, op: Operation) returns (k: nat)
    requires DistinctTokens(n.workers) && Select(n, op).Ok?
    ensures k <= |n.workers| && Usable(n, op, k) && Select(n, op).value == TargetOf(n, k)
    ensures k > 0 ==> WorkerIndex(n.workers, n.workers[k - 1].token) == k - 1
    ensures forall j :: 0 <= j <= |n.workers| && Usable(n, op, j) ==> Load(n, TargetOf(n, k)) <= Load(n, TargetOf(n, j))
  {
    BestIsLeast(n, op, |n.workers|);
    k :| 0 <= k <= |n.workers| && FirstLeast(n, op, |n.workers|, BestOf(n, op, |n.workers|).value, k);
    if k > 0 { IndexOfWorker(n.workers, k - 1); }
  }

  /** The node after its `k`-th target took `id`, given what the worker became. */
  function Extended(n: Node, id: Id, k: nat, child: Node): Node
    requires k <= |n.workers|
  {
    if k == 0 then n.(instances := n.instances + {id}, routes := n.routes[id := Local])
    else n.(workers := n.workers[k - 1 := n.workers[k - 1].(node := child)],
            routes := n.routes[id := ToWorker(n.workers[k - 1].token)])
  }

  lemma StartsHere(n: Node, id: Id, op: Operation)
    requires id !in n.routes && id !in n.instances && n.instances == IdsTo(n, Local)
    requires Select(n, op) == Ok(Local) && Usable(n, op, 0)
    ensures StartAt(n, id, op) == Ok(Extended(n, id, 0, n))
  {
    hide Select, IdsTo;
  }

  lemma StartsBelow(n: Node, id: Id, op: Operation, k: nat)
    requires id !in n.routes && id !in n.instances && 0 < k <= |n.workers|
    requires Select(n, op) == Ok(TargetOf(n, k)) && WorkerIndex(n.workers, n.workers[k - 1].token) == k - 1
    ensures
      var below := StartAt(n.workers[k - 1].node, id, op);
      StartAt(n, id, op) == if below.Ok? then Ok(Extended(n, id, k, below.value)) else below
  {
    hide Select;
  }

  /** A start of a new id is decided by the selected target alone. */
  lemma StartUnfolds(n: Node, id: Id, op: Operation) returns (k: nat)
    requires TreeOk(n) && id !in n.routes && Select(n, op).Ok?
    ensures k <= |n.workers| && Usable(n, op, k)
    ensures k == 0 ==> StartAt(n, id, op) == Ok(Extended(n, id, 0, n))
    ensures k > 0 ==>
      var below := StartAt(n.workers[k - 1].node, id, op);
      StartAt(n, id, op) == if below.Ok? then Ok(Extended(n, id, k, below.value)) else below
    ensures forall j :: 0 <= j <= |n.workers| && Usable(n, op, j) ==> Load(n, TargetOf(n, k)) <= Load(n, TargetOf(n, j))
  {
    hide TreeOk, Select, Capacity, IdsTo, StartAt, Extended, DistinctTokens;
    TreeFacts(n);
    k := SelectedIndex(n, op);
    FreshHere(n, id);
    if k == 0 { StartsHere(n, id, op); } else { StartsBelow(n, id, op, k); }
  }

  lemma FreshHere(n: Node, id: Id)
    requires TreeOk(n) && id !in n.routes
    ensures id !in n.instances
  {
  }

  lemma ExtendedChanged(n: Node, id: Id, k: nat, child: Node)
    requires k <= |n.workers| && id !in n.routes && id !in n.instances
    requires k > 0 ==> TreeOk(child) && Capacity(child) == Capacity(n.workers[k - 1].node)
    requires k > 0 ==> child.routes.Keys == n.workers[k - 1].node.routes.Keys + {id}
    ensures Changed(n, Extended(n, id, k, child), id, k)
  {
    hide TreeOk, Capacity;
    var n' := Extended(n, id, k, child);
    assert n'.routes - {id} == n.routes - {id};
    assert n'.instances - {id} == n.instances - {id};
  }

  lemma ExtendedLoad(n: Node, id: Id, k: nat, child: Node)
    requires k <= |n.workers| && id !in n.routes
    ensures Load(Extended(n, id, k, child), TargetOf(n, k)) == Load(n, TargetOf(n, k)) + 1
  {
    assert IdsTo(Extended(n, id, k, child), TargetOf(n, k)) == IdsTo(n, TargetOf(n, k)) + {id};
  }

  /** Any successful start keeps the tree, adds exactly the new id, and leaves every capacity as it was. */
  lemma {:induction false} StartKeeps(n: Node, id: Id, op: Operation)
    requires TreeOk(n) && StartAt(n, id, op).Ok?
    ensures var n' := StartAt(n, id, op).value;
      TreeOk(n') && Capacity(n') == Capacity(n) && id !in n.routes && n'.routes.Keys == n.routes.Keys + {id}
    decreases n
  {
    hide TreeOk, Capacity, Load, LimitOf, Changed, Select, TargetOf;
    StartNeeds(n, id, op);
    var k := StartUnfolds(n, id, op);
    var child := n;
    if k > 0 {
      TreeBelow(n, k - 1);
      StartKeeps(n.workers[k - 1].node, id, op);
      child := StartAt(n.workers[k - 1].node, id, op).value;
    }
    FreshHere(n, id);
    ExtendedChanged(n, id, k, child);
    ExtendedLoad(n, id, k, child);
    ChangedKeeps(n, Extended(n, id, k, child), id, k);
  }

  lemma StartNeeds(n: Node, id: Id, op: Operation)
    requires StartAt(n, id, op).Ok?
    ensures id !in n.routes && Select(n, op).Ok?
  {
  }

  lemma TreeBelow(n: Node, i: nat)
    requires TreeOk(n) && i < |n.workers|
    ensures TreeOk(n.workers[i].node)
  {
  }

  /**
   * Placement never strands room in a steady tree: a start of a new id succeeds if and only if the occupancy is below
   * the total capacity. The only ways to fail are a full tree and a tree without any compatible target; in particular
   * the second limit check of a local start never fires.
   */
  lemma {:induction false} StartSucceedsIffRoom(n: Node, id: Id, op: Operation)
    requires TreeOk(n) && Steady(n, op) && id !in n.routes && |n.routes| < USIZE_MAX
    ensures StartAt(n, id, op).Ok? <==> HasCapacity(Capacity(n), |n.routes|)
    ensures StartAt(n, id, op).Err? ==>
      StartAt(n, id, op).error == if Compatible(n, op) then NoTunnelCapacity else NoCompatibleOperation
    decreases n
  {
    hide TreeOk, Load, LimitOf, BestOf, IdsTo;
    SelectsIffRoom(n, op);
    FreshHere(n, id);
    if Select(n, op).Ok? {
      var k := StartUnfolds(n, id, op);
      if k > 0 {
        TreeBelow(n, k - 1);
        RoomBelow(n, k - 1, op);
        FreshBelow(n, id, k - 1);
        ChosenIsSteady(n, op, k - 1);
        if n.workers[k - 1].node.limit.None? {
          UnboundedStarts(n, id, op, k - 1);
        } else {
          StartSucceedsIffRoom(n.workers[k - 1].node, id, op);
        }
      }
    }
  }

  /**
   * How a start can fail, in any tree: the id is placed already, nothing at the root serves the operation, or what
   * serves it on the way down is full. No other error ever comes up.
   */
  lemma {:induction false} StartErrors(n: Node, id: Id, op: Operation)
    requires TreeOk(n)
    ensures StartAt(n, id, op).Err? ==>
      StartAt(n, id, op).error ==
        if id in n.routes then AlreadyRunning
        else if Compatible(n, op) then NoTunnelCapacity
        else NoCompatibleOperation
    ensures id in n.routes ==> StartAt(n, id, op).Err?
    decreases n
  {
    hide TreeOk, Load, LimitOf, IdsTo, HasCapacity, BestOf;
    if id !in n.routes { FreshHere(n, id); }
    if id !in n.routes && Select(n, op).Ok? {
      var k := StartUnfolds(n, id, op);
      if k > 0 {
        TreeBelow(n, k - 1);
        FreshBelow(n, id, k - 1);
        StartErrors(n.workers[k - 1].node, id, op);
      }
    }
  }

  /** What a steady tree knows of a worker that selection may use. */
  lemma ChosenIsSteady(n: Node, op: Operation, i: nat)
    requires Steady(n, op) && i < |n.workers| && Usable(n, op, i + 1)
    ensures op in n.workers[i].node.operations
    ensures n.workers[i].node.limit.None? || Steady(n.workers[i].node, op)
  {
  }

  /** An unbounded worker with room at its parent is idle, and hosts the instance itself. */
  lemma UnboundedStarts(n: Node, id: Id, op: Operation, i: nat)
    requires TreeOk(n) && i < |n.workers| && Usable(n, op, i + 1) && n.workers[i].node.limit.None?
    ensures StartAt(n.workers[i].node, id, op).Ok?
  {
    hide TreeOk;
    var child := n.workers[i].node;
    TreeFacts(n);
    UnboundedCapacity(child, |child.workers|);
    UpToDate(n, i);
    assert child.routes.Keys == IdsTo(n, TargetOf(n, i + 1));
    assert |child.routes.Keys| == 0;
    assert child.instances == {} by { TreeBelow(n, i); TreeFacts(child); }
    IdleLoads(child);
    FirstOfEmpty(child, op, |child.workers|);
  }

  lemma UpToDate(n: Node, i: nat)
    requires TreeOk(n) && i < |n.workers|
    ensures n.workers[i].advertised == Advertise(Capacity(n.workers[i].node))
  {
  }

  lemma {:induction false} UnboundedCapacity(n: Node, k: nat)
    requires n.limit.None? && k <= |n.workers|
    ensures CapacityUpTo(n, k) == None
  {
    if k > 0 { UnboundedCapacity(n, k - 1); }
  }

  lemma IdleLoads(n: Node)
    requires n.routes == map[]
    ensures forall target :: Load(n, target) == 0
  {
    assert forall target :: IdsTo(n, target) == {};
  }

  lemma {:induction false} FirstOfEmpty(n: Node, op: Operation, k: nat)
    requires n.limit.None? && op in n.operations && (forall target :: Load(n, target) == 0) && k <= |n.workers|
    ensures BestOf(n, op, k) == Some((Local, 0))
  {
    if k > 0 { FirstOfEmpty(n, op, k - 1); }
  }

  lemma SelectsIffRoom(n: Node, op: Operation)
    requires TreeOk(n) && Steady(n, op) && |n.routes| < USIZE_MAX
    ensures Select(n, op).Ok? <==> HasCapacity(Capacity(n), |n.routes|)
    ensures Select(n, op).Err? ==>
      Select(n, op).error == if Compatible(n, op) then NoTunnelCapacity else NoCompatibleOperation
  {
    hide Load, IdsTo, TargetOf;
    OccupancyIsLoad(n);
    RoomIsTotal(n, |n.workers|);
    BestIsLeast(n, op, |n.workers|);
    if n.limit.None? {
      assert Usable(n, op, 0);
      UnboundedCapacity(n, |n.workers|);
    } else if RoomUpTo(n, |n.workers| + 1) {
      var i :| 0 <= i < |n.workers| + 1 && HasCapacity(LimitOf(n, i), Load(n, TargetOf(n, i)));
      assert Usable(n, op, i);
    }
  }

  /** A worker with room at its parent has room itself: its occupancy is the parent's load on it. */
  lemma RoomBelow(n: Node, i: nat, op: Operation)
    requires TreeOk(n) && i < |n.workers| && |n.routes| < USIZE_MAX && Usable(n, op, i + 1)
    ensures var child := n.workers[i].node;
      |child.routes| < USIZE_MAX && HasCapacity(Capacity(child), |child.routes|)
  {
    var child := n.workers[i].node;
    assert child.routes.Keys == IdsTo(n, ToWorker(n.workers[i].token)) <= n.routes.Keys;
    SubsetSize(child.routes.Keys, n.routes.Keys);
  }

  lemma SubsetSize(a: set<Id>, b: set<Id>)
    requires a <= b
    ensures |a| <= |b|
  {
    assert b == a + (b - a);
  }

  // ---------------------------------------------------------------------------
  // Shutdowns and runs
  // ---------------------------------------------------------------------------

  /** The position of the target a routed id is pinned to. */
  lemma RoutedIndex(n: Node, id: Id) returns (k: nat)
    requires TreeOk(n) && id in n.routes
    ensures k <= |n.workers| && n.routes[id] == TargetOf(n, k)
    ensures k == 0 <==> id in n.instances
    ensures k > 0 ==> WorkerIndex(n.workers, n.routes[id].token) == k - 1 && id in n.workers[k - 1].node.routes
  {
    hide Load, Capacity, LimitOf;
    RouteLeads(n, id);
    k :| 0 <= k < |n.workers| + 1 && n.routes[id] == TargetOf(n, k);
    assert id in IdsTo(n, n.routes[id]);
    if k > 0 { IndexOfWorker(n.workers, k - 1); }
  }

  /** `n` after its `k`-th target released `id`, given what the worker became. */
  function Reduced(n: Node, id: Id, k: nat, child: Node): Node
    requires k <= |n.workers|
  {
    if k == 0 then n.(instances := n.instances - {id}, routes := n.routes - {id})
    else n.(workers := n.workers[k - 1 := n.workers[k - 1].(node := child)], routes := n.routes - {id})
  }

  lemma ReducedChanged(n: Node, id: Id, k: nat, child: Node)
    requires k <= |n.workers| && id in n.routes && n.routes[id] == TargetOf(n, k)
    requires k > 0 ==> id !in n.instances
    requires k > 0 ==> TreeOk(child) && Capacity(child) == Capacity(n.workers[k - 1].node)
    requires k > 0 ==> child.routes.Keys == n.workers[k - 1].node.routes.Keys - {id}
    ensures Changed(n, Reduced(n, id, k, child), id, k)
  {
    hide TreeOk, Capacity;
    var n' := Reduced(n, id, k, child);
    assert n'.routes - {id} == n.routes - {id};
    assert n'.instances - {id} == n.instances - {id};
  }

  lemma ReducedLoad(n: Node, id: Id, k: nat, child: Node)
    requires TreeOk(n) && k <= |n.workers|
    ensures Within(LimitOf(n, k), Load(Reduced(n, id, k, child), TargetOf(n, k)))
  {
    var after, before := IdsTo(Reduced(n, id, k, child), TargetOf(n, k)), IdsTo(n, TargetOf(n, k));
    assert after <= before;
    SubsetSize(after, before);
    assert Within(LimitOf(n, k), Load(n, TargetOf(n, k)));
  }

  /** A shutdown of a routed id always reaches its host, and removes exactly that id everywhere. */
  lemma {:induction false} ShutdownKeeps(n: Node, id: Id)
    requires TreeOk(n)
    ensures ShutdownAt(n, id).Ok? <==> id in n.routes
    ensures ShutdownAt(n, id).Err? ==> ShutdownAt(n, id).error == NotRunning
    ensures ShutdownAt(n, id).Ok? ==>
      var n' := ShutdownAt(n, id).value;
      TreeOk(n') && Capacity(n') == Capacity(n) && n'.routes.Keys == n.routes.Keys - {id}
    decreases n
  {
    hide TreeOk, Capacity, Load, LimitOf, Changed, HasCapacity, Within;
    if id in n.routes {
      var k := RoutedIndex(n, id);
      var child := n;
      if k > 0 {
        TreeBelow(n, k - 1);
        ShutdownKeeps(n.workers[k - 1].node, id);
        child := ShutdownAt(n.workers[k - 1].node, id).value;
      }
      assert ShutdownAt(n, id) == Ok(Reduced(n, id, k, child));
      ReducedChanged(n, id, k, child);
      ReducedLoad(n, id, k, child);
      ChangedKeeps(n, Reduced(n, id, k, child), id, k);
    }
  }

  datatype RootRequest = Start(id: Id, op: Operation) | Shutdown(id: Id)

  /** A failed request leaves the root as it was. */
  function Serve(n: Node, request: RootRequest): Node {
    var result := if request.Start? then StartAt(n, request.id, request.op) else ShutdownAt(n, request.id);
    if result.Ok? then result.value else n
  }

  function ServeAll(n: Node, run: seq<RootRequest>): Node
    decreases |run|
  {
    if run == [] then n else ServeAll(Serve(n, run[0]), run[1..])
  }

  // ---------------------------------------------------------------------------
  // Hosts
  // ---------------------------------------------------------------------------

  /** The node reached by descending through the given worker positions. */
  function NodeAt(n: Node, path: seq<nat>): Option<Node>
    decreases |path|
  {
    if path == [] then Some(n)
    else if path[0] >= |n.workers| then None
    else NodeAt(n.workers[path[0]].node, path[1..])
  }

  predicate HostedAt(n: Node, id: Id, path: seq<nat>) {
    NodeAt(n, path).Some? && id in NodeAt(n, path).value.instances
  }

  /** Following routes from a node to where they end. */
  function Follow(n: Node, id: Id): Option<seq<nat>>
    decreases n
  {
    if id !in n.routes then None
    else match n.routes[id]
      case Local => Some([])
      case ToWorker(token) =>
        var i := WorkerIndex(n.workers, token);
        if i == |n.workers| then None
        else match Follow(n.workers[i].node, id)
          case None => None
          case Some(rest) => Some([i] + rest)
  }

  /** Instances hosted in the subtree, node by node. */
  function HostedCount(n: Node): nat
    decreases n, |n.workers| + 1
  {
    |n.instances| + HostedBelow(n, |n.workers|)
  }

  function HostedBelow(n: Node, k: nat): nat
    requires k <= |n.workers|
    decreases n, k
  {
    if k == 0 then 0 else HostedBelow(n, k - 1) + HostedCount(n.workers[k - 1].node)
  }

  /** A routed id is hosted at exactly one node, the one its routes lead to; other ids are hosted nowhere. */
  lemma {:induction false} HostedWhereRouted(n: Node, id: Id, path: seq<nat>)
    requires TreeOk(n)
    ensures HostedAt(n, id, path) <==> Follow(n, id) == Some(path)
    ensures Follow(n, id).Some? <==> id in n.routes
    decreases n
  {
    hide TreeOk;
    TreeFacts(n);
    if path != [] && path[0] < |n.workers| {
      var child := n.workers[path[0]].node;
      HostedWhereRouted(child, id, path[1..]);
      assert id in child.routes <==> id in IdsTo(n, ToWorker(n.workers[path[0]].token));
      IndexOfWorker(n.workers, path[0]);
    }
    if id in n.routes {
      var k := RoutedIndex(n, id);
      if k > 0 { HostedWhereRouted(n.workers[k - 1].node, id, if path == [] then [] else path[1..]); }
      assert path != [] ==> path == [path[0]] + path[1..];
    }
  }

  lemma {:induction false} HostedIsOccupancy(n: Node)
    requires TreeOk(n)
    ensures HostedCount(n) == |n.routes|
    decreases n, |n.workers| + 1
  {
    hide IdsTo, Capacity;
    HostedBelowIsLoad(n, |n.workers|);
    OccupancyIsLoad(n);
    assert |n.instances| == Load(n, Local);
  }

  lemma {:induction false} HostedBelowIsLoad(n: Node, k: nat)
    requires TreeOk(n) && k <= |n.workers|
    ensures HostedBelow(n, k) + Load(n, Local) == LoadUpTo(n, k + 1)
    decreases n, k
  {
    hide IdsTo, Capacity;
    if k > 0 {
      HostedBelowIsLoad(n, k - 1);
      var child := n.workers[k - 1].node;
      assert TreeOk(child) && child.routes.Keys == IdsTo(n, TargetOf(n, k));
      HostedIsOccupancy(child);
    } else {
      assert LoadUpTo(n, 1) == LoadUpTo(n, 0) + Load(n, TargetOf(n, 0));
    }
  }

  /**
   * After every run of starts and shutdowns: the tree invariant holds and capacities are unchanged, so no target
   * exceeds its bound; each routed id is hosted at exactly the node its routes lead to; and the root's
   * occupancy is the number of instances hosted in the whole tree.
   */
  lemma {:induction false} RunsKeepPlacement(n: Node, run: seq<RootRequest>)
    requires TreeOk(n)
    ensures var n' := ServeAll(n, run);
      && TreeOk(n') && Capacity(n') == Capacity(n)
      && HostedCount(n') == |n'.routes|
      && (forall id, path :: HostedAt(n', id, path) <==> Follow(n', id) == Some(path))
      && (forall id :: id in n'.routes <==> Follow(n', id).Some?)
    decreases |run|
  {
    hide TreeOk, Capacity, HostedAt, Follow;
    if run == [] {
      HostedIsOccupancy(n);
      forall id, path ensures HostedAt(n, id, path) <==> Follow(n, id) == Some(path) { HostedWhereRouted(n, id, path); }
      forall id ensures id in n.routes <==> Follow(n, id).Some? { HostedWhereRouted(n, id, []); }
    } else {
      if run[0].Start? {
        if StartAt(n, run[0].id, run[0].op).Ok? { StartKeeps(n, run[0].id, run[0].op); }
      } else {
        ShutdownKeeps(n, run[0].id);
      }
      RunsKeepPlacement(Serve(n, run[0]), run[1..]);
    }
  }

  /** A tree as it stands once every worker has registered and nothing has been started. */
  predicate Idle(n: Node)
    decreases n
  {
    && n.instances == {} && n.routes == map[] && DistinctTokens(n.workers)
    && forall i :: 0 <= i < |n.workers| ==>
      Idle(n.workers[i].node) && n.workers[i].advertised == Advertise(Capacity(n.workers[i].node))
  }

  lemma {:induction false} IdleIsOk(n: Node)
    requires Idle(n)
    ensures TreeOk(n)
    decreases n
  {
    hide Capacity;
    forall i | 0 <= i < |n.workers| ensures TreeOk(n.workers[i].node) { IdleIsOk(n.workers[i].node); }
    assert forall t :: IdsTo(n, t) == {};
  }

  /**
   * `Steady` is needed: a worker advertises its whole subtree's capacity but only its own operations, so below a
   * compatible worker that is itself full the remaining room may serve other operations only.
   */
  lemma MixedCapabilitiesStrandRoom()
    ensures exists n: Node, id, op ::
      Idle(n) && |n.routes| == 0 && Capacity(n) == Some(1) && StartAt(n, id, op) == Err(NoTunnelCapacity)
  {
    var leaf := Node(Some(1), {2}, {}, map[], []);
    var middle := Node(Some(0), {1}, {}, map[], [Worker(1, Some(1), leaf)]);
    var root := Node(Some(0), {1}, {}, map[], [Worker(1, Some(1), middle)]);
    assert CapacityUpTo(leaf, 0) == Some(1);
    assert CapacityUpTo(middle, 0) == Some(0) && CapacityUpTo(middle, 1) == Some(1);
    assert CapacityUpTo(root, 0) == Some(0) && CapacityUpTo(root, 1) == Some(1);
    assert IdsTo(root, Local) == IdsTo(root, ToWorker(1)) == IdsTo(middle, Local) == IdsTo(middle, ToWorker(1)) == {};
    assert BestOf(root, 1, 0) == None && BestOf(root, 1, 1) == Some((ToWorker(1), 0));
    assert BestOf(middle, 1, 0) == None && BestOf(middle, 1, 1) == None;
    assert StartAt(middle, 7, 1) == Err(NoTunnelCapacity);
    assert Idle(leaf) && Idle(middle) && Idle(root);
    assert StartAt(root, 7, 1) == Err(NoTunnelCapacity);
  }
}
