/**
 * Mass placement: a tree of nodes, each routing an instance to itself or to the least loaded compatible worker.
 *
 * A worker's entry at its parent (token, advertised capacity) is kept next to the node behind its connection,
 * so forwarding a request over the tunnel is a recursive call on that node.
 */
module Placement {
  import opened Basics

  type Id = nat
  type Token = nat
  type Operation = nat

  const USIZE_MAX := U64_LIMIT - 1
  const DEFAULT_MAX_INSTANCES := 1

  datatype Target = Local | ToWorker(token: Token)

  /** `workers` is the snapshot sorted by token; `routes` pins every instance of the subtree to a target. */
  datatype Node = Node(
    limit: Option<nat>,
    operations: set<Operation>,
    instances: set<Id>,
    routes: map<Id, Target>,
    workers: seq<Worker>)

  datatype Worker = Worker(token: Token, advertised: Option<nat>, node: Node)

  datatype PlaceError =
    | AlreadyRunning | NotRunning | NoTunnelCapacity | NoCompatibleOperation | ContractMismatch
    | NoLocalCapacity | WorkerUnavailable

  predicate HasCapacity(limit: Option<nat>, current: nat) {
    limit.None? || current < limit.value
  }

  /** `sum_capacity`: unbounded absorbs, finite capacities add up saturating at `usize::MAX`. */
  function SumCapacity(a: Option<nat>, b: Option<nat>): Option<nat> {
    if a.Some? && b.Some? then Some(if a.value + b.value <= USIZE_MAX then a.value + b.value else USIZE_MAX) else None
  }

  function CapacityUpTo(n: Node, k: nat): Option<nat>
    requires k <= |n.workers|
  {
    if k == 0 then n.limit else SumCapacity(CapacityUpTo(n, k - 1), n.workers[k - 1].advertised)
  }

  /** `advertised_capacity`. */
  function Capacity(n: Node): Option<nat> {
    CapacityUpTo(n, |n.workers|)
  }

  /** What a parent records for a worker of that capacity: an omitted bound is resolved to the default. */
  function Advertise(capacity: Option<nat>): Option<nat> {
    Some(if capacity.Some? then capacity.value else DEFAULT_MAX_INSTANCES)
  }

  function IdsTo(n: Node, target: Target): set<Id> {
    set id | id in n.routes && n.routes[id] == target
  }

  function Load(n: Node, target: Target): nat {
    |IdsTo(n, target)|
  }

  // ---------------------------------------------------------------------------
  // Selection
  // ---------------------------------------------------------------------------

  /** The best target among the node itself and its first `k` workers, with its load. */
  function BestOf(n: Node, op: Operation, k: nat): Option<(Target, nat)>
    requires k <= |n.workers|
  {
    if k == 0 then
      if op in n.operations && HasCapacity(n.limit, Load(n, Local)) then Some((Local, Load(n, Local))) else None
    else
      var best, w := BestOf(n, op, k - 1), n.workers[k - 1];
      var load := Load(n, ToWorker(w.token));
      if op !in w.node.operations || !HasCapacity(w.advertised, load) then best
      else if best.Some? && best.value.1 <= load then best
      else Some((ToWorker(w.token), load))
  }

  predicate Compatible(n: Node, op: Operation) {
    op in n.operations || exists i :: 0 <= i < |n.workers| && op in n.workers[i].node.operations
  }

  function Select(n: Node, op: Operation): Result<Target, PlaceError> {
    var best := BestOf(n, op, |n.workers|);
    if best.Some? then Ok(best.value.0)
    else if Compatible(n, op) then Err(NoTunnelCapacity)
    else Err(NoCompatibleOperation)
  }

  function WorkerIndex(workers: seq<Worker>, token: Token): (i: nat)
    ensures i <= |workers| && (i < |workers| ==> workers[i].token == token)
    ensures forall j :: 0 <= j < i ==> workers[j].token != token
  {
    if workers == [] || workers[0].token == token then 0 else 1 + WorkerIndex(workers[1..], token)
  }

  /** `handle_instance_start_local`, with its own limit check. */
  function StartLocal(n: Node, id: Id, op: Operation): Result<Node, PlaceError> {
    if op !in n.operations then Err(ContractMismatch)
    else if n.limit.Some? && |n.instances| >= n.limit.value then Err(NoLocalCapacity)
    else Ok(n.(instances := n.instances + {id}))
  }

  /** `handle_instance_start_distributed`. */
  function StartAt(n: Node, id: Id, op: Operation): Result<Node, PlaceError>
    decreases n
  {
    if id in n.routes || id in n.instances then Err(AlreadyRunning)
    else match Select(n, op)
      case Err(e) => Err(e)
      case Ok(Local) =>
        (match StartLocal(n, id, op)
         case Err(e) => Err(e)
         case Ok(started) => Ok(started.(routes := n.routes[id := Local])))
      case Ok(ToWorker(token)) =>
        var i := WorkerIndex(n.workers, token);
        if i == |n.workers| then Err(WorkerUnavailable)
        else match StartAt(n.workers[i].node, id, op)
          case Err(e) => Err(e)
          case Ok(child) =>
            Ok(n.(workers := n.workers[i := n.workers[i].(node := child)], routes := n.routes[id := ToWorker(token)]))
  }

  /** `handle_instance_shutdown_distributed`, the backend's own shutdown succeeding. */
  function ShutdownAt(n: Node, id: Id): Result<Node, PlaceError>
    decreases n
  {
    if id !in n.routes then Err(NotRunning)
    else match n.routes[id]
      case Local =>
        if id !in n.instances then Err(NotRunning)
        else Ok(n.(instances := n.instances - {id}, routes := n.routes - {id}))
      case ToWorker(token) =>
        var i := WorkerIndex(n.workers, token);
        if i == |n.workers| then Err(WorkerUnavailable)
        else match ShutdownAt(n.workers[i].node, id)
          case Err(e) => Err(e)
          case Ok(child) =>
            Ok(n.(workers := n.workers[i := n.workers[i].(node := child)], routes := n.routes - {id}))
  }

  /** The selection loops as written: count routes per worker, then scan the workers by token. */
  method SelectInstanceTarget(n: Node, op: Operation) returns (r: Result<Target, PlaceError>)
    ensures r == Select(n, op)
  {
    var counts := CountRoutes(n);
    var eligible := op in n.operations;
    var local := if Local in counts then counts[Local] else 0;
    var best: Option<(Target, nat)> := if eligible && HasCapacity(n.limit, local) then Some((Local, local)) else None;
    var i := 0;
    while i < |n.workers|
      invariant 0 <= i <= |n.workers|
      invariant best == BestOf(n, op, i)
      invariant eligible <==> op in n.operations || exists j :: 0 <= j < i && op in n.workers[j].node.operations
    {
      var w := n.workers[i];
      if op in w.node.operations {
        eligible := true;
        var target := ToWorker(w.token);
        var current := if target in counts then counts[target] else 0;
        if HasCapacity(w.advertised, current) && !(best.Some? && best.value.1 <= current) {
          best := Some((target, current));
        }
      }
      i := i + 1;
    }
    if best.Some? { return Ok(best.value.0); }
    return Err(if eligible then NoTunnelCapacity else NoCompatibleOperation);
  }

  /** The routes to `t` among the ids in `seen`. */
  ghost function Routed(n: Node, seen: set<Id>, t: Target): set<Id> {
    set id | id in seen && id in n.routes && n.routes[id] == t
  }

  lemma RoutedAdd(n: Node, seen: set<Id>, id: Id, t: Target)
    requires id in n.routes && id !in seen
    ensures |Routed(n, seen + {id}, t)| == |Routed(n, seen, t)| + (if n.routes[id] == t then 1 else 0)
  {
    assert Routed(n, seen + {id}, t) == Routed(n, seen, t) + (if n.routes[id] == t then {id} else {});
  }

  method CountRoutes(n: Node) returns (counts: map<Target, nat>)
    ensures forall t :: (if t in counts then counts[t] else 0) == Load(n, t)
  {
    counts := map[];
    var rest := n.routes.Keys;
    ghost var seen: set<Id> := {};
    while rest != {}
      invariant seen + rest == n.routes.Keys && seen !! rest
      invariant forall t :: (if t in counts then counts[t] else 0) == |Routed(n, seen, t)|
      decreases rest
    {
      var id :| id in rest;
      var target := n.routes[id];
      counts := counts[target := (if target in counts then counts[target] else 0) + 1];
      rest := rest - {id};
      forall t ensures |Routed(n, seen + {id}, t)| == |Routed(n, seen, t)| + (if target == t then 1 else 0) {
        RoutedAdd(n, seen, id, t);
      }
      seen := seen + {id};
    }
    forall t ensures Load(n, t) == |Routed(n, seen, t)| { assert IdsTo(n, t) == Routed(n, seen, t); }
  }
}
