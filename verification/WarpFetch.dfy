/**
 * Fetching the nested suns of an appearance: an explicit worklist, bounded in depth, that computes what following
 * warp paths recursively means.
 */
module WarpFetch {
  import opened Basics
  import opened WarpMerge

  const MAX_WARP_DEPTH := 16

  type Reason = nat
  /** How every journey answers; the worklist sees one fixed answer per journey. */
  type Fetch = nat -> Result<Sun, Reason>

  datatype Diagnostic = TooDeep(journey: nat) | Unusable(reason: Reason)

  // ---------------------------------------------------------------------------
  // Meaning
  // ---------------------------------------------------------------------------

  /** The journey of the first warp cell called `id`. */
  function JourneyOf(nodes: seq<Cell>, id: nat): Option<nat> {
    if nodes == [] then None
    else if nodes[0].id == id && nodes[0].Warp() then Some(nodes[0].journey)
    else JourneyOf(nodes[1..], id)
  }

  /** The sun that `path` leads to. */
  function SunAt(sun: Sun, path: CellPath, fetch: Fetch): Option<Sun>
    decreases |path|
  {
    if path == [] then Some(sun)
    else
      match JourneyAt(sun, path, fetch)
      case None => None
      case Some(journey) => match fetch(journey) case Ok(next) => Some(next) case Err(_) => None
  }

  /** The journey of the warp cell that `path` names, when everything before it resolves. */
  function JourneyAt(sun: Sun, path: CellPath, fetch: Fetch): Option<nat>
    requires path != []
    decreases |path|, 0
  {
    match SunAt(sun, path[..|path| - 1], fetch)
    case None => None
    case Some(last) => JourneyOf(last.nodes, path[|path| - 1])
  }

  /** A path whose appearance is fetched. */
  predicate Resolves(sun: Sun, path: CellPath, fetch: Fetch) {
    1 <= |path| <= MAX_WARP_DEPTH && SunAt(sun, path, fetch).Some?
  }

  /** A path that names a warp cell which fails to answer or lies one level too deep. */
  predicate Fails(sun: Sun, path: CellPath, fetch: Fetch) {
    && 1 <= |path| <= MAX_WARP_DEPTH + 1 && JourneyAt(sun, path, fetch).Some?
    && (|path| <= MAX_WARP_DEPTH ==> fetch(JourneyAt(sun, path, fetch).value).Err?)
  }

  function DiagnosticAt(sun: Sun, path: CellPath, fetch: Fetch): Diagnostic
    requires Fails(sun, path, fetch)
  {
    var journey := JourneyAt(sun, path, fetch).value;
    if |path| > MAX_WARP_DEPTH then TooDeep(journey) else Unusable(fetch(journey).error)
  }

  ghost predicate UniqueNames(sun: Sun, fetch: Fetch) {
    UniqueIds(sun.nodes) && forall journey :: fetch(journey).Ok? ==> UniqueIds(fetch(journey).value.nodes)
  }

  /** No path both resolves and fails, whatever answers the journeys give. */
  lemma ResolvesOrFails(sun: Sun, path: CellPath, fetch: Fetch)
    ensures !(Resolves(sun, path, fetch) && Fails(sun, path, fetch))
    ensures path != [] && |path| <= MAX_WARP_DEPTH ==>
      (JourneyAt(sun, path, fetch).Some? <==> Resolves(sun, path, fetch) || Fails(sun, path, fetch))
  {
  }

  // ---------------------------------------------------------------------------
  // Termination
  // ---------------------------------------------------------------------------

  /** The work below a sun at the given number of levels above the limit. */
  function Weight(sun: Sun, levels: nat, fetch: Fetch): (w: nat)
    decreases levels, 1, 0
  {
    1 + NodesWeight(sun.nodes, levels, fetch)
  }

  function NodesWeight(nodes: seq<Cell>, levels: nat, fetch: Fetch): nat
    decreases levels, 0, |nodes|
  {
    if nodes == [] || levels == 0 then 0
    else NodeWeight(nodes[0], levels, fetch) + NodesWeight(nodes[1..], levels, fetch)
  }

  function NodeWeight(node: Cell, levels: nat, fetch: Fetch): nat
    requires levels > 0
    decreases levels, 0, 0
  {
    if node.Warp() && fetch(node.journey).Ok? then Weight(fetch(node.journey).value, levels - 1, fetch) else 0
  }

  datatype Item = Item(sun: Sun, prefix: CellPath)

  function StackWeight(stack: seq<Item>, fetch: Fetch): nat {
    if stack == [] then 0
    else
      var item := stack[|stack| - 1];
      StackWeight(stack[..|stack| - 1], fetch)
      + if |item.prefix| <= MAX_WARP_DEPTH then Weight(item.sun, MAX_WARP_DEPTH - |item.prefix|, fetch) else 1
  }

  lemma PushWeight(stack: seq<Item>, item: Item, fetch: Fetch)
    ensures StackWeight(stack + [item], fetch) == StackWeight(stack, fetch)
      + if |item.prefix| <= MAX_WARP_DEPTH then Weight(item.sun, MAX_WARP_DEPTH - |item.prefix|, fetch) else 1
  {
    assert (stack + [item])[..|stack|] == stack;
  }

  // ---------------------------------------------------------------------------
  // The worklist
  // ---------------------------------------------------------------------------

  type Appearances = map<CellPath, Sun>
  type Diagnostics = map<CellPath, Diagnostic>

  /** Everything recorded is right. */
  predicate Sound(sun: Sun, fetch: Fetch, found: Appearances, failed: Diagnostics) {
    && (forall path :: path in found ==> Resolves(sun, path, fetch) && SunAt(sun, path, fetch) == Some(found[path]))
    && (forall path :: path in failed ==> Fails(sun, path, fetch) && failed[path] == DiagnosticAt(sun, path, fetch))
  }

  /** The recursive definition: the two maps hold exactly the paths that resolve and those that fail. */
  ghost predicate Exactly(sun: Sun, fetch: Fetch, found: Appearances, failed: Diagnostics) {
    && Sound(sun, fetch, found, failed)
    && (forall path :: path in found <==> Resolves(sun, path, fetch))
    && (forall path :: path in failed <==> Fails(sun, path, fetch))
  }

  predicate ItemOk(sun: Sun, fetch: Fetch, item: Item) {
    |item.prefix| <= MAX_WARP_DEPTH && SunAt(sun, item.prefix, fetch) == Some(item.sun)
  }

  predicate StackOk(sun: Sun, fetch: Fetch, stack: seq<Item>) {
    forall item :: item in stack ==> ItemOk(sun, fetch, item)
  }

  /** `path` lies strictly below `prefix`. */
  predicate Below(prefix: CellPath, path: CellPath) {
    |prefix| < |path| && path[..|prefix|] == prefix
  }

  predicate Awaits(stack: seq<Item>, path: CellPath) {
    exists item :: item in stack && Below(item.prefix, path)
  }

  /** Every path that deserves an entry has one or lies below something still to be scanned. */
  ghost predicate Complete(sun: Sun, fetch: Fetch, found: Appearances, failed: Diagnostics, stack: seq<Item>) {
    forall path :: Named(sun, path, fetch) ==> path in found || path in failed || Awaits(stack, path)
  }

  predicate Named(sun: Sun, path: CellPath, fetch: Fetch) {
    Resolves(sun, path, fetch) || Fails(sun, path, fetch)
  }

  /** The same while a sun is being scanned: the cells from position `k` on are still to come. */
  ghost predicate Scanning(
    sun: Sun, fetch: Fetch, found: Appearances, failed: Diagnostics, stack: seq<Item>, item: Item, k: nat)
  {
    forall path :: Named(sun, path, fetch) ==>
      path in found || path in failed || Awaits(stack, path) || ToCome(item, k, path)
  }

  predicate ToCome(item: Item, k: nat, path: CellPath) {
    Below(item.prefix, path) && exists i :: k <= i < |item.sun.nodes| && item.sun.nodes[i].id == path[|item.prefix|]
  }

  lemma {:induction false} JourneyOfNode(nodes: seq<Cell>, i: nat)
    requires UniqueIds(nodes) && i < |nodes|
    ensures JourneyOf(nodes, nodes[i].id) == if nodes[i].Warp() then Some(nodes[i].journey) else None
    decreases |nodes|
  {
    var rest := nodes[1..];
    assert forall j :: 0 <= j < |rest| ==> rest[j] == nodes[j + 1];
    if i > 0 {
      assert nodes[0].id != nodes[i].id;
      JourneyOfNode(rest, i - 1);
    } else {
      NoJourney(rest, nodes[0].id);
    }
  }

  lemma {:induction false} NoJourney(nodes: seq<Cell>, id: nat)
    requires forall j :: 0 <= j < |nodes| ==> nodes[j].id != id
    ensures JourneyOf(nodes, id) == None
    decreases |nodes|
  {
    if nodes != [] { NoJourney(nodes[1..], id); }
  }

  /** Every beginning of a path that names a warp cell resolves. */
  lemma {:induction false} Beginnings(sun: Sun, fetch: Fetch, path: CellPath, n: nat)
    requires path != [] && JourneyAt(sun, path, fetch).Some? && 0 < n <= |path|
    ensures JourneyAt(sun, path[..n], fetch).Some? && (n < |path| ==> SunAt(sun, path[..n], fetch).Some?)
    decreases |path|
  {
    var front := path[..|path| - 1];
    if n == |path| {
      assert path[..n] == path;
    } else if n == |front| {
      assert path[..n] == front;
    } else {
      Beginnings(sun, fetch, front, n);
      assert front[..n] == path[..n];
    }
  }

  lemma {:induction false} FoundNode(nodes: seq<Cell>, id: nat)
    requires JourneyOf(nodes, id).Some?
    ensures exists i :: 0 <= i < |nodes| && nodes[i].id == id
    decreases |nodes|
  {
    if nodes[0].id == id && nodes[0].Warp() {
      assert nodes[0].id == id;
    } else {
      FoundNode(nodes[1..], id);
      var i :| 0 <= i < |nodes[1..]| && nodes[1..][i].id == id;
      assert nodes[i + 1].id == id;
    }
  }

  lemma UniqueAt(sun: Sun, fetch: Fetch, path: CellPath)
    requires UniqueNames(sun, fetch) && SunAt(sun, path, fetch).Some?
    ensures UniqueIds(SunAt(sun, path, fetch).value.nodes)
  {
  }

  function Child(item: Item, k: nat): CellPath
    requires k < |item.sun.nodes|
  {
    item.prefix + [item.sun.nodes[k].id]
  }

  /** The journey of a scanned cell. */
  lemma ChildJourney(sun: Sun, fetch: Fetch, item: Item, k: nat)
    requires UniqueNames(sun, fetch) && ItemOk(sun, fetch, item) && k < |item.sun.nodes|
    ensures JourneyAt(sun, Child(item, k), fetch)
         == if item.sun.nodes[k].Warp() then Some(item.sun.nodes[k].journey) else None
  {
    var path := Child(item, k);
    assert path[..|path| - 1] == item.prefix && path[|path| - 1] == item.sun.nodes[k].id;
    UniqueAt(sun, fetch, item.prefix);
    JourneyOfNode(item.sun.nodes, k);
  }

  /** A named path through a scanned cell ends there, or goes on below a cell whose journey answers. */
  lemma ThroughChild(sun: Sun, fetch: Fetch, item: Item, k: nat, path: CellPath)
    requires UniqueNames(sun, fetch) && ItemOk(sun, fetch, item) && k < |item.sun.nodes|
    requires Named(sun, path, fetch) && Below(item.prefix, path) && item.sun.nodes[k].id == path[|item.prefix|]
    ensures item.sun.nodes[k].Warp() && |path| <= MAX_WARP_DEPTH + 1
    ensures path == Child(item, k) || (
      Below(Child(item, k), path) && |Child(item, k)| <= MAX_WARP_DEPTH && fetch(item.sun.nodes[k].journey).Ok?)
  {
    var child := Child(item, k);
    var n := |item.prefix| + 1;
    assert path[..n] == child;
    Beginnings(sun, fetch, path, n);
    ChildJourney(sun, fetch, item, k);
    if n == |path| { assert path[..n] == path; }
  }

  lemma BeginScan(sun: Sun, fetch: Fetch, found: Appearances, failed: Diagnostics, stack: seq<Item>, item: Item)
    requires ItemOk(sun, fetch, item) && Complete(sun, fetch, found, failed, stack + [item])
    ensures Scanning(sun, fetch, found, failed, stack, item, 0)
  {
    forall path | Named(sun, path, fetch)
      ensures path in found || path in failed || Awaits(stack, path) || ToCome(item, 0, path)
    {
      if path !in found && path !in failed && !Awaits(stack, path) {
        assert Below(item.prefix, path);
        var n := |item.prefix| + 1;
        Beginnings(sun, fetch, path, n);
        assert path[..n][..n - 1] == item.prefix;
        FoundNode(item.sun.nodes, path[n - 1]);
      }
    }
  }

  lemma EndScan(sun: Sun, fetch: Fetch, found: Appearances, failed: Diagnostics, stack: seq<Item>, item: Item)
    requires Scanning(sun, fetch, found, failed, stack, item, |item.sun.nodes|)
    ensures Complete(sun, fetch, found, failed, stack)
  {
  }

  /** One cell scanned: what it yields is recorded or pushed. */
  lemma ScanStep(sun: Sun, fetch: Fetch, found: Appearances, failed: Diagnostics, stack: seq<Item>, item: Item, k: nat,
    found': Appearances, failed': Diagnostics, stack': seq<Item>)
    requires UniqueNames(sun, fetch) && ItemOk(sun, fetch, item) && k < |item.sun.nodes|
    requires Scanning(sun, fetch, found, failed, stack, item, k)
    requires found.Keys <= found'.Keys && failed.Keys <= failed'.Keys && forall i :: i in stack ==> i in stack'
    requires item.sun.nodes[k].Warp() ==> Child(item, k) in found' || Child(item, k) in failed'
    requires item.sun.nodes[k].Warp() && |Child(item, k)| <= MAX_WARP_DEPTH && fetch(item.sun.nodes[k].journey).Ok? ==>
      Item(fetch(item.sun.nodes[k].journey).value, Child(item, k)) in stack'
    ensures Scanning(sun, fetch, found', failed', stack', item, k + 1)
  {
    forall path | Named(sun, path, fetch)
      ensures path in found' || path in failed' || Awaits(stack', path) || ToCome(item, k + 1, path)
    {
      if !(path in found || path in failed || Awaits(stack, path)) && !ToCome(item, k + 1, path) {
        ThroughChild(sun, fetch, item, k, path);
      }
    }
  }

  /** What is recorded for a scanned cell is right. */
  lemma RecordedRight(sun: Sun, fetch: Fetch, item: Item, k: nat)
    requires UniqueNames(sun, fetch) && ItemOk(sun, fetch, item) && k < |item.sun.nodes| && item.sun.nodes[k].Warp()
    ensures var (child, journey) := (Child(item, k), item.sun.nodes[k].journey);
            && (|child| > MAX_WARP_DEPTH ==>
              Fails(sun, child, fetch) && DiagnosticAt(sun, child, fetch) == TooDeep(journey))
            && (|child| <= MAX_WARP_DEPTH && fetch(journey).Err? ==>
              Fails(sun, child, fetch) && DiagnosticAt(sun, child, fetch) == Unusable(fetch(journey).error))
            && (|child| <= MAX_WARP_DEPTH && fetch(journey).Ok? ==>
              Resolves(sun, child, fetch) && SunAt(sun, child, fetch) == Some(fetch(journey).value))
  {
    ChildJourney(sun, fetch, item, k);
  }

  /** Whatever the journeys answer: every key of length one names a cell of the sun. */
  predicate TopKeysKnown(sun: Sun, found: Appearances) {
    forall path :: path in found && |path| == 1 ==> path[0] in Ids(sun.nodes)
  }

  /** Whatever the journeys answer: every recorded appearance is an answer. */
  ghost predicate Answered(fetch: Fetch, found: Appearances) {
    forall path :: path in found ==> exists journey :: fetch(journey) == Ok(found[path])
  }

  /** `fetch_warp_appearances`. */
  method FetchWarpAppearances(sun: Sun, fetch: Fetch) returns (found: Appearances, failed: Diagnostics)
    ensures UniqueNames(sun, fetch) ==> Exactly(sun, fetch, found, failed)
    ensures TopKeysKnown(sun, found) && Answered(fetch, found)
  {
    hide Named, Resolves, Fails, SunAt, JourneyAt, UniqueNames, Weight, NodesWeight, StackWeight;
    ghost var unique := UniqueNames(sun, fetch);
    found, failed := map[], map[];
    var stack := [Item(sun, [])];
    BeginWork(sun, fetch, stack[0]);
    while stack != []
      invariant forall item :: item in stack ==> |item.prefix| <= MAX_WARP_DEPTH && (item.prefix == [] ==> item.sun == sun)
      invariant TopKeysKnown(sun, found) && Answered(fetch, found)
      invariant unique ==> Sound(sun, fetch, found, failed) && StackOk(sun, fetch, stack)
      invariant unique ==> Complete(sun, fetch, found, failed, stack)
      decreases StackWeight(stack, fetch)
    {
      ghost var weight := StackWeight(stack, fetch);
      var item := stack[|stack| - 1];
      assert stack == stack[..|stack| - 1] + [item];
      stack := stack[..|stack| - 1];
      PushWeight(stack, item, fetch);
      if unique { BeginScan(sun, fetch, found, failed, stack, item); }
      ghost var levels := MAX_WARP_DEPTH - |item.prefix|;
      WeightOf(item, levels, fetch);
      for k := 0 to |item.sun.nodes|
        invariant forall i :: i in stack ==> |i.prefix| <= MAX_WARP_DEPTH && (i.prefix == [] ==> i.sun == sun)
        invariant TopKeysKnown(sun, found) && Answered(fetch, found)
        invariant unique ==> Sound(sun, fetch, found, failed) && StackOk(sun, fetch, stack)
        invariant unique ==> Scanning(sun, fetch, found, failed, stack, item, k)
        invariant StackWeight(stack, fetch) + NodesWeight(item.sun.nodes[k..], levels, fetch) < weight
      {
        ghost var found0, failed0, stack0 := found, failed, stack;
        var node := item.sun.nodes[k];
        assert node in item.sun.nodes && node.id in Ids(item.sun.nodes);
        NodesWeightStep(item.sun.nodes, k, levels, fetch);
        if node.Warp() {
          if unique { RecordedRight(sun, fetch, item, k); }
          var path := item.prefix + [node.id];
          if |path| > MAX_WARP_DEPTH {
            failed := failed[path := TooDeep(node.journey)];
          } else {
            match fetch(node.journey)
            case Ok(next) =>
              found := found[path := next];
              PushWeight(stack, Item(next, path), fetch);
              stack := stack + [Item(next, path)];
            case Err(reason) =>
              failed := failed[path := Unusable(reason)];
          }
        }
        if unique { ScanStep(sun, fetch, found0, failed0, stack0, item, k, found, failed, stack); }
      }
      if unique { EndScan(sun, fetch, found, failed, stack, item); }
    }
    if unique { EndWork(sun, fetch, found, failed); }
  }

  lemma BeginWork(sun: Sun, fetch: Fetch, item: Item)
    requires item == Item(sun, [])
    ensures ItemOk(sun, fetch, item) && Complete(sun, fetch, map[], map[], [item])
  {
    forall path | Named(sun, path, fetch) ensures Awaits([item], path) {
      assert item in [item] && Below(item.prefix, path);
    }
  }

  lemma EndWork(sun: Sun, fetch: Fetch, found: Appearances, failed: Diagnostics)
    requires Complete(sun, fetch, found, failed, [])
    requires Sound(sun, fetch, found, failed)
    ensures Exactly(sun, fetch, found, failed)
  {
    forall path ensures path in found <==> Resolves(sun, path, fetch) { ResolvesOrFails(sun, path, fetch); }
    forall path ensures path in failed <==> Fails(sun, path, fetch) { ResolvesOrFails(sun, path, fetch); }
  }

  lemma WeightOf(item: Item, levels: nat, fetch: Fetch)
    ensures item.sun.nodes[0..] == item.sun.nodes
    ensures Weight(item.sun, levels, fetch) == 1 + NodesWeight(item.sun.nodes, levels, fetch)
  {
  }

  lemma NodesWeightStep(nodes: seq<Cell>, k: nat, levels: nat, fetch: Fetch)
    requires k < |nodes|
    ensures NodesWeight(nodes[k..], levels, fetch) == NodesWeight(nodes[k + 1..], levels, fetch)
      + if levels > 0 && nodes[k].Warp() && fetch(nodes[k].journey).Ok?
        then Weight(fetch(nodes[k].journey).value, levels - 1, fetch) else 0
  {
    assert nodes[k..][0] == nodes[k] && nodes[k..][1..] == nodes[k + 1..];
    if levels == 0 { assert NodesWeight(nodes[k + 1..], levels, fetch) == 0; }
  }
}
