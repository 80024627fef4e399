/** The merge and the check as the source runs them, proved to compute what WarpMerge specifies. */
module WarpMergeCode {
  import opened Basics
  import opened WarpMerge
  import opened WarpMergeProofs

  /** What `validate` reports. */
  datatype Problem =
    | DuplicateCell(id: nat)
    | SharedPort(port: nat, owner: nat, id: nat)
    | UnknownSource(id: nat)
    | UnknownTarget(id: nat)
    | SelfEdge(id: nat, port: nat)
    | UnownedPort(id: nat, port: nat)

  // ---------------------------------------------------------------------------
  // validate
  // ---------------------------------------------------------------------------

  /** The first `i` cells and the first `k` ports of the next one. */
  function Seen(cells: seq<Cell>, i: nat, k: nat): seq<Cell>
    requires i < |cells| && k <= |cells[i].ports|
  {
    cells[..i] + [cells[i].(ports := cells[i].ports[..k])]
  }

  /** `owners` is the owner of every port of `cells`. */
  predicate OwnersOf(owners: map<nat, nat>, cells: seq<Cell>) {
    owners.Keys == Ports(cells) && forall q :: q in owners ==> Owns(cells, owners[q], q)
  }

  /** No problem among the cells. */
  predicate CellsOk(cells: seq<Cell>) {
    UniqueIds(cells) && UniquePorts(cells)
  }

  lemma SeenNames(cells: seq<Cell>, i: nat, k: nat)
    requires i < |cells| && k <= |cells[i].ports|
    ensures Ids(Seen(cells, i, k)) == Ids(cells[..i]) + {cells[i].id}
    ensures Ports(Seen(cells, i, k)) == Ports(cells[..i]) + Elems(cells[i].ports[..k])
    ensures CellsOk(Seen(cells, i, k)) <==> (
      CellsOk(cells[..i]) && cells[i].id !in Ids(cells[..i])
      && Distinct(cells[i].ports[..k]) && Elems(cells[i].ports[..k]) !! Ports(cells[..i]))
  {
    hide CellsOk, Distinct, Ids, Ports;
    var a := cells[i].(ports := cells[i].ports[..k]);
    CellsOfSum(cells[..i], [a]);
    OneCell(a);
    CellsOkOfSum(cells[..i], a);
  }

  lemma DistinctNext(s: seq<nat>, k: nat)
    requires k < |s|
    ensures Elems(s[..k + 1]) == Elems(s[..k]) + {s[k]}
    ensures Distinct(s[..k + 1]) <==> Distinct(s[..k]) && s[k] !in Elems(s[..k])
  {
    assert s[..k + 1] == s[..k] + [s[k]];
  }

  lemma SeenNext(cells: seq<Cell>, i: nat, k: nat)
    requires i < |cells| && k < |cells[i].ports|
    ensures Ids(Seen(cells, i, k + 1)) == Ids(Seen(cells, i, k))
    ensures Ports(Seen(cells, i, k + 1)) == Ports(Seen(cells, i, k)) + {cells[i].ports[k]}
    ensures CellsOk(Seen(cells, i, k + 1)) <==> (
      CellsOk(Seen(cells, i, k)) && cells[i].ports[k] !in Ports(Seen(cells, i, k)))
  {
    hide CellsOk, Distinct, Ids, Ports, Elems, Seen;
    SeenNames(cells, i, k);
    SeenNames(cells, i, k + 1);
    DistinctNext(cells[i].ports, k);
  }

  lemma OneCell(c: Cell)
    ensures Ids([c]) == {c.id} && Ports([c]) == Elems(c.ports)
  {
  }

  lemma CellsOkOfSum(cells: seq<Cell>, c: Cell)
    ensures CellsOk(cells + [c]) <==> (
      CellsOk(cells) && c.id !in Ids(cells) && Distinct(c.ports) && Elems(c.ports) !! Ports(cells))
  {
    OneCell(c);
    if CellsOk(cells + [c]) {
      SplitUnique(cells, [c]);
      assert [c][0] == c;
    } else if CellsOk(cells) && c.id !in Ids(cells) && Distinct(c.ports) && Elems(c.ports) !! Ports(cells) {
      JoinedUnique(cells, [c]);
    }
  }

  lemma SeenFirst(cells: seq<Cell>, i: nat)
    requires i < |cells|
    ensures Ids(Seen(cells, i, 0)) == Ids(cells[..i]) + {cells[i].id}
    ensures Ports(Seen(cells, i, 0)) == Ports(cells[..i])
    ensures CellsOk(Seen(cells, i, 0)) <==> CellsOk(cells[..i]) && cells[i].id !in Ids(cells[..i])
  {
    var a := cells[i].(ports := []);
    assert cells[i].ports[..0] == [];
    CellsOfSum(cells[..i], [a]);
    OneCell(a);
    CellsOkOfSum(cells[..i], a);
  }

  lemma SeenLast(cells: seq<Cell>, i: nat)
    requires i < |cells|
    ensures Seen(cells, i, |cells[i].ports|) == cells[..i + 1]
  {
    assert cells[i].ports[..|cells[i].ports|] == cells[i].ports;
  }

  lemma OwnersGrow(owners: map<nat, nat>, cells: seq<Cell>, i: nat, k: nat)
    requires i < |cells| && k < |cells[i].ports| && OwnersOf(owners, Seen(cells, i, k))
    ensures OwnersOf(owners[cells[i].ports[k] := cells[i].id], Seen(cells, i, k + 1))
  {
    SeenNext(cells, i, k);
    var before, after := Seen(cells, i, k), Seen(cells, i, k + 1);
    var q := cells[i].ports[k];
    forall x | x in owners || x == q ensures Owns(after, owners[q := cells[i].id][x], x) {
      var last := after[|after| - 1];
      assert last in after;
      if x == q {
        assert last.ports[k] == q;
      } else {
        var c :| c in before && c.id == owners[x] && x in c.ports;
        if c in cells[..i] { assert c in after; } else { assert x in last.ports; }
      }
    }
  }

  /** With unique names, the recorded owner is the only one. */
  lemma OnlyOwner(owners: map<nat, nat>, cells: seq<Cell>, id: nat, port: nat)
    requires CellsOk(cells) && OwnersOf(owners, cells)
    ensures Owns(cells, id, port) <==> port in owners && owners[port] == id
  {
    if Owns(cells, id, port) {
      var c :| c in cells && c.id == id && port in c.ports;
      assert port in Ports(cells);
      var d :| d in cells && d.id == owners[port] && port in d.ports;
      SharedPortSameCell(cells, c, d, port);
    }
  }

  lemma SharedPortSameCell(cells: seq<Cell>, c: Cell, d: Cell, port: nat)
    requires UniquePorts(cells) && c in cells && d in cells && port in c.ports && port in d.ports
    ensures c == d
  {
    assert forall i, j :: 0 <= i < j < |cells| ==> Apart(cells[i].ports, cells[j].ports);
  }

  /** What a problem says of the cells: the named id occurs twice, or the named cells have the port in common. */
  predicate CellProblem(p: Problem, cells: seq<Cell>) {
    match p
    case DuplicateCell(id) => exists i, j :: 0 <= i < j < |cells| && cells[i].id == id && cells[j].id == id
    case SharedPort(port, owner, id) => Owns(cells, owner, port) && Owns(cells, id, port)
    case _ => false
  }

  /** What it says of an edge, when no two cells share a name: its ends or its port are not there. */
  predicate EdgeProblem(p: Problem, cells: seq<Cell>, pending: seq<Edge>) {
    match p
    case UnknownSource(id) => id !in Ids(cells) && exists e :: e in pending && e.source == id
    case UnknownTarget(id) => id !in Ids(cells) && exists e :: e in pending && e.target == id
    case SelfEdge(id, port) => Edge(id, id, port) in pending
    case UnownedPort(id, port) =>
      (CellsOk(cells) ==> !Owns(cells, id, port)) && exists e :: e in pending && e.target == id && e.port == port
    case _ => false
  }

  predicate AllCellProblems(problems: seq<Problem>, cells: seq<Cell>) {
    forall p :: p in problems ==> CellProblem(p, cells)
  }

  predicate AllProblems(problems: seq<Problem>, cells: seq<Cell>, pending: seq<Edge>) {
    forall p :: p in problems ==> CellProblem(p, cells) || EdgeProblem(p, cells, pending)
  }

  lemma CellProblemsAre(problems: seq<Problem>, cells: seq<Cell>, pending: seq<Edge>)
    requires AllCellProblems(problems, cells)
    ensures AllProblems(problems, cells, pending)
  {
  }

  lemma SharedPortIsProblem(owners: map<nat, nat>, cells: seq<Cell>, i: nat, k: nat, problems: seq<Problem>)
    requires i < |cells| && k < |cells[i].ports| && OwnersOf(owners, Seen(cells, i, k)) && cells[i].ports[k] in owners
    requires AllCellProblems(problems, cells)
    ensures AllCellProblems(problems + [SharedPort(cells[i].ports[k], owners[cells[i].ports[k]], cells[i].id)], cells)
  {
    hide OwnersOf;
    var q := cells[i].ports[k];
    assert Owns(Seen(cells, i, k), owners[q], q) by { OwnersAre(owners, Seen(cells, i, k), q); }
    var c :| c in Seen(cells, i, k) && c.id == owners[q] && q in c.ports;
    if c in cells[..i] {
      assert c in cells;
    } else {
      assert cells[i] in cells && q in cells[i].ports;
    }
    assert cells[i] in cells && q in cells[i].ports;
  }

  lemma OwnersAre(owners: map<nat, nat>, cells: seq<Cell>, port: nat)
    requires OwnersOf(owners, cells) && port in owners
    ensures Owns(cells, owners[port], port)
  {
  }

  lemma DuplicateIsProblem(cells: seq<Cell>, i: nat, problems: seq<Problem>)
    requires i < |cells| && cells[i].id in Ids(cells[..i]) && AllCellProblems(problems, cells)
    ensures AllCellProblems(problems + [DuplicateCell(cells[i].id)], cells)
  {
    var c :| c in cells[..i] && c.id == cells[i].id;
    var j :| 0 <= j < i && cells[j] == c;
    assert cells[j].id == cells[i].id;
  }

  /** Problems stay what they are when more edges are looked at. */
  lemma MoreProblems(problems: seq<Problem>, more: seq<Problem>, cells: seq<Cell>, pending: seq<Edge>, i: nat)
    requires i < |pending| && AllProblems(problems, cells, pending[..i])
    requires more == problems || (
      |more| > 0 && more[..|more| - 1] == problems && EdgeProblem(more[|more| - 1], cells, [pending[i]]))
    ensures AllProblems(more, cells, pending[..i + 1])
  {
    assert pending[..i + 1] == pending[..i] + [pending[i]];
    assert more != problems ==> more == problems + [more[|more| - 1]];
    forall p | p in more ensures CellProblem(p, cells) || EdgeProblem(p, cells, pending[..i + 1]) {
      if p in problems {
        if !CellProblem(p, cells) { EdgeProblemMore(p, cells, pending[..i], [pending[i]]); }
      } else {
        EdgeProblemMore(p, cells, pending[..i], [pending[i]]);
      }
    }
  }

  lemma EdgeProblemMore(p: Problem, cells: seq<Cell>, a: seq<Edge>, b: seq<Edge>)
    requires EdgeProblem(p, cells, a) || EdgeProblem(p, cells, b)
    ensures EdgeProblem(p, cells, a + b)
  {
  }

  function Pair(e: Edge): (nat, nat) {
    (e.source, e.target)
  }

  /** The ports of one cell. */
  method CheckPorts(cells: seq<Cell>, i: nat, owners0: map<nat, nat>, problems0: seq<Problem>)
    returns (owners: map<nat, nat>, problems: seq<Problem>)
    requires i < |cells| && OwnersOf(owners0, Seen(cells, i, 0))
    requires (problems0 == [] <==> CellsOk(Seen(cells, i, 0))) && AllCellProblems(problems0, cells)
    ensures OwnersOf(owners, cells[..i + 1])
    ensures (problems == [] <==> CellsOk(cells[..i + 1])) && AllCellProblems(problems, cells)
  {
    hide CellsOk, Seen, Ports, Owns, AllCellProblems;
    owners, problems := owners0, problems0;
    var c := cells[i];
    for k := 0 to |c.ports|
      invariant OwnersOf(owners, Seen(cells, i, k))
      invariant (problems == [] <==> CellsOk(Seen(cells, i, k))) && AllCellProblems(problems, cells)
    {
      SeenNext(cells, i, k);
      OwnersGrow(owners, cells, i, k);
      var q := c.ports[k];
      if q in owners {
        SharedPortIsProblem(owners, cells, i, k, problems);
        problems := problems + [SharedPort(q, owners[q], c.id)];
      }
      owners := owners[q := c.id];
    }
    SeenLast(cells, i);
  }

  /** The ids and ports of all cells. */
  method CheckCells(cells: seq<Cell>) returns (nodeIds: set<nat>, owners: map<nat, nat>, problems: seq<Problem>)
    ensures nodeIds == Ids(cells) && OwnersOf(owners, cells)
    ensures (problems == [] <==> CellsOk(cells)) && AllCellProblems(problems, cells)
  {
    hide CellsOk, Seen, Ports, Owns, AllCellProblems;
    nodeIds, owners, problems := {}, map[], [];
    EmptyChecks(cells);
    for i := 0 to |cells|
      invariant nodeIds == Ids(cells[..i])
      invariant OwnersOf(owners, cells[..i])
      invariant (problems == [] <==> CellsOk(cells[..i])) && AllCellProblems(problems, cells)
    {
      SeenFirst(cells, i);
      OwnersStay(owners, cells, i);
      assert cells[..i + 1] == cells[..i] + [cells[i]];
      if cells[i].id in nodeIds {
        DuplicateIsProblem(cells, i, problems);
        problems := problems + [DuplicateCell(cells[i].id)];
      }
      nodeIds := nodeIds + {cells[i].id};
      owners, problems := CheckPorts(cells, i, owners, problems);
    }
    assert cells[..|cells|] == cells;
  }

  lemma EmptyChecks(cells: seq<Cell>)
    ensures Ids([]) == {} && Ports([]) == {} && CellsOk([]) && AllCellProblems([], cells)
  {
  }

  lemma OwnersStay(owners: map<nat, nat>, cells: seq<Cell>, i: nat)
    requires i < |cells| && OwnersOf(owners, cells[..i])
    ensures OwnersOf(owners, Seen(cells, i, 0))
  {
    SeenFirst(cells, i);
    forall q | q in owners ensures Owns(Seen(cells, i, 0), owners[q], q) {
      var c :| c in cells[..i] && c.id == owners[q] && q in c.ports;
      assert c in Seen(cells, i, 0);
    }
  }

  lemma ValidNext(cells: seq<Cell>, pending: seq<Edge>, i: nat)
    requires i < |pending|
    ensures Valid(cells, pending[..i + 1]) <==> Valid(cells, pending[..i]) && EdgeOk(cells, pending[i])
    ensures Valid(cells, pending[..i]) ==> CellsOk(cells)
    ensures (set e | e in pending[..i + 1] :: Pair(e)) == (set e | e in pending[..i] :: Pair(e)) + {Pair(pending[i])}
  {
    assert pending[..i + 1] == pending[..i] + [pending[i]];
  }

  /**
   * `validate`: it reports a problem exactly when the graph is not valid, each problem is one that the graph has, and
   * without problems it returns every connected pair once. The source's sorted list without repeats is a set here.
   */
  method Validate(cells: seq<Cell>, pending: seq<Edge>) returns (edges: set<(nat, nat)>, problems: seq<Problem>)
    ensures problems == [] <==> Valid(cells, pending)
    ensures AllProblems(problems, cells, pending)
    ensures problems == [] ==> edges == set e | e in pending :: Pair(e)
  {
    hide AllProblems, CellProblem;
    var nodeIds, owners;
    nodeIds, owners, problems := CheckCells(cells);
    CellProblemsAre(problems, cells, pending[..0]);
    edges := {};
    var i := 0;
    while i < |pending|
      invariant 0 <= i <= |pending|
      invariant problems == [] <==> Valid(cells, pending[..i])
      invariant AllProblems(problems, cells, pending[..i])
      invariant problems == [] ==> edges == set e | e in pending[..i] :: Pair(e)
    {
      var e := pending[i];
      ghost var before := problems;
      ValidNext(cells, pending, i);
      if CellsOk(cells) { OnlyOwner(owners, cells, e.target, e.port); }
      if e.source !in nodeIds {
        problems := problems + [UnknownSource(e.source)];
      } else if e.target !in nodeIds {
        problems := problems + [UnknownTarget(e.target)];
      } else if e.source == e.target {
        problems := problems + [SelfEdge(e.source, e.port)];
      } else if e.port !in owners || owners[e.port] != e.target {
        problems := problems + [UnownedPort(e.target, e.port)];
      } else {
        edges := edges + {Pair(e)};
      }
      MoreProblems(before, problems, cells, pending, i);
      i := i + 1;
    }
    assert pending[..|pending|] == pending;
  }

  // ---------------------------------------------------------------------------
  // merge_appearance
  // ---------------------------------------------------------------------------

  /** Collects, sorts and drops repeats. */
  method SortDedup(items: seq<nat>) returns (sorted: seq<nat>)
    ensures sorted == Sorted(Elems(items))
  {
    sorted := [];
    var i := 0;
    while i < |items|
      invariant 0 <= i <= |items|
      invariant Ascending(sorted) && Elems(sorted) == Elems(items[..i])
    {
      DistinctNext(items, i);
      InsertAscends(sorted, items[i]);
      sorted := Insert(sorted, items[i]);
      i := i + 1;
    }
    assert items[..|items|] == items;
    AscendingUnique(sorted, Sorted(Elems(items)));
  }

  /** Hands out consecutive numbers from `base`. */
  method NumberAll(items: seq<nat>, base: nat) returns (numbers: map<nat, nat>, next: nat)
    ensures numbers == Numbering(items, base) && next == base + |items|
  {
    numbers, next := map[], base;
    var i := 0;
    while i < |items|
      invariant 0 <= i <= |items|
      invariant numbers == Numbering(items[..i], base) && next == base + i
    {
      assert items[..i + 1][..i] == items[..i];
      numbers := numbers[items[i] := next];
      next := next + 1;
      i := i + 1;
    }
    assert items[..|items|] == items;
  }

  method PushCells(cells: seq<Cell>, nested: seq<Cell>, ids: map<nat, nat>, ports: map<nat, nat>) returns (r: seq<Cell>)
    requires Covers(nested, ids, ports)
    ensures r == cells + RenameCells(nested, ids, ports)
  {
    r := cells;
    RenameCellsAt(nested, ids, ports);
    var i := 0;
    while i < |nested|
      invariant 0 <= i <= |nested|
      invariant r == cells + RenameCells(nested, ids, ports)[..i]
    {
      r := r + [RenameCell(nested[i], ids, ports)];
      i := i + 1;
    }
  }

  method PushEdges(edges: seq<Edge>, nested: seq<Edge>, ids: map<nat, nat>, ports: map<nat, nat>) returns (r: seq<Edge>)
    requires forall e :: e in nested ==> Mapped(e, ids, ports)
    ensures r == edges + RenameEdges(nested, ids, ports)
  {
    r := edges;
    RenameEdgesAt(nested, ids, ports);
    var i := 0;
    while i < |nested|
      invariant 0 <= i <= |nested|
      invariant r == edges + RenameEdges(nested, ids, ports)[..i]
    {
      r := r + [RenameEdge(nested[i], ids, ports)];
      i := i + 1;
    }
  }

  lemma AddPortAfter(cells: seq<Cell>, i: nat, id: nat, port: nat)
    requires i < |cells|
    ensures cells[i].id != id ==>
      cells[..i] + AddPort(cells[i..], id, port) == cells[..i + 1] + AddPort(cells[i + 1..], id, port)
    ensures cells[i].id == id ==>
      cells[..i] + AddPort(cells[i..], id, port) == cells[i := cells[i].(ports := cells[i].ports + [port])]
  {
    assert cells[i..][0] == cells[i] && cells[i..][1..] == cells[i + 1..];
    assert cells[..i + 1] == cells[..i] + [cells[i]];
  }

  /** `find(|cell| cell.id == id)`, then one more port. */
  method PushPort(cells: seq<Cell>, id: nat, port: nat) returns (r: seq<Cell>)
    ensures r == AddPort(cells, id, port)
  {
    hide AddPort;
    NoCellBefore(cells, id, port);
    for i := 0 to |cells|
      invariant AddPort(cells, id, port) == cells[..i] + AddPort(cells[i..], id, port)
    {
      AddPortAfter(cells, i, id, port);
      if cells[i].id == id { return cells[i := cells[i].(ports := cells[i].ports + [port])]; }
    }
    r := cells;
  }

  lemma NoCellBefore(cells: seq<Cell>, id: nat, port: nat)
    ensures AddPort(cells, id, port) == cells[..0] + AddPort(cells[0..], id, port)
    ensures cells[..|cells|] + AddPort(cells[|cells|..], id, port) == cells
  {
    assert cells[0..] == cells && cells[|cells|..] == [] && cells[..|cells|] == cells;
  }

  lemma PrefixedAt(paths: map<nat, CellPath>, ids: map<nat, nat>, parent: nat, id: nat)
    requires Injective(ids) && id in paths && id in ids
    ensures ids[id] in Prefixed(paths, ids, parent) && Prefixed(paths, ids, parent)[ids[id]] == [parent] + paths[id]
  {
    assert ids[id] in MergedIds(paths, ids);
    assert LocalId(paths, ids, ids[id]) == id;
  }

  /** One more nested path, whichever it is. */
  lemma PrefixedNext(paths: map<nat, CellPath>, ids: map<nat, nat>, parent: nat, id: nat, path: CellPath)
    requires Injective(ids) && id !in paths
    ensures Prefixed(paths[id := path], ids, parent)
         == if id in ids then Prefixed(paths, ids, parent)[ids[id] := [parent] + path] else Prefixed(paths, ids, parent)
  {
    hide Injective, Prefixed, MergedIds;
    var before, after := Prefixed(paths, ids, parent), Prefixed(paths[id := path], ids, parent);
    var expected := if id in ids then before[ids[id] := [parent] + path] else before;
    MergedIdsNext(paths, ids, id, path);
    PrefixedKeys(paths, ids, parent);
    PrefixedKeys(paths[id := path], ids, parent);
    if id in ids { PrefixedAt(paths[id := path], ids, parent, id); }
    forall x | x in before && !(id in ids && ids[id] == x) ensures x in after && after[x] == before[x] {
      PrefixedStays(paths, ids, parent, id, path, x);
    }
    assert after.Keys == expected.Keys;
    assert forall x :: x in after ==> after[x] == expected[x];
  }

  lemma PrefixedKeys(paths: map<nat, CellPath>, ids: map<nat, nat>, parent: nat)
    ensures Prefixed(paths, ids, parent).Keys == MergedIds(paths, ids)
  {
  }

  lemma PrefixedStays(paths: map<nat, CellPath>, ids: map<nat, nat>, parent: nat, id: nat, path: CellPath, x: nat)
    requires Injective(ids) && id !in paths && x in Prefixed(paths, ids, parent)
    ensures x in Prefixed(paths[id := path], ids, parent)
    ensures Prefixed(paths[id := path], ids, parent)[x] == Prefixed(paths, ids, parent)[x]
  {
    hide Injective, Prefixed;
    var local := PrefixedFrom(paths, ids, parent, x);
    PrefixedAt(paths, ids, parent, local);
    PrefixedAt(paths[id := path], ids, parent, local);
  }

  lemma PrefixedFrom(paths: map<nat, CellPath>, ids: map<nat, nat>, parent: nat, x: nat) returns (local: nat)
    requires x in Prefixed(paths, ids, parent)
    ensures local in paths && local in ids && ids[local] == x
  {
    local := LocalId(paths, ids, x);
  }

  lemma MergedIdsNext(paths: map<nat, CellPath>, ids: map<nat, nat>, id: nat, path: CellPath)
    requires id !in paths
    ensures MergedIds(paths[id := path], ids) == MergedIds(paths, ids) + if id in ids then {ids[id]} else {}
  {
  }

  /** Carries the nested paths over, led by the boundary cell, in any order. */
  method PushPaths(paths: map<nat, CellPath>, nested: map<nat, CellPath>, ids: map<nat, nat>, parent: nat)
    returns (r: map<nat, CellPath>)
    requires Injective(ids)
    ensures r == paths + Prefixed(nested, ids, parent)
  {
    hide Prefixed, Injective;
    r := paths;
    var left := nested.Keys;
    assert nested - left == map[];
    NothingPrefixed(ids, parent);
    while left != {}
      invariant left <= nested.Keys
      invariant r == paths + Prefixed(nested - left, ids, parent)
      decreases left
    {
      var id :| id in left;
      assert nested - (left - {id}) == (nested - left)[id := nested[id]];
      PrefixedNext(nested - left, ids, parent, id, nested[id]);
      if id in ids { r := r[ids[id] := [parent] + nested[id]]; }
      left := left - {id};
    }
    assert nested - left == nested;
  }

  lemma NothingPrefixed(ids: map<nat, nat>, parent: nat)
    ensures Prefixed(map[], ids, parent) == map[]
  {
  }

  /** Joins a checked nested graph, as the second half of the source's loop does. */
  method AttachNested(m: Merged, parent: nat, nested: Merged, sink: nat) returns (r: Merged)
    requires Valid(nested.cells, nested.edges) && sink in Ids(nested.cells)
    ensures r == Attach(m, parent, nested, sink)
  {
    hide Valid, Ids, Mapped, Covers, Injective, Sorted, Prefixed, Numbering;
    LookupsHit(nested, m.nextId, m.nextPort);
    var ids, nextId := NumberAll(IdList(nested.cells), m.nextId);
    ElemsOfPorts(nested.cells);
    var sorted := SortDedup(PortList(nested.cells));
    var ports, connector := NumberAll(sorted, m.nextPort);
    var paths := PushPaths(m.paths, nested.paths, ids, parent);
    var cells := PushCells(m.cells, nested.cells, ids, ports);
    var edges := PushEdges(m.edges, nested.edges, ids, ports);
    var sinkId := ids[sink];
    cells := PushPort(cells, sinkId, connector);
    edges := edges + [Edge(parent, sinkId, connector)];
    r := Merged(cells, edges, nextId, connector + 1, paths, m.unknown);
  }

  lemma ElemsOfPorts(cells: seq<Cell>)
    ensures Elems(PortList(cells)) == Ports(cells)
  {
  }

  /** The keys of length one, sorted. */
  method WarpCellIds(warps: map<CellPath, Sun>) returns (parents: seq<nat>)
    ensures parents == Sorted(TopLevel(warps))
  {
    var found: seq<nat> := [];
    var left := warps.Keys;
    while left != {}
      invariant left <= warps.Keys
      invariant Elems(found) == TopLevel(warps - left)
      decreases left
    {
      var key :| key in left;
      TopLevelNext(warps, left, key);
      if |key| == 1 {
        ElemsOfAppended(found, key[0]);
        found := found + [key[0]];
      }
      left := left - {key};
    }
    assert warps - left == warps;
    parents := SortDedup(found);
  }

  lemma ElemsOfAppended(s: seq<nat>, x: nat)
    ensures Elems(s + [x]) == Elems(s) + {x}
  {
  }

  lemma TopLevelNext(warps: map<CellPath, Sun>, left: set<CellPath>, key: CellPath)
    requires left <= warps.Keys && key in left
    ensures TopLevel(warps - (left - {key})) == TopLevel(warps - left) + if |key| == 1 then {key[0]} else {}
  {
    assert (warps - (left - {key})).Keys == (warps - left).Keys + {key};
    var after := warps - (left - {key});
    assert |key| == 1 ==> key[0] in TopLevel(after);
    forall x | x in TopLevel(after) ensures x in TopLevel(warps - left) || (|key| == 1 && x == key[0]) {
      var k :| k in after && |k| == 1 && k[0] == x;
      assert k == key || k in warps - left;
    }
    forall x | x in TopLevel(warps - left) ensures x in TopLevel(after) {
      var k :| k in warps - left && |k| == 1 && k[0] == x;
      assert k in after;
    }
  }

  /** `merge_appearance`. */
  method MergeAppearance(sun: Sun, warps: map<CellPath, Sun>) returns (m: Merged)
    ensures m == Merge(sun, warps)
    decreases |warps|
  {
    hide Attach, Valid, Ids, Sub;
    SortedParents(warps);
    m := Initial(sun);
    var parents := WarpCellIds(warps);
    var i := 0;
    while i < |parents|
      invariant 0 <= i <= |parents|
      invariant forall p :: p in parents ==> [p] in warps
      invariant AttachAll(m, parents[i..], warps) == Merge(sun, warps)
    {
      var parent := parents[i];
      assert parents[i..][0] == parent && parents[i..][1..] == parents[i + 1..];
      SubIsSmaller(warps, parent);
      var warp := warps[[parent]];
      if warp.finalized {
        if parent !in Ids(m.cells) {
          m := m.(unknown := m.unknown + [parent]);
        } else {
          var nested := MergeAppearance(warp, Sub(warps, parent));
          var _, problems := Validate(nested.cells, nested.edges);
          var sinks := Sinks(warp);
          if nested.unknown == [] && problems == [] && |sinks| == 1 {
            assert sinks[0] in sinks;
            m := AttachNested(m, parent, nested, sinks[0]);
          }
        }
      }
      i := i + 1;
    }
  }

  datatype Failure = NotFinalized | NoCells | Broken(unknown: seq<nat>, problems: seq<Problem>)

  datatype Graph = Graph(cells: seq<Cell>, edges: set<(nat, nat)>, paths: map<nat, CellPath>)

  /** `from_appearance`: the main graph, when the sun is finalized, not empty, and merging reports nothing. */
  method FromAppearance(sun: Sun, warps: map<CellPath, Sun>) returns (r: Result<Graph, Failure>)
    ensures var m := Merge(sun, warps);
            && (r.Ok? <==> sun.finalized && m.cells != [] && m.unknown == [] && Valid(m.cells, m.edges))
            && (r.Ok? ==> r.value == Graph(m.cells, set e | e in m.edges :: Pair(e), m.paths))
            && (r.Err? && r.error.Broken? ==> r.error.unknown == m.unknown)
  {
    if !sun.finalized { return Err(NotFinalized); }
    var m := MergeAppearance(sun, warps);
    var edges, problems := Validate(m.cells, m.edges);
    if m.cells == [] { return Err(NoCells); }
    if m.unknown != [] || problems != [] { return Err(Broken(m.unknown, problems)); }
    return Ok(Graph(m.cells, edges, m.paths));
  }
}