/** Concrete inputs on which merging does less than one might expect. */
module WarpMergeLimits {
  import opened Basics
  import opened WarpMerge
  import opened WarpMergeProofs
  import opened WarpMergeResults
  import opened WarpMergePlaces
  import opened WarpMergeDangling

  const LEAF := Sun([Cell(1, [7], NIL, 0)], [], true)

  /** One warp cell, and an edge from a cell 2 that does not exist. */
  const DANGLING := Sun([Cell(1, [1], 9, 0)], [Edge(2, 1, 1)], true)

  /** A single valid warp cell. */
  const OUTER := Sun([Cell(1, [1], 9, 0)], [], true)

  lemma SortedIs(S: set<nat>, s: seq<nat>)
    requires Ascending(s) && Elems(s) == S
    ensures Sorted(S) == s
  {
    AscendingUnique(Sorted(S), s);
  }

  lemma LeafMerged()
    ensures Merge(LEAF, map[]).cells == LEAF.nodes && Merge(LEAF, map[]).edges == []
    ensures Merge(LEAF, map[]).unknown == [] && Sinks(LEAF) == [1]
  {
    SortedIs(TopLevel(map[]), []);
    assert SortById(LEAF.nodes) == LEAF.nodes;
    assert SinksOf([], []) == [];
    assert LEAF.nodes[..0] == [];
  }

  lemma OneParent(m: Merged, a: nat, warps: map<CellPath, Sun>)
    requires [a] in warps
    ensures AttachAll(m, [a], warps) == AttachOne(m, a, warps)
  {
    hide AttachOne;
    assert [a][1..] == [];
    assert AttachAll(m, [a], warps) == AttachAll(AttachOne(m, a, warps), [], warps);
  }

  lemma TwoParents(m: Merged, a: nat, b: nat, warps: map<CellPath, Sun>)
    requires [a] in warps && [b] in warps
    ensures AttachAll(m, [a, b], warps) == AttachOne(AttachOne(m, a, warps), b, warps)
  {
    hide AttachOne;
    assert [a, b][1..] == [b];
    OneParent(AttachOne(m, a, warps), b, warps);
  }

  const ONE_LEAF := map[[1] := LEAF]

  lemma OneLeafFacts()
    ensures Parents(ONE_LEAF) == [1] && Sub(ONE_LEAF, 1) == map[] && NestedAt(ONE_LEAF, 1) == Merge(LEAF, map[])
  {
    var warps: map<CellPath, Sun> := ONE_LEAF;
    assert [1] in warps;
    assert [1][0] in TopLevel(warps);
    assert TopLevel(warps) == Elems([1]);
    SortedIs(TopLevel(warps), [1]);
    assert Sub(warps, 1) == map[];
  }

  lemma LeafJoins()
    ensures Joins(LEAF, Merge(LEAF, map[])) && Valid(LEAF.nodes, []) && 1 in Ids(LEAF.nodes)
  {
    LeafMerged();
    assert LEAF.nodes[0] in LEAF.nodes;
  }

  lemma LeafAttached(m: Merged, warps: map<CellPath, Sun>, parent: nat)
    requires [parent] in warps && warps[[parent]] == LEAF && Sub(warps, parent) == map[]
    requires parent in Ids(m.cells)
    ensures var r := AttachOne(m, parent, warps);
            && r.cells == AddPort(m.cells + [Cell(m.nextId, [m.nextPort], NIL, 0)], m.nextId, m.nextPort + 1)
            && r.edges == m.edges + [Edge(parent, m.nextId, m.nextPort + 1)]
            && r.nextId == m.nextId + 1 && r.nextPort == m.nextPort + 2 && r.unknown == m.unknown
  {
    hide Valid, Joins, Sub, Ids, Block, Landing, Connector, AttachOne;
    LeafMerged();
    LeafJoins();
    var nested := Merge(LEAF, map[]);
    assert Attaches(m, parent, warps);
    AttachOneJoins(m, parent, warps);
    LeafBlock(m, nested);
    assert m.edges + [] == m.edges;
  }

  lemma LeafPorts(cells: seq<Cell>)
    requires cells == LEAF.nodes
    ensures Sorted(Ports(cells)) == [7] && IdList(cells) == [1] && Valid(cells, []) && 1 in Ids(cells)
  {
    var c := cells[0];
    assert c in cells && c.ports[0] == 7 && 7 in c.ports;
    assert Ports(cells) == Elems([7]);
    SortedIs(Ports(cells), [7]);
  }

  lemma LeafBlock(m: Merged, nested: Merged)
    requires nested.cells == LEAF.nodes && nested.edges == []
    ensures Valid(nested.cells, nested.edges) && 1 in Ids(nested.cells)
    ensures Block(m, nested) == ([Cell(m.nextId, [m.nextPort], NIL, 0)], [])
    ensures Landing(m, nested, 1) == m.nextId && Connector(m, nested) == m.nextPort + 1
  {
    LeafPorts(nested.cells);
    var ids, ports := IdMap(nested, m.nextId), PortMap(nested, m.nextPort);
    NumberingAt([1], m.nextId);
    NumberingAt([7], m.nextPort);
    var one, seven := [1], [7];
    assert ids[one[0]] == m.nextId && ports[seven[0]] == m.nextPort;
    LookupsHit(nested, m.nextId, m.nextPort);
    RenameCellsAt(nested.cells, ids, ports);
    var block := Block(m, nested).0;
    assert block[0] == RenameCell(nested.cells[0], ids, ports);
    assert block[0].ports == [m.nextPort];
    assert block == [Cell(m.nextId, [m.nextPort], NIL, 0)];
  }

  lemma DanglingInitial()
    ensures var m := Initial(DANGLING);
            m.cells == DANGLING.nodes && m.nextId == 2 && m.nextPort == 2 && 1 in Ids(m.cells)
  {
    assert DANGLING.nodes[..0] == [];
    assert SortById(DANGLING.nodes) == DANGLING.nodes;
    assert IdList(DANGLING.nodes) == [1];
    assert PortList(DANGLING.nodes) == [1];
    AboveOne();
    assert DANGLING.nodes[0] in DANGLING.nodes;
  }

  lemma AboveOne()
    ensures Above([1]) == 2
  {
    assert [1][..0] == [];
  }

  lemma DanglingMerged()
    ensures Merge(DANGLING, ONE_LEAF).cells == [Cell(1, [1], 9, 0), Cell(2, [2, 3], NIL, 0)]
    ensures Merge(DANGLING, ONE_LEAF).edges == [Edge(2, 1, 1), Edge(1, 2, 3)]
    ensures Merge(DANGLING, ONE_LEAF).unknown == []
  {
    hide AttachOne, Sub, Ids;
    OneLeafFacts();
    DanglingInitial();
    var m := Initial(DANGLING);
    LeafAttached(m, ONE_LEAF, 1);
    OneParent(m, 1, ONE_LEAF);
    SecondGetsPort(m.cells + [Cell(2, [2], NIL, 0)]);
  }

  lemma SecondGetsPort(cells: seq<Cell>)
    requires cells == [Cell(1, [1], 9, 0), Cell(2, [2], NIL, 0)]
    ensures AddPort(cells, 2, 3) == [Cell(1, [1], 9, 0), Cell(2, [2, 3], NIL, 0)]
  {
    assert cells[1..] == [Cell(2, [2], NIL, 0)];
    assert [2] + [3] == [2, 3];
    assert AddPort(cells[1..], 2, 3) == [Cell(2, [2, 3], NIL, 0)] + cells[1..][1..];
  }

  /**
   * A sun with a dangling edge has no cycle and fails `validate`, yet merging a valid sun into it passes: the fresh
   * id makes the edge whole and the result cyclic. Hence validity of the outer sun cannot be dropped.
   */
  lemma DanglingEdgeMakesCycle()
    ensures !Valid(DANGLING.nodes, DANGLING.edges) && Acyclic(DANGLING.edges) && WarpsOk(ONE_LEAF)
    ensures var r := Merge(DANGLING, ONE_LEAF);
            r.unknown == [] && Valid(r.cells, r.edges) && !Acyclic(r.edges)
  {
    hide Merge;
    DanglingMerged();
    assert Edge(2, 1, 1) in DANGLING.edges && 2 !in Ids(DANGLING.nodes);
    OneEdgeAcyclic(Edge(2, 1, 1));
    NoEdgeAcyclic();
    LeafJoins();
    CyclicButValid(Merge(DANGLING, ONE_LEAF).cells, Merge(DANGLING, ONE_LEAF).edges);
  }

  lemma CyclicButValid(cells: seq<Cell>, edges: seq<Edge>)
    requires cells == [Cell(1, [1], 9, 0), Cell(2, [2, 3], NIL, 0)]
    requires edges == [Edge(2, 1, 1), Edge(1, 2, 3)]
    ensures Valid(cells, edges) && !Acyclic(edges)
  {
    assert cells[0] in cells && cells[1] in cells;
    assert edges[0] in edges && edges[1] in edges;
    assert 3 == cells[1].ports[1] && 1 == cells[0].ports[0];
    assert EdgeOk(cells, edges[0]) && EdgeOk(cells, edges[1]);
    assert HasEdge(edges, 1, 2) && HasEdge(edges, 2, 1);
    assert Closed(edges, [1, 2, 1]);
  }

  lemma OneEdgeAcyclic(e: Edge)
    requires e.source != e.target
    ensures Acyclic([e])
  {
    forall path: seq<nat> ensures !Closed([e], path) {
      if |path| > 2 { assert !(HasEdge([e], path[0], path[0 + 1]) && HasEdge([e], path[1], path[1 + 1])); }
      if |path| == 2 { assert !(HasEdge([e], path[0], path[0 + 1]) && path[0] == path[1]); }
    }
  }

  lemma NoEdgeAcyclic()
    ensures Acyclic([])
  {
    forall path: seq<nat> ensures !Closed([], path) {
      if |path| >= 2 { assert !HasEdge([], path[0], path[0 + 1]); }
    }
  }

  const NESTED_DANGLING := map[[1] := DANGLING, [1, 1] := LEAF]

  /** The same one level down: the outer sun is valid and acyclic, every edge set is acyclic, the result is not. */
  lemma NestedDanglingEdgeMakesCycle()
    ensures Valid(OUTER.nodes, OUTER.edges) && Acyclic(OUTER.edges)
    ensures forall path :: path in NESTED_DANGLING ==> Acyclic(NESTED_DANGLING[path].edges)
    ensures Sound(Merge(OUTER, NESTED_DANGLING)) && !Acyclic(Merge(OUTER, NESTED_DANGLING).edges)
  {
    hide AttachOne, Merge, Acyclic, Sub, Joins, Attaches, Initial, JoinedAcyclic, Sound;
    OneEdgeAcyclic(Edge(2, 1, 1));
    NoEdgeAcyclic();
    OuterValid();
    MergeValidates(OUTER, NESTED_DANGLING);
    NestedDanglingAttaches();
    CyclicFirst(OUTER, NESTED_DANGLING);
    AcyclicExactly(OUTER, NESTED_DANGLING);
  }

  lemma NestedDanglingAttaches()
    ensures Parents(NESTED_DANGLING) == [1] && Attaches(Before(OUTER, NESTED_DANGLING, 0), 1, NESTED_DANGLING)
    ensures !Acyclic(NestedAt(NESTED_DANGLING, 1).edges)
  {
    hide AttachOne, Merge, Valid, Acyclic, Sub, Joins, Initial;
    NestedDanglingSub();
    DanglingEdgeMakesCycle();
    OuterInitial();
    DanglingJoins();
    BeforeZero(OUTER, NESTED_DANGLING);
  }

  lemma CyclicFirst(sun: Sun, warps: map<CellPath, Sun>)
    requires Parents(warps) == [1] && [1] in warps
    requires Attaches(Before(sun, warps, 0), 1, warps) && !Acyclic(NestedAt(warps, 1).edges)
    ensures !JoinedAcyclic(sun, warps, 1)
  {
    hide Attaches, NestedAt, Acyclic, Before;
    assert Joined(sun, warps, 0);
  }

  lemma DanglingJoins()
    ensures Joins(DANGLING, Merge(DANGLING, ONE_LEAF))
  {
    hide Merge, Valid;
    DanglingMerged();
    DanglingEdgeMakesCycle();
    DanglingSink();
  }

  lemma BeforeZero(sun: Sun, warps: map<CellPath, Sun>)
    ensures Before(sun, warps, 0) == Initial(sun)
  {
  }

  lemma DanglingSink()
    ensures Sinks(DANGLING) == [1]
  {
    assert SinksOf([], DANGLING.edges) == [];
    assert DANGLING.nodes[..0] == [];
  }

  lemma OuterValid()
    ensures Valid(OUTER.nodes, OUTER.edges)
  {
  }

  lemma OuterInitial()
    ensures Initial(OUTER).cells == OUTER.nodes && Ids(OUTER.nodes) == {1} && Initial(OUTER).nextId == 2
  {
    assert OUTER.nodes[..0] == [];
    assert OUTER.nodes[0] in OUTER.nodes;
    assert IdList(OUTER.nodes) == [1];
    AboveOne();
  }

  lemma NestedDanglingSub()
    ensures Parents(NESTED_DANGLING) == [1] && Sub(NESTED_DANGLING, 1) == ONE_LEAF
  {
    var warps: map<CellPath, Sun> := NESTED_DANGLING;
    assert [1] in warps && [1, 1] in warps;
    assert [1][0] in TopLevel(warps);
    assert TopLevel(warps) == Elems([1]);
    SortedIs(TopLevel(warps), [1]);
    assert [1, 1][1..] == [1];
    assert [1] + [1] == [1, 1];
    assert Sub(warps, 1).Keys == {[1]};
  }

  const TWO_LEAVES := map[[1] := LEAF, [2] := LEAF]

  /** A warp sun keyed by a cell that the appearance does not have, unreported: cell 2 is the first nested cell. */
  lemma UnknownCellUnreported()
    ensures 2 !in Ids(OUTER.nodes) && [2] in TWO_LEAVES && TWO_LEAVES[[2]].finalized
    ensures Merge(OUTER, TWO_LEAVES).unknown == []
  {
    hide AttachOne, Sub, Sorted, TopLevel;
    var warps: map<CellPath, Sun> := TWO_LEAVES;
    TwoLeavesSub();
    OuterInitial();
    var m := Initial(OUTER);
    LeafAttached(m, warps, 1);
    var next := AttachOne(m, 1, warps);
    assert Cell(2, [m.nextPort], NIL, 0) in m.cells + [Cell(2, [m.nextPort], NIL, 0)];
    assert 2 in Ids(next.cells);
    LeafAttached(next, warps, 2);
    TwoParents(m, 1, 2, warps);
  }

  lemma TwoLeavesSub()
    ensures Sub(TWO_LEAVES, 1) == map[] && Sub(TWO_LEAVES, 2) == map[] && Sorted(TopLevel(TWO_LEAVES)) == [1, 2]
  {
    var warps: map<CellPath, Sun> := TWO_LEAVES;
    assert [1] in warps && [2] in warps;
    assert [1][0] in TopLevel(warps) && [2][0] in TopLevel(warps);
    assert TopLevel(warps) == Elems([1, 2]);
    SortedIs(TopLevel(warps), [1, 2]);
    assert forall k :: k in warps ==> |k| == 1;
    assert Sub(warps, 1).Keys == {} && Sub(warps, 2).Keys == {};
  }
}
