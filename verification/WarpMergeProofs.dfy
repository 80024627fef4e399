/** What merging promises: valid, acyclic graphs in which every nested sun keeps its shape under fresh names. */
module WarpMergeProofs {
  import opened Basics
  import opened Sorting
  import opened WarpMerge

  // ---------------------------------------------------------------------------
  // Renaming
  // ---------------------------------------------------------------------------

  lemma {:induction false} RenameCellsAt(cells: seq<Cell>, ids: map<nat, nat>, ports: map<nat, nat>)
    requires Covers(cells, ids, ports)
    ensures forall i :: 0 <= i < |cells| ==> cells[i].id in ids && (forall q :: q in cells[i].ports ==> q in ports)
    ensures forall i :: 0 <= i < |cells| ==> RenameCells(cells, ids, ports)[i] == RenameCell(cells[i], ids, ports)
  {
    if cells != [] {
      var front, last := cells[..|cells| - 1], cells[|cells| - 1];
      assert cells == front + [last];
      RenameCellsAt(front, ids, ports);
      forall i | 0 <= i < |cells|
        ensures cells[i].id in ids && (forall q :: q in cells[i].ports ==> q in ports)
        ensures RenameCells(cells, ids, ports)[i] == RenameCell(cells[i], ids, ports)
      {
        if i < |front| { assert cells[i] == front[i]; } else { assert last in cells; }
      }
    }
  }

  lemma {:induction false} RenameEdgesAt(edges: seq<Edge>, ids: map<nat, nat>, ports: map<nat, nat>)
    requires forall e :: e in edges ==> Mapped(e, ids, ports)
    ensures forall i :: 0 <= i < |edges| ==> Mapped(edges[i], ids, ports)
    ensures forall i :: 0 <= i < |edges| ==> RenameEdges(edges, ids, ports)[i] == RenameEdge(edges[i], ids, ports)
  {
    if edges != [] {
      var front := edges[..|edges| - 1];
      RenameEdgesAt(front, ids, ports);
      forall i | 0 <= i < |edges|
        ensures Mapped(edges[i], ids, ports)
        ensures RenameEdges(edges, ids, ports)[i] == RenameEdge(edges[i], ids, ports)
      {
        if i < |front| { assert edges[i] == front[i]; } else { assert edges[i] in edges; }
      }
    }
  }

  /** An edge is renamed exactly when its image is there. */
  lemma {:induction false} RenamedEdges(edges: seq<Edge>, ids: map<nat, nat>, ports: map<nat, nat>)
    requires forall e :: e in edges ==> Mapped(e, ids, ports)
    requires Injective(ids) && Injective(ports)
    ensures forall e :: Mapped(e, ids, ports) ==> (e in edges <==> RenameEdge(e, ids, ports) in RenameEdges(edges, ids, ports))
    ensures forall r :: r in RenameEdges(edges, ids, ports) ==> exists e :: e in edges && r == RenameEdge(e, ids, ports)
  {
    RenameEdgesAt(edges, ids, ports);
    var renamed := RenameEdges(edges, ids, ports);
    forall r | r in renamed ensures exists e :: e in edges && r == RenameEdge(e, ids, ports) {
      var i :| 0 <= i < |renamed| && renamed[i] == r;
      assert edges[i] in edges && r == RenameEdge(edges[i], ids, ports);
    }
    forall e | Mapped(e, ids, ports)
      ensures e in edges <==> RenameEdge(e, ids, ports) in renamed
    {
      if e in edges {
        var i :| 0 <= i < |edges| && edges[i] == e;
        assert renamed[i] == RenameEdge(e, ids, ports);
      }
    }
  }

  lemma RenamedCells(cells: seq<Cell>, ids: map<nat, nat>, ports: map<nat, nat>)
    requires Covers(cells, ids, ports)
    ensures Ids(RenameCells(cells, ids, ports)) <= ids.Values
    ensures Ports(RenameCells(cells, ids, ports)) <= ports.Values
    ensures forall c :: c in cells ==> c.id in ids && ids[c.id] in Ids(RenameCells(cells, ids, ports))
  {
    RenameCellsAt(cells, ids, ports);
    var renamed := RenameCells(cells, ids, ports);
    forall c | c in cells ensures c.id in ids && ids[c.id] in Ids(renamed) {
      var i :| 0 <= i < |cells| && cells[i] == c;
      assert renamed[i] in renamed;
    }
  }

  lemma RenamedPorts(a: seq<nat>, b: seq<nat>, ports: map<nat, nat>)
    requires (forall q :: q in a ==> q in ports) && (forall q :: q in b ==> q in ports) && Injective(ports)
    ensures Distinct(a) ==> Distinct(RenamePorts(a, ports))
    ensures Apart(a, b) ==> Apart(RenamePorts(a, ports), RenamePorts(b, ports))
  {
  }

  lemma RenamedUnique(cells: seq<Cell>, ids: map<nat, nat>, ports: map<nat, nat>)
    requires Covers(cells, ids, ports) && Injective(ids) && Injective(ports)
    requires UniqueIds(cells) && UniquePorts(cells)
    ensures UniqueIds(RenameCells(cells, ids, ports)) && UniquePorts(RenameCells(cells, ids, ports))
  {
    hide Injective, Distinct, Apart, Covers;
    RenameCellsAt(cells, ids, ports);
    var renamed := RenameCells(cells, ids, ports);
    forall i, j | 0 <= i < j < |renamed|
      ensures renamed[i].id != renamed[j].id && Apart(renamed[i].ports, renamed[j].ports)
    {
      assert cells[i].id != cells[j].id && Apart(cells[i].ports, cells[j].ports);
      RenamedPorts(cells[i].ports, cells[j].ports, ports);
      InjectiveAt(ids, cells[i].id, cells[j].id);
    }
    forall i | 0 <= i < |renamed| ensures Distinct(renamed[i].ports) {
      assert Distinct(cells[i].ports);
      RenamedPorts(cells[i].ports, cells[i].ports, ports);
    }
  }

  lemma InjectiveAt(m: map<nat, nat>, x: nat, y: nat)
    requires Injective(m) && x in m && y in m && x != y
    ensures m[x] != m[y]
  {
  }

  lemma RenamedValid(cells: seq<Cell>, edges: seq<Edge>, ids: map<nat, nat>, ports: map<nat, nat>)
    requires Covers(cells, ids, ports) && Injective(ids) && Injective(ports)
    requires Valid(cells, edges) && forall e :: e in edges ==> Mapped(e, ids, ports)
    ensures Valid(RenameCells(cells, ids, ports), RenameEdges(edges, ids, ports))
  {
    var cells', edges' := RenameCells(cells, ids, ports), RenameEdges(edges, ids, ports);
    RenamedUnique(cells, ids, ports);
    RenamedEdges(edges, ids, ports);
    forall r | r in edges' ensures EdgeOk(cells', r) {
      var e :| e in edges && r == RenameEdge(e, ids, ports);
      RenamedEdgeOk(cells, e, ids, ports);
    }
  }

  lemma RenamedEdgeOk(cells: seq<Cell>, e: Edge, ids: map<nat, nat>, ports: map<nat, nat>)
    requires Covers(cells, ids, ports) && Injective(ids)
    requires EdgeOk(cells, e) && Mapped(e, ids, ports)
    ensures EdgeOk(RenameCells(cells, ids, ports), RenameEdge(e, ids, ports))
  {
    RenamedCells(cells, ids, ports);
    RenameCellsAt(cells, ids, ports);
    var c :| c in cells && c.id == e.target && e.port in c.ports;
    var i :| 0 <= i < |cells| && cells[i] == c;
    var k :| 0 <= k < |c.ports| && c.ports[k] == e.port;
    var c' := RenameCells(cells, ids, ports)[i];
    assert c'.ports[k] == ports[e.port];
    assert c' in RenameCells(cells, ids, ports) && c'.id == ids[e.target] && ports[e.port] in c'.ports;
  }

  // ---------------------------------------------------------------------------
  // Joining
  // ---------------------------------------------------------------------------

  lemma CellsOfSum(a: seq<Cell>, b: seq<Cell>)
    ensures Ids(a + b) == Ids(a) + Ids(b) && Ports(a + b) == Ports(a) + Ports(b)
  {
  }

  lemma InIds(cells: seq<Cell>)
    ensures forall i :: 0 <= i < |cells| ==> cells[i].id in Ids(cells)
    ensures forall i, q :: 0 <= i < |cells| && q in cells[i].ports ==> q in Ports(cells)
  {
  }

  lemma JoinedUnique(a: seq<Cell>, b: seq<Cell>)
    requires UniqueIds(a) && UniquePorts(a) && UniqueIds(b) && UniquePorts(b)
    requires Ids(a) !! Ids(b) && Ports(a) !! Ports(b)
    ensures UniqueIds(a + b) && UniquePorts(a + b)
  {
    hide Ids, Ports, Distinct;
    InIds(a);
    InIds(b);
    var s := a + b;
    forall i, j | 0 <= i < j < |s| ensures s[i].id != s[j].id && Apart(s[i].ports, s[j].ports) {
      if j < |a| {
        assert a[i].id != a[j].id && Apart(a[i].ports, a[j].ports);
      } else if i >= |a| {
        assert b[i - |a|].id != b[j - |a|].id && Apart(b[i - |a|].ports, b[j - |a|].ports);
      } else {
        assert a[i].id in Ids(a) && b[j - |a|].id in Ids(b);
        forall q | q in a[i].ports ensures q !in b[j - |a|].ports {
          assert q in Ports(a) && (q in b[j - |a|].ports ==> q in Ports(b));
        }
      }
    }
  }

  lemma EdgeOkMore(cells: seq<Cell>, more: seq<Cell>, e: Edge)
    requires EdgeOk(cells, e)
    ensures EdgeOk(cells + more, e) && EdgeOk(more + cells, e)
  {
    CellsOfSum(cells, more);
    CellsOfSum(more, cells);
    var c :| c in cells && c.id == e.target && e.port in c.ports;
    assert c in cells + more && c in more + cells;
  }

  lemma JoinedValid(a: seq<Cell>, ae: seq<Edge>, b: seq<Cell>, be: seq<Edge>)
    requires Valid(a, ae) && Valid(b, be) && Ids(a) !! Ids(b) && Ports(a) !! Ports(b)
    ensures Valid(a + b, ae + be)
  {
    hide EdgeOk;
    JoinedUnique(a, b);
    forall e | e in ae + be ensures EdgeOk(a + b, e) {
      if e in ae { EdgeOkMore(a, b, e); } else { EdgeOkMore(b, a, e); }
    }
  }

  /** A cell after the cell called `id` got `port`. */
  function Extended(c: Cell, id: nat, port: nat): Cell {
    if c.id == id then c.(ports := c.ports + [port]) else c
  }

  lemma {:induction false} AddPortAt(cells: seq<Cell>, id: nat, port: nat)
    requires UniqueIds(cells)
    ensures forall i :: 0 <= i < |cells| ==> AddPort(cells, id, port)[i] == Extended(cells[i], id, port)
    decreases |cells|
  {
    if cells != [] {
      AddPortAt(cells[1..], id, port);
      var r := AddPort(cells, id, port);
      forall i | 0 <= i < |cells|
        ensures r[i] == Extended(cells[i], id, port)
      {
        if i > 0 { assert cells[i] == cells[1..][i - 1]; }
      }
    }
  }

  lemma ExtendedPorts(a: Cell, b: Cell, id: nat, port: nat)
    requires port !in a.ports && port !in b.ports && a.id != b.id && Apart(a.ports, b.ports)
    ensures Apart(Extended(a, id, port).ports, Extended(b, id, port).ports)
  {
  }

  lemma ExtendedDistinct(c: Cell, id: nat, port: nat)
    requires port !in c.ports && Distinct(c.ports)
    ensures Distinct(Extended(c, id, port).ports)
  {
  }

  lemma AddPortUnique(cells: seq<Cell>, id: nat, port: nat)
    requires UniqueIds(cells) && UniquePorts(cells) && port !in Ports(cells)
    ensures UniqueIds(AddPort(cells, id, port)) && UniquePorts(AddPort(cells, id, port))
    ensures Ports(AddPort(cells, id, port)) <= Ports(cells) + {port}
  {
    hide Apart, Distinct;
    AddPortAt(cells, id, port);
    InIds(cells);
    var r := AddPort(cells, id, port);
    forall i, j | 0 <= i < j < |r| ensures r[i].id != r[j].id && Apart(r[i].ports, r[j].ports) {
      assert cells[i].id != cells[j].id && Apart(cells[i].ports, cells[j].ports);
      ExtendedPorts(cells[i], cells[j], id, port);
    }
    forall i | 0 <= i < |r| ensures Distinct(r[i].ports) {
      assert Distinct(cells[i].ports);
      ExtendedDistinct(cells[i], id, port);
    }
  }

  lemma AddPortEdgeOk(cells: seq<Cell>, id: nat, port: nat, e: Edge)
    requires UniqueIds(cells)
    ensures EdgeOk(cells, e) ==> EdgeOk(AddPort(cells, id, port), e)
    ensures id in Ids(cells) && e.source in Ids(cells) && e.source != id && e.target == id && e.port == port ==>
      EdgeOk(AddPort(cells, id, port), e)
  {
    AddPortAt(cells, id, port);
    var r := AddPort(cells, id, port);
    if EdgeOk(cells, e) {
      var c :| c in cells && c.id == e.target && e.port in c.ports;
      var i :| 0 <= i < |cells| && cells[i] == c;
      assert r[i] in r && r[i].id == e.target && e.port in r[i].ports;
    } else if id in Ids(cells) && e.target == id && e.port == port {
      var c :| c in cells && c.id == id;
      var i :| 0 <= i < |cells| && cells[i] == c;
      assert r[i] in r && r[i].id == id && r[i].ports[|c.ports|] == port;
    }
  }

  lemma ConnectorValid(cells: seq<Cell>, edges: seq<Edge>, parent: nat, sink: nat, port: nat)
    requires Valid(cells, edges) && port !in Ports(cells)
    requires parent in Ids(cells) && sink in Ids(cells) && parent != sink
    ensures Valid(AddPort(cells, sink, port), edges + [Edge(parent, sink, port)])
  {
    hide EdgeOk;
    AddPortUnique(cells, sink, port);
    forall e | e in edges + [Edge(parent, sink, port)] ensures EdgeOk(AddPort(cells, sink, port), e) {
      AddPortEdgeOk(cells, sink, port, e);
    }
  }

  // ---------------------------------------------------------------------------
  // Attaching
  // ---------------------------------------------------------------------------

  /** Every id and port in use is below the next fresh one. */
  predicate Numbered(m: Merged) {
    (forall id :: id in Ids(m.cells) ==> id < m.nextId) && (forall q :: q in Ports(m.cells) ==> q < m.nextPort)
  }

  /** Unique names, with the fresh ones above all used ones. Nothing is said of the edges. */
  predicate Named(m: Merged) {
    UniqueIds(m.cells) && UniquePorts(m.cells) && Numbered(m)
  }

  /** A merge in progress whose edges all start at cells that it has. */
  predicate Sourced(m: Merged) {
    Named(m) && forall e :: e in m.edges ==> e.source < m.nextId
  }

  /** A merge in progress: valid, with fresh names above all used ones. */
  predicate Sound(m: Merged) {
    Valid(m.cells, m.edges) && Numbered(m)
  }

  lemma SoundIsNamed(m: Merged)
    requires Sound(m)
    ensures Named(m) && Sourced(m)
  {
    forall e | e in m.edges ensures e.source < m.nextId { assert EdgeOk(m.cells, e); }
  }

  lemma InitialSound(sun: Sun)
    requires Valid(sun.nodes, sun.edges)
    ensures Sound(Initial(sun))
  {
    SortedValid(sun.nodes, sun.edges);
    InitialNamed(sun);
  }

  lemma InitialNamed(sun: Sun)
    requires UniqueIds(sun.nodes) && UniquePorts(sun.nodes)
    ensures Named(Initial(sun))
  {
    SortedUnique(sun.nodes);
    SortKeepsCells(sun.nodes);
    var list := IdList(sun.nodes);
    forall c | c in sun.nodes ensures c.id in list {
      var i :| 0 <= i < |sun.nodes| && sun.nodes[i] == c;
      assert list[i] == c.id;
    }
  }

  lemma SplitUnique(a: seq<Cell>, b: seq<Cell>)
    requires UniqueIds(a + b) && UniquePorts(a + b)
    ensures UniqueIds(a) && UniquePorts(a) && UniqueIds(b) && UniquePorts(b)
    ensures Ids(a) !! Ids(b) && Ports(a) !! Ports(b)
  {
    hide Distinct;
    var s := a + b;
    assert forall i :: 0 <= i < |a| ==> s[i] == a[i];
    assert forall i :: 0 <= i < |b| ==> s[|a| + i] == b[i];
    forall i, j | 0 <= i < j < |a| ensures a[i].id != a[j].id && Apart(a[i].ports, a[j].ports) {
      assert s[i].id != s[j].id && Apart(s[i].ports, s[j].ports);
    }
    forall i, j | 0 <= i < j < |b| ensures b[i].id != b[j].id && Apart(b[i].ports, b[j].ports) {
      assert s[|a| + i].id != s[|a| + j].id && Apart(s[|a| + i].ports, s[|a| + j].ports);
    }
    forall c, d | c in a && d in b ensures c.id != d.id && Apart(c.ports, d.ports) {
      var i :| 0 <= i < |a| && a[i] == c;
      var j :| 0 <= j < |b| && b[j] == d;
      assert s[i].id != s[|a| + j].id && Apart(s[i].ports, s[|a| + j].ports);
    }
  }

  function OtherId(): (Cell, Cell) -> bool {
    (a: Cell, b: Cell) => a.id != b.id
  }

  function OtherPorts(): (Cell, Cell) -> bool {
    (a: Cell, b: Cell) => Apart(a.ports, b.ports)
  }

  lemma SortedUnique(cells: seq<Cell>)
    requires UniqueIds(cells) && UniquePorts(cells)
    ensures UniqueIds(SortById(cells)) && UniquePorts(SortById(cells))
  {
    var r := SortById(cells);
    SortedPairwise(cells, ById(), OtherId());
    SortedPairwise(cells, ById(), OtherPorts());
    forall i | 0 <= i < |r| ensures Distinct(r[i].ports) { assert r[i] in cells; }
    forall i, j | 0 <= i < j < |r| ensures r[i].id != r[j].id && Apart(r[i].ports, r[j].ports) {
      assert OtherId()(r[i], r[j]) && OtherPorts()(r[i], r[j]);
    }
  }

  lemma SortedValid(cells: seq<Cell>, edges: seq<Edge>)
    requires Valid(cells, edges)
    ensures Valid(SortById(cells), edges)
  {
    SortedUnique(cells);
    SortKeepsCells(cells);
    forall e | e in edges ensures EdgeOk(SortById(cells), e) {
      var c :| c in cells && c.id == e.target && e.port in c.ports;
      assert c in SortById(cells);
    }
  }

  lemma BlockFresh(m: Merged, nested: Merged)
    requires Valid(nested.cells, nested.edges)
    ensures var (cells, edges) := Block(m, nested);
            && Valid(cells, edges)
            && (forall id :: id in Ids(cells) ==> m.nextId <= id < m.nextId + |nested.cells|)
            && (forall q :: q in Ports(cells) ==> m.nextPort <= q < Connector(m, nested))
  {
    LookupsHit(nested, m.nextId, m.nextPort);
    var ids, ports := IdMap(nested, m.nextId), PortMap(nested, m.nextPort);
    RenamedValid(nested.cells, nested.edges, ids, ports);
    RenamedCells(nested.cells, ids, ports);
    NumberingFresh(IdList(nested.cells), m.nextId);
    NumberingFresh(Sorted(Ports(nested.cells)), m.nextPort);
  }

  lemma LandsInBlock(m: Merged, nested: Merged, sink: nat)
    requires Valid(nested.cells, nested.edges) && sink in Ids(nested.cells)
    ensures Landing(m, nested, sink) in Ids(Block(m, nested).0)
  {
    LookupsHit(nested, m.nextId, m.nextPort);
    RenamedCells(nested.cells, IdMap(nested, m.nextId), PortMap(nested, m.nextPort));
    var c :| c in nested.cells && c.id == sink;
    assert IdMap(nested, m.nextId)[c.id] in Ids(Block(m, nested).0);
  }

  lemma AttachSound(m: Merged, parent: nat, nested: Merged, sink: nat)
    requires Sound(m) && Valid(nested.cells, nested.edges)
    requires parent in Ids(m.cells) && sink in Ids(nested.cells)
    ensures Sound(Attach(m, parent, nested, sink))
  {
    hide Valid, Block, Ids, Ports, Landing, Connector;
    var (cells, edges) := Block(m, nested);
    var landing, connector := Landing(m, nested, sink), Connector(m, nested);
    BlockFresh(m, nested);
    LandsInBlock(m, nested, sink);
    JoinedValid(m.cells, m.edges, cells, edges);
    CellsOfSum(m.cells, cells);
    var all := m.cells + cells;
    ConnectorIsNew(m, nested);
    ConnectorValid(all, m.edges + edges, parent, landing, connector);
    ValidIsUnique(all, m.edges + edges);
    AddPortUnique(all, landing, connector);
  }

  lemma AttachNamed(m: Merged, parent: nat, nested: Merged, sink: nat)
    requires Named(m) && Valid(nested.cells, nested.edges)
    requires parent in Ids(m.cells) && sink in Ids(nested.cells)
    ensures Named(Attach(m, parent, nested, sink))
  {
    hide Valid, UniqueIds, UniquePorts, Block, Ids, Ports, Landing, Connector;
    var (cells, edges) := Block(m, nested);
    BlockFresh(m, nested);
    ValidIsUnique(cells, edges);
    LandsInBlock(m, nested, sink);
    JoinedUnique(m.cells, cells);
    CellsOfSum(m.cells, cells);
    ConnectorIsNew(m, nested);
    AddPortUnique(m.cells + cells, Landing(m, nested, sink), Connector(m, nested));
  }

  lemma ConnectorIsNew(m: Merged, nested: Merged)
    ensures m.nextPort <= Connector(m, nested)
  {
  }

  lemma ValidIsUnique(cells: seq<Cell>, edges: seq<Edge>)
    requires Valid(cells, edges)
    ensures UniqueIds(cells) && UniquePorts(cells)
  {
  }

  lemma AttachOneSound(m: Merged, parent: nat, warps: map<CellPath, Sun>)
    requires Sound(m) && [parent] in warps
    ensures Sound(AttachOne(m, parent, warps))
  {
    hide Attach, Valid;
    SubIsSmaller(warps, parent);
    if warps[[parent]].finalized && parent in Ids(m.cells) {
      var nested := Merge(warps[[parent]], Sub(warps, parent));
      if Joins(warps[[parent]], nested) {
        assert Sinks(warps[[parent]])[0] in Sinks(warps[[parent]]);
        AttachSound(m, parent, nested, Sinks(warps[[parent]])[0]);
      }
    }
  }

  lemma {:induction false} AttachAllSound(m: Merged, parents: seq<nat>, warps: map<CellPath, Sun>)
    requires Sound(m) && forall p :: p in parents ==> [p] in warps
    ensures Sound(AttachAll(m, parents, warps))
    decreases |parents|
  {
    hide Sound, AttachOne;
    if parents != [] {
      AttachOneSound(m, parents[0], warps);
      AttachAllSound(AttachOne(m, parents[0], warps), parents[1..], warps);
    }
  }

  lemma AttachOneNamed(m: Merged, parent: nat, warps: map<CellPath, Sun>)
    requires Named(m) && [parent] in warps
    ensures Named(AttachOne(m, parent, warps))
  {
    hide Attach, Valid, UniqueIds, UniquePorts;
    SubIsSmaller(warps, parent);
    if warps[[parent]].finalized && parent in Ids(m.cells) {
      var nested := Merge(warps[[parent]], Sub(warps, parent));
      if Joins(warps[[parent]], nested) {
        assert Sinks(warps[[parent]])[0] in Sinks(warps[[parent]]);
        AttachNamed(m, parent, nested, Sinks(warps[[parent]])[0]);
      }
    }
  }

  lemma {:induction false} AttachAllNamed(m: Merged, parents: seq<nat>, warps: map<CellPath, Sun>)
    requires Named(m) && forall p :: p in parents ==> [p] in warps
    ensures Named(AttachAll(m, parents, warps))
    decreases |parents|
  {
    hide Named, AttachOne;
    if parents != [] {
      AttachOneNamed(m, parents[0], warps);
      AttachAllNamed(AttachOne(m, parents[0], warps), parents[1..], warps);
    }
  }

  /** A valid sun stays valid whatever is merged into it: only checked graphs join, under fresh names. */
  lemma MergeValidates(sun: Sun, warps: map<CellPath, Sun>)
    requires Valid(sun.nodes, sun.edges)
    ensures Sound(Merge(sun, warps))
  {
    InitialSound(sun);
    SortedParents(warps);
    AttachAllSound(Initial(sun), Sorted(TopLevel(warps)), warps);
  }

  // ---------------------------------------------------------------------------
  // Cycles
  // ---------------------------------------------------------------------------

  predicate HasEdge(edges: seq<Edge>, a: nat, b: nat) {
    exists e :: e in edges && e.source == a && e.target == b
  }

  predicate Walk(edges: seq<Edge>, path: seq<nat>) {
    forall i :: 0 <= i < |path| - 1 ==> HasEdge(edges, path[i], path[i + 1])
  }

  predicate Closed(edges: seq<Edge>, path: seq<nat>) {
    |path| >= 2 && Walk(edges, path) && path[0] == path[|path| - 1]
  }

  /** No walk along the edges comes back to where it started. */
  ghost predicate Acyclic(edges: seq<Edge>) {
    forall path :: !Closed(edges, path)
  }

  /** Edges of the block lead into the block only; the only edge that enters it is the connector. */
  lemma AttachedEdge(m: Merged, parent: nat, nested: Merged, sink: nat, a: nat, b: nat)
    requires Sourced(m) && Valid(nested.cells, nested.edges)
    requires parent in Ids(m.cells) && sink in Ids(nested.cells)
    requires HasEdge(Attach(m, parent, nested, sink).edges, a, b)
    ensures a >= m.nextId ==> b >= m.nextId && HasEdge(Block(m, nested).1, a, b)
    ensures b < m.nextId ==> a < m.nextId && HasEdge(m.edges, a, b)
  {
    hide UniqueIds, UniquePorts, Block, Landing;
    BlockFresh(m, nested);
    LandsInBlock(m, nested, sink);
    var (cells, edges) := Block(m, nested);
    var e :| e in Attach(m, parent, nested, sink).edges && e.source == a && e.target == b;
    if e !in m.edges && e in edges { assert EdgeOk(cells, e); }
  }

  lemma {:induction false} StaysInBlock(m: Merged, parent: nat, nested: Merged, sink: nat, path: seq<nat>, i: nat)
    requires Sourced(m) && Valid(nested.cells, nested.edges)
    requires parent in Ids(m.cells) && sink in Ids(nested.cells)
    requires Walk(Attach(m, parent, nested, sink).edges, path) && i < |path| && path[0] >= m.nextId
    ensures path[i] >= m.nextId
  {
    hide Sound, Valid, HasEdge, Attach;
    if i > 0 {
      StaysInBlock(m, parent, nested, sink, path, i - 1);
      assert HasEdge(Attach(m, parent, nested, sink).edges, path[i - 1], path[i - 1 + 1]);
      AttachedEdge(m, parent, nested, sink, path[i - 1], path[i]);
    }
  }

  lemma {:induction false} CameFromOuter(m: Merged, parent: nat, nested: Merged, sink: nat, path: seq<nat>, i: nat)
    requires Sourced(m) && Valid(nested.cells, nested.edges)
    requires parent in Ids(m.cells) && sink in Ids(nested.cells)
    requires Walk(Attach(m, parent, nested, sink).edges, path) && i < |path| && path[|path| - 1] < m.nextId
    ensures path[i] < m.nextId
    decreases |path| - i
  {
    hide Sound, Valid, HasEdge, Attach;
    if i < |path| - 1 {
      CameFromOuter(m, parent, nested, sink, path, i + 1);
      assert HasEdge(Attach(m, parent, nested, sink).edges, path[i], path[i + 1]);
      AttachedEdge(m, parent, nested, sink, path[i], path[i + 1]);
    }
  }

  /** A closed walk lies within the block or within what was there before. */
  lemma ClosedWalkSplits(m: Merged, parent: nat, nested: Merged, sink: nat, path: seq<nat>)
    requires Sourced(m) && Valid(nested.cells, nested.edges)
    requires parent in Ids(m.cells) && sink in Ids(nested.cells)
    requires Closed(Attach(m, parent, nested, sink).edges, path)
    ensures Closed(m.edges, path) || Closed(Block(m, nested).1, path)
  {
    hide Sound, Valid, HasEdge;
    var all := Attach(m, parent, nested, sink).edges;
    var inner := path[0] >= m.nextId;
    forall i | 0 <= i < |path| - 1
      ensures if inner then HasEdge(Block(m, nested).1, path[i], path[i + 1]) else HasEdge(m.edges, path[i], path[i + 1])
    {
      assert HasEdge(all, path[i], path[i + 1]);
      AttachedEdge(m, parent, nested, sink, path[i], path[i + 1]);
      if inner {
        StaysInBlock(m, parent, nested, sink, path, i);
      } else {
        CameFromOuter(m, parent, nested, sink, path, i + 1);
      }
    }
  }

  lemma MoreEdges(edges: seq<Edge>, more: seq<Edge>, path: seq<nat>)
    requires Closed(edges, path) && forall e :: e in edges ==> e in more
    ensures Closed(more, path)
  {
    forall i | 0 <= i < |path| - 1 ensures HasEdge(more, path[i], path[i + 1]) {
      assert HasEdge(edges, path[i], path[i + 1]);
    }
  }

  /** Renaming apart neither makes nor breaks cycles. */
  lemma RenamedCycle(edges: seq<Edge>, ids: map<nat, nat>, ports: map<nat, nat>, path: seq<nat>) returns (original: seq<nat>)
    requires forall e :: e in edges ==> Mapped(e, ids, ports)
    requires Injective(ids) && Injective(ports)
    requires Closed(RenameEdges(edges, ids, ports), path)
    ensures Closed(edges, original)
  {
    var edges' := RenameEdges(edges, ids, ports);
    RenamedEdges(edges, ids, ports);
    forall i | 0 <= i < |path| ensures exists x :: x in ids && ids[x] == path[i] {
      var k := if i == 0 then 0 else i - 1;
      assert HasEdge(edges', path[k], path[k + 1]);
      var e' :| e' in edges' && e'.source == path[k] && e'.target == path[k + 1];
      var e :| e in edges && e' == RenameEdge(e, ids, ports);
      assert ids[e.source] == path[k] && ids[e.target] == path[k + 1];
    }
    original := seq(|path|, i requires 0 <= i < |path| => Original(ids, path[i]));
    forall i | 0 <= i < |path| - 1 ensures HasEdge(edges, original[i], original[i + 1]) {
      assert HasEdge(edges', path[i], path[i + 1]);
      var e' :| e' in edges' && e'.source == path[i] && e'.target == path[i + 1];
      var e :| e in edges && e' == RenameEdge(e, ids, ports);
    }
  }

  ghost function Original(ids: map<nat, nat>, id: nat): (x: nat)
    requires exists x :: x in ids && ids[x] == id
    ensures x in ids && ids[x] == id
  {
    var x :| x in ids && ids[x] == id;
    x
  }

  lemma CycleRenamed(edges: seq<Edge>, ids: map<nat, nat>, ports: map<nat, nat>, path: seq<nat>) returns (image: seq<nat>)
    requires forall e :: e in edges ==> Mapped(e, ids, ports)
    requires Injective(ids) && Injective(ports)
    requires Closed(edges, path)
    ensures Closed(RenameEdges(edges, ids, ports), image)
  {
    var edges' := RenameEdges(edges, ids, ports);
    RenamedEdges(edges, ids, ports);
    image := seq(|path|, i requires 0 <= i < |path| => if path[i] in ids then ids[path[i]] else 0);
    forall i | 0 <= i < |path| - 1 ensures HasEdge(edges', image[i], image[i + 1]) {
      assert HasEdge(edges, path[i], path[i + 1]);
      var e :| e in edges && e.source == path[i] && e.target == path[i + 1];
      assert RenameEdge(e, ids, ports) in edges';
    }
  }

  /** Attaching makes no cycle and hides none. */
  lemma AttachAcyclic(m: Merged, parent: nat, nested: Merged, sink: nat)
    requires Sourced(m) && Valid(nested.cells, nested.edges)
    requires parent in Ids(m.cells) && sink in Ids(nested.cells)
    ensures Acyclic(Attach(m, parent, nested, sink).edges) <==> Acyclic(m.edges) && Acyclic(nested.edges)
  {
    hide Sound, Valid, Closed, Landing, Connector;
    var all := Attach(m, parent, nested, sink).edges;
    LookupsHit(nested, m.nextId, m.nextPort);
    var ids, ports := IdMap(nested, m.nextId), PortMap(nested, m.nextPort);
    forall path | Closed(all, path) ensures !Acyclic(m.edges) || !Acyclic(nested.edges) {
      ClosedWalkSplits(m, parent, nested, sink, path);
      if Closed(Block(m, nested).1, path) {
        var original := RenamedCycle(nested.edges, ids, ports, path);
      }
    }
    forall path | Closed(m.edges, path) ensures Closed(all, path) {
      MoreEdges(m.edges, all, path);
    }
    forall path | Closed(nested.edges, path) ensures !Acyclic(all) {
      var image := CycleRenamed(nested.edges, ids, ports, path);
      MoreEdges(Block(m, nested).1, all, image);
    }
  }

  /** What a family must satisfy: each nested sun is a valid, acyclic graph by itself. */
  ghost predicate WarpsOk(warps: map<CellPath, Sun>) {
    forall path :: path in warps ==> Valid(warps[path].nodes, warps[path].edges) && Acyclic(warps[path].edges)
  }

  lemma SubWarpsOk(warps: map<CellPath, Sun>, parent: nat)
    requires WarpsOk(warps)
    ensures WarpsOk(Sub(warps, parent))
  {
  }

  lemma {:induction false} AttachAllAcyclic(m: Merged, parents: seq<nat>, warps: map<CellPath, Sun>)
    requires Sound(m) && Acyclic(m.edges) && WarpsOk(warps) && forall p :: p in parents ==> [p] in warps
    ensures Acyclic(AttachAll(m, parents, warps).edges)
    decreases |warps|, 1, |parents|
  {
    hide Sound, WarpsOk, AttachOne;
    if parents != [] {
      AttachOneAcyclic(m, parents[0], warps);
      AttachOneSound(m, parents[0], warps);
      AttachAllAcyclic(AttachOne(m, parents[0], warps), parents[1..], warps);
    }
  }

  lemma {:induction false} AttachOneAcyclic(m: Merged, parent: nat, warps: map<CellPath, Sun>)
    requires Sound(m) && Acyclic(m.edges) && WarpsOk(warps) && [parent] in warps
    ensures Acyclic(AttachOne(m, parent, warps).edges)
    decreases |warps|, 0, 0
  {
    hide Sound, Valid, Acyclic, Attach;
    SubIsSmaller(warps, parent);
    var warp := warps[[parent]];
    var nested := Merge(warp, Sub(warps, parent));
    if warp.finalized && parent in Ids(m.cells) && Joins(warp, nested) {
      SubWarpsOk(warps, parent);
      MergeIsAcyclic(warp, Sub(warps, parent));
      assert Sinks(warp)[0] in Sinks(warp);
      SoundIsNamed(m);
      AttachAcyclic(m, parent, nested, Sinks(warp)[0]);
    }
  }

  /** Merging valid acyclic suns, nested to any depth, gives an acyclic graph. */
  lemma {:induction false} MergeIsAcyclic(sun: Sun, warps: map<CellPath, Sun>)
    requires Valid(sun.nodes, sun.edges) && Acyclic(sun.edges) && WarpsOk(warps)
    ensures Acyclic(Merge(sun, warps).edges)
    decreases |warps|, 2, 0
  {
    InitialSound(sun);
    SortedParents(warps);
    AttachAllAcyclic(Initial(sun), Sorted(TopLevel(warps)), warps);
  }

  // ---------------------------------------------------------------------------
  // Embedding
  // ---------------------------------------------------------------------------

  /** How a nested graph sits in the merged one. */
  datatype Place = Place(parent: nat, ids: map<nat, nat>, ports: map<nat, nat>, sink: nat, connector: nat)

  predicate PlaceOf(place: Place, nested: Merged) {
    && Covers(nested.cells, place.ids, place.ports) && place.sink in place.ids
    && (forall e :: e in nested.edges ==> Mapped(e, place.ids, place.ports))
    && Injective(place.ids) && Injective(place.ports)
  }

  /** A nested cell under its fresh names; the sink also has the connector port. */
  function PlacedCell(c: Cell, place: Place): Cell
    requires c.id in place.ids && forall q :: q in c.ports ==> q in place.ports
  {
    var renamed := RenameCell(c, place.ids, place.ports);
    if c.id == place.sink then renamed.(ports := renamed.ports + [place.connector]) else renamed
  }

  function ConnectorEdge(place: Place): Edge
    requires place.sink in place.ids
  {
    Edge(place.parent, place.ids[place.sink], place.connector)
  }

  /** Same cells and same edges up to fresh names; nothing but the connector enters from outside. */
  ghost predicate Embedded(nested: Merged, place: Place, r: Merged)
    requires PlaceOf(place, nested)
  {
    && (forall c :: c in nested.cells ==> PlacedCellIn(c, place, r.cells))
    && (forall e :: Mapped(e, place.ids, place.ports) ==>
      (e in nested.edges <==> RenameEdge(e, place.ids, place.ports) in r.edges))
    && ConnectorEdge(place) in r.edges
    && (forall e :: e in r.edges && e.target in place.ids.Values ==>
      e == ConnectorEdge(place) || EdgeImage(e, nested, place))
  }

  predicate PlacedCellIn(c: Cell, place: Place, cells: seq<Cell>) {
    c.id in place.ids && (forall q :: q in c.ports ==> q in place.ports) && PlacedCell(c, place) in cells
  }

  predicate EdgeImage(e: Edge, nested: Merged, place: Place)
    requires PlaceOf(place, nested)
  {
    exists e0 :: e0 in nested.edges && e == RenameEdge(e0, place.ids, place.ports)
  }

  ghost function PlaceAt(m: Merged, parent: nat, nested: Merged, sink: nat): Place {
    Place(parent, IdMap(nested, m.nextId), PortMap(nested, m.nextPort), sink, Connector(m, nested))
  }

  lemma PlaceAtIsPlace(m: Merged, parent: nat, nested: Merged, sink: nat)
    requires Valid(nested.cells, nested.edges) && sink in Ids(nested.cells)
    ensures PlaceOf(PlaceAt(m, parent, nested, sink), nested)
    ensures forall id :: id in PlaceAt(m, parent, nested, sink).ids.Values ==> m.nextId <= id < m.nextId + |nested.cells|
    ensures forall q :: q in PlaceAt(m, parent, nested, sink).ports.Values ==> m.nextPort <= q < Connector(m, nested)
  {
    LookupsHit(nested, m.nextId, m.nextPort);
    NumberingFresh(IdList(nested.cells), m.nextId);
    NumberingFresh(Sorted(Ports(nested.cells)), m.nextPort);
  }

  /** The cells of an attachment, one by one. */
  lemma AttachedCellsAt(m: Merged, parent: nat, nested: Merged, sink: nat)
    requires Named(m) && Valid(nested.cells, nested.edges)
    requires parent in Ids(m.cells) && sink in Ids(nested.cells)
    ensures var (all, landing) := (m.cells + Block(m, nested).0, Landing(m, nested, sink));
            && |Attach(m, parent, nested, sink).cells| == |all| && landing !in Ids(m.cells)
            && (forall i :: 0 <= i < |all| ==>
              Attach(m, parent, nested, sink).cells[i] == Extended(all[i], landing, Connector(m, nested)))
  {
    hide EdgeOk, Ids, Ports, UniquePorts, Block, Landing, Connector;
    BlockFresh(m, nested);
    LandsInBlock(m, nested, sink);
    JoinedUnique(m.cells, Block(m, nested).0);
    AddPortAt(m.cells + Block(m, nested).0, Landing(m, nested, sink), Connector(m, nested));
  }

  lemma OuterCellsKept(m: Merged, parent: nat, nested: Merged, sink: nat)
    requires Named(m) && Valid(nested.cells, nested.edges)
    requires parent in Ids(m.cells) && sink in Ids(nested.cells)
    ensures forall c :: c in m.cells ==> c in Attach(m, parent, nested, sink).cells
  {
    hide Sound, Valid, Block, Landing, Connector, Attach;
    AttachedCellsAt(m, parent, nested, sink);
    forall c | c in m.cells ensures c in Attach(m, parent, nested, sink).cells {
      var i :| 0 <= i < |m.cells| && m.cells[i] == c;
      assert (m.cells + Block(m, nested).0)[i] == c;
      assert c.id in Ids(m.cells);
    }
  }

  lemma NestedCellsPlaced(m: Merged, parent: nat, nested: Merged, sink: nat)
    requires Named(m) && Valid(nested.cells, nested.edges)
    requires parent in Ids(m.cells) && sink in Ids(nested.cells)
    ensures forall c :: c in nested.cells ==>
      PlacedCellIn(c, PlaceAt(m, parent, nested, sink), Attach(m, parent, nested, sink).cells)
  {
    hide Sound, Valid, IdMap, PortMap, Attach, Connector;
    AttachedCellsAt(m, parent, nested, sink);
    LookupsHit(nested, m.nextId, m.nextPort);
    var place, cells := PlaceAt(m, parent, nested, sink), Block(m, nested).0;
    RenameCellsAt(nested.cells, place.ids, place.ports);
    forall c | c in nested.cells ensures PlacedCellIn(c, place, Attach(m, parent, nested, sink).cells) {
      var i :| 0 <= i < |nested.cells| && nested.cells[i] == c;
      assert (m.cells + cells)[|m.cells| + i] == cells[i];
      assert cells[i] == RenameCell(c, place.ids, place.ports);
      NestedCellPlaced(c, place);
      assert Attach(m, parent, nested, sink).cells[|m.cells| + i]
          == Extended(cells[i], Landing(m, nested, sink), Connector(m, nested));
    }
  }

  lemma NestedCellPlaced(c: Cell, place: Place)
    requires Injective(place.ids) && place.sink in place.ids
    requires c.id in place.ids && forall q :: q in c.ports ==> q in place.ports
    ensures Extended(RenameCell(c, place.ids, place.ports), place.ids[place.sink], place.connector) == PlacedCell(c, place)
  {
  }

  /** Names that the edges and the ports of a graph do not use. */
  lemma SoundNames(m: Merged)
    requires Sound(m)
    ensures forall e :: e in m.edges ==> e.source < m.nextId && e.target < m.nextId && e.port < m.nextPort
  {
    forall e | e in m.edges ensures e.source < m.nextId && e.target < m.nextId && e.port < m.nextPort {
      assert EdgeOk(m.cells, e);
      var c :| c in m.cells && c.id == e.target && e.port in c.ports;
      assert e.port in Ports(m.cells);
    }
  }

  /** The edges of an attachment, read through the new names. */
  lemma AttachedEdges(m: Merged, parent: nat, nested: Merged, sink: nat)
    requires Sound(m) && Valid(nested.cells, nested.edges) && sink in Ids(nested.cells)
    ensures var (place, r) := (PlaceAt(m, parent, nested, sink), Attach(m, parent, nested, sink));
            PlaceOf(place, nested) && (forall e :: Mapped(e, place.ids, place.ports) ==>
              (e in nested.edges <==> RenameEdge(e, place.ids, place.ports) in r.edges))
  {
    hide Sound, Valid, IdMap, PortMap, Connector, Mapped, Covers, Injective;
    var place, r := PlaceAt(m, parent, nested, sink), Attach(m, parent, nested, sink);
    PlaceAtIsPlace(m, parent, nested, sink);
    SoundNames(m);
    RenamedEdges(nested.edges, place.ids, place.ports);
    forall e | Mapped(e, place.ids, place.ports)
      ensures e in nested.edges <==> RenameEdge(e, place.ids, place.ports) in r.edges
    {
      RenamedEdgeIsFresh(m, parent, nested, sink, e);
    }
  }

  lemma EnteringEdges(m: Merged, parent: nat, nested: Merged, sink: nat)
    requires Sound(m) && Valid(nested.cells, nested.edges) && sink in Ids(nested.cells)
    ensures var (place, r) := (PlaceAt(m, parent, nested, sink), Attach(m, parent, nested, sink));
            PlaceOf(place, nested) && ConnectorEdge(place) in r.edges
            && (forall e :: e in r.edges && e.target in place.ids.Values ==>
              e == ConnectorEdge(place) || EdgeImage(e, nested, place))
  {
    hide Sound, Valid, IdMap, PortMap, Connector, Mapped, Covers, Injective;
    var place, r := PlaceAt(m, parent, nested, sink), Attach(m, parent, nested, sink);
    PlaceAtIsPlace(m, parent, nested, sink);
    SoundNames(m);
    RenamedEdges(nested.edges, place.ids, place.ports);
    assert ConnectorEdge(place) == r.edges[|r.edges| - 1];
  }

  lemma AttachEmbeds(m: Merged, parent: nat, nested: Merged, sink: nat)
    requires Sound(m) && Valid(nested.cells, nested.edges)
    requires parent in Ids(m.cells) && sink in Ids(nested.cells)
    ensures PlaceOf(PlaceAt(m, parent, nested, sink), nested)
    ensures Embedded(nested, PlaceAt(m, parent, nested, sink), Attach(m, parent, nested, sink))
  {
    hide Sound, Valid, Attach, PlaceOf, PlaceAt, Mapped, EdgeImage, PlacedCellIn;
    SoundIsNamed(m);
    NestedCellsPlaced(m, parent, nested, sink);
    AttachedEdges(m, parent, nested, sink);
    EnteringEdges(m, parent, nested, sink);
  }

  lemma RenamedEdgeIsFresh(m: Merged, parent: nat, nested: Merged, sink: nat, e: Edge)
    requires Valid(nested.cells, nested.edges) && sink in Ids(nested.cells)
    requires Mapped(e, IdMap(nested, m.nextId), PortMap(nested, m.nextPort))
    ensures var r := RenameEdge(e, IdMap(nested, m.nextId), PortMap(nested, m.nextPort));
            m.nextId <= r.source && m.nextId <= r.target && r.port < Connector(m, nested)
  {
    PlaceAtIsPlace(m, parent, nested, sink);
    var place := PlaceAt(m, parent, nested, sink);
    assert place.ids[e.source] in place.ids.Values && place.ids[e.target] in place.ids.Values;
    assert place.ports[e.port] in place.ports.Values;
  }

  /** What was there stays: cells as they are, no new edge into them, and names only ever grow. */
  predicate Extends(m: Merged, r: Merged) {
    && m.nextId <= r.nextId && m.nextPort <= r.nextPort
    && (forall c :: c in m.cells ==> c in r.cells)
    && (forall e :: e in m.edges ==> e in r.edges)
    && (forall e :: e in r.edges && e.target < m.nextId ==> e in m.edges)
  }

  lemma ExtendsTransitive(a: Merged, b: Merged, c: Merged)
    requires Extends(a, b) && Extends(b, c)
    ensures Extends(a, c)
  {
  }

  lemma AttachExtends(m: Merged, parent: nat, nested: Merged, sink: nat)
    requires Sound(m) && Valid(nested.cells, nested.edges)
    requires parent in Ids(m.cells) && sink in Ids(nested.cells)
    ensures Extends(m, Attach(m, parent, nested, sink))
  {
    hide Sound, Valid, Block, Landing, Connector;
    var r := Attach(m, parent, nested, sink);
    SoundIsNamed(m);
    OuterCellsKept(m, parent, nested, sink);
    BlockFresh(m, nested);
    BlockEdges(Block(m, nested).0, Block(m, nested).1, m.nextId);
    LandsInBlock(m, nested, sink);
    ConnectorIsNew(m, nested);
  }

  lemma BlockEdges(cells: seq<Cell>, edges: seq<Edge>, base: nat)
    requires Valid(cells, edges) && forall id :: id in Ids(cells) ==> base <= id
    ensures forall e :: e in edges ==> e.target >= base
  {
    forall e | e in edges ensures e.target >= base { assert EdgeOk(cells, e); }
  }

  lemma AttachOneExtends(m: Merged, parent: nat, warps: map<CellPath, Sun>)
    requires Sound(m) && [parent] in warps
    ensures Extends(m, AttachOne(m, parent, warps))
  {
    hide Sound, Valid, Attach;
    SubIsSmaller(warps, parent);
    var warp := warps[[parent]];
    if warp.finalized && parent in Ids(m.cells) && Joins(warp, Merge(warp, Sub(warps, parent))) {
      assert Sinks(warp)[0] in Sinks(warp);
      AttachExtends(m, parent, Merge(warp, Sub(warps, parent)), Sinks(warp)[0]);
    }
  }

  lemma {:induction false} AttachAllExtends(m: Merged, parents: seq<nat>, warps: map<CellPath, Sun>)
    requires Sound(m) && forall p :: p in parents ==> [p] in warps
    ensures Extends(m, AttachAll(m, parents, warps))
    decreases |parents|
  {
    hide Sound, AttachOne, Extends;
    if parents == [] {
      ExtendsItself(m);
    } else {
      var next := AttachOne(m, parents[0], warps);
      AttachOneExtends(m, parents[0], warps);
      AttachOneSound(m, parents[0], warps);
      AttachAllExtends(next, parents[1..], warps);
      ExtendsTransitive(m, next, AttachAll(next, parents[1..], warps));
    }
  }

  lemma ExtendsItself(m: Merged)
    ensures Extends(m, m)
  {
  }

  /** The outer sun is in the merged graph as it was: its cells, its edges, and no new edge into its cells. */
  lemma OuterUntouched(sun: Sun, warps: map<CellPath, Sun>)
    requires Valid(sun.nodes, sun.edges)
    ensures forall c :: c in sun.nodes ==> c in Merge(sun, warps).cells
    ensures forall e: Edge :: e.target in Ids(sun.nodes) ==> (e in Merge(sun, warps).edges <==> e in sun.edges)
  {
    hide Valid;
    InitialSound(sun);
    SortedParents(warps);
    SortKeepsCells(sun.nodes);
    AttachAllExtends(Initial(sun), Sorted(TopLevel(warps)), warps);
  }

  lemma EmbeddedStays(nested: Merged, place: Place, m: Merged, r: Merged)
    requires PlaceOf(place, nested) && Embedded(nested, place, m) && Extends(m, r)
    requires forall id :: id in place.ids.Values ==> id < m.nextId
    ensures Embedded(nested, place, r)
  {
    forall e | Mapped(e, place.ids, place.ports)
      ensures e in nested.edges <==> RenameEdge(e, place.ids, place.ports) in r.edges
    {
      assert place.ids[e.target] in place.ids.Values;
    }
  }

  lemma AttachNumbers(m: Merged, parent: nat, nested: Merged, sink: nat)
    requires Valid(nested.cells, nested.edges) && sink in Ids(nested.cells)
    ensures Attach(m, parent, nested, sink).nextId == m.nextId + |nested.cells|
    ensures Attach(m, parent, nested, sink).nextPort == Connector(m, nested) + 1
    ensures |Attach(m, parent, nested, sink).cells| == |m.cells| + |nested.cells|
  {
  }
}
