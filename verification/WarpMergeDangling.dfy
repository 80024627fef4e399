/** Suns whose edges name cells they do not have: when merging makes them whole, and when the result cycles. */
module WarpMergeDangling {
  import opened Basics
  import opened WarpMerge
  import opened WarpMergeProofs
  import opened WarpMergeResults
  import opened WarpMergePlaces

  // ---------------------------------------------------------------------------
  // Validity
  // ---------------------------------------------------------------------------

  /** A cell of the sun, or an id that the merge hands out. */
  predicate KnownId(sun: Sun, x: nat, nextId: nat) {
    x in Ids(sun.nodes) || Initial(sun).nextId <= x < nextId
  }

  /** A copied cell called `id` with that port. */
  ghost predicate CopyOwns(sun: Sun, warps: map<CellPath, Sun>, id: nat, port: nat)
    requires UniqueCells(sun)
  {
    exists i: nat, d, c :: CopiedFrom(sun, warps, i, d, c) && c.id == id && port in c.ports
  }

  /** What the merge must supply for an edge of the sun: both ends, and at the target the port. */
  ghost predicate Supplied(sun: Sun, warps: map<CellPath, Sun>, e: Edge)
    requires UniqueCells(sun)
  {
    var nextId := Initial(sun).nextId + JoinedCells(sun, warps, |Parents(warps)|);
    && KnownId(sun, e.source, nextId) && KnownId(sun, e.target, nextId) && e.source != e.target
    && (Owns(sun.nodes, e.target, e.port) || CopyOwns(sun, warps, e.target, e.port))
  }

  lemma {:induction false} NextIdUpTo(sun: Sun, warps: map<CellPath, Sun>, k: nat)
    requires UniqueCells(sun) && k <= |Parents(warps)|
    ensures Before(sun, warps, k).nextId == Initial(sun).nextId + JoinedCells(sun, warps, k)
  {
    hide Before, Joined, UniqueCells, Parents, Attaches, NestedAt, Sinks, Attach;
    if k == 0 {
      StartsAtInitial(sun, warps);
    } else {
      NextIdUpTo(sun, warps, k - 1);
      JoinedIsAttached(sun, warps, k - 1);
      if Joined(sun, warps, k - 1) {
        JoinedStep(sun, warps, k - 1);
        var p := Parents(warps)[k - 1];
        AttachNumbers(Before(sun, warps, k - 1), p, NestedNo(warps, k - 1), Sinks(warps[[p]])[0]);
      } else {
        SkippedStep(sun, warps, k - 1);
      }
    }
  }

  lemma JoinedIsAttached(sun: Sun, warps: map<CellPath, Sun>, i: nat)
    requires i < |Parents(warps)|
    ensures [Parents(warps)[i]] in warps
    ensures Joined(sun, warps, i) <==> Attaches(Before(sun, warps, i), Parents(warps)[i], warps)
  {
    hide Attaches, Before;
    BeforeNext(sun, warps, i);
  }

  lemma MergedIds(sun: Sun, warps: map<CellPath, Sun>, x: nat)
    requires UniqueCells(sun)
    ensures x in Ids(Merge(sun, warps).cells) <==>
      KnownId(sun, x, Initial(sun).nextId + JoinedCells(sun, warps, |Parents(warps)|))
  {
    hide UniqueCells, Initial, JoinedCells;
    var k := |Parents(warps)|;
    BeforeFacts(sun, warps, k);
    NextIdUpTo(sun, warps, k);
    BeforeAll(sun, warps);
    SortedIds(sun);
  }

  lemma SortedIds(sun: Sun)
    ensures Ids(Initial(sun).cells) == Ids(sun.nodes)
  {
    SortKeepsCells(sun.nodes);
  }

  lemma MergedOwns(sun: Sun, warps: map<CellPath, Sun>, id: nat, port: nat)
    requires UniqueCells(sun)
    ensures Owns(Merge(sun, warps).cells, id, port) <==> Owns(sun.nodes, id, port) || CopyOwns(sun, warps, id, port)
  {
    hide UniqueCells, CopiedFrom;
    CellsConserved(sun, warps);
    var cells := Merge(sun, warps).cells;
    if Owns(cells, id, port) {
      var c :| c in cells && c.id == id && port in c.ports;
      assert CellOrigin(sun, warps, |Parents(warps)|, c);
    }
    if Owns(sun.nodes, id, port) {
      var c :| c in sun.nodes && c.id == id && port in c.ports;
      assert CellOrigin(sun, warps, |Parents(warps)|, c);
    }
    if CopyOwns(sun, warps, id, port) {
      var i: nat, d, c :| CopiedFrom(sun, warps, i, d, c) && c.id == id && port in c.ports;
      assert i < |Parents(warps)| by { CopyPosition(sun, warps, i, d, c); }
      assert CellOrigin(sun, warps, |Parents(warps)|, c);
    }
  }

  lemma CopyPosition(sun: Sun, warps: map<CellPath, Sun>, i: nat, d: Cell, c: Cell)
    requires UniqueCells(sun) && CopiedFrom(sun, warps, i, d, c)
    ensures i < |Parents(warps)|
  {
  }

  lemma SuppliedIsOk(sun: Sun, warps: map<CellPath, Sun>, e: Edge)
    requires UniqueCells(sun)
    ensures EdgeOk(Merge(sun, warps).cells, e) <==> Supplied(sun, warps, e)
  {
    hide UniqueCells, KnownId, Owns, CopyOwns, Merge;
    MergedIds(sun, warps, e.source);
    MergedIds(sun, warps, e.target);
    MergedOwns(sun, warps, e.target, e.port);
  }

  // --- what a joined sun brings is always in order ---

  lemma BroughtIsOk(m: Merged, parent: nat, nested: Merged, sink: nat, e: Edge)
    requires Named(m) && Valid(nested.cells, nested.edges) && parent in Ids(m.cells) && sink in Ids(nested.cells)
    requires e in Attach(m, parent, nested, sink).edges && e !in m.edges
    ensures EdgeOk(Attach(m, parent, nested, sink).cells, e)
  {
    hide UniqueIds, UniquePorts, Block, Landing, Connector, EdgeOk;
    var (cells, edges) := Block(m, nested);
    BlockFresh(m, nested);
    LandsInBlock(m, nested, sink);
    ValidIsUnique(cells, edges);
    JoinedUnique(m.cells, cells);
    CellsOfSum(m.cells, cells);
    AddPortEdgeOk(m.cells + cells, Landing(m, nested, sink), Connector(m, nested), e);
    if e in edges {
      assert EdgeOk(cells, e);
      EdgeOkMore(cells, m.cells, e);
    }
  }

  lemma KeptIsOk(m: Merged, parent: nat, nested: Merged, sink: nat, e: Edge)
    requires Named(m) && Valid(nested.cells, nested.edges) && parent in Ids(m.cells) && sink in Ids(nested.cells)
    requires EdgeOk(m.cells, e)
    ensures EdgeOk(Attach(m, parent, nested, sink).cells, e)
  {
    hide Named, Valid, Attach;
    OuterCellsKept(m, parent, nested, sink);
    var r := Attach(m, parent, nested, sink);
    forall id | id in Ids(m.cells) ensures id in Ids(r.cells) {
      var c :| c in m.cells && c.id == id;
      assert c in r.cells;
    }
    var c :| c in m.cells && c.id == e.target && e.port in c.ports;
    assert c in r.cells;
  }

  /** Every edge so far is one of the sun's or in order. */
  predicate OthersOk(sun: Sun, m: Merged) {
    forall e :: e in m.edges ==> e in sun.edges || EdgeOk(m.cells, e)
  }

  lemma JoinedOthersOk(sun: Sun, m: Merged, parent: nat, nested: Merged, sink: nat)
    requires Named(m) && Valid(nested.cells, nested.edges) && parent in Ids(m.cells) && sink in Ids(nested.cells)
    requires OthersOk(sun, m)
    ensures OthersOk(sun, Attach(m, parent, nested, sink))
  {
    hide Named, Valid, Attach, EdgeOk;
    forall e | e in Attach(m, parent, nested, sink).edges && e !in sun.edges
      ensures EdgeOk(Attach(m, parent, nested, sink).cells, e)
    {
      if e in m.edges { KeptIsOk(m, parent, nested, sink, e); } else { BroughtIsOk(m, parent, nested, sink, e); }
    }
  }

  lemma {:induction false} OthersOkUpTo(sun: Sun, warps: map<CellPath, Sun>, k: nat)
    requires UniqueCells(sun) && k <= |Parents(warps)|
    ensures OthersOk(sun, Before(sun, warps, k))
  {
    hide Before, Joined, UniqueCells, Parents, Sinks, Attach, Named, Valid, EdgeOk, Ids;
    if k == 0 {
      StartsAtInitial(sun, warps);
    } else {
      OthersOkUpTo(sun, warps, k - 1);
      if Joined(sun, warps, k - 1) {
        JoinedStep(sun, warps, k - 1);
        var p := Parents(warps)[k - 1];
        JoinedOthersOk(sun, Before(sun, warps, k - 1), p, NestedNo(warps, k - 1), Sinks(warps[[p]])[0]);
      } else {
        SkippedStep(sun, warps, k - 1);
      }
    }
  }

  /**
   * A sun with unique names passes `validate` after merging, whatever cells its edges name, exactly when the merge
   * supplies what each edge needs: both ends are cells of the sun or ids handed out to merged cells, they differ, and
   * the target owns the port.
   */
  lemma ValidatesExactly(sun: Sun, warps: map<CellPath, Sun>)
    requires UniqueCells(sun)
    ensures Valid(Merge(sun, warps).cells, Merge(sun, warps).edges) <==>
      forall e :: e in sun.edges ==> Supplied(sun, warps, e)
  {
    hide EdgeOk, Supplied, Merge, Before, EdgeOrigin;
    var m, k := Merge(sun, warps), |Parents(warps)|;
    BeforeFacts(sun, warps, k);
    OthersOkUpTo(sun, warps, k);
    BeforeAll(sun, warps);
    SunEdgesKept(sun, warps);
    forall e ensures EdgeOk(m.cells, e) <==> Supplied(sun, warps, e) { SuppliedIsOk(sun, warps, e); }
  }

  lemma SunEdgesKept(sun: Sun, warps: map<CellPath, Sun>)
    requires UniqueCells(sun)
    ensures forall e :: e in sun.edges ==> e in Merge(sun, warps).edges
  {
    hide Brought;
    EdgesConserved(sun, warps);
  }

  // ---------------------------------------------------------------------------
  // Cycles
  // ---------------------------------------------------------------------------

  /** Every edge of the sun starts at a cell of the sun; where it leads is left open. */
  predicate KnownSources(sun: Sun) {
    forall e :: e in sun.edges ==> e.source in Ids(sun.nodes)
  }

  /** Every nested graph that joined among the first `k` parents is acyclic. */
  ghost predicate JoinedAcyclic(sun: Sun, warps: map<CellPath, Sun>, k: nat)
    requires k <= |Parents(warps)|
  {
    forall i: nat :: i < k && Joined(sun, warps, i) ==> Acyclic(NestedNo(warps, i).edges)
  }

  lemma AttachSourced(m: Merged, parent: nat, nested: Merged, sink: nat)
    requires Sourced(m) && Valid(nested.cells, nested.edges) && parent in Ids(m.cells) && sink in Ids(nested.cells)
    ensures Sourced(Attach(m, parent, nested, sink))
  {
    hide UniqueIds, UniquePorts, Block, Landing;
    AttachNamed(m, parent, nested, sink);
    BlockFresh(m, nested);
    var (cells, edges) := Block(m, nested);
    forall e | e in edges ensures e.source < m.nextId + |nested.cells| { assert EdgeOk(cells, e); }
  }

  lemma {:induction false} SourcedUpTo(sun: Sun, warps: map<CellPath, Sun>, k: nat)
    requires UniqueCells(sun) && KnownSources(sun) && k <= |Parents(warps)|
    ensures Sourced(Before(sun, warps, k))
  {
    hide Before, Joined, UniqueIds, UniquePorts, Parents, Sinks, Attach, Valid;
    if k == 0 {
      StartsAtInitial(sun, warps);
      InitialNamed(sun);
      SortedIds(sun);
    } else {
      SourcedUpTo(sun, warps, k - 1);
      if Joined(sun, warps, k - 1) {
        JoinedStep(sun, warps, k - 1);
        var p := Parents(warps)[k - 1];
        AttachSourced(Before(sun, warps, k - 1), p, NestedNo(warps, k - 1), Sinks(warps[[p]])[0]);
      } else {
        SkippedStep(sun, warps, k - 1);
      }
    }
  }

  lemma JoinedAcyclicStep(sun: Sun, warps: map<CellPath, Sun>, k: nat)
    requires k < |Parents(warps)|
    ensures JoinedAcyclic(sun, warps, k + 1) <==>
      JoinedAcyclic(sun, warps, k) && (Joined(sun, warps, k) ==> Acyclic(NestedNo(warps, k).edges))
  {
    hide Joined, Acyclic, Parents;
  }

  lemma {:induction false} AcyclicUpTo(sun: Sun, warps: map<CellPath, Sun>, k: nat)
    requires UniqueCells(sun) && KnownSources(sun) && k <= |Parents(warps)|
    ensures Acyclic(Before(sun, warps, k).edges) <==> Acyclic(sun.edges) && JoinedAcyclic(sun, warps, k)
  {
    hide Before, Joined, JoinedAcyclic, UniqueCells, KnownSources, Parents, Sinks, Attach, Named, Sourced, Valid, Acyclic;
    if k == 0 {
      StartsAtInitial(sun, warps);
      assert JoinedAcyclic(sun, warps, 0) by { NoneJoined(sun, warps); }
    } else {
      AcyclicUpTo(sun, warps, k - 1);
      JoinedAcyclicStep(sun, warps, k - 1);
      if Joined(sun, warps, k - 1) {
        JoinedStep(sun, warps, k - 1);
        SourcedUpTo(sun, warps, k - 1);
        var p := Parents(warps)[k - 1];
        AttachAcyclic(Before(sun, warps, k - 1), p, NestedNo(warps, k - 1), Sinks(warps[[p]])[0]);
      } else {
        SkippedStep(sun, warps, k - 1);
      }
    }
  }

  lemma NoneJoined(sun: Sun, warps: map<CellPath, Sun>)
    ensures JoinedAcyclic(sun, warps, 0)
  {
  }

  /** With known sources a merged graph cycles exactly when the sun cycles or a nested graph that joined does. */
  lemma AcyclicExactly(sun: Sun, warps: map<CellPath, Sun>)
    requires UniqueCells(sun) && KnownSources(sun)
    ensures Acyclic(Merge(sun, warps).edges) <==> Acyclic(sun.edges) && JoinedAcyclic(sun, warps, |Parents(warps)|)
  {
    hide JoinedAcyclic;
    AcyclicUpTo(sun, warps, |Parents(warps)|);
    BeforeAll(sun, warps);
  }

  // --- edges that start at cells the sun does not have ---

  /** The sun without the edges that start elsewhere. */
  function Grounded(sun: Sun): (r: Sun)
    ensures r.nodes == sun.nodes && KnownSources(r)
    ensures forall e :: e in r.edges <==> e in sun.edges && e.source in Ids(sun.nodes)
  {
    sun.(edges := KnownEdges(sun.edges, Ids(sun.nodes)))
  }

  function KnownEdges(edges: seq<Edge>, ids: set<nat>): (r: seq<Edge>)
    ensures forall e :: e in r <==> e in edges && e.source in ids
  {
    if edges == [] then []
    else
      assert edges == edges[..|edges| - 1] + [edges[|edges| - 1]];
      KnownEdges(edges[..|edges| - 1], ids) + if edges[|edges| - 1].source in ids then [edges[|edges| - 1]] else []
  }

  /** A merge does not look at the outer edges. */
  lemma {:induction false} SameApartFromEdges(sun: Sun, sun': Sun, warps: map<CellPath, Sun>, k: nat)
    requires sun'.nodes == sun.nodes && k <= |Parents(warps)|
    ensures var (m, m') := (Before(sun, warps, k), Before(sun', warps, k));
            m' == m.(edges := m'.edges)
  {
    hide Attaches, Before, Attach, Sinks, Parents, NestedAt;
    if k == 0 {
      StartsAtInitial(sun, warps);
      StartsAtInitial(sun', warps);
      assert Initial(sun') == Initial(sun).(edges := sun'.edges);
    } else {
      SameApartFromEdges(sun, sun', warps, k - 1);
      BeforeNext(sun, warps, k - 1);
      BeforeNext(sun', warps, k - 1);
      var p := Parents(warps)[k - 1];
      SameAttachment(Before(sun, warps, k - 1), Before(sun', warps, k - 1), p, warps);
    }
  }

  lemma SameAttachment(m: Merged, m': Merged, parent: nat, warps: map<CellPath, Sun>)
    requires [parent] in warps && m' == m.(edges := m'.edges)
    ensures Attaches(m', parent, warps) <==> Attaches(m, parent, warps)
    ensures var (r, r') := (AttachOne(m, parent, warps), AttachOne(m', parent, warps)); r' == r.(edges := r'.edges)
  {
    hide Joins, AttachOne, NestedAt;
    if Attaches(m, parent, warps) {
      AttachesFacts(m, parent, warps);
      AttachOneJoins(m, parent, warps);
      AttachOneJoins(m', parent, warps);
      SameBlock(m, m', parent, NestedAt(warps, parent), Sinks(warps[[parent]])[0]);
    } else {
      AttachOneSkips(m, parent, warps);
      AttachOneSkips(m', parent, warps);
    }
  }

  lemma SameBlock(m: Merged, m': Merged, parent: nat, nested: Merged, sink: nat)
    requires Valid(nested.cells, nested.edges) && sink in Ids(nested.cells) && m' == m.(edges := m'.edges)
    ensures var (r, r') := (Attach(m, parent, nested, sink), Attach(m', parent, nested, sink)); r' == r.(edges := r'.edges)
    ensures PlaceAt(m', parent, nested, sink) == PlaceAt(m, parent, nested, sink)
  {
  }

  lemma SamePlaces(sun: Sun, sun': Sun, warps: map<CellPath, Sun>, i: nat)
    requires UniqueCells(sun) && sun'.nodes == sun.nodes && i < |Parents(warps)|
    ensures Joined(sun', warps, i) <==> Joined(sun, warps, i)
    ensures Joined(sun, warps, i) ==> PlaceNo(sun', warps, i) == PlaceNo(sun, warps, i)
  {
    hide Before, Attaches, Sinks, Parents, Valid;
    SameApartFromEdges(sun, sun', warps, i);
    JoinedIsAttached(sun, warps, i);
    JoinedIsAttached(sun', warps, i);
    var p := Parents(warps)[i];
    SameAttachment(Before(sun, warps, i), Before(sun', warps, i), p, warps);
    if Joined(sun, warps, i) {
      JoinedStep(sun, warps, i);
      SameBlock(Before(sun, warps, i), Before(sun', warps, i), p, NestedNo(warps, i), Sinks(warps[[p]])[0]);
    }
  }

  /** The merged edges are those of the grounded sun's merge and the remaining edges of the sun. */
  lemma GroundedEdges(sun: Sun, warps: map<CellPath, Sun>, e: Edge)
    requires UniqueCells(sun)
    ensures e in Merge(sun, warps).edges <==> e in Merge(Grounded(sun), warps).edges || e in sun.edges
  {
    hide Joined, PlaceNo, UniqueIds, UniquePorts, Grounded;
    var sun' := Grounded(sun);
    EdgesConserved(sun, warps);
    EdgesConserved(sun', warps);
    forall i: nat | i < |Parents(warps)| ensures Brought(sun', warps, i, e) <==> Brought(sun, warps, i, e) {
      SamePlaces(sun, sun', warps, i);
    }
  }

  /** A walk from `a` to `b`, possibly of no edges. */
  ghost predicate Reaches(edges: seq<Edge>, a: nat, b: nat) {
    exists path :: Leads(edges, path, a, b)
  }

  predicate Leads(edges: seq<Edge>, path: seq<nat>, a: nat, b: nat) {
    |path| >= 1 && Walk(edges, path) && path[0] == a && path[|path| - 1] == b
  }

  lemma WalkMore(edges: seq<Edge>, more: seq<Edge>, path: seq<nat>)
    requires Walk(edges, path) && forall e :: e in edges ==> e in more
    ensures Walk(more, path)
  {
    forall i | 0 <= i < |path| - 1 ensures HasEdge(more, path[i], path[i + 1]) {
      assert HasEdge(edges, path[i], path[i + 1]);
    }
  }

  /** A closed walk, cut at one of its edges: back from where the edge leads to where it starts. */
  lemma CutOpen(edges: seq<Edge>, path: seq<nat>, k: nat)
    requires Closed(edges, path) && k < |path| - 1
    ensures Reaches(edges, path[k + 1], path[k])
  {
    var back := path[k + 1..] + path[1..k + 1];
    forall i | 0 <= i < |back| - 1 ensures HasEdge(edges, back[i], back[i + 1]) {
      var n := |path| - k - 1;
      if i < n - 1 {
        assert HasEdge(edges, path[k + 1 + i], path[k + 1 + i + 1]);
      } else if i == n - 1 {
        assert back[i] == path[0] && back[i + 1] == path[1];
        assert HasEdge(edges, path[0], path[0 + 1]);
      } else {
        assert HasEdge(edges, path[i - n + 1], path[i - n + 1 + 1]);
      }
    }
    assert Leads(edges, back, path[k + 1], path[k]);
  }

  lemma CloseUp(edges: seq<Edge>, path: seq<nat>, e: Edge)
    requires e in edges && Leads(edges, path, e.target, e.source)
    ensures Closed(edges, [e.source] + path)
  {
    var all := [e.source] + path;
    forall i | 0 <= i < |all| - 1 ensures HasEdge(edges, all[i], all[i + 1]) {
      if i > 0 { assert HasEdge(edges, path[i - 1], path[i - 1 + 1]); }
    }
  }

  /** A cycle of the merged graph stays clear of the edges from missing cells, or one of them leads back to its start. */
  lemma CyclesSplit(sun: Sun, warps: map<CellPath, Sun>)
    requires UniqueCells(sun)
    ensures Acyclic(Merge(sun, warps).edges) <==> (
      Acyclic(Merge(Grounded(sun), warps).edges)
      && forall e :: e in sun.edges && e.source !in Ids(sun.nodes) ==> !Reaches(Merge(sun, warps).edges, e.target, e.source))
  {
    hide Merge, UniqueCells, Grounded, Walk;
    var all, grounded := Merge(sun, warps).edges, Merge(Grounded(sun), warps).edges;
    forall e ensures e in all <==> e in grounded || e in sun.edges { GroundedEdges(sun, warps, e); }
    GroundedKept(sun, warps);
    forall path | Closed(grounded, path) ensures Closed(all, path) { WalkMore(grounded, all, path); }
    forall e | e in sun.edges && Reaches(all, e.target, e.source) ensures !Acyclic(all) {
      var path :| Leads(all, path, e.target, e.source);
      CloseUp(all, path, e);
    }
    forall path | Closed(all, path)
      ensures Closed(grounded, path)
        || exists e :: e in sun.edges && e.source !in Ids(sun.nodes) && Reaches(all, e.target, e.source)
    {
      LeavesOrStays(sun, grounded, all, path);
    }
  }

  lemma GroundedKept(sun: Sun, warps: map<CellPath, Sun>)
    requires UniqueCells(sun)
    ensures forall e :: e in sun.edges && e.source in Ids(sun.nodes) ==> e in Merge(Grounded(sun), warps).edges
  {
    SunEdgesKept(Grounded(sun), warps);
  }

  lemma LeavesOrStays(sun: Sun, grounded: seq<Edge>, all: seq<Edge>, path: seq<nat>)
    requires Closed(all, path) && forall e :: e in all ==> e in grounded || e in sun.edges
    requires forall e :: e in sun.edges && e.source in Ids(sun.nodes) ==> e in grounded
    ensures Closed(grounded, path)
      || exists e :: e in sun.edges && e.source !in Ids(sun.nodes) && Reaches(all, e.target, e.source)
  {
    hide Reaches;
    if !Walk(grounded, path) {
      var k :| 0 <= k < |path| - 1 && !HasEdge(grounded, path[k], path[k + 1]);
      assert HasEdge(all, path[k], path[k + 1]);
      var e :| e in all && e.source == path[k] && e.target == path[k + 1];
      CutOpen(all, path, k);
      assert e in sun.edges && e.source !in Ids(sun.nodes) && Reaches(all, e.target, e.source);
    }
  }
}
