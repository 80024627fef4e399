/** Where every merged sun ends up: the merged graph is the sun and, under names of their own, the suns that joined. */
module WarpMergePlaces {
  import opened Basics
  import opened WarpMerge
  import opened WarpMergeProofs
  import opened WarpMergeResults

  /** The nested sun of the parent at position `i` joined. */
  ghost predicate Joined(sun: Sun, warps: map<CellPath, Sun>, i: nat)
    requires i < |Parents(warps)|
  {
    [Parents(warps)[i]] in warps && Attaches(Before(sun, warps, i), Parents(warps)[i], warps)
  }

  /** The nested graph of that parent, and its place. */
  ghost function NestedNo(warps: map<CellPath, Sun>, i: nat): Merged
    requires i < |Parents(warps)| && [Parents(warps)[i]] in warps
  {
    NestedAt(warps, Parents(warps)[i])
  }

  ghost function PlaceNo(sun: Sun, warps: map<CellPath, Sun>, i: nat): Place
    requires i < |Parents(warps)| && Joined(sun, warps, i)
  {
    var p := Parents(warps)[i];
    AttachesFacts(Before(sun, warps, i), p, warps);
    PlaceAt(Before(sun, warps, i), p, NestedAt(warps, p), Sinks(warps[[p]])[0])
  }

  /** The names of a place. */
  function PortsOf(place: Place): set<nat> {
    place.ports.Values + {place.connector}
  }

  predicate FreshFor(place: Place, sun: Sun) {
    place.ids.Values !! Ids(sun.nodes) && PortsOf(place) !! Ports(sun.nodes) && place.connector !in place.ports.Values
  }

  predicate PlacesApart(a: Place, b: Place) {
    a.ids.Values !! b.ids.Values && PortsOf(a) !! PortsOf(b)
  }

  // ---------------------------------------------------------------------------
  // Steps
  // ---------------------------------------------------------------------------

  /** One step of a merge, when the nested sun joins. */
  lemma JoinedStep(sun: Sun, warps: map<CellPath, Sun>, i: nat)
    requires UniqueCells(sun) && i < |Parents(warps)| && Joined(sun, warps, i)
    ensures [Parents(warps)[i]] in warps
    ensures var (m, nested, p) := (Before(sun, warps, i), NestedNo(warps, i), Parents(warps)[i]);
            && Named(m) && Valid(nested.cells, nested.edges) && p in Ids(m.cells)
            && |Sinks(warps[[p]])| == 1 && Sinks(warps[[p]])[0] in Ids(nested.cells)
            && Before(sun, warps, i + 1) == Attach(m, p, nested, Sinks(warps[[p]])[0])
  {
    hide Named, Attach, Valid, Attaches, Before, Sinks;
    BeforeNext(sun, warps, i);
    BeforeFacts(sun, warps, i);
    AttachesFacts(Before(sun, warps, i), Parents(warps)[i], warps);
    AttachOneJoins(Before(sun, warps, i), Parents(warps)[i], warps);
  }

  /** And when it does not. */
  lemma SkippedStep(sun: Sun, warps: map<CellPath, Sun>, i: nat)
    requires i < |Parents(warps)| && !Joined(sun, warps, i)
    ensures Before(sun, warps, i + 1) == Before(sun, warps, i).(unknown := Before(sun, warps, i + 1).unknown)
  {
    hide Attaches, Before, AttachOne;
    BeforeNext(sun, warps, i);
    AttachOneSkips(Before(sun, warps, i), Parents(warps)[i], warps);
  }

  /** The names and numbers of an attachment. */
  lemma AttachedPlace(m: Merged, parent: nat, nested: Merged, sink: nat)
    requires Valid(nested.cells, nested.edges) && sink in Ids(nested.cells)
    ensures var (place, next) := (PlaceAt(m, parent, nested, sink), Attach(m, parent, nested, sink));
            && PlaceOf(place, nested) && place.parent == parent && place.sink == sink
            && (forall x :: x in place.ids.Values ==> m.nextId <= x < next.nextId)
            && (forall q :: q in place.ports.Values ==> m.nextPort <= q < place.connector)
            && m.nextPort <= place.connector < next.nextPort && m.nextId <= next.nextId
  {
    hide Valid, IdMap, PortMap, Attach, Block, Landing, Connector;
    PlaceAtIsPlace(m, parent, nested, sink);
    ConnectorIsNew(m, nested);
    AttachNumbers(m, parent, nested, sink);
  }

  /** A place that spans the names between two states. */
  predicate Spans(place: Place, m: Merged, next: Merged) {
    && (forall x :: x in place.ids.Values ==> m.nextId <= x < next.nextId)
    && (forall q :: q in place.ports.Values ==> m.nextPort <= q < place.connector)
    && m.nextPort <= place.connector < next.nextPort && m.nextId <= next.nextId
  }

  lemma PlaceFacts(sun: Sun, warps: map<CellPath, Sun>, i: nat)
    requires UniqueCells(sun) && i < |Parents(warps)| && Joined(sun, warps, i)
    ensures var place := PlaceNo(sun, warps, i);
            && PlaceOf(place, NestedNo(warps, i)) && place.parent == Parents(warps)[i]
            && Sinks(warps[[place.parent]]) == [place.sink]
            && Spans(place, Before(sun, warps, i), Before(sun, warps, i + 1))
  {
    hide Named, Valid, PlaceAt, Joined, Before, Attach, PlaceOf, Sinks, Parents;
    JoinedStep(sun, warps, i);
    var p := Parents(warps)[i];
    AttachedPlace(Before(sun, warps, i), p, NestedNo(warps, i), Sinks(warps[[p]])[0]);
  }

  lemma {:induction false} NumbersGrow(sun: Sun, warps: map<CellPath, Sun>, i: nat, j: nat)
    requires UniqueCells(sun) && i <= j <= |Parents(warps)|
    ensures Before(sun, warps, i).nextId <= Before(sun, warps, j).nextId
    ensures Before(sun, warps, i).nextPort <= Before(sun, warps, j).nextPort
    decreases j
  {
    hide Before, Joined, PlaceOf, PlaceNo, Parents, UniqueCells, Sinks;
    if i < j {
      NumbersGrow(sun, warps, i, j - 1);
      if Joined(sun, warps, j - 1) { PlaceFacts(sun, warps, j - 1); } else { SkippedStep(sun, warps, j - 1); }
    }
  }

  /** Every place has names that the sun does not use, and no two places share one. */
  lemma PlacesFresh(sun: Sun, warps: map<CellPath, Sun>, i: nat)
    requires UniqueCells(sun) && i < |Parents(warps)| && Joined(sun, warps, i)
    ensures FreshFor(PlaceNo(sun, warps, i), sun)
  {
    hide Joined, PlaceNo, PlaceOf, Parents, UniqueIds, UniquePorts, Sinks;
    PlaceFacts(sun, warps, i);
    NumbersGrow(sun, warps, 0, i);
    StartsAtInitial(sun, warps);
    InitialNamed(sun);
    SortKeepsCells(sun.nodes);
  }

  lemma StartsAtInitial(sun: Sun, warps: map<CellPath, Sun>)
    ensures Before(sun, warps, 0) == Initial(sun)
  {
  }

  lemma PlacesDiffer(sun: Sun, warps: map<CellPath, Sun>, i: nat, j: nat)
    requires UniqueCells(sun) && i < j < |Parents(warps)| && Joined(sun, warps, i) && Joined(sun, warps, j)
    ensures PlacesApart(PlaceNo(sun, warps, i), PlaceNo(sun, warps, j))
  {
    hide Joined, PlaceNo, PlaceOf, Before, Parents, UniqueCells, Sinks, Spans;
    PlaceFacts(sun, warps, i);
    PlaceFacts(sun, warps, j);
    NumbersGrow(sun, warps, i + 1, j);
    SpansApart(PlaceNo(sun, warps, i), PlaceNo(sun, warps, j), Before(sun, warps, i), Before(sun, warps, i + 1),
      Before(sun, warps, j), Before(sun, warps, j + 1));
  }

  lemma SpansApart(a: Place, b: Place, m: Merged, next: Merged, m': Merged, next': Merged)
    requires Spans(a, m, next) && Spans(b, m', next') && next.nextId <= m'.nextId && next.nextPort <= m'.nextPort
    ensures PlacesApart(a, b)
  {
  }

  // ---------------------------------------------------------------------------
  // Cells
  // ---------------------------------------------------------------------------

  /** The merged cell `c` is the copy of the nested cell `d` in the place of the parent at position `i`. */
  ghost predicate CopiedFrom(sun: Sun, warps: map<CellPath, Sun>, i: nat, d: Cell, c: Cell)
    requires UniqueCells(sun)
  {
    && i < |Parents(warps)| && Joined(sun, warps, i) && d in NestedNo(warps, i).cells
    && CopyIn(d, PlaceNo(sun, warps, i), c)
  }

  predicate CopyIn(d: Cell, place: Place, c: Cell) {
    d.id in place.ids && (forall q :: q in d.ports ==> q in place.ports) && c == PlacedCell(d, place)
  }

  ghost predicate CellOrigin(sun: Sun, warps: map<CellPath, Sun>, k: nat, c: Cell)
    requires UniqueCells(sun)
  {
    c in sun.nodes || exists i: nat, d :: i < k && CopiedFrom(sun, warps, i, d, c)
  }

  lemma AttachedCellsExactly(m: Merged, parent: nat, nested: Merged, sink: nat, c: Cell)
    requires Named(m) && Valid(nested.cells, nested.edges)
    requires parent in Ids(m.cells) && sink in Ids(nested.cells)
    ensures c in Attach(m, parent, nested, sink).cells <==>
      (c in m.cells || exists d :: d in nested.cells && CopyIn(d, PlaceAt(m, parent, nested, sink), c))
  {
    hide Valid, Attach, Connector, IdMap, PortMap, Named;
    var r, place := Attach(m, parent, nested, sink), PlaceAt(m, parent, nested, sink);
    OuterCellsKept(m, parent, nested, sink);
    NestedCellsPlaced(m, parent, nested, sink);
    AttachedCellsAt(m, parent, nested, sink);
    LookupsHit(nested, m.nextId, m.nextPort);
    RenameCellsAt(nested.cells, place.ids, place.ports);
    var all := m.cells + Block(m, nested).0;
    if c in r.cells {
      var i :| 0 <= i < |r.cells| && r.cells[i] == c;
      assert c == Extended(all[i], Landing(m, nested, sink), Connector(m, nested));
      if i < |m.cells| {
        assert all[i] == m.cells[i] && m.cells[i].id in Ids(m.cells);
      } else {
        var d := nested.cells[i - |m.cells|];
        assert all[i] == RenameCell(d, place.ids, place.ports);
        NestedCellPlaced(d, place);
        assert d in nested.cells && CopyIn(d, place, c);
      }
    }
  }

  lemma JoinedCellsStep(sun: Sun, warps: map<CellPath, Sun>, i: nat, c: Cell)
    requires UniqueCells(sun) && i < |Parents(warps)| && Joined(sun, warps, i)
    ensures c in Before(sun, warps, i + 1).cells <==>
      c in Before(sun, warps, i).cells || exists d :: CopiedFrom(sun, warps, i, d, c)
  {
    hide Before, Joined, Attach, CopyIn, PlaceAt, Named, Valid, Parents, Sinks;
    JoinedStep(sun, warps, i);
    var p := Parents(warps)[i];
    var m, nested, sink := Before(sun, warps, i), NestedNo(warps, i), Sinks(warps[[p]])[0];
    AttachedCellsExactly(m, p, nested, sink, c);
    assert PlaceNo(sun, warps, i) == PlaceAt(m, p, nested, sink);
    assert forall d :: d in nested.cells && CopyIn(d, PlaceAt(m, p, nested, sink), c) ==> CopiedFrom(sun, warps, i, d, c);
  }

  lemma {:induction false} CellsUpTo(sun: Sun, warps: map<CellPath, Sun>, k: nat, c: Cell)
    requires UniqueCells(sun) && k <= |Parents(warps)|
    ensures c in Before(sun, warps, k).cells <==> CellOrigin(sun, warps, k, c)
  {
    hide Before, Joined, UniqueCells, CopiedFrom, Parents;
    if k == 0 {
      StartsAtInitial(sun, warps);
    } else {
      CellsUpTo(sun, warps, k - 1, c);
      if Joined(sun, warps, k - 1) {
        JoinedCellsStep(sun, warps, k - 1, c);
      } else {
        SkippedStep(sun, warps, k - 1);
        NotCopied(sun, warps, k - 1, c);
      }
    }
  }

  lemma NotCopied(sun: Sun, warps: map<CellPath, Sun>, i: nat, c: Cell)
    requires UniqueCells(sun) && i < |Parents(warps)| && !Joined(sun, warps, i)
    ensures forall d :: !CopiedFrom(sun, warps, i, d, c)
  {
    hide Joined;
  }

  /** The merged cells are the sun's own and the copies of the cells of the suns that joined: none lost, none added. */
  lemma CellsConserved(sun: Sun, warps: map<CellPath, Sun>)
    requires UniqueCells(sun)
    ensures forall c :: c in Merge(sun, warps).cells <==> CellOrigin(sun, warps, |Parents(warps)|, c)
    ensures |Merge(sun, warps).cells| == |sun.nodes| + JoinedCells(sun, warps, |Parents(warps)|)
  {
    hide CellOrigin;
    BeforeAll(sun, warps);
    forall c ensures c in Merge(sun, warps).cells <==> CellOrigin(sun, warps, |Parents(warps)|, c) {
      CellsUpTo(sun, warps, |Parents(warps)|, c);
    }
    SizeUpTo(sun, warps, |Parents(warps)|);
  }

  // ---------------------------------------------------------------------------
  // Edges
  // ---------------------------------------------------------------------------

  /** An edge that the parent at position `i` brought: its connector, or the copy of a nested edge. */
  ghost predicate Brought(sun: Sun, warps: map<CellPath, Sun>, i: nat, e: Edge)
    requires UniqueCells(sun)
  {
    && i < |Parents(warps)| && Joined(sun, warps, i)
    && (PlaceFacts(sun, warps, i);
        e == ConnectorEdge(PlaceNo(sun, warps, i)) || EdgeImage(e, NestedNo(warps, i), PlaceNo(sun, warps, i)))
  }

  ghost predicate EdgeOrigin(sun: Sun, warps: map<CellPath, Sun>, k: nat, e: Edge)
    requires UniqueCells(sun)
  {
    e in sun.edges || exists i: nat :: i < k && Brought(sun, warps, i, e)
  }

  lemma AttachedEdgesExactly(m: Merged, parent: nat, nested: Merged, sink: nat, e: Edge)
    requires Valid(nested.cells, nested.edges) && sink in Ids(nested.cells)
    ensures PlaceOf(PlaceAt(m, parent, nested, sink), nested)
    ensures e in Attach(m, parent, nested, sink).edges <==>
      (e in m.edges || e == ConnectorEdge(PlaceAt(m, parent, nested, sink))
       || EdgeImage(e, nested, PlaceAt(m, parent, nested, sink)))
  {
    hide Valid, IdMap, PortMap, Connector, Mapped, Covers, Injective;
    var place, r := PlaceAt(m, parent, nested, sink), Attach(m, parent, nested, sink);
    PlaceAtIsPlace(m, parent, nested, sink);
    RenamedEdges(nested.edges, place.ids, place.ports);
    assert Block(m, nested).1 == RenameEdges(nested.edges, place.ids, place.ports);
    assert r.edges == m.edges + Block(m, nested).1 + [ConnectorEdge(place)];
  }

  lemma JoinedEdgesStep(sun: Sun, warps: map<CellPath, Sun>, i: nat, e: Edge)
    requires UniqueCells(sun) && i < |Parents(warps)| && Joined(sun, warps, i)
    ensures e in Before(sun, warps, i + 1).edges <==> e in Before(sun, warps, i).edges || Brought(sun, warps, i, e)
  {
    hide Before, Joined, Attach, EdgeImage, PlaceAt, PlaceOf, Named, Valid, Parents, Sinks;
    JoinedStep(sun, warps, i);
    PlaceFacts(sun, warps, i);
    var p := Parents(warps)[i];
    var m, nested, sink := Before(sun, warps, i), NestedNo(warps, i), Sinks(warps[[p]])[0];
    AttachedEdgesExactly(m, p, nested, sink, e);
    assert PlaceNo(sun, warps, i) == PlaceAt(m, p, nested, sink);
  }

  lemma {:induction false} EdgesUpTo(sun: Sun, warps: map<CellPath, Sun>, k: nat, e: Edge)
    requires UniqueCells(sun) && k <= |Parents(warps)|
    ensures e in Before(sun, warps, k).edges <==> EdgeOrigin(sun, warps, k, e)
  {
    hide Before, Joined, UniqueCells, Brought, Parents;
    if k == 0 {
      StartsAtInitial(sun, warps);
    } else {
      EdgesUpTo(sun, warps, k - 1, e);
      if Joined(sun, warps, k - 1) {
        JoinedEdgesStep(sun, warps, k - 1, e);
      } else {
        SkippedStep(sun, warps, k - 1);
        NotBrought(sun, warps, k - 1, e);
      }
    }
  }

  lemma NotBrought(sun: Sun, warps: map<CellPath, Sun>, i: nat, e: Edge)
    requires UniqueCells(sun) && i < |Parents(warps)| && !Joined(sun, warps, i)
    ensures !Brought(sun, warps, i, e)
  {
    hide Joined;
  }

  /** The merged edges are the sun's own, the copies of those of the suns that joined, and one connector each. */
  lemma EdgesConserved(sun: Sun, warps: map<CellPath, Sun>)
    requires UniqueCells(sun)
    ensures forall e :: e in Merge(sun, warps).edges <==> EdgeOrigin(sun, warps, |Parents(warps)|, e)
  {
    hide EdgeOrigin;
    BeforeAll(sun, warps);
    forall e ensures e in Merge(sun, warps).edges <==> EdgeOrigin(sun, warps, |Parents(warps)|, e) {
      EdgesUpTo(sun, warps, |Parents(warps)|, e);
    }
  }

  // ---------------------------------------------------------------------------
  // Embedding
  // ---------------------------------------------------------------------------

  lemma BeforeSound(sun: Sun, warps: map<CellPath, Sun>, k: nat)
    requires Valid(sun.nodes, sun.edges) && k <= |Parents(warps)|
    ensures Sound(Before(sun, warps, k))
  {
    hide Sound, Valid;
    InitialSound(sun);
    SortedParents(warps);
    AttachAllSound(Initial(sun), Parents(warps)[..k], warps);
  }

  lemma {:induction false} BeforeExtends(sun: Sun, warps: map<CellPath, Sun>, i: nat, j: nat)
    requires Valid(sun.nodes, sun.edges) && i <= j <= |Parents(warps)|
    ensures Extends(Before(sun, warps, i), Before(sun, warps, j))
    decreases j
  {
    hide Sound, Valid, Before, AttachOne, Extends, Parents;
    if i == j {
      ExtendsItself(Before(sun, warps, i));
    } else {
      BeforeExtends(sun, warps, i, j - 1);
      BeforeSound(sun, warps, j - 1);
      BeforeNext(sun, warps, j - 1);
      AttachOneExtends(Before(sun, warps, j - 1), Parents(warps)[j - 1], warps);
      ExtendsTransitive(Before(sun, warps, i), Before(sun, warps, j - 1), Before(sun, warps, j));
    }
  }

  /** How the nested sun of the parent at position `i` sits in the merged graph. */
  ghost predicate EmbeddedAt(sun: Sun, warps: map<CellPath, Sun>, i: nat)
    requires i < |Parents(warps)| && Joined(sun, warps, i)
  {
    var (place, nested) := (PlaceNo(sun, warps, i), NestedNo(warps, i));
    && place.parent == Parents(warps)[i] && Sinks(warps[[place.parent]]) == [place.sink]
    && PlaceOf(place, nested) && Embedded(nested, place, Merge(sun, warps))
    && FreshFor(place, sun)
    && (forall j: nat :: j < |Parents(warps)| && j != i && Joined(sun, warps, j) ==>
      PlacesApart(place, PlaceNo(sun, warps, j)))
  }

  lemma PlaceEmbeds(sun: Sun, warps: map<CellPath, Sun>, i: nat)
    requires Valid(sun.nodes, sun.edges) && i < |Parents(warps)| && Joined(sun, warps, i)
    ensures PlaceOf(PlaceNo(sun, warps, i), NestedNo(warps, i))
    ensures Embedded(NestedNo(warps, i), PlaceNo(sun, warps, i), Merge(sun, warps))
  {
    hide Sound, Valid, Before, Joined, Attach, Extends, Embedded, PlaceOf, PlaceAt, Parents, Sinks;
    ValidIsUnique(sun.nodes, sun.edges);
    JoinedStep(sun, warps, i);
    PlaceFacts(sun, warps, i);
    BeforeSound(sun, warps, i);
    var p := Parents(warps)[i];
    var m, nested, sink := Before(sun, warps, i), NestedNo(warps, i), Sinks(warps[[p]])[0];
    AttachEmbeds(m, p, nested, sink);
    assert PlaceNo(sun, warps, i) == PlaceAt(m, p, nested, sink);
    BeforeExtends(sun, warps, i + 1, |Parents(warps)|);
    BeforeAll(sun, warps);
    EmbeddedStays(nested, PlaceNo(sun, warps, i), Before(sun, warps, i + 1), Merge(sun, warps));
  }

  /**
   * Every joined sun is in the merged graph with the same cells and edges, under ids and ports that neither the outer
   * sun nor any other joined sun uses, and is entered only through the edge from its boundary cell to its one sink.
   */
  lemma JoinedSunsEmbedded(sun: Sun, warps: map<CellPath, Sun>, i: nat)
    requires Valid(sun.nodes, sun.edges) && i < |Parents(warps)| && Joined(sun, warps, i)
    ensures EmbeddedAt(sun, warps, i)
  {
    hide Valid, Joined, Embedded, PlaceOf, PlaceNo, FreshFor, PlacesApart, Parents, Sinks;
    ValidIsUnique(sun.nodes, sun.edges);
    PlaceFacts(sun, warps, i);
    PlaceEmbeds(sun, warps, i);
    PlacesFresh(sun, warps, i);
    forall j: nat | j < |Parents(warps)| && j != i && Joined(sun, warps, j)
      ensures PlacesApart(PlaceNo(sun, warps, i), PlaceNo(sun, warps, j))
    {
      if i < j { PlacesDiffer(sun, warps, i, j); } else { PlacesDiffer(sun, warps, j, i); }
      ApartIsSymmetric(PlaceNo(sun, warps, i), PlaceNo(sun, warps, j));
    }
  }

  lemma ApartIsSymmetric(a: Place, b: Place)
    ensures PlacesApart(a, b) <==> PlacesApart(b, a)
  {
  }

  /**
   * The nested sun of a cell of the sun joins, and is embedded, exactly when it is finalized, reports nothing unknown
   * below it, is valid once its own nested suns are merged, and has one sink.
   */
  lemma NestedSunsEmbedded(sun: Sun, warps: map<CellPath, Sun>, p: nat)
    requires Valid(sun.nodes, sun.edges) && [p] in warps && p in Ids(sun.nodes)
    ensures
      && warps[[p]].finalized && NestedAt(warps, p).unknown == []
      && Valid(NestedAt(warps, p).cells, NestedAt(warps, p).edges) && |Sinks(warps[[p]])| == 1 <==>
      exists i: nat :: i < |Parents(warps)| && Parents(warps)[i] == p && Joined(sun, warps, i) && EmbeddedAt(sun, warps, i)
  {
    hide Valid, EmbeddedAt, Before, Merge, Sinks;
    ValidIsUnique(sun.nodes, sun.edges);
    SortedParents(warps);
    assert p in Parents(warps);
    var k :| 0 <= k < |Parents(warps)| && Parents(warps)[k] == p;
    OwnIdsStay(sun, warps, k, p);
    if warps[[p]].finalized && Joins(warps[[p]], NestedAt(warps, p)) {
      assert Joined(sun, warps, k);
      JoinedSunsEmbedded(sun, warps, k);
    }
  }

  lemma OwnIdsStay(sun: Sun, warps: map<CellPath, Sun>, k: nat, p: nat)
    requires UniqueCells(sun) && k <= |Parents(warps)| && p in Ids(sun.nodes)
    ensures p in Ids(Before(sun, warps, k).cells)
  {
    hide Before, UniqueCells, Parents;
    BeforeFacts(sun, warps, k);
    SortKeepsCells(sun.nodes);
  }
}
