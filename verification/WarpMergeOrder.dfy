/** In which order merged cells stand and are numbered: by id, whatever order the suns list them in. */
module WarpMergeOrder {
  import opened Basics
  import opened Sorting
  import opened WarpMerge
  import opened WarpMergeProofs
  import opened WarpMergeResults
  import opened WarpMergePlaces
  import opened WarpMergeDangling
  import opened WarpMergeFlows

  /** Ids never fall along the list, and always rise if `strict`. */
  predicate Rising(cells: seq<Cell>, strict: bool) {
    forall i, j :: 0 <= i < j < |cells| ==> cells[i].id <= cells[j].id && (strict ==> cells[i].id < cells[j].id)
  }

  predicate IdsBelow(m: Merged) {
    forall i :: 0 <= i < |m.cells| ==> m.cells[i].id < m.nextId
  }

  lemma InitialRises(sun: Sun, strict: bool)
    requires strict ==> UniqueIds(sun.nodes)
    ensures Rising(Initial(sun).cells, strict) && IdsBelow(Initial(sun))
  {
    var r, list := SortById(sun.nodes), IdList(sun.nodes);
    SortByIsSorted(sun.nodes, ById());
    forall i, j | 0 <= i < j < |r| ensures r[i].id <= r[j].id { assert !ById()(r[j], r[i]); }
    if strict {
      SortedPairwise(sun.nodes, ById(), OtherId());
      forall i, j | 0 <= i < j < |r| ensures r[i].id < r[j].id { assert OtherId()(r[i], r[j]); }
    }
    forall i | 0 <= i < |r| ensures r[i].id < Initial(sun).nextId {
      assert r[i] in r && r[i] in sun.nodes;
      var k :| 0 <= k < |sun.nodes| && sun.nodes[k] == r[i];
      assert list[k] == r[i].id && list[k] in list;
    }
  }

  lemma {:induction false} AddPortKeepsIds(cells: seq<Cell>, id: nat, port: nat)
    ensures forall i :: 0 <= i < |cells| ==> AddPort(cells, id, port)[i].id == cells[i].id
    decreases |cells|
  {
    if cells != [] {
      AddPortKeepsIds(cells[1..], id, port);
      forall i | 0 <= i < |cells| ensures AddPort(cells, id, port)[i].id == cells[i].id {
        if i > 0 { assert cells[i] == cells[1..][i - 1]; }
      }
    }
  }

  /** A renamed graph is numbered in the order of its cells. */
  lemma BlockNumbered(m: Merged, nested: Merged)
    requires Valid(nested.cells, nested.edges)
    ensures forall i :: 0 <= i < |nested.cells| ==> Block(m, nested).0[i].id == m.nextId + i
    ensures |Block(m, nested).0| == |nested.cells|
  {
    LookupsHit(nested, m.nextId, m.nextPort);
    RenameCellsAt(nested.cells, IdMap(nested, m.nextId), PortMap(nested, m.nextPort));
    NumberedCells(nested.cells, m.nextId);
  }

  lemma AttachRises(m: Merged, parent: nat, nested: Merged, sink: nat, strict: bool)
    requires Rising(m.cells, strict) && IdsBelow(m) && Valid(nested.cells, nested.edges) && sink in Ids(nested.cells)
    ensures Rising(Attach(m, parent, nested, sink).cells, strict) && IdsBelow(Attach(m, parent, nested, sink))
  {
    hide Valid, Block, Landing, Connector, Ids, Rising;
    BlockNumbered(m, nested);
    var block := Block(m, nested).0;
    AppendRises(m.cells, block, m.nextId, strict);
    AddPortKeepsIds(m.cells + block, Landing(m, nested, sink), Connector(m, nested));
    SameIdsRise(m.cells + block, Attach(m, parent, nested, sink).cells, m.nextId + |block|, strict);
  }

  lemma AppendRises(a: seq<Cell>, b: seq<Cell>, base: nat, strict: bool)
    requires Rising(a, strict) && forall i :: 0 <= i < |a| ==> a[i].id < base
    requires forall i :: 0 <= i < |b| ==> b[i].id == base + i
    ensures Rising(a + b, strict) && forall i :: 0 <= i < |a + b| ==> (a + b)[i].id < base + |b|
  {
  }

  lemma SameIdsRise(a: seq<Cell>, b: seq<Cell>, bound: nat, strict: bool)
    requires |a| == |b| && forall i :: 0 <= i < |a| ==> b[i].id == a[i].id
    requires Rising(a, strict) && forall i :: 0 <= i < |a| ==> a[i].id < bound
    ensures Rising(b, strict) && forall i :: 0 <= i < |b| ==> b[i].id < bound
  {
  }

  lemma AttachOneRises(m: Merged, parent: nat, warps: map<CellPath, Sun>, strict: bool)
    requires Rising(m.cells, strict) && IdsBelow(m) && [parent] in warps
    ensures Rising(AttachOne(m, parent, warps).cells, strict) && IdsBelow(AttachOne(m, parent, warps))
  {
    hide Attach, Valid, Rising;
    SubIsSmaller(warps, parent);
    if warps[[parent]].finalized && parent in Ids(m.cells) {
      var nested := Merge(warps[[parent]], Sub(warps, parent));
      if Joins(warps[[parent]], nested) {
        assert Sinks(warps[[parent]])[0] in Sinks(warps[[parent]]);
        AttachRises(m, parent, nested, Sinks(warps[[parent]])[0], strict);
      }
    }
  }

  lemma {:induction false} AttachAllRises(m: Merged, parents: seq<nat>, warps: map<CellPath, Sun>, strict: bool)
    requires Rising(m.cells, strict) && IdsBelow(m) && forall p :: p in parents ==> [p] in warps
    ensures Rising(AttachAll(m, parents, warps).cells, strict)
    decreases |parents|
  {
    hide Rising, IdsBelow, AttachOne;
    if parents != [] {
      AttachOneRises(m, parents[0], warps, strict);
      AttachAllRises(AttachOne(m, parents[0], warps), parents[1..], warps, strict);
    }
  }

  /**
   * Merged cells stand in the order of their ids, for every sun and every family merged into it; with unique ids they
   * rise strictly.
   */
  lemma MergedCellsAscend(sun: Sun, warps: map<CellPath, Sun>)
    ensures var cells := Merge(sun, warps).cells;
      && (forall i, j :: 0 <= i < j < |cells| ==> cells[i].id <= cells[j].id)
      && (UniqueIds(sun.nodes) ==> forall i, j :: 0 <= i < j < |cells| ==> cells[i].id < cells[j].id)
  {
    hide AttachAll, Initial;
    SortedParents(warps);
    var strict := UniqueIds(sun.nodes);
    InitialRises(sun, strict);
    AttachAllRises(Initial(sun), Sorted(TopLevel(warps)), warps, strict);
  }

  // ---------------------------------------------------------------------------
  // Fresh ids
  // ---------------------------------------------------------------------------

  /** How many of these ids are smaller. */
  function Rank(ids: set<nat>, id: nat): nat {
    |set x | x in ids && x < id|
  }

  /** In a strictly rising list the place of a cell is the rank of its id. */
  lemma {:induction false} PlaceIsRank(cells: seq<Cell>, k: nat)
    requires Rising(cells, true) && k < |cells|
    ensures Rank(Ids(cells), cells[k].id) == k
  {
    var below := set x | x in Ids(cells) && x < cells[k].id;
    forall x ensures x in below <==> exists j :: 0 <= j < k && cells[j].id == x {
      if x in below {
        var c :| c in cells && c.id == x;
        var j :| 0 <= j < |cells| && cells[j] == c;
        assert j < k;
      }
      if j :| 0 <= j < k && cells[j].id == x { assert cells[j] in cells; }
    }
    CountedIds(cells, k, below);
  }

  lemma {:induction false} CountedIds(cells: seq<Cell>, k: nat, ids: set<nat>)
    requires Rising(cells, true) && k <= |cells|
    requires forall x :: x in ids <==> exists j :: 0 <= j < k && cells[j].id == x
    ensures |ids| == k
  {
    if k == 0 {
      assert ids == {};
    } else {
      var last := cells[k - 1].id;
      assert last in ids;
      forall x ensures x in ids - {last} <==> exists j :: 0 <= j < k - 1 && cells[j].id == x {
        if j :| 0 <= j < k - 1 && cells[j].id == x { assert x in ids; }
      }
      CountedIds(cells, k - 1, ids - {last});
    }
  }

  /**
   * Which fresh id each cell of a joined sun gets: the next free one plus the number of cells with smaller ids. So the
   * fresh ids stand in the order of the ids that the nested sun gave.
   */
  lemma FreshIdsByRank(sun: Sun, warps: map<CellPath, Sun>, i: nat)
    requires UniqueCells(sun) && i < |Parents(warps)| && Joined(sun, warps, i)
    ensures var (ids, own) := (PlaceNo(sun, warps, i).ids, Ids(NestedNo(warps, i).cells));
      && ids.Keys == own
      && (forall x :: x in own ==> ids[x] == Initial(sun).nextId + JoinedCells(sun, warps, i) + Rank(own, x))
      && (forall x, y :: x in own && y in own ==> (x < y <==> ids[x] < ids[y]))
  {
    hide PlaceNo, Initial, JoinedCells, Rank, Merge, UniqueCells;
    HandedOut(sun, warps, i);
    NestedRises(sun, warps, i);
    var ids, cells := PlaceNo(sun, warps, i).ids, NestedNo(warps, i).cells;
    forall x | x in Ids(cells)
      ensures ids[x] == Initial(sun).nextId + JoinedCells(sun, warps, i) + Rank(Ids(cells), x)
    {
      var k := PositionOf(cells, x);
      PlaceIsRank(cells, k);
    }
    forall x, y | x in Ids(cells) && y in Ids(cells) ensures x < y <==> ids[x] < ids[y] {
      var j := PositionOf(cells, x);
      var k := PositionOf(cells, y);
      if j < k { assert cells[j].id < cells[k].id; }
      if k < j { assert cells[k].id < cells[j].id; }
    }
  }

  lemma PositionOf(cells: seq<Cell>, id: nat) returns (k: nat)
    requires id in Ids(cells)
    ensures k < |cells| && cells[k].id == id
  {
    var c :| c in cells && c.id == id;
    k :| 0 <= k < |cells| && cells[k] == c;
  }

  lemma NestedRises(sun: Sun, warps: map<CellPath, Sun>, i: nat)
    requires UniqueCells(sun) && i < |Parents(warps)| && Joined(sun, warps, i)
    ensures Rising(NestedNo(warps, i).cells, true)
  {
    hide Merge, UniqueIds, UniquePorts, Before, Attaches, Attach, Sinks, Valid, Named, Sub, Parents;
    JoinedStep(sun, warps, i);
    var p := Parents(warps)[i];
    MergedUnique(warps[[p]], Sub(warps, p));
    MergedCellsAscend(warps[[p]], Sub(warps, p));
  }

  lemma {:induction false} AboveIsNext(s: seq<nat>)
    ensures if s == [] then Above(s) == 1 else exists k :: 0 <= k < |s| && s[k] + 1 == Above(s)
    decreases |s|
  {
    if s != [] {
      var front, last := s[..|s| - 1], s[|s| - 1];
      AboveIsNext(front);
      if last >= Above(front) {
        assert s[|s| - 1] + 1 == Above(s);
      } else if front != [] {
        var k :| 0 <= k < |front| && front[k] + 1 == Above(front);
        assert s[k] + 1 == Above(s);
      } else {
        assert s[0] + 1 == Above(s);
      }
    }
  }

  /** The first free id of a sun is one more than its largest, and 1 without any. */
  lemma FirstFreeId(sun: Sun)
    ensures var free := Initial(sun).nextId;
      && (forall c :: c in sun.nodes ==> c.id < free)
      && (if sun.nodes == [] then free == 1 else exists c :: c in sun.nodes && c.id + 1 == free)
  {
    var list := IdList(sun.nodes);
    forall c | c in sun.nodes ensures c.id in list {
      var i :| 0 <= i < |sun.nodes| && sun.nodes[i] == c;
      assert list[i] == c.id;
    }
    AboveIsNext(list);
    if sun.nodes != [] {
      var k :| 0 <= k < |list| && list[k] + 1 == Above(list);
      assert sun.nodes[k] in sun.nodes;
    }
  }

  // ---------------------------------------------------------------------------
  // Sinks
  // ---------------------------------------------------------------------------

  /** A cell of the sun that no edge leaves. */
  predicate IsSink(sun: Sun, id: nat) {
    id in Ids(sun.nodes) && forall e :: e in sun.edges ==> e.source != id
  }

  lemma DistinctMore(s: seq<nat>, x: nat)
    requires Distinct(s) && x !in s
    ensures Distinct(s + [x])
  {
    assert forall i :: 0 <= i < |s| ==> (s + [x])[i] == s[i] && s[i] in s;
  }

  lemma {:induction false} SinksApart(nodes: seq<Cell>, edges: seq<Edge>)
    requires UniqueIds(nodes)
    ensures Distinct(SinksOf(nodes, edges))
    decreases |nodes|
  {
    if nodes != [] {
      var front, last := nodes[..|nodes| - 1], nodes[|nodes| - 1];
      assert forall i :: 0 <= i < |front| ==> front[i] == nodes[i];
      SinksApart(front, edges);
      forall c | c in front ensures c.id != last.id {
        var k :| 0 <= k < |front| && front[k] == c;
        assert nodes[k].id != nodes[|nodes| - 1].id;
      }
      DistinctMore(SinksOf(front, edges), last.id);
    }
  }

  predicate OnlySink(sun: Sun, s: nat) {
    IsSink(sun, s) && forall t :: t in Ids(sun.nodes) && IsSink(sun, t) ==> t == s
  }

  /** With unique ids a sun has one listed sink exactly when it has one cell that no edge leaves, and that is listed. */
  lemma OneSinkExactly(sun: Sun)
    requires UniqueIds(sun.nodes)
    ensures |Sinks(sun)| == 1 <==> exists s :: OnlySink(sun, s)
    ensures |Sinks(sun)| == 1 ==> OnlySink(sun, Sinks(sun)[0])
  {
    hide UniqueIds, Sinks, IsSink;
    var sinks := Sinks(sun);
    SinksApart(sun.nodes, sun.edges);
    ListedSinks(sun);
    if |sinks| == 1 {
      assert sinks == [sinks[0]];
      assert OnlySink(sun, sinks[0]);
    } else if s :| OnlySink(sun, s) {
      OnlyOne(sinks, s);
    }
  }

  lemma ListedSinks(sun: Sun)
    ensures Sinks(sun) == SinksOf(sun.nodes, sun.edges)
    ensures forall x :: x in Sinks(sun) <==> IsSink(sun, x)
    ensures forall x :: IsSink(sun, x) ==> x in Ids(sun.nodes)
  {
  }

  lemma OnlyOne(s: seq<nat>, x: nat)
    requires Distinct(s) && forall y :: y in s <==> y == x
    ensures |s| == 1
  {
    DistinctCount(s);
    assert Elems(s) == {x};
  }

  lemma {:induction false} DistinctCount(s: seq<nat>)
    requires Distinct(s)
    ensures |Elems(s)| == |s|
    decreases |s|
  {
    if s != [] {
      var front, last := s[..|s| - 1], s[|s| - 1];
      DistinctCount(front);
      assert last !in front;
      assert s == front + [last] && Elems(s) == Elems(front) + {last};
    }
  }
}
