/** Exact accounts of a merge: which ids exist, which warp suns are reported, how big the result is, when it cycles. */
module WarpMergeResults {
  import opened Basics
  import opened WarpMerge
  import opened WarpMergeProofs

  // ---------------------------------------------------------------------------
  // One nested sun
  // ---------------------------------------------------------------------------

  /** No id and no port of the sun occurs twice. Nothing is said of its edges. */
  predicate UniqueCells(sun: Sun) {
    UniqueIds(sun.nodes) && UniquePorts(sun.nodes)
  }

  /** The nested sun at `parent`, merged with its own nested suns. */
  ghost function NestedAt(warps: map<CellPath, Sun>, parent: nat): Merged
    requires [parent] in warps
  {
    Merge(warps[[parent]], Sub(warps, parent))
  }

  /** The nested sun at `parent` joins `m`. */
  ghost predicate Attaches(m: Merged, parent: nat, warps: map<CellPath, Sun>)
    requires [parent] in warps
  {
    warps[[parent]].finalized && parent in Ids(m.cells) && Joins(warps[[parent]], NestedAt(warps, parent))
  }

  lemma AttachOneJoins(m: Merged, parent: nat, warps: map<CellPath, Sun>)
    requires [parent] in warps && Attaches(m, parent, warps)
    ensures Sinks(warps[[parent]])[0] in Ids(NestedAt(warps, parent).cells)
    ensures AttachOne(m, parent, warps) == Attach(m, parent, NestedAt(warps, parent), Sinks(warps[[parent]])[0])
  {
    hide Attach, Valid, Ids;
    SubIsSmaller(warps, parent);
    assert Sinks(warps[[parent]])[0] in Sinks(warps[[parent]]);
  }

  lemma AttachOneSkips(m: Merged, parent: nat, warps: map<CellPath, Sun>)
    requires [parent] in warps && !Attaches(m, parent, warps)
    ensures AttachOne(m, parent, warps) == m.(unknown := m.unknown +
              if warps[[parent]].finalized && parent !in Ids(m.cells) then [parent] else [])
  {
    hide Attach, Valid, Ids;
    SubIsSmaller(warps, parent);
  }

  // ---------------------------------------------------------------------------
  // Ids
  // ---------------------------------------------------------------------------

  /** The ids of `r` are those of `m` and every fresh one handed out since. */
  ghost predicate FreshIdsAdded(m: Merged, r: Merged) {
    m.nextId <= r.nextId && forall id :: id in Ids(r.cells) <==> id in Ids(m.cells) || m.nextId <= id < r.nextId
  }

  lemma BlockIds(m: Merged, nested: Merged)
    requires Valid(nested.cells, nested.edges)
    ensures forall id :: id in Ids(Block(m, nested).0) <==> m.nextId <= id < m.nextId + |nested.cells|
  {
    BlockFresh(m, nested);
    LookupsHit(nested, m.nextId, m.nextPort);
    var ids, ports := IdMap(nested, m.nextId), PortMap(nested, m.nextPort);
    var list := IdList(nested.cells);
    NumberingAt(list, m.nextId);
    RenameCellsAt(nested.cells, ids, ports);
    forall x | m.nextId <= x < m.nextId + |nested.cells| ensures x in Ids(Block(m, nested).0) {
      var i := x - m.nextId;
      assert ids[list[i]] == x;
      assert Block(m, nested).0[i] in Block(m, nested).0;
    }
  }

  lemma AttachIds(m: Merged, parent: nat, nested: Merged, sink: nat)
    requires Named(m) && Valid(nested.cells, nested.edges)
    requires parent in Ids(m.cells) && sink in Ids(nested.cells)
    ensures FreshIdsAdded(m, Attach(m, parent, nested, sink))
  {
    hide Named, Valid, Block, Ids, Landing, Connector;
    BlockIds(m, nested);
    CellsOfSum(m.cells, Block(m, nested).0);
  }

  lemma AttachOneIds(m: Merged, parent: nat, warps: map<CellPath, Sun>)
    requires Named(m) && [parent] in warps
    ensures FreshIdsAdded(m, AttachOne(m, parent, warps))
  {
    hide Named, Valid, AttachOne, Attach;
    if Attaches(m, parent, warps) {
      AttachOneJoins(m, parent, warps);
      AttachIds(m, parent, NestedAt(warps, parent), Sinks(warps[[parent]])[0]);
    } else {
      AttachOneSkips(m, parent, warps);
    }
  }

  lemma {:induction false} AttachAllIds(m: Merged, parents: seq<nat>, warps: map<CellPath, Sun>)
    requires Named(m) && forall p :: p in parents ==> [p] in warps
    ensures FreshIdsAdded(m, AttachAll(m, parents, warps))
    decreases |parents|
  {
    hide Named, AttachOne, Ids;
    if parents != [] {
      AttachOneIds(m, parents[0], warps);
      AttachOneNamed(m, parents[0], warps);
      AttachAllIds(AttachOne(m, parents[0], warps), parents[1..], warps);
    }
  }

  // ---------------------------------------------------------------------------
  // Reports
  // ---------------------------------------------------------------------------

  /** The state in which the parent at position `k` is looked at. */
  ghost function Before(sun: Sun, warps: map<CellPath, Sun>, k: nat): Merged
    requires k <= |Parents(warps)|
  {
    SortedParents(warps);
    AttachAll(Initial(sun), Parents(warps)[..k], warps)
  }

  ghost function Parents(warps: map<CellPath, Sun>): seq<nat> {
    Sorted(TopLevel(warps))
  }

  lemma {:induction false} AttachAllSplit(m: Merged, a: seq<nat>, b: seq<nat>, warps: map<CellPath, Sun>)
    requires (forall p :: p in a ==> [p] in warps) && (forall p :: p in b ==> [p] in warps)
    ensures AttachAll(m, a + b, warps) == AttachAll(AttachAll(m, a, warps), b, warps)
    decreases |a|
  {
    hide AttachOne;
    if a == [] {
      assert a + b == b;
    } else {
      assert (a + b)[0] == a[0] && (a + b)[1..] == a[1..] + b;
      AttachAllSplit(AttachOne(m, a[0], warps), a[1..], b, warps);
    }
  }

  /** One step of a merge: the parent at position `k` is attached to the state before it. */
  lemma BeforeNext(sun: Sun, warps: map<CellPath, Sun>, k: nat)
    requires k < |Parents(warps)|
    ensures [Parents(warps)[k]] in warps
    ensures Before(sun, warps, k + 1) == AttachOne(Before(sun, warps, k), Parents(warps)[k], warps)
  {
    hide AttachOne;
    var parents := Parents(warps);
    SortedParents(warps);
    assert parents[k] in parents;
    assert parents[..k + 1] == parents[..k] + [parents[k]];
    AttachAllSplit(Initial(sun), parents[..k], [parents[k]], warps);
    var m := AttachAll(Initial(sun), parents[..k], warps);
    assert [parents[k]][1..] == [];
    assert AttachAll(m, [parents[k]], warps) == AttachAll(AttachOne(m, parents[k], warps), [], warps);
  }

  lemma BeforeAll(sun: Sun, warps: map<CellPath, Sun>)
    ensures Before(sun, warps, |Parents(warps)|) == Merge(sun, warps)
  {
    assert Parents(warps)[..|Parents(warps)|] == Parents(warps);
  }

  lemma BeforeFacts(sun: Sun, warps: map<CellPath, Sun>, k: nat)
    requires UniqueCells(sun) && k <= |Parents(warps)|
    ensures Named(Before(sun, warps, k)) && FreshIdsAdded(Initial(sun), Before(sun, warps, k))
  {
    hide Named, FreshIdsAdded;
    InitialNamed(sun);
    SortedParents(warps);
    AttachAllNamed(Initial(sun), Parents(warps)[..k], warps);
    AttachAllIds(Initial(sun), Parents(warps)[..k], warps);
  }

  /**
   * A warp sun is skipped with a report exactly when it is finalized and its key is neither a cell of the sun nor an
   * id handed out to an earlier nested cell. The second half is a quirk of the source: a key that names no cell of
   * the appearance goes unreported when a fresh id happens to equal it.
   */
  predicate Reported(sun: Sun, warps: map<CellPath, Sun>, parent: nat, nextId: nat)
    requires [parent] in warps
  {
    warps[[parent]].finalized && parent !in Ids(sun.nodes) && !(Initial(sun).nextId <= parent < nextId)
  }

  /** Some reported parent among the first `k`. */
  ghost predicate ReportedBefore(sun: Sun, warps: map<CellPath, Sun>, parent: nat, k: nat)
    requires k <= |Parents(warps)|
  {
    exists i :: 0 <= i < k && ReportedAt(sun, warps, parent, i)
  }

  ghost predicate ReportedAt(sun: Sun, warps: map<CellPath, Sun>, parent: nat, i: nat)
    requires i < |Parents(warps)|
  {
    && Parents(warps)[i] == parent && [parent] in warps
    && Reported(sun, warps, parent, Before(sun, warps, i).nextId)
  }

  lemma {:induction false} UnknownUpTo(sun: Sun, warps: map<CellPath, Sun>, k: nat)
    requires UniqueCells(sun) && k <= |Parents(warps)|
    ensures forall p :: p in Before(sun, warps, k).unknown <==> ReportedBefore(sun, warps, p, k)
  {
    hide Before, AttachOne, Named, Valid, Reported, Merge;
    if k == 0 {
      NothingBefore(sun, warps);
    } else {
      UnknownUpTo(sun, warps, k - 1);
      UnknownStep(sun, warps, k - 1);
      assert forall p :: (
        ReportedBefore(sun, warps, p, k) <==>
        ReportedBefore(sun, warps, p, k - 1) || ReportedAt(sun, warps, p, k - 1));
    }
  }

  lemma NothingBefore(sun: Sun, warps: map<CellPath, Sun>)
    ensures Before(sun, warps, 0).unknown == []
  {
  }

  lemma UnknownStep(sun: Sun, warps: map<CellPath, Sun>, k: nat)
    requires UniqueCells(sun) && k < |Parents(warps)|
    ensures forall p :: (
      p in Before(sun, warps, k + 1).unknown <==> p in Before(sun, warps, k).unknown || ReportedAt(sun, warps, p, k))
  {
    hide AttachOne, Named, Valid, Merge, Attach, Joins, NestedAt, Before;
    BeforeNext(sun, warps, k);
    BeforeFacts(sun, warps, k);
    SortKeepsCells(sun.nodes);
    var m, q := Before(sun, warps, k), Parents(warps)[k];
    if Attaches(m, q, warps) {
      AttachesFacts(m, q, warps);
      AttachOneJoins(m, q, warps);
      AttachKeepsReports(m, q, NestedAt(warps, q), Sinks(warps[[q]])[0]);
    } else {
      AttachOneSkips(m, q, warps);
    }
  }

  lemma AttachKeepsReports(m: Merged, parent: nat, nested: Merged, sink: nat)
    requires Valid(nested.cells, nested.edges) && sink in Ids(nested.cells)
    ensures Attach(m, parent, nested, sink).unknown == m.unknown
  {
  }

  /** Exactly the reported warp suns make a merge fail. */
  lemma UnknownExactly(sun: Sun, warps: map<CellPath, Sun>)
    requires UniqueCells(sun)
    ensures forall p :: p in Merge(sun, warps).unknown <==> ReportedBefore(sun, warps, p, |Parents(warps)|)
  {
    UnknownUpTo(sun, warps, |Parents(warps)|);
    BeforeAll(sun, warps);
  }

  // ---------------------------------------------------------------------------
  // Size
  // ---------------------------------------------------------------------------

  /** The cells that the parents from position `k` on bring in. */
  ghost function JoinedCells(sun: Sun, warps: map<CellPath, Sun>, k: nat): nat
    requires k <= |Parents(warps)|
  {
    if k == 0 then 0
    else
      BeforeNext(sun, warps, k - 1);
      var p := Parents(warps)[k - 1];
      JoinedCells(sun, warps, k - 1)
      + if Attaches(Before(sun, warps, k - 1), p, warps) then |NestedAt(warps, p).cells| else 0
  }

  lemma {:induction false} SizeUpTo(sun: Sun, warps: map<CellPath, Sun>, k: nat)
    requires UniqueCells(sun) && k <= |Parents(warps)|
    ensures |Before(sun, warps, k).cells| == |sun.nodes| + JoinedCells(sun, warps, k)
  {
    hide AttachOne, Attaches, Attach, NestedAt;
    if k > 0 {
      SizeUpTo(sun, warps, k - 1);
      BeforeNext(sun, warps, k - 1);
      var m, p := Before(sun, warps, k - 1), Parents(warps)[k - 1];
      if Attaches(m, p, warps) {
        AttachesFacts(m, p, warps);
        AttachOneJoins(m, p, warps);
        AttachNumbers(m, p, NestedAt(warps, p), Sinks(warps[[p]])[0]);
      } else {
        AttachOneSkips(m, p, warps);
      }
    }
  }

  lemma AttachesFacts(m: Merged, parent: nat, warps: map<CellPath, Sun>)
    requires [parent] in warps && Attaches(m, parent, warps)
    ensures Valid(NestedAt(warps, parent).cells, NestedAt(warps, parent).edges) && parent in Ids(m.cells)
    ensures |Sinks(warps[[parent]])| == 1
  {
  }
}
