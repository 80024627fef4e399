/** Fetching, then merging: what the worklist collects always fits the sun it was collected for. */
module WarpPipeline {
  import opened Basics
  import opened WarpMerge
  import opened WarpMergeProofs
  import opened WarpMergeCode
  import WarpFetch

  /** Every key names a cell of the appearance one level up, which is listed too. */
  predicate WellKeyedAt(sun: Sun, warps: map<CellPath, Sun>, path: CellPath) {
    && path != []
    && (|path| == 1 ==> path[0] in Ids(sun.nodes))
    && (|path| > 1 ==> path[..|path| - 1] in warps && path[|path| - 1] in Ids(warps[path[..|path| - 1]].nodes))
  }

  predicate WellKeyed(sun: Sun, warps: map<CellPath, Sun>) {
    forall path :: path in warps ==> WellKeyedAt(sun, warps, path)
  }

  lemma FetchedWellKeyed(sun: Sun, fetch: WarpFetch.Fetch, found: WarpFetch.Appearances, failed: WarpFetch.Diagnostics)
    requires WarpFetch.Exactly(sun, fetch, found, failed)
    ensures WellKeyed(sun, found)
  {
    forall path | path in found ensures WellKeyedAt(sun, found, path) {
      assert WarpFetch.Resolves(sun, path, fetch);
      var front, id := path[..|path| - 1], path[|path| - 1];
      assert WarpFetch.JourneyAt(sun, path, fetch).Some?;
      var last := WarpFetch.SunAt(sun, front, fetch).value;
      WarpFetch.FoundNode(last.nodes, id);
      var i :| 0 <= i < |last.nodes| && last.nodes[i].id == id;
      assert last.nodes[i] in last.nodes && id in Ids(last.nodes);
      if front != [] { assert WarpFetch.Resolves(sun, front, fetch); }
    }
  }

  lemma SubWellKeyed(sun: Sun, warps: map<CellPath, Sun>, parent: nat)
    requires WellKeyed(sun, warps) && [parent] in warps
    ensures WellKeyed(warps[[parent]], Sub(warps, parent))
  {
    var sub := Sub(warps, parent);
    forall path | path in sub ensures WellKeyedAt(warps[[parent]], sub, path) {
      var whole := [parent] + path;
      assert WellKeyedAt(sun, warps, whole);
      var front := whole[..|whole| - 1];
      if |path| == 1 {
        assert front == [parent] && whole[1] == path[0];
      } else {
        SubPathNotEmpty(warps, parent, path);
        var inner := path[..|path| - 1];
        assert front == [parent] + inner && whole[|whole| - 1] == path[|path| - 1];
        assert front[1..] == inner && front[0] == parent;
        assert inner in sub && sub[inner] == warps[front];
      }
    }
  }

  lemma SubPathNotEmpty(warps: map<CellPath, Sun>, parent: nat, path: CellPath)
    requires path in Sub(warps, parent)
    ensures path != []
  {
  }

  lemma {:induction false} AttachAllKnown(m: Merged, parents: seq<nat>, warps: map<CellPath, Sun>)
    requires forall p :: p in parents ==> [p] in warps && p in Ids(m.cells)
    ensures AttachAll(m, parents, warps).unknown == m.unknown
    decreases |parents|
  {
    hide Ids, AttachOne;
    if parents != [] {
      AttachOneKnown(m, parents[0], warps);
      AttachAllKnown(AttachOne(m, parents[0], warps), parents[1..], warps);
    }
  }

  lemma AttachOneKnown(m: Merged, parent: nat, warps: map<CellPath, Sun>)
    requires [parent] in warps && parent in Ids(m.cells)
    ensures AttachOne(m, parent, warps).unknown == m.unknown
  {
    hide Ids, Valid;
    SubIsSmaller(warps, parent);
  }

  lemma MergeReportsNothing(sun: Sun, warps: map<CellPath, Sun>)
    requires WellKeyed(sun, warps)
    ensures Merge(sun, warps).unknown == []
  {
    SortedParents(warps);
    SortKeepsCells(sun.nodes);
    var parents := Sorted(TopLevel(warps));
    forall p | p in parents ensures [p] in warps && p in Ids(Initial(sun).cells) {
      assert WellKeyedAt(sun, warps, [p]);
    }
    AttachAllKnown(Initial(sun), parents, warps);
  }

  /** So a well-keyed nested sun joins exactly when it is valid once merged and has one sink. */
  lemma NestedReportsNothing(sun: Sun, warps: map<CellPath, Sun>, parent: nat)
    requires WellKeyed(sun, warps) && [parent] in warps
    ensures var nested := Merge(warps[[parent]], Sub(warps, parent));
            && nested.unknown == [] && WellKeyed(warps[[parent]], Sub(warps, parent))
            && (Joins(warps[[parent]], nested) <==> Valid(nested.cells, nested.edges) && |Sinks(warps[[parent]])| == 1)
  {
    hide Valid, Merge, WellKeyed;
    SubWellKeyed(sun, warps, parent);
    MergeReportsNothing(warps[[parent]], Sub(warps, parent));
  }

  lemma TopKeysReportNothing(sun: Sun, warps: map<CellPath, Sun>)
    requires WarpFetch.TopKeysKnown(sun, warps)
    ensures Merge(sun, warps).unknown == []
    ensures sun.nodes == [] <==> Merge(sun, warps).cells == []
  {
    SortedParents(warps);
    SortKeepsCells(sun.nodes);
    var parents := Sorted(TopLevel(warps));
    forall p | p in parents ensures [p] in warps && p in Ids(Initial(sun).cells) {
      var key: CellPath := [p];
      assert key in warps && |key| == 1;
      assert key[0] in Ids(sun.nodes);
    }
    AttachAllKnown(Initial(sun), parents, warps);
    if sun.nodes == [] {
      FirstIsIn(parents);
    } else {
      assert sun.nodes[0].id in Ids(sun.nodes);
    }
  }

  /**
   * Fetching and merging a valid sun yields a graph exactly when the sun is finalized and has cells, whatever the
   * journeys answer; the graph keeps the sun's cells, and is acyclic when the sun and every answer are.
   */
  method FetchAndBuild(sun: Sun, fetch: WarpFetch.Fetch) returns (r: Result<Graph, Failure>)
    requires Valid(sun.nodes, sun.edges)
    ensures r.Ok? <==> sun.finalized && sun.nodes != []
    ensures r.Ok? ==> UniqueIds(r.value.cells) && UniquePorts(r.value.cells)
    ensures r.Ok? ==> forall p :: p in r.value.edges ==> p.0 in Ids(r.value.cells) && p.1 in Ids(r.value.cells) && p.0 != p.1
    ensures r.Ok? ==> forall c :: c in sun.nodes ==> c in r.value.cells
    ensures r.Ok? && Acyclic(sun.edges) && AnswersOk(fetch) ==> AcyclicPairs(r.value.edges)
  {
    hide Merge, AttachOne, Acyclic;
    var found, failed := WarpFetch.FetchWarpAppearances(sun, fetch);
    r := FromAppearance(sun, found);
    TopKeysReportNothing(sun, found);
    MergeValidates(sun, found);
    OuterUntouched(sun, found);
    if r.Ok? && Acyclic(sun.edges) && AnswersOk(fetch) {
      AnswersMakeWarpsOk(fetch, found);
      MergeIsAcyclic(sun, found);
      PairsAcyclic(Merge(sun, found).edges);
    }
  }

  /** Every answer is a valid, acyclic sun. */
  ghost predicate AnswersOk(fetch: WarpFetch.Fetch) {
    forall j :: fetch(j).Ok? ==> Valid(fetch(j).value.nodes, fetch(j).value.edges) && Acyclic(fetch(j).value.edges)
  }

  lemma AnswersMakeWarpsOk(fetch: WarpFetch.Fetch, found: WarpFetch.Appearances)
    requires WarpFetch.Answered(fetch, found) && AnswersOk(fetch)
    ensures WarpsOk(found)
  {
    hide Valid, Acyclic;
    forall path | path in found
      ensures Valid(found[path].nodes, found[path].edges) && Acyclic(found[path].edges)
    {
      var journey :| fetch(journey) == Ok(found[path]);
    }
  }

  /** No walk along the pairs of the graph comes back to where it started. */
  ghost predicate AcyclicPairs(pairs: set<(nat, nat)>) {
    forall path: seq<nat> :: |path| >= 2 && PairWalk(pairs, path) ==> path[0] != path[|path| - 1]
  }

  predicate PairWalk(pairs: set<(nat, nat)>, path: seq<nat>) {
    forall i :: 0 <= i < |path| - 1 ==> (path[i], path[i + 1]) in pairs
  }

  lemma PairsAcyclic(edges: seq<Edge>)
    requires Acyclic(edges)
    ensures AcyclicPairs(set e | e in edges :: Pair(e))
  {
    var pairs := set e | e in edges :: Pair(e);
    forall path: seq<nat> | |path| >= 2 && PairWalk(pairs, path) ensures path[0] != path[|path| - 1] {
      forall i | 0 <= i < |path| - 1 ensures HasEdge(edges, path[i], path[i + 1]) {
        assert (path[i], path[i + 1]) in pairs;
        var e :| e in edges && Pair(e) == (path[i], path[i + 1]);
      }
      assert Walk(edges, path);
      assert !Closed(edges, path);
    }
  }

  lemma FirstIsIn(s: seq<nat>)
    ensures s == [] || exists p :: p in s
  {
    if s != [] { assert s[0] in s; }
  }
}
